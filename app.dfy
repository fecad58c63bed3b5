/**
 * The dashboard's own computation: the product-level comparison of the
 * current snapshot against a saved one (left merge on ProductCode, the
 * QuantityChange column, the projection and renaming), the rollups it draws
 * for the current snapshot, and the bounds of its ranking-size sliders.
 */
module App {
  import opened Tables
  import opened Frames
  import opened Graphing
  import opened HelperFunctions

  // ---------------------------------------------------------------- columns

  /** The columns kept after the merge, in order. */
  const PROJECTION: seq<string> :=
    ["ProductCode", "Quantity_x", "Quantity_y", "QuantityChange", "Name_x", "Category_x", "AverageCost_x",
     "PriceTier1_x", "PriceTier2_x", "PriceTier3_x", "PriceTier4_x", "PriceTier5_x"]

  /** The renaming applied to the kept columns; a column not listed keeps its name. */
  const RENAMING: map<string, string> :=
    map["Quantity_x" := "CurrentQuantity", "Quantity_y" := "PreviousQuantity", "Name_x" := "Name",
        "Category_x" := "Category", "AverageCost_x" := "AverageCost",
        "PriceTier1_x" := "PriceTier1", "PriceTier2_x" := "PriceTier2", "PriceTier3_x" := "PriceTier3",
        "PriceTier4_x" := "PriceTier4", "PriceTier5_x" := "PriceTier5"]

  /** The columns of a comparison row, in the order of the fields of `DiffRow`. */
  const DIFF_COLUMNS: seq<string> :=
    ["ProductCode", "CurrentQuantity", "PreviousQuantity", "QuantityChange", "Name", "Category", "AverageCost",
     "PriceTier1", "PriceTier2", "PriceTier3", "PriceTier4", "PriceTier5"]

  function Renamed(c: string): string {
    if c in RENAMING then RENAMING[c] else c
  }

  /** The comparison's columns: twelve distinct names, in the order of `DiffRow`'s fields. */
  function DiffColumns(): (cols: seq<string>)
    ensures cols == DIFF_COLUMNS
    ensures |cols| == 12 && NoDuplicates(cols)
  {
    seq(|PROJECTION|, i requires 0 <= i < |PROJECTION| => Renamed(PROJECTION[i]))
  }

  // ---------------------------------------------------------------- the comparison

  /**
   * One comparison row: the current row's code and columns, the earlier
   * quantity, and their difference; `None` is a missing cell.
   */
  datatype DiffRow = DiffRow(
    productCode: Option<string>,
    currentQuantity: Option<int>,
    previousQuantity: Option<int>,
    quantityChange: Option<int>,
    name: Option<string>,
    category: Option<string>,
    averageCost: Option<Cents>,
    priceTier1: Option<Cents>,
    priceTier2: Option<Cents>,
    priceTier3: Option<Cents>,
    priceTier4: Option<Cents>,
    priceTier5: Option<Cents>)

  /** Column subtraction: missing when either operand is. */
  function Sub(a: Option<int>, b: Option<int>): Option<int> {
    if a.Some? && b.Some? then Some(a.value - b.value) else None
  }

  /** A merged (current, earlier) pair projected and renamed, with QuantityChange added. */
  function DiffOf(t: (Row, Option<Row>)): DiffRow {
    var cur := t.0;
    var prev := if t.1.Some? then t.1.value.quantity else None;
    DiffRow(cur.productCode, cur.quantity, prev, Sub(cur.quantity, prev), cur.name, cur.category,
            cur.averageCost, cur.priceTier1, cur.priceTier2, cur.priceTier3, cur.priceTier4, cur.priceTier5)
  }

  /** A comparison row carries the current row's code and `_x` columns unchanged. */
  predicate CarriesCurrent(x: DiffRow, r: Row) {
    && x.productCode == r.productCode && x.currentQuantity == r.quantity
    && x.name == r.name && x.category == r.category && x.averageCost == r.averageCost
    && x.priceTier1 == r.priceTier1 && x.priceTier2 == r.priceTier2 && x.priceTier3 == r.priceTier3
    && x.priceTier4 == r.priceTier4 && x.priceTier5 == r.priceTier5
  }

  /**
   * `pd.merge(current, previous, on="ProductCode", how="left")` with
   * QuantityChange, projected and renamed: at least one row per current row,
   * each carrying a current row's columns; the earlier quantity comes from an
   * earlier row with the same code, and a code the earlier snapshot lacks
   * leaves PreviousQuantity and QuantityChange missing, not 0.
   */
  function SnapshotDiff(current: seq<Row>, previous: seq<Row>): (d: seq<DiffRow>)
    ensures |d| >= |current|
    ensures forall x :: x in d ==> exists i :: 0 <= i < |current| && CarriesCurrent(x, current[i])
    ensures forall x :: x in d ==> x.quantityChange == Sub(x.currentQuantity, x.previousQuantity)
    ensures forall x :: x in d && x.previousQuantity.Some? ==>
      exists r :: r in previous && r.productCode == x.productCode && r.quantity == x.previousQuantity
    ensures forall x :: x in d && (forall r :: r in previous ==> r.productCode != x.productCode) ==>
      x.previousQuantity.None? && x.quantityChange.None?
  {
    var j := LeftJoin(current, previous, CodeOf, CodeOf);
    var d := seq(|j|, i requires 0 <= i < |j| => DiffOf(j[i]));
    forall x | x in d
      ensures exists i :: 0 <= i < |current| && CarriesCurrent(x, current[i])
      ensures x.previousQuantity.Some? ==>
        exists r :: r in previous && r.productCode == x.productCode && r.quantity == x.previousQuantity
    {
      var k :| 0 <= k < |d| && d[k] == x;
      assert j[k] in j;
    }
    d
  }

  /** The quantity of the earlier row carrying `code`; missing when none does or its quantity is. */
  function PreviousQuantityOf(previous: seq<Row>, code: Option<string>): Option<int> {
    var o := Lookup(previous, CodeOf, code);
    if o.Some? then o.value.quantity else None
  }

  /**
   * With unique earlier codes (a saved snapshot has them) the comparison has
   * exactly one row per current row, in current order, with the earlier
   * quantity of the same code and QuantityChange = current - earlier.
   */
  lemma SnapshotDiffUnique(current: seq<Row>, previous: seq<Row>)
    requires UniqueKeys(previous, CodeOf)
    ensures |SnapshotDiff(current, previous)| == |current|
    ensures forall i :: 0 <= i < |current| ==>
      var x := SnapshotDiff(current, previous)[i];
      && CarriesCurrent(x, current[i])
      && x.previousQuantity == PreviousQuantityOf(previous, current[i].productCode)
      && (x.quantityChange.Some? <==> current[i].quantity.Some? && x.previousQuantity.Some?)
      && (x.quantityChange.Some? ==> x.quantityChange.value == current[i].quantity.value - x.previousQuantity.value)
  {
    LeftJoinUnique(current, previous, CodeOf, CodeOf);
  }

  /**
   * The two comparisons disagree exactly on absent counterparts: where this
   * one leaves the earlier quantity missing the SKU comparison reads 0, and
   * where this one has a QuantityChange the SKU comparison has the same difference.
   */
  lemma DiffVersusSkuDifference(current: seq<Row>, previous: seq<Row>)
    requires UniqueKeys(previous, CodeOf)
    ensures |SnapshotDiff(current, previous)| == |SkuDifference(current, previous)| == |current|
    ensures forall i :: 0 <= i < |current| ==>
      var x := SnapshotDiff(current, previous)[i];
      var y := SkuDifference(current, previous)[i];
      && (x.previousQuantity.None? ==> x.quantityChange.None? && y.previousQuantity == 0)
      && (x.quantityChange.Some? ==> x.quantityChange.value == y.difference)
  {
    SnapshotDiffUnique(current, previous);
    SkuDifferenceUnique(current, previous);
  }

  /** The categories a comparison holds, as `merged_df['Category']`. */
  function CategoryColumn(d: seq<DiffRow>): seq<Option<string>> {
    seq(|d|, i requires 0 <= i < |d| => d[i].category)
  }

  /** `len(merged_df['Category'].unique())`: a missing category counts as one value. */
  function CategoryCount(d: seq<DiffRow>): (n: nat)
    ensures n <= |d|
    ensures n == 0 <==> d == []
  {
    var col := CategoryColumn(d);
    assert d != [] ==> col[0] in Distinct(col);
    |Distinct(col)|
  }

  /** The category values of a table, a missing one included. */
  function CategoryValues(rows: seq<Row>): set<Option<string>> {
    set r | r in rows :: r.category
  }

  /** The comparison has exactly the current snapshot's categories; earlier-only ones are gone. */
  lemma DiffCategoryCount(current: seq<Row>, previous: seq<Row>)
    ensures (set c | c in CategoryColumn(SnapshotDiff(current, previous))) == CategoryValues(current)
    ensures CategoryCount(SnapshotDiff(current, previous)) == |CategoryValues(current)|
  {
    var col := CategoryColumn(SnapshotDiff(current, previous));
    DiffCategoriesFromCurrent(current, previous);
    DiffCategoriesCoverCurrent(current, previous);
    forall r | r in current ensures r.category in col {
      var i :| 0 <= i < |current| && current[i] == r;
    }
    assert (set c | c in col) == CategoryValues(current);
    DistinctCount(col);
  }

  lemma DiffCategoriesFromCurrent(current: seq<Row>, previous: seq<Row>)
    ensures forall c :: c in CategoryColumn(SnapshotDiff(current, previous)) ==> c in CategoryValues(current)
  {
    var d := SnapshotDiff(current, previous);
    var col := CategoryColumn(d);
    forall c | c in col ensures c in CategoryValues(current) {
      var k :| 0 <= k < |col| && col[k] == c;
      assert d[k] in d;
      var i :| 0 <= i < |current| && CarriesCurrent(d[k], current[i]);
      assert current[i] in current;
    }
  }

  lemma DiffCategoriesCoverCurrent(current: seq<Row>, previous: seq<Row>)
    ensures forall i :: 0 <= i < |current| ==> current[i].category in CategoryColumn(SnapshotDiff(current, previous))
  {
    var d := SnapshotDiff(current, previous);
    var col := CategoryColumn(d);
    var j := LeftJoin(current, previous, CodeOf, CodeOf);
    LeftJoinCovers(current, previous, CodeOf, CodeOf);
    forall i | 0 <= i < |current| ensures current[i].category in col {
      var k :| 0 <= k < |j| && j[k].0 == current[i];
      assert col[k] == current[i].category;
    }
  }

  // ---------------------------------------------------------------- sliders

  /** A slider's range and default; a user's choice lies in the range. */
  datatype Slider = Slider(minValue: int, maxValue: int, value: int)

  /** The slider is well formed: its default lies in its range. */
  predicate Accepts(s: Slider) {
    s.minValue <= s.value <= s.maxValue
  }

  predicate Chooses(s: Slider, n: int) {
    s.minValue <= n <= s.maxValue
  }

  /** The default a ranking slider offers. */
  const RANKING_DEFAULT: int := 10

  /** The most product codes a product ranking shows. */
  const PRODUCT_RANKING_MAX: int := 30

  /** The ranking size for the product-change view. */
  const PRODUCT_CODES_SLIDER: Slider := Slider(1, PRODUCT_RANKING_MAX, RANKING_DEFAULT)

  /** The ranking size for the gross-profit view. */
  const GROSS_PROFIT_SLIDER: Slider := Slider(1, PRODUCT_RANKING_MAX, RANKING_DEFAULT)

  /** Both product sliders are well formed, and any ranking size chosen with them lies in [1, 30]. */
  lemma ProductRankingBounds(n: int)
    requires Chooses(PRODUCT_CODES_SLIDER, n) || Chooses(GROSS_PROFIT_SLIDER, n)
    ensures Accepts(PRODUCT_CODES_SLIDER) && Accepts(GROSS_PROFIT_SLIDER)
    ensures 1 <= n <= 30
  {
  }

  /** The category-ranking slider as written: range [1, distinct categories], default 10. */
  function LeastSoldSliderAsWritten(d: seq<DiffRow>): (s: Slider)
    ensures Accepts(s) <==> CategoryCount(d) >= RANKING_DEFAULT
  {
    Slider(1, CategoryCount(d), RANKING_DEFAULT)
  }

  /** With fewer than ten categories in the current snapshot, the default of the slider as written lies outside its range. */
  lemma LeastSoldSliderAsWrittenRejects(current: seq<Row>, previous: seq<Row>)
    requires |CategoryValues(current)| < RANKING_DEFAULT
    ensures !Accepts(LeastSoldSliderAsWritten(SnapshotDiff(current, previous)))
  {
    DiffCategoryCount(current, previous);
  }

  /** A one-row snapshot shows it: one category, so a range of [1, 1] and a default of 10. */
  lemma OneRowSnapshotRejected(r: Row, previous: seq<Row>)
    ensures CategoryCount(SnapshotDiff([r], previous)) == 1
    ensures !Accepts(LeastSoldSliderAsWritten(SnapshotDiff([r], previous)))
  {
    assert CategoryValues([r]) == {r.category};
    DiffCategoryCount([r], previous);
  }

  /** The category-ranking slider with its default clamped to the number of categories. */
  function LeastSoldSlider(d: seq<DiffRow>): (s: Slider)
    ensures s.minValue == 1 && s.maxValue == CategoryCount(d)
    ensures CategoryCount(d) >= 1 ==> Accepts(s)
    ensures CategoryCount(d) >= RANKING_DEFAULT ==> s.value == RANKING_DEFAULT
  {
    Slider(1, CategoryCount(d), Min(RANKING_DEFAULT, CategoryCount(d)))
  }

  /**
   * For a non-empty current snapshot the corrected slider accepts its default, and
   * any ranking size chosen with it lies in [1, number of current categories].
   */
  lemma LeastSoldRankingBounds(current: seq<Row>, previous: seq<Row>, n: int)
    requires current != []
    ensures Accepts(LeastSoldSlider(SnapshotDiff(current, previous)))
    ensures Chooses(LeastSoldSlider(SnapshotDiff(current, previous)), n) ==> 1 <= n <= |CategoryValues(current)|
  {
    DiffCategoryCount(current, previous);
    assert current[0].category in CategoryValues(current);
  }

  // ---------------------------------------------------------------- drawing the current snapshot

  /**
   * The four rollups drawn for the current snapshot, in order. The frame
   * afterwards holds both added columns, so the gross-margin view's
   * precondition holds on it.
   */
  method PlotCurrentData(df: Frame) returns (items: seq<(string, int)>, quantity: seq<(string, int)>,
                                             total: seq<(string, int)>, unrealised: seq<(string, int)>)
    requires df.Valid()
    modifies df
    ensures df.Valid() && df.rows == old(df.rows)
    ensures df.totalValue == Some(TotalValueColumn(df.rows))
    ensures df.unrealisedValue == Some(UnrealisedValueColumn(df.rows))
    ensures items == ItemsPerCategory(df.rows) && quantity == QuantityPerCategory(df.rows)
    ensures total == TotalValuePerCategory(df.rows) && unrealised == UnrealisedValuePerCategory(df.rows)
  {
    items := ItemsPerCategory(df.rows);
    quantity := QuantityPerCategory(df.rows);
    total := PlotTotalValuePerCategory(df);
    unrealised := PlotUnrealisedValuePerCategory(df);
  }
}
