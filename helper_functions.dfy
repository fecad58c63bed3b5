/**
 * The comparisons between the current snapshot and an earlier one: the
 * per-SKU quantity change with its top-10 increase and top-10 stagnation
 * views, and the per-category change of quantity and of total value. Each
 * comparison left-merges the current side with the earlier one and fills
 * what the earlier side lacks with 0.
 */
module HelperFunctions {
  import opened Tables
  import opened Frames

  /** How many SKUs a ranking shows. */
  const TOP_N: nat := 10

  // ---------------------------------------------------------------- per-SKU change

  /** One row of the SKU comparison after `fillna(0)`: code, both quantities and their difference. */
  datatype SkuDiff = SkuDiff(productCode: Option<string>, currentQuantity: int, previousQuantity: int, difference: int)

  function Difference(x: SkuDiff): int { x.difference }

  /** A merged (current, earlier) pair with missing quantities and a missing earlier row read as 0. */
  function SkuRow(t: (Row, Option<Row>)): SkuDiff {
    var cur := FillZero(t.0.quantity);
    var prev := if t.1.Some? then FillZero(t.1.value.quantity) else 0;
    SkuDiff(t.0.productCode, cur, prev, cur - prev)
  }

  /**
   * `current[['ProductCode','Quantity']].merge(previous[...], how='left').fillna(0)`
   * with `Quantity_difference`: at least one row per current row, each
   * anchored on a current row's code and quantity, its earlier quantity taken
   * from an earlier row with the same code or 0 when there is none.
   */
  function SkuDifference(current: seq<Row>, previous: seq<Row>): (d: seq<SkuDiff>)
    ensures |d| >= |current|
    ensures forall x :: x in d ==> x.difference == x.currentQuantity - x.previousQuantity
    ensures forall x :: x in d ==>
      exists i :: 0 <= i < |current| && x.productCode == current[i].productCode && x.currentQuantity == FillZero(current[i].quantity)
    ensures forall x :: x in d ==>
      || (x.previousQuantity == 0 && forall r :: r in previous ==> r.productCode != x.productCode)
      || (exists r :: r in previous && r.productCode == x.productCode && x.previousQuantity == FillZero(r.quantity))
  {
    var j := LeftJoin(current, previous, CodeOf, CodeOf);
    var d := seq(|j|, i requires 0 <= i < |j| => SkuRow(j[i]));
    forall x | x in d
      ensures exists i :: 0 <= i < |current| && x.productCode == current[i].productCode && x.currentQuantity == FillZero(current[i].quantity)
      ensures || (x.previousQuantity == 0 && forall r :: r in previous ==> r.productCode != x.productCode)
              || (exists r :: r in previous && r.productCode == x.productCode && x.previousQuantity == FillZero(r.quantity))
    {
      var k :| 0 <= k < |d| && d[k] == x;
      assert j[k] in j;
    }
    d
  }

  /** The earlier quantity of a code: that of the earlier row carrying it, 0 when none does. */
  function PreviousQuantity(previous: seq<Row>, code: Option<string>): int {
    var o := Lookup(previous, CodeOf, code);
    if o.Some? then FillZero(o.value.quantity) else 0
  }

  /** With unique earlier codes the comparison has exactly one row per current row, in current order. */
  lemma SkuDifferenceUnique(current: seq<Row>, previous: seq<Row>)
    requires UniqueKeys(previous, CodeOf)
    ensures |SkuDifference(current, previous)| == |current|
    ensures forall i :: 0 <= i < |current| ==>
      var x := SkuDifference(current, previous)[i];
      && x.productCode == current[i].productCode
      && x.currentQuantity == FillZero(current[i].quantity)
      && x.previousQuantity == PreviousQuantity(previous, current[i].productCode)
      && x.difference == FillZero(current[i].quantity) - PreviousQuantity(previous, current[i].productCode)
  {
    LeftJoinUnique(current, previous, CodeOf, CodeOf);
  }

  /**
   * `nlargest(10, 'Quantity_difference').sort_values(...)`: the ten largest
   * differences (all of them when fewer), shown ascending; no unselected row
   * has a larger difference than a selected one.
   */
  function Top10Increase(d: seq<SkuDiff>): (r: seq<SkuDiff>)
    ensures |r| == Min(TOP_N, |d|)
    ensures SortedBy(r, Difference)
    ensures multiset(r) <= multiset(d)
    ensures forall x, y :: x in r && y in multiset(d) - multiset(r) ==> x.difference >= y.difference
  {
    var top := Largest(d, TOP_N, Difference);
    var r := SortBy(top, Difference);
    assert forall x :: x in r ==> x in top by {
      forall x | x in r ensures x in top { assert x in multiset(r); }
    }
    r
  }

  predicate NonNegative(x: SkuDiff) { x.difference >= 0 }

  /** What the smallest ten of the non-negative rows keep of the full comparison. */
  lemma StagnatedSelection(d: seq<SkuDiff>)
    ensures var r := Smallest(Filter(d, NonNegative), TOP_N, Difference);
      && (|r| < TOP_N ==> forall x: SkuDiff :: x.difference >= 0 ==> multiset(r)[x] == multiset(d)[x])
      && forall x, y: SkuDiff :: x in r && y.difference >= 0 && y in multiset(d) - multiset(r) ==> x.difference <= y.difference
  {
    var f := Filter(d, NonNegative);
    var r := Smallest(f, TOP_N, Difference);
    forall y: SkuDiff | y.difference >= 0 ensures multiset(f)[y] == multiset(d)[y] {
      FilterKeepsMultiplicity(d, NonNegative, y);
    }
    forall x, y: SkuDiff | x in r && y.difference >= 0 && y in multiset(d) - multiset(r)
      ensures x.difference <= y.difference
    {
      assert y in multiset(f) - multiset(r);
    }
  }

  /**
   * `d[d['Quantity_difference'] >= 0].nsmallest(10, ...)`: at most ten rows,
   * none negative, ascending; when fewer than ten come back, every
   * non-negative row is among them, and no unselected non-negative row has a
   * smaller difference than a selected one.
   */
  function Top10Stagnated(d: seq<SkuDiff>): (r: seq<SkuDiff>)
    ensures |r| <= TOP_N
    ensures forall x :: x in r ==> x.difference >= 0
    ensures SortedBy(r, Difference)
    ensures multiset(r) <= multiset(d)
    ensures |r| < TOP_N ==> forall x: SkuDiff :: x.difference >= 0 ==> multiset(r)[x] == multiset(d)[x]
    ensures forall x, y: SkuDiff :: x in r && y.difference >= 0 && y in multiset(d) - multiset(r) ==> x.difference <= y.difference
  {
    var f := Filter(d, NonNegative);
    StagnatedSelection(d);
    var r := Smallest(f, TOP_N, Difference);
    assert forall x :: x in r ==> x in f by {
      forall x | x in r ensures x in f { assert x in multiset(r); }
    }
    r
  }

  // ---------------------------------------------------------------- per-category change

  /** One row of a category comparison: category, both sums and their difference. */
  datatype CategoryChange = CategoryChange(category: string, current: int, previous: int, change: int)

  function ChangeCategories(r: seq<CategoryChange>): seq<string> {
    seq(|r|, i requires 0 <= i < |r| => r[i].category)
  }

  /** A merged category row with a category absent earlier read as 0. */
  function ChangeRow(t: ((string, int), Option<(string, int)>)): CategoryChange {
    var prev := if t.1.Some? then t.1.value.1 else 0;
    CategoryChange(t.0.0, t.0.1, prev, t.0.1 - prev)
  }

  /**
   * Two `groupby('Category').sum()` results left-merged on Category with
   * `fillna(0)`: one row per category of the current side, holding both
   * sums (the earlier one 0 for a category absent earlier) and their difference.
   */
  function CategoryDifference(cur: seq<(string, int)>, prev: seq<(string, int)>): (r: seq<CategoryChange>)
    ensures NoDuplicates(ChangeCategories(r))
    ensures forall c :: c in ChangeCategories(r) <==> c in Keys(cur)
    ensures forall i :: 0 <= i < |r| ==>
      && r[i].current == SumFor(cur, r[i].category)
      && r[i].previous == SumFor(prev, r[i].category)
      && r[i].change == r[i].current - r[i].previous
  {
    var gc := GroupSum(cur);
    var gp := GroupSum(prev);
    var j := LeftJoin(gc, gp, First, First);
    JoinedGroupSums(cur, prev);
    var r := seq(|j|, i requires 0 <= i < |j| => ChangeRow(j[i]));
    assert ChangeCategories(r) == Keys(gc);
    r
  }

  lemma JoinedGroupSums(cur: seq<(string, int)>, prev: seq<(string, int)>)
    ensures var gc := GroupSum(cur);
      var j := LeftJoin(gc, GroupSum(prev), First, First);
      && |j| == |gc|
      && forall i :: 0 <= i < |j| ==>
        j[i].0 == gc[i] && (if j[i].1.Some? then j[i].1.value.1 else 0) == SumFor(prev, gc[i].0)
  {
    var gc := GroupSum(cur);
    var gp := GroupSum(prev);
    LeftJoinUnique(gc, gp, First, First);
    forall i | 0 <= i < |gc|
      ensures var o := Lookup(gp, First, gc[i].0); (if o.Some? then o.value.1 else 0) == SumFor(prev, gc[i].0)
    {
      var o := Lookup(gp, First, gc[i].0);
      if o.Some? {
        var m :| 0 <= m < |gp| && gp[m] == o.value;
      } else {
        forall m | 0 <= m < |gp| ensures Keys(gp)[m] != gc[i].0 {
          assert gp[m] in gp;
        }
        SumForAbsent(prev, gc[i].0);
      }
    }
  }

  /** `plot_category_quantity_change`: per category of the current rows, both quantity sums and their change. */
  function CategoryQuantityChange(current: seq<Row>, previous: seq<Row>): (r: seq<CategoryChange>)
    ensures NoDuplicates(ChangeCategories(r))
    ensures forall c :: c in ChangeCategories(r) <==> c in Categories(current)
    ensures forall i :: 0 <= i < |r| ==>
      && r[i].current == CategorySum(current, QuantityColumn(current), r[i].category)
      && r[i].previous == CategorySum(previous, QuantityColumn(previous), r[i].category)
      && r[i].change == r[i].current - r[i].previous
  {
    CategoryChangeOf(current, QuantityColumn(current), previous, QuantityColumn(previous))
  }

  /** `plot_category_value_change`: per category of the current rows, both TotalValue sums and their change. */
  function CategoryValueChange(current: seq<Row>, previous: seq<Row>): (r: seq<CategoryChange>)
    ensures NoDuplicates(ChangeCategories(r))
    ensures forall c :: c in ChangeCategories(r) <==> c in Categories(current)
    ensures forall i :: 0 <= i < |r| ==>
      && r[i].current == CategorySum(current, TotalValueColumn(current), r[i].category)
      && r[i].previous == CategorySum(previous, TotalValueColumn(previous), r[i].category)
      && r[i].change == r[i].current - r[i].previous
  {
    CategoryChangeOf(current, TotalValueColumn(current), previous, TotalValueColumn(previous))
  }

  /** One column summed per category on both sides, then compared. */
  function CategoryChangeOf(current: seq<Row>, curCol: seq<Option<int>>, previous: seq<Row>, prevCol: seq<Option<int>>): (r: seq<CategoryChange>)
    requires |curCol| == |current| && |prevCol| == |previous|
    ensures NoDuplicates(ChangeCategories(r))
    ensures forall c :: c in ChangeCategories(r) <==> c in Categories(current)
    ensures forall i :: 0 <= i < |r| ==>
      && r[i].current == CategorySum(current, curCol, r[i].category)
      && r[i].previous == CategorySum(previous, prevCol, r[i].category)
      && r[i].change == r[i].current - r[i].previous
  {
    ColumnPairsKeys(current, curCol);
    forall c { ColumnPairsSum(current, curCol, c); }
    forall c { ColumnPairsSum(previous, prevCol, c); }
    CategoryDifference(ColumnPairs(current, curCol), ColumnPairs(previous, prevCol))
  }

  /**
   * `plot_category_value_change`: writes TotalValue into both frames (the
   * same frame twice is allowed), then compares their per-category sums.
   */
  method PlotCategoryValueChange(current: Frame, previous: Frame) returns (r: seq<CategoryChange>)
    requires current.Valid() && previous.Valid()
    modifies current, previous
    ensures current.Valid() && previous.Valid()
    ensures current.rows == old(current.rows) && previous.rows == old(previous.rows)
    ensures current.unrealisedValue == old(current.unrealisedValue)
    ensures previous.unrealisedValue == old(previous.unrealisedValue)
    ensures current.totalValue == Some(TotalValueColumn(current.rows))
    ensures previous.totalValue == Some(TotalValueColumn(previous.rows))
    ensures r == CategoryValueChange(current.rows, previous.rows)
  {
    current.AddTotalValue();
    previous.AddTotalValue();
    r := CategoryChangeOf(current.rows, current.totalValue.value, previous.rows, previous.totalValue.value);
  }
}
