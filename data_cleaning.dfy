/**
 * Ingestion of one snapshot: the stock-levels export is collapsed to one
 * summed quantity per product code, left-merged onto the inventory export,
 * and the merged table is cut down by a fixed chain of row filters.
 */
module DataCleaning {
  import opened Tables
  import opened Frames

  /** One line of the stock-levels export: a product code and an observed quantity. */
  datatype StockRow = StockRow(productCode: Option<string>, quantity: Option<int>)

  /** One line of the inventory export, restricted to the columns the snapshot keeps. */
  datatype InventoryRow = InventoryRow(
    productCode: Option<string>,
    name: Option<string>,
    category: Option<string>,
    averageCost: Option<Cents>,
    priceTier1: Option<Cents>,
    priceTier2: Option<Cents>,
    priceTier3: Option<Cents>,
    priceTier4: Option<Cents>,
    priceTier5: Option<Cents>)

  /** Substrings that mark a category as not stock (services, delivery and the like). */
  const EXCLUDED_CATEGORIES: seq<string> := ["Delivery", "Installation", "Other", "Rooms", "Service", "Courier"]

  /** Every kept product code starts with this. */
  const CODE_PREFIX: string := "P"

  /** PriceTier1 must exceed 10.00, that is 1000 cents. */
  const PRICE_FLOOR: Cents := 1000

  // ---------------------------------------------------------------- aggregate_products

  /** The rows a stock line contributes after `dropna(subset=['Quantity'])`; grouping also drops a missing code. */
  predicate Observed(s: StockRow) {
    s.productCode.Some? && s.quantity.Some?
  }

  /** (ProductCode, Quantity) pairs of the observed stock lines, in file order. */
  function ObservedPairs(stock: seq<StockRow>): seq<(string, int)> {
    if stock == [] then []
    else
      (if Observed(stock[0]) then [(stock[0].productCode.value, stock[0].quantity.value)] else [])
      + ObservedPairs(stock[1..])
  }

  /** The codes with at least one observed quantity. */
  function ObservedCodes(stock: seq<StockRow>): set<string> {
    set s | s in stock && Observed(s) :: s.productCode.value
  }

  /** Reference sum: the present quantities recorded for code `c`. */
  function ObservedSum(stock: seq<StockRow>, c: string): int {
    if stock == [] then 0
    else (if stock[0].productCode == Some(c) && stock[0].quantity.Some? then stock[0].quantity.value else 0)
         + ObservedSum(stock[1..], c)
  }

  /** Reference total: every present quantity of a line that has a code. */
  function ObservedTotal(stock: seq<StockRow>): int {
    if stock == [] then 0
    else (if Observed(stock[0]) then stock[0].quantity.value else 0) + ObservedTotal(stock[1..])
  }

  lemma {:induction false} ObservedPairsFacts(stock: seq<StockRow>)
    ensures forall c :: SumFor(ObservedPairs(stock), c) == ObservedSum(stock, c)
    ensures Total(ObservedPairs(stock)) == ObservedTotal(stock)
    ensures forall c :: c in Keys(ObservedPairs(stock)) <==> c in ObservedCodes(stock)
  {
    if stock != [] {
      ObservedPairsFacts(stock[1..]);
      var rest := ObservedPairs(stock[1..]);
      var kvs := ObservedPairs(stock);
      assert stock == [stock[0]] + stock[1..];
      assert ObservedCodes(stock) == ObservedCodes([stock[0]]) + ObservedCodes(stock[1..]);
      if Observed(stock[0]) {
        var p := [(stock[0].productCode.value, stock[0].quantity.value)];
        assert kvs == p + rest;
        assert (p + rest)[1..] == rest;
        assert Keys(kvs) == [stock[0].productCode.value] + Keys(rest);
      } else {
        assert kvs == rest;
        assert ObservedCodes([stock[0]]) == {};
      }
    }
  }

  /**
   * `df.dropna(subset=['Quantity']).groupby('ProductCode').agg({'Quantity': 'sum'})`:
   * one (ProductCode, Quantity) row per code that has an observed quantity,
   * holding the sum of that code's present quantities.
   */
  function AggregateProducts(stock: seq<StockRow>): (agg: seq<(string, int)>)
    ensures UniqueKeys(agg, First)
    ensures forall c :: c in Keys(agg) <==> c in ObservedCodes(stock)
    ensures forall i :: 0 <= i < |agg| ==> agg[i].1 == ObservedSum(stock, agg[i].0)
    ensures Total(agg) == ObservedTotal(stock)
  {
    ObservedPairsFacts(stock);
    GroupSumTotal(ObservedPairs(stock));
    GroupSum(ObservedPairs(stock))
  }

  // ---------------------------------------------------------------- the merge

  function InventoryCode(r: InventoryRow): Option<string> { r.productCode }

  function StockKey(t: (string, int)): Option<string> { Some(t.0) }

  /** The ten kept columns of one merged row; Quantity is missing when no stock row matched. */
  function MergedRow(t: (InventoryRow, Option<(string, int)>)): Row {
    var inv := t.0;
    Row(inv.productCode, if t.1.Some? then Some(t.1.value.1) else None, inv.name, inv.category,
        inv.averageCost, inv.priceTier1, inv.priceTier2, inv.priceTier3, inv.priceTier4, inv.priceTier5)
  }

  /** A merged row carries the inventory row's own columns unchanged. */
  predicate CarriesInventory(r: Row, inv: InventoryRow) {
    && r.productCode == inv.productCode && r.name == inv.name && r.category == inv.category
    && r.averageCost == inv.averageCost
    && r.priceTier1 == inv.priceTier1 && r.priceTier2 == inv.priceTier2 && r.priceTier3 == inv.priceTier3
    && r.priceTier4 == inv.priceTier4 && r.priceTier5 == inv.priceTier5
  }

  /**
   * `pd.merge(inventory, stock, on="ProductCode", how="left")` projected onto
   * the ten kept columns: at least one row per inventory row, each carrying
   * an inventory row's columns; its Quantity is that of a stock row with the
   * same code, or missing (not 0) when no stock row has the code.
   */
  function MergeStock(inventory: seq<InventoryRow>, agg: seq<(string, int)>): (merged: seq<Row>)
    ensures |merged| >= |inventory|
    ensures forall r :: r in merged ==> exists i :: 0 <= i < |inventory| && CarriesInventory(r, inventory[i])
    ensures forall r :: r in merged && r.quantity.Some? ==>
      exists t :: t in agg && Some(t.0) == r.productCode && t.1 == r.quantity.value
    ensures forall r :: r in merged && (forall t :: t in agg ==> Some(t.0) != r.productCode) ==> r.quantity.None?
  {
    var j := LeftJoin(inventory, agg, InventoryCode, StockKey);
    var merged := seq(|j|, i requires 0 <= i < |j| => MergedRow(j[i]));
    forall r | r in merged
      ensures exists i :: 0 <= i < |inventory| && CarriesInventory(r, inventory[i])
      ensures r.quantity.Some? ==> exists t :: t in agg && Some(t.0) == r.productCode && t.1 == r.quantity.value
      ensures (forall t :: t in agg ==> Some(t.0) != r.productCode) ==> r.quantity.None?
    {
      var k :| 0 <= k < |merged| && merged[k] == r;
      assert j[k] in j;
      if j[k].1.Some? {
        assert StockKey(j[k].1.value) == r.productCode;
      }
    }
    merged
  }

  /** The Quantity a merged row gets: the summed stock when the code was observed, missing otherwise (no zero-fill). */
  function StockQuantity(stock: seq<StockRow>, code: Option<string>): Option<int> {
    if code.Some? && code.value in ObservedCodes(stock) then Some(ObservedSum(stock, code.value)) else None
  }

  /**
   * Since the aggregated codes are unique, the merge has exactly one row per
   * inventory row, in inventory order, with the inventory columns unchanged
   * and the summed stock quantity, or a missing Quantity for a code never observed.
   */
  lemma MergeStockRows(inventory: seq<InventoryRow>, stock: seq<StockRow>)
    ensures |MergeStock(inventory, AggregateProducts(stock))| == |inventory|
    ensures forall i :: 0 <= i < |inventory| ==>
      var r := MergeStock(inventory, AggregateProducts(stock))[i];
      CarriesInventory(r, inventory[i]) && r.quantity == StockQuantity(stock, inventory[i].productCode)
  {
    var agg := AggregateProducts(stock);
    assert UniqueKeys(agg, StockKey) by {
      forall i, j | 0 <= i < j < |agg| ensures StockKey(agg[i]) != StockKey(agg[j]) {
        assert First(agg[i]) != First(agg[j]);
      }
    }
    LeftJoinUnique(inventory, agg, InventoryCode, StockKey);
    var j := LeftJoin(inventory, agg, InventoryCode, StockKey);
    forall i | 0 <= i < |inventory|
      ensures MergedRow(j[i]).quantity == StockQuantity(stock, inventory[i].productCode)
    {
      AggregateLookup(stock, inventory[i].productCode);
    }
  }

  /** Looking a code up in the aggregated stock finds its summed quantity exactly when it was observed. */
  lemma AggregateLookup(stock: seq<StockRow>, code: Option<string>)
    ensures var found := Lookup(AggregateProducts(stock), StockKey, code);
      (if found.Some? then Some(found.value.1) else None) == StockQuantity(stock, code)
  {
    var agg := AggregateProducts(stock);
    var found := Lookup(agg, StockKey, code);
    forall t | t in agg ensures t.0 in ObservedCodes(stock) && t.1 == ObservedSum(stock, t.0) {
      var n :| 0 <= n < |agg| && agg[n] == t;
      assert Keys(agg)[n] == t.0;
    }
    if code.Some? && code.value in ObservedCodes(stock) {
      assert code.value in Keys(agg);
      var m :| 0 <= m < |agg| && Keys(agg)[m] == code.value;
      assert StockKey(agg[m]) == code;
    }
  }

  // ---------------------------------------------------------------- the filter chain

  /** Plain substring containment (the excluded names hold no pattern characters). */
  predicate ContainsSubstring(s: string, sub: string) {
    sub <= s || (s != [] && ContainsSubstring(s[1..], sub))
  }

  predicate IsExcludedCategory(c: string) {
    exists e :: e in EXCLUDED_CATEGORIES && ContainsSubstring(c, e)
  }

  /** `~df['Category'].str.contains('Delivery|Installation|...')`. */
  predicate KeepsCategory(r: Row) {
    r.category.Some? && !IsExcludedCategory(r.category.value)
  }

  /** `df['Quantity'] > 0`; a missing Quantity compares false. */
  predicate InStock(r: Row) {
    r.quantity.Some? && r.quantity.value > 0
  }

  /** What `dropna()` keeps: no cell of the ten columns is missing. */
  predicate Complete(r: Row) {
    && r.productCode.Some? && r.quantity.Some? && r.name.Some? && r.category.Some? && r.averageCost.Some?
    && r.priceTier1.Some? && r.priceTier2.Some? && r.priceTier3.Some? && r.priceTier4.Some? && r.priceTier5.Some?
  }

  /** `df['ProductCode'].str.startswith("P")`. */
  predicate HasCodePrefix(r: Row) {
    r.productCode.Some? && CODE_PREFIX <= r.productCode.value
  }

  /** `df['PriceTier1'] > 10`. */
  predicate AbovePriceFloor(r: Row) {
    r.priceTier1.Some? && r.priceTier1.value > PRICE_FLOOR
  }

  /** A row the snapshot keeps: it passes every filter. */
  predicate Retained(r: Row) {
    KeepsCategory(r) && InStock(r) && Complete(r) && HasCodePrefix(r) && AbovePriceFloor(r)
  }

  /**
   * The filters of lines 41, 44, 45, 48 and 51, applied in that order: one
   * filter by the conjunction of their tests, so their order does not matter.
   */
  function CleanSnapshot(merged: seq<Row>): (kept: seq<Row>)
    ensures kept == Filter(merged, Retained)
  {
    var p2 := r => KeepsCategory(r) && InStock(r);
    var p3 := r => p2(r) && Complete(r);
    var p4 := r => p3(r) && HasCodePrefix(r);
    FilterConjunction(merged, KeepsCategory, InStock, p2);
    FilterConjunction(merged, p2, Complete, p3);
    FilterConjunction(merged, p3, HasCodePrefix, p4);
    FilterConjunction(merged, p4, AbovePriceFloor, Retained);
    Filter(Filter(Filter(Filter(Filter(merged, KeepsCategory), InStock), Complete), HasCodePrefix), AbovePriceFloor)
  }

  /**
   * `load_transform_save` without its I/O: the cleaned snapshot is an
   * order-preserving subsequence of the merged table, holding exactly the
   * merged rows that pass every filter.
   */
  function LoadTransformSave(inventory: seq<InventoryRow>, stock: seq<StockRow>): (snapshot: seq<Row>)
    requires forall r :: r in inventory ==> r.category.Some?
    ensures forall r :: r in snapshot ==> r.category.Some? && !IsExcludedCategory(r.category.value)
    ensures forall r :: r in snapshot ==> r.quantity.Some? && r.quantity.value > 0
    ensures forall r :: r in snapshot ==> Complete(r)
    ensures forall r :: r in snapshot ==> r.productCode.Some? && CODE_PREFIX <= r.productCode.value
    ensures forall r :: r in snapshot ==> r.priceTier1.Some? && r.priceTier1.value > PRICE_FLOOR
    ensures IsSubsequence(snapshot, MergeStock(inventory, AggregateProducts(stock)))
    ensures forall r :: r in snapshot <==> r in MergeStock(inventory, AggregateProducts(stock)) && Retained(r)
  {
    var merged := MergeStock(inventory, AggregateProducts(stock));
    FilterIsSubsequence(merged, Retained);
    CleanSnapshot(merged)
  }

  /**
   * A product with no stock observation never reaches the snapshot (its
   * Quantity is missing, not zero), and each kept Quantity is the summed stock.
   */
  lemma SnapshotQuantities(inventory: seq<InventoryRow>, stock: seq<StockRow>)
    requires forall r :: r in inventory ==> r.category.Some?
    ensures forall r :: r in LoadTransformSave(inventory, stock) ==>
      r.productCode.value in ObservedCodes(stock) && r.quantity == Some(ObservedSum(stock, r.productCode.value))
  {
    MergeStockRows(inventory, stock);
    var merged := MergeStock(inventory, AggregateProducts(stock));
    forall r | r in LoadTransformSave(inventory, stock)
      ensures r.productCode.value in ObservedCodes(stock) && r.quantity == Some(ObservedSum(stock, r.productCode.value))
    {
      var i :| 0 <= i < |merged| && merged[i] == r;
      assert r.quantity == StockQuantity(stock, inventory[i].productCode);
    }
  }
}
