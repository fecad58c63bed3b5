/**
 * The per-category rollups drawn for the current snapshot: SKU count,
 * quantity, total value and unrealised value per category, each summed by
 * `groupby('Category')` and sorted ascending. The value rollups first write
 * their column into the caller's frame; the gross-margin view reads a
 * TotalValue column it does not compute.
 */
module Graphing {
  import opened Tables
  import opened Frames

  /**
   * `groupby('Category')[column].sum().sort_values()`: one row per category
   * present, holding the column's sum over that category, ascending by sum.
   * The sums add up to the column's total over the rows that have a category.
   */
  function PerCategory(rows: seq<Row>, col: seq<Option<int>>): (r: seq<(string, int)>)
    requires |col| == |rows|
    ensures UniqueKeys(r, First)
    ensures forall c :: c in Keys(r) <==> c in Categories(rows)
    ensures forall i :: 0 <= i < |r| ==> r[i].1 == CategorySum(rows, col, r[i].0)
    ensures SortedBy(r, Second)
    ensures Total(r) == CategorisedTotal(rows, col)
  {
    var kvs := ColumnPairs(rows, col);
    var g := GroupSum(kvs);
    ColumnPairsKeys(rows, col);
    ColumnPairsTotal(rows, col);
    GroupSumTotal(kvs);
    SortByTotal(g, Second);
    SortByUniqueKeys(g, Second, First);
    SameElementsSameKeys(SortBy(g, Second), g);
    PerCategoryValues(rows, col);
    SortBy(g, Second)
  }

  lemma PerCategoryValues(rows: seq<Row>, col: seq<Option<int>>)
    requires |col| == |rows|
    ensures var r := SortBy(GroupSum(ColumnPairs(rows, col)), Second);
      forall i :: 0 <= i < |r| ==> r[i].1 == CategorySum(rows, col, r[i].0)
  {
    var kvs := ColumnPairs(rows, col);
    var g := GroupSum(kvs);
    var r := SortBy(g, Second);
    forall i | 0 <= i < |r| ensures r[i].1 == CategorySum(rows, col, r[i].0) {
      assert r[i] in multiset(g);
      var m :| 0 <= m < |g| && g[m] == r[i];
      ColumnPairsSum(rows, col, r[i].0);
    }
  }

  /** Reference count: the rows of category `c` whose ProductCode is present. */
  function CodedCount(rows: seq<Row>, c: string): nat {
    if rows == [] then 0
    else (if rows[0].category == Some(c) && rows[0].productCode.Some? then 1 else 0) + CodedCount(rows[1..], c)
  }

  /** Reference count: the rows with both a category and a ProductCode. */
  function CodedRows(rows: seq<Row>): nat {
    if rows == [] then 0
    else (if rows[0].category.Some? && rows[0].productCode.Some? then 1 else 0) + CodedRows(rows[1..])
  }

  lemma {:induction false} CodePresenceSum(rows: seq<Row>, c: string)
    ensures CategorySum(rows, CodePresenceColumn(rows), c) == CodedCount(rows, c)
  {
    if rows != [] {
      assert CodePresenceColumn(rows)[1..] == CodePresenceColumn(rows[1..]);
      CodePresenceSum(rows[1..], c);
    }
  }

  lemma {:induction false} CodePresenceTotal(rows: seq<Row>)
    ensures CategorisedTotal(rows, CodePresenceColumn(rows)) == CodedRows(rows)
  {
    if rows != [] {
      assert CodePresenceColumn(rows)[1..] == CodePresenceColumn(rows[1..]);
      CodePresenceTotal(rows[1..]);
    }
  }

  /**
   * `groupby('Category')['ProductCode'].count().sort_values()`: each category
   * present with the number of its rows whose ProductCode is present,
   * ascending; the counts add up to the number of such rows.
   */
  function ItemsPerCategory(rows: seq<Row>): (r: seq<(string, int)>)
    ensures UniqueKeys(r, First)
    ensures forall c :: c in Keys(r) <==> c in Categories(rows)
    ensures forall i :: 0 <= i < |r| ==> r[i].1 == CodedCount(rows, r[i].0)
    ensures SortedBy(r, Second)
    ensures Total(r) == CodedRows(rows)
  {
    var r := PerCategory(rows, CodePresenceColumn(rows));
    forall c { CodePresenceSum(rows, c); }
    CodePresenceTotal(rows);
    r
  }

  /**
   * `groupby('Category')['Quantity'].sum().sort_values()`: each category
   * present with its summed Quantity, ascending.
   */
  function QuantityPerCategory(rows: seq<Row>): (r: seq<(string, int)>)
    ensures UniqueKeys(r, First)
    ensures forall c :: c in Keys(r) <==> c in Categories(rows)
    ensures forall i :: 0 <= i < |r| ==> r[i].1 == CategorySum(rows, QuantityColumn(rows), r[i].0)
    ensures SortedBy(r, Second)
    ensures Total(r) == CategorisedTotal(rows, QuantityColumn(rows))
  {
    PerCategory(rows, QuantityColumn(rows))
  }

  /** When every row has a category, the per-category quantities add up to the frame's total quantity. */
  lemma QuantityPerCategoryTotal(rows: seq<Row>)
    requires forall x :: x in rows ==> x.category.Some?
    ensures Total(QuantityPerCategory(rows)) == ColumnTotal(QuantityColumn(rows))
  {
    CategorisedTotalAll(rows, QuantityColumn(rows));
  }

  /** The TotalValue column summed per category, ascending. */
  function TotalValuePerCategory(rows: seq<Row>): (r: seq<(string, int)>)
    ensures UniqueKeys(r, First)
    ensures forall c :: c in Keys(r) <==> c in Categories(rows)
    ensures forall i :: 0 <= i < |r| ==> r[i].1 == CategorySum(rows, TotalValueColumn(rows), r[i].0)
    ensures SortedBy(r, Second)
    ensures Total(r) == CategorisedTotal(rows, TotalValueColumn(rows))
  {
    PerCategory(rows, TotalValueColumn(rows))
  }

  /** The UnrealisedValue column summed per category, ascending. */
  function UnrealisedValuePerCategory(rows: seq<Row>): (r: seq<(string, int)>)
    ensures UniqueKeys(r, First)
    ensures forall c :: c in Keys(r) <==> c in Categories(rows)
    ensures forall i :: 0 <= i < |r| ==> r[i].1 == CategorySum(rows, UnrealisedValueColumn(rows), r[i].0)
    ensures SortedBy(r, Second)
    ensures Total(r) == CategorisedTotal(rows, UnrealisedValueColumn(rows))
  {
    PerCategory(rows, UnrealisedValueColumn(rows))
  }

  /** `plot_total_value_per_category`: writes TotalValue into the caller's frame, then sums it per category. */
  method PlotTotalValuePerCategory(df: Frame) returns (r: seq<(string, int)>)
    requires df.Valid()
    modifies df
    ensures df.Valid()
    ensures df.rows == old(df.rows) && df.unrealisedValue == old(df.unrealisedValue)
    ensures df.totalValue == Some(TotalValueColumn(df.rows))
    ensures r == TotalValuePerCategory(df.rows)
  {
    df.AddTotalValue();
    r := PerCategory(df.rows, df.totalValue.value);
  }

  /** `plot_unrealised_value_per_category`: writes UnrealisedValue into the caller's frame, then sums it per category. */
  method PlotUnrealisedValuePerCategory(df: Frame) returns (r: seq<(string, int)>)
    requires df.Valid()
    modifies df
    ensures df.Valid()
    ensures df.rows == old(df.rows) && df.totalValue == old(df.totalValue)
    ensures df.unrealisedValue == Some(UnrealisedValueColumn(df.rows))
    ensures r == UnrealisedValuePerCategory(df.rows)
  {
    df.AddUnrealisedValue();
    r := PerCategory(df.rows, df.unrealisedValue.value);
  }

  /**
   * `avg_gross_margin_per_category` up to its division: writes
   * UnrealisedValue, then returns the two per-category series it divides.
   * The TotalValue column must already be in the frame, left there by an
   * earlier `PlotTotalValuePerCategory`; both series cover the same categories.
   */
  method AvgGrossMarginPerCategory(df: Frame) returns (unrealised: seq<(string, int)>, total: seq<(string, int)>)
    requires df.Valid() && df.totalValue.Some?
    modifies df
    ensures df.Valid()
    ensures df.rows == old(df.rows) && df.totalValue == old(df.totalValue)
    ensures df.unrealisedValue == Some(UnrealisedValueColumn(df.rows))
    ensures unrealised == UnrealisedValuePerCategory(df.rows)
    ensures total == PerCategory(df.rows, df.totalValue.value)
    ensures forall c :: c in Keys(unrealised) <==> c in Keys(total)
  {
    df.AddUnrealisedValue();
    unrealised := PerCategory(df.rows, df.unrealisedValue.value);
    total := PerCategory(df.rows, df.totalValue.value);
  }
}
