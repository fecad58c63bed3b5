/**
 * The canonical product record of the pipeline (the ten columns a cleaned
 * snapshot keeps), the columns derived from it, the per-category view that
 * every `groupby('Category')` starts from, and the data frame whose columns
 * the rollups add in place.
 */
module Frames {
  import opened Tables

  /** Money is held in cents, so costs and prices are compared and multiplied exactly. */
  type Cents = int

  /**
   * One row: ProductCode, Quantity, Name, Category, AverageCost and
   * PriceTier1..PriceTier5, in that column order; `None` is a missing cell.
   */
  datatype Row = Row(
    productCode: Option<string>,
    quantity: Option<int>,
    name: Option<string>,
    category: Option<string>,
    averageCost: Option<Cents>,
    priceTier1: Option<Cents>,
    priceTier2: Option<Cents>,
    priceTier3: Option<Cents>,
    priceTier4: Option<Cents>,
    priceTier5: Option<Cents>)

  /** The merge key of a row. */
  function CodeOf(r: Row): Option<string> { r.productCode }

  /** The categories a table holds; `groupby` drops a missing category. */
  function Categories(rows: seq<Row>): set<string> {
    set r | r in rows && r.category.Some? :: r.category.value
  }

  // ---------------------------------------------------------------- derived columns

  /** TotalValue = AverageCost * Quantity; missing when either operand is. */
  function TotalValueOf(r: Row): (v: Option<Cents>)
    ensures v.Some? <==> r.averageCost.Some? && r.quantity.Some?
  {
    if r.averageCost.Some? && r.quantity.Some? then Some(r.averageCost.value * r.quantity.value) else None
  }

  /** UnrealisedValue = (PriceTier1 - AverageCost) * Quantity; missing when any operand is. */
  function UnrealisedValueOf(r: Row): (v: Option<Cents>)
    ensures v.Some? <==> r.priceTier1.Some? && r.averageCost.Some? && r.quantity.Some?
  {
    if r.priceTier1.Some? && r.averageCost.Some? && r.quantity.Some?
    then Some((r.priceTier1.value - r.averageCost.value) * r.quantity.value)
    else None
  }

  function QuantityColumn(rows: seq<Row>): seq<Option<int>> {
    seq(|rows|, i requires 0 <= i < |rows| => rows[i].quantity)
  }

  function TotalValueColumn(rows: seq<Row>): seq<Option<Cents>> {
    seq(|rows|, i requires 0 <= i < |rows| => TotalValueOf(rows[i]))
  }

  function UnrealisedValueColumn(rows: seq<Row>): seq<Option<Cents>> {
    seq(|rows|, i requires 0 <= i < |rows| => UnrealisedValueOf(rows[i]))
  }

  /** What `count()` adds up for ProductCode: 1 for a present code, 0 for a missing one. */
  function CodePresenceColumn(rows: seq<Row>): seq<Option<int>> {
    seq(|rows|, i requires 0 <= i < |rows| => Some(if rows[i].productCode.Some? then 1 else 0))
  }

  // ---------------------------------------------------------------- per-category view

  /**
   * The (category, value) pairs `groupby('Category')[column]` aggregates:
   * rows without a category are dropped, a missing value counts as 0.
   */
  function ColumnPairs(rows: seq<Row>, col: seq<Option<int>>): seq<(string, int)>
    requires |col| == |rows|
  {
    if rows == [] then []
    else
      (if rows[0].category.Some? then [(rows[0].category.value, FillZero(col[0]))] else [])
      + ColumnPairs(rows[1..], col[1..])
  }

  /** Reference sum: the column's values over the rows of category `c`, missing values as 0. */
  function CategorySum(rows: seq<Row>, col: seq<Option<int>>, c: string): int
    requires |col| == |rows|
  {
    if rows == [] then 0
    else (if rows[0].category == Some(c) then FillZero(col[0]) else 0) + CategorySum(rows[1..], col[1..], c)
  }

  /** Reference total: the column's values over every row that has a category. */
  function CategorisedTotal(rows: seq<Row>, col: seq<Option<int>>): int
    requires |col| == |rows|
  {
    if rows == [] then 0
    else (if rows[0].category.Some? then FillZero(col[0]) else 0) + CategorisedTotal(rows[1..], col[1..])
  }

  /** The column's values over all rows, missing values as 0. */
  function ColumnTotal(col: seq<Option<int>>): int {
    if col == [] then 0 else FillZero(col[0]) + ColumnTotal(col[1..])
  }

  lemma {:induction false} ColumnPairsSum(rows: seq<Row>, col: seq<Option<int>>, c: string)
    requires |col| == |rows|
    ensures SumFor(ColumnPairs(rows, col), c) == CategorySum(rows, col, c)
  {
    if rows != [] {
      ColumnPairsSum(rows[1..], col[1..], c);
      var rest := ColumnPairs(rows[1..], col[1..]);
      if rows[0].category.Some? {
        var p := [(rows[0].category.value, FillZero(col[0]))];
        assert ColumnPairs(rows, col) == p + rest;
        assert (p + rest)[1..] == rest;
      } else {
        assert ColumnPairs(rows, col) == rest;
      }
    }
  }

  lemma {:induction false} ColumnPairsTotal(rows: seq<Row>, col: seq<Option<int>>)
    requires |col| == |rows|
    ensures Total(ColumnPairs(rows, col)) == CategorisedTotal(rows, col)
  {
    if rows != [] {
      ColumnPairsTotal(rows[1..], col[1..]);
      var rest := ColumnPairs(rows[1..], col[1..]);
      if rows[0].category.Some? {
        var p := [(rows[0].category.value, FillZero(col[0]))];
        assert ColumnPairs(rows, col) == p + rest;
        assert (p + rest)[1..] == rest;
      } else {
        assert ColumnPairs(rows, col) == rest;
      }
    }
  }

  lemma {:induction false} ColumnPairsKeys(rows: seq<Row>, col: seq<Option<int>>)
    requires |col| == |rows|
    ensures forall c :: c in Keys(ColumnPairs(rows, col)) <==> c in Categories(rows)
  {
    if rows != [] {
      ColumnPairsKeys(rows[1..], col[1..]);
      var rest := ColumnPairs(rows[1..], col[1..]);
      var kvs := ColumnPairs(rows, col);
      assert Categories(rows) == Categories([rows[0]]) + Categories(rows[1..]) by {
        assert rows == [rows[0]] + rows[1..];
      }
      if rows[0].category.Some? {
        var p := [(rows[0].category.value, FillZero(col[0]))];
        assert kvs == p + rest;
        assert Keys(kvs) == [rows[0].category.value] + Keys(rest);
        forall c ensures c in Keys(kvs) <==> c == rows[0].category.value || c in Keys(rest) {
          assert c in Keys(kvs) <==> c in [rows[0].category.value] + Keys(rest);
        }
      } else {
        assert Categories([rows[0]]) == {};
        assert kvs == rest;
      }
    }
  }

  /** When every row has a category, the categorised total is the column total. */
  lemma {:induction false} CategorisedTotalAll(rows: seq<Row>, col: seq<Option<int>>)
    requires |col| == |rows|
    requires forall r :: r in rows ==> r.category.Some?
    ensures CategorisedTotal(rows, col) == ColumnTotal(col)
  {
    if rows != [] {
      assert rows[0] in rows;
      CategorisedTotalAll(rows[1..], col[1..]);
    }
  }

  // ---------------------------------------------------------------- the data frame

  /**
   * A data frame passed by reference: its rows, and the TotalValue and
   * UnrealisedValue columns once some call has written them into it.
   */
  class Frame {
    var rows: seq<Row>
    var totalValue: Option<seq<Option<Cents>>>
    var unrealisedValue: Option<seq<Option<Cents>>>

    /** An added column has one cell per row. */
    ghost predicate Valid()
      reads this
    {
      && (totalValue.Some? ==> |totalValue.value| == |rows|)
      && (unrealisedValue.Some? ==> |unrealisedValue.value| == |rows|)
    }

    constructor (rows: seq<Row>)
      ensures Valid()
      ensures this.rows == rows && totalValue == None && unrealisedValue == None
    {
      this.rows := rows;
      totalValue := None;
      unrealisedValue := None;
    }

    /** `df['TotalValue'] = df['AverageCost'] * df['Quantity']`, overwriting any earlier column. */
    method AddTotalValue()
      requires Valid()
      modifies this
      ensures Valid()
      ensures rows == old(rows) && unrealisedValue == old(unrealisedValue)
      ensures totalValue == Some(TotalValueColumn(rows))
      ensures forall i :: 0 <= i < |rows| ==> totalValue.value[i] == TotalValueOf(rows[i])
    {
      totalValue := Some(TotalValueColumn(rows));
    }

    /** `df['UnrealisedValue'] = (df['PriceTier1'] - df['AverageCost']) * df['Quantity']`. */
    method AddUnrealisedValue()
      requires Valid()
      modifies this
      ensures Valid()
      ensures rows == old(rows) && totalValue == old(totalValue)
      ensures unrealisedValue == Some(UnrealisedValueColumn(rows))
      ensures forall i :: 0 <= i < |rows| ==> unrealisedValue.value[i] == UnrealisedValueOf(rows[i])
    {
      unrealisedValue := Some(UnrealisedValueColumn(rows));
    }
  }
}
