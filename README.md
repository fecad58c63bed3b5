# dk_inventory_tracker — a Dafny model of the snapshot pipeline

The inventory tracker turns two exports from an inventory system into a
cleaned inventory *snapshot*. It then compares that snapshot with a
snapshot saved earlier and draws per-category rollups and rankings. This
project models that table logic in Dafny and proves what it promises:

- **Ingestion** (`data_cleaning.py`). The stock-levels export is collapsed
  to one summed quantity per product code, left-merged onto the inventory
  export, cut down to ten columns and filtered by a fixed chain of row tests.
  The tests are: excluded category substrings, positive quantity, no missing
  cell, the code prefix `P`, and a first price tier above 10.
- **Rollups** (`graphing.py` and the near-identical first five functions of
  `helper_functions.py`). These give SKU count, quantity, total value and
  unrealised value per category, each sorted ascending. The value rollups
  write their column into the caller's data frame. The gross-margin view
  reads a TotalValue column that it never computes itself.
- **Comparisons**. The product-level comparison in `app.py` is a left merge
  on ProductCode plus `QuantityChange`, a projection and a renaming. A code
  the earlier snapshot lacks gets missing values there. The variants in
  `helper_functions.py` zero-fill instead. They give the per-SKU difference,
  the ten largest increases, the ten smallest non-negative changes, and the
  per-category quantity and value change.
- **Ranking-size sliders** (`app.py`). Their ranges are modelled as the
  bounds a chosen ranking size satisfies.

Modules, in dependency order:

- `Tables` (`tables.dfy`) holds the pandas operations the pipeline uses, as
  functions on sequences:
  - row filter;
  - left merge (a left row is paired with every right row of its key, or
    with nothing), and lookup;
  - group-by-sum;
  - insertion sort by an integer key;
  - `nsmallest` and `nlargest`;
  - `unique`.
- `Frames` (`frames.dfy`) holds the canonical ten-column `Row`, the derived
  TotalValue and UnrealisedValue columns, and the per-category view that
  every `groupby('Category')` starts from. It also holds the `Frame` class:
  a data frame passed by reference, whose added columns the rollups assign
  in place.
- `DataCleaning` (`data_cleaning.dfy`): `aggregate_products` and
  `load_transform_save`.
- `Graphing` (`graphing.dfy`): the per-category rollups. This is the one
  model of both `graphing.py` and `helper_functions.py:4-55`: the two files
  compute the same thing.
- `HelperFunctions` (`helper_functions.dfy`): the zero-filled per-SKU and
  per-category comparisons and the two rankings.
- `App` (`app.dfy`): the comparison `app.py` builds, its columns, the
  rollups it draws and the slider bounds.

Modelling conventions:

- A data frame is a sequence of records, and a missing cell (NaN) is `None`.
- Money is whole cents (`Cents = int`), so `PriceTier1 > 10` becomes
  `> 1000`. Quantities are unbounded integers.
- A pandas sum skips missing values, which the model writes as `FillZero`.
  `groupby` drops a missing key. A merge matches a missing key with a
  missing key, as pandas does.

Facts about the code that a reader might not expect:

- An inventory row with no stock observation keeps a missing Quantity, not
  0, and the filter `Quantity > 0` then drops the row
  (`DataCleaning.SnapshotQuantities`).
- `app.py:53-54` does not zero-fill the earlier quantity in the product
  comparison (`App.SnapshotDiff`, `App.DiffVersusSkuDifference`).
- The cleaning chain is fixed, with no policy flags, and that chain is what
  is modelled.

## Model

| member | source | states |
|---|---|---|
| `Tables.Filter` | data_cleaning.py:41-51 | a boolean mask keeps exactly the rows satisfying the test, never more rows, each no more often than before |
| `Tables.FilterIsSubsequence` | data_cleaning.py:41-51 | a mask keeps the surviving rows in their original order |
| `Tables.FilterConjunction` | data_cleaning.py:41-51 | two masks in a row equal one mask by their conjunction |
| `Tables.FilterCommutes` | data_cleaning.py:41-51 | two masks commute, so the order of the filter chain does not matter |
| `Tables.FilterKeepsMultiplicity` | helper_functions.py:87 | a row passing the mask keeps all its occurrences |
| `Tables.Lookup` | data_cleaning.py:34 | a lookup finds a row with the key, and finds nothing exactly when no row has it |
| `Tables.LeftJoin` | data_cleaning.py:34 | a left merge has at least one row per left row; each pairs a left row with a right row of the same key, or with nothing when no right row has that key |
| `Tables.LeftJoinCovers` | app.py:53 | no left row is lost in a left merge |
| `Tables.LeftJoinUnique` | data_cleaning.py:34 | with unique right keys a left merge has exactly one row per left row, in left order, paired with the lookup of its key |
| `Tables.Distinct` | app.py:91 | `unique()` holds each value of the column exactly once |
| `Tables.DistinctCount` | app.py:91 | the number of unique values is the size of the set of values |
| `Tables.GroupSum` | data_cleaning.py:21-23 | group-by-sum gives one row per key present, holding the sum of that key's values |
| `Tables.GroupSumTotal` | data_cleaning.py:21-23 | the group sums add up to the sum of all values |
| `Tables.SortBy` | graphing.py:6 | `sort_values()` is ascending and a permutation of its input |
| `Tables.SortByUniqueKeys` | graphing.py:6 | sorting keeps the one-row-per-key property |
| `Tables.SortByTotal` | graphing.py:6 | sorting keeps the total |
| `Tables.Smallest` | helper_functions.py:87 | `nsmallest(n)` returns min(n, rows) rows in ascending order, drawn from the input, all of them when there are at most n, and none larger than an unselected row |
| `Tables.Largest` | helper_functions.py:67 | `nlargest(n)` returns min(n, rows) rows in descending order, drawn from the input, and none smaller than an unselected row |
| `Frames.TotalValueOf` | graphing.py:30 | TotalValue is present exactly when AverageCost and Quantity are |
| `Frames.UnrealisedValueOf` | graphing.py:42 | UnrealisedValue is present exactly when PriceTier1, AverageCost and Quantity are |
| `Frames.ColumnPairsSum` | graphing.py:19 | the pairs grouped by category add up, per category, to the column summed over that category's rows |
| `Frames.ColumnPairsTotal` | graphing.py:19 | the pairs add up to the column summed over the rows that have a category |
| `Frames.ColumnPairsKeys` | graphing.py:19 | the pairs' categories are exactly the categories present in the rows |
| `Frames.CategorisedTotalAll` | graphing.py:19 | when every row has a category, the categorised total is the column total |
| `Frames.Frame.AddTotalValue` | graphing.py:30 | the frame gains TotalValue = AverageCost × Quantity row by row; nothing else changes |
| `Frames.Frame.AddUnrealisedValue` | graphing.py:42 | the frame gains UnrealisedValue = (PriceTier1 − AverageCost) × Quantity row by row; nothing else changes |
| `DataCleaning.ObservedPairsFacts` | data_cleaning.py:18-23 | the observed (code, quantity) pairs carry each code's present quantities and only codes with one |
| `DataCleaning.AggregateProducts` | data_cleaning.py:13-25 | one row per code with a present quantity (a code with only missing quantities is absent), holding the sum of that code's present quantities; the sums add up to the total present quantity |
| `DataCleaning.AggregateLookup` | data_cleaning.py:34 | looking a code up in the aggregate finds its summed quantity exactly when the code was observed |
| `DataCleaning.MergeStockRows` | data_cleaning.py:34-36 | the merge has one row per inventory row, in order, carrying the inventory columns unchanged, with the summed quantity or a missing Quantity (not 0) for an unobserved code |
| `DataCleaning.MergeStock` | data_cleaning.py:34-36 | the merge has at least one row per inventory row; each carries some inventory row's columns; a present Quantity is the summed quantity of an aggregate row with the same code, and a code absent from the aggregate leaves Quantity missing |
| `DataCleaning.CleanSnapshot` | data_cleaning.py:41-51 | the five filters in sequence equal one filter by their conjunction |
| `DataCleaning.LoadTransformSave` | data_cleaning.py:27-53 | no kept category contains an excluded name; every kept row has Quantity > 0, no missing cell, a code starting with "P" and PriceTier1 > 10.00; the result is an order-preserving subsequence of the merge, holding exactly the merged rows that pass every filter |
| `DataCleaning.SnapshotQuantities` | data_cleaning.py:34-44 | every kept row's code was observed and its Quantity is that code's summed stock, so an unobserved product is dropped, not zero-filled |
| `Graphing.PerCategory` | graphing.py:19 | a per-category sum has one row per category present, each the column's sum over that category, ascending, adding up to the categorised total |
| `Graphing.PerCategoryValues` | graphing.py:19 | after sorting, each category still holds its own sum |
| `Graphing.CodePresenceSum` | graphing.py:6 | counting present codes per category gives the number of that category's rows with a code |
| `Graphing.CodePresenceTotal` | graphing.py:6 | the counts add up to the number of rows with both a category and a code |
| `Graphing.ItemsPerCategory` | graphing.py:6 | the SKU count per category is the number of that category's rows with a present code; the categories are exactly those present; ascending; the counts add up to the rows with a code and a category |
| `Graphing.QuantityPerCategory` | graphing.py:19 | one row per category present, each its summed Quantity, ascending |
| `Graphing.QuantityPerCategoryTotal` | graphing.py:19 | when every row has a category, the per-category quantities add up to the frame's total quantity |
| `Graphing.TotalValuePerCategory` | graphing.py:31 | one row per category present, each the sum of AverageCost × Quantity over that category, ascending |
| `Graphing.UnrealisedValuePerCategory` | graphing.py:43 | one row per category present, each the sum of (PriceTier1 − AverageCost) × Quantity over that category, ascending |
| `Graphing.PlotTotalValuePerCategory` | graphing.py:28-31 | writes TotalValue into the caller's frame, leaves the rest, and returns its per-category sums |
| `Graphing.PlotUnrealisedValuePerCategory` | graphing.py:40-43 | writes UnrealisedValue into the caller's frame, leaves the rest, and returns its per-category sums |
| `Graphing.AvgGrossMarginPerCategory` | graphing.py:52-56 | needs a TotalValue column already in the frame; writes UnrealisedValue and returns the two per-category series to be divided, which cover the same categories |
| `HelperFunctions.SkuDifference` | helper_functions.py:61-64 | at least one row per current row, each with a current row's code and quantity, the earlier quantity of a row with that code or 0 when there is none, and difference = current − earlier |
| `HelperFunctions.SkuDifferenceUnique` | helper_functions.py:61-64 | with unique earlier codes, exactly one row per current row in order; the earlier quantity is that code's earlier quantity, 0 when absent |
| `HelperFunctions.Top10Increase` | helper_functions.py:67 | min(10, rows) rows drawn from the comparison, ascending, none with a smaller difference than an unselected row |
| `HelperFunctions.StagnatedSelection` | helper_functions.py:87 | the ten smallest non-negative rows keep all non-negative rows when fewer than ten exist, and none exceeds an unselected non-negative row |
| `HelperFunctions.Top10Stagnated` | helper_functions.py:87 | at most ten rows, all with difference ≥ 0, ascending, drawn from the comparison, all non-negative rows when fewer than ten come back, and none larger than an unselected non-negative row |
| `HelperFunctions.JoinedGroupSums` | helper_functions.py:105-107 | merging two group sums on the key keeps one row per current key, with the earlier sum or 0 |
| `HelperFunctions.CategoryDifference` | helper_functions.py:105-110 | one row per category of the current side, no category twice, holding both sums (0 for a category absent earlier) and change = current − earlier |
| `HelperFunctions.CategoryChangeOf` | helper_functions.py:128-137 | per category of the current rows, the column summed over that category on each side, and their difference |
| `HelperFunctions.CategoryQuantityChange` | helper_functions.py:99-110 | the categories are exactly the current frame's (earlier-only categories are dropped); each holds both Quantity sums and their difference |
| `HelperFunctions.CategoryValueChange` | helper_functions.py:122-137 | the categories are exactly the current frame's; each holds both TotalValue sums and their difference |
| `HelperFunctions.PlotCategoryValueChange` | helper_functions.py:122-137 | writes TotalValue into both frames (possibly the same one), leaves the rest, and returns the per-category value change |
| `App.DiffColumns` | app.py:55-56 | the comparison has exactly twelve distinct columns, in the listed order |
| `App.SnapshotDiff` | app.py:53-56 | at least one row per current row, each carrying a current row's `_x` columns; the earlier quantity comes from an earlier row with the same code; a code absent earlier leaves PreviousQuantity and QuantityChange missing; QuantityChange = current − earlier, missing if either is |
| `App.SnapshotDiffUnique` | app.py:53-54 | with unique earlier codes, exactly one row per current row in order, with that code's earlier quantity, and QuantityChange present exactly when both quantities are |
| `App.DiffVersusSkuDifference` | app.py:53-54 | compared with the zero-filled SKU comparison, a missing earlier quantity here is 0 there, and a QuantityChange here equals the difference there |
| `App.DiffCategoriesFromCurrent` | app.py:91 | every category of the comparison is a current category |
| `App.DiffCategoriesCoverCurrent` | app.py:91 | every current category appears in the comparison |
| `App.DiffCategoryCount` | app.py:91 | the comparison's categories are exactly the current snapshot's, and their unique count is the number of current categories |
| `App.ProductRankingBounds` | app.py:76-83 | a ranking size chosen with either product slider lies in [1, 30], and both sliders' default lies in range |
| `App.CategoryCount` | app.py:91 | the number of unique categories is at most the number of rows, and is 0 exactly when there are no rows |
| `App.LeastSoldSliderAsWritten` | app.py:91 | the slider as written spans [1, number of unique categories] with default 10, so it accepts its default exactly when there are at least ten categories |
| `App.LeastSoldSliderAsWrittenRejects` | app.py:91 | with fewer than ten current categories the default 10 is outside the slider's range |
| `App.OneRowSnapshotRejected` | app.py:91 | a one-row snapshot has one category, so the as-written slider's default lies outside its range |
| `App.LeastSoldSlider` | app.py:91 | the corrected slider spans [1, number of categories], its default lies in range whenever there is a category, and is 10 when there are at least ten |
| `App.LeastSoldRankingBounds` | app.py:91 | for a non-empty snapshot the corrected slider accepts its default, and a chosen size lies in [1, number of current categories] |
| `App.PlotCurrentData` | app.py:65-71 | draws the four rollups of the current snapshot; afterwards the frame holds TotalValue and UnrealisedValue, so the gross-margin view's precondition holds |

## Left out

- Figure construction and layout, and every Streamlit call (page setup,
  CSS, uploaders, the snapshot picker, chart rendering) are presentation
  only. The sliders are modelled only as their ranges.
- CSV parsing and all SQLite reads and writes are I/O and are not modelled.
  `db_helper.py` is not part of this model.
- `app.py:39` passes an argument to a table-listing helper that takes none.
  That call is I/O and is not modelled.
- Table names derived from the current date are left out because they
  depend on the clock.
- The margin division at `graphing.py:57` is floating point and may divide
  by zero, so it is left out.
- Graphing.AvgGrossMarginPerCategory: returns the two series up to that
  division and does not return the ratio.
- `plot_decreased_items`, `plot_gross_profit` and `plot_least_sold_categories`
  are imported at `app.py:4` but not defined in `graphing.py`. Their
  behaviour is not modelled; only the ranking sizes handed to them are.
- Regular-expression matching in `str.contains` is modelled as plain
  substring containment. The six excluded names contain no pattern
  characters.
- DataCleaning.LoadTransformSave: requires every inventory row to have a
  Category. A missing Category makes the category mask non-boolean, and
  that error path is not modelled.
- DataCleaning.AggregateProducts: does not state the row order. pandas
  sorts the codes, and the model keeps first-occurrence order; only a keyed
  merge consumes this table.
- HelperFunctions.CategoryDifference: does not state the row order, for
  the same reason. pandas sorts the group keys, so the bars appear in
  category order; the model keeps first-occurrence order.
- HelperFunctions.CategoryQuantityChange: the same row order as
  `CategoryDifference` is unstated.
- HelperFunctions.CategoryValueChange: the same row order as
  `CategoryDifference` is unstated.
- Tie order among equal values in `sort_values`, `nlargest` and
  `nsmallest` is unspecified by the sources and unstated by the contracts.
- HelperFunctions.SkuDifference: `fillna(0)` also turns a missing
  ProductCode into 0. The model keeps the code missing and zero-fills only
  the quantities.
- The inventory export is assumed to carry no Quantity column of its own.
  Otherwise pandas would suffix the merged columns and the ten-column
  projection would fail.
- Numbers are unbounded integers. There is no float rounding and no
  integer dtype overflow.

## Findings

| source | as written | input that shows it | evidently intended | confidence | as-written member | corrected member |
|---|---|---|---|---|---|---|
| app.py:91 | the category-ranking slider has range [1, number of unique categories] and a fixed default of 10 | a current snapshot spanning fewer than ten categories, e.g. a single row: the range is [1, 1] and the default 10 lies outside it. Whether Streamlit then raises or adjusts the widget depends on its version and is not settled by the repository; either way the as-written slider does not guarantee a chosen N in [1, number of categories] | the default clamped to the range, min(10, number of categories) | not executed | `App.LeastSoldSliderAsWritten` (shown by `App.LeastSoldSliderAsWrittenRejects`, `App.OneRowSnapshotRejected`) | `App.LeastSoldSlider` (proved by `App.LeastSoldRankingBounds`) |
