# Windrose frequency tables

A model of the wind-frequency aggregator of the pibal dashboard scripts. The
aggregator appears in three variants:

- `windrose_master.py`: every sheet of a workbook, a 16-point rose, fixed knot classes, and a pivot per month.
- `create_windrose.py`: one sheet, a 16-point rose, five speed classes spread over the observed speed range.
- `windy.py`: one frame, an 8-point rose, fixed knot classes, and a percentage column.

Each variant does the same steps in order:

1. Drop the rows with a missing value.
2. Look up the `ddd` (bearing) and `ff` (speed) columns.
3. Classify each bearing into a compass point. This takes the bearing modulo 360, divides by the sector width, rounds half to even, and indexes a name list whose last entry repeats `N`.
4. Put each speed into a right-closed class, as `pd.cut` does.
5. Count the rows per (direction, class) pair.
6. Add a zero row, under the first class, for each compass point with no row.
7. Sort.

The modules follow those steps:

| module | file | what it holds |
|---|---|---|
| `Wrappers` | wrappers.dfy | `Option` and `Result` |
| `Errors` | errors.dfy | the exceptions the scripts can raise |
| `Sequences` | sequences.dfy | distinctness, multiset and counting helpers |
| `Compass` | compass.dfy | the two roses, `% 360`, half-to-even rounding, the classifier |
| `Ordering` | ordering.dfy | stable insertion sort, `sort_wind_directions` |
| `SpeedBins` | speedbins.dfy | right-closed classes, the fixed knot classes, the `linspace` classes |
| `Frames` | frames.dfy | a parsed sheet, `dropna`, column lookup, cutting column names at the first dot |
| `Tally` | tally.dfy | frequency rows, group-by count, the two zero-fill styles, the two sorts |
| `Percent` | percent.dfy | the percentage column, with `0/0` made explicit |
| `Pivoting` | pivot.dfy | `create_pivot_table` |
| `WindFrequency` | pipelines.dfy | the three `calculate_wind_frequency` routines end to end |

Bearings and speeds are exact `real`s. An exception is a `Failure` carrying an `Errors.Error`. windrose_master.py and windy.py catch it, report it and return nothing; for windrose_master.py that means no table for any sheet. create_windrose.py has no handler, so there the exception reaches its caller, `plot_wind_frequency`.

The sort step of all three scripts is modelled in two forms, chosen by `Tally.Sorting`:

- `ColumnOnly` is the code as written. It replaces the direction column by its sorted copy.
- `WholeRows` is the evident intent. It reorders whole rows.

See "## Findings".

## Model

| member | source | states |
|---|---|---|
| Compass.Classify | windrose_master.py:8-11 | the name is always one of the rose's compass points, never a 17th sector |
| Compass.SectorIndex | create_windrose.py:6-9 | the classifier names the point at a sector index below the number of points |
| Compass.Mod360 | windrose_master.py:10 | `% 360` lands in [0, 360) and differs from the bearing by whole turns |
| Compass.RoundHalfEven | windrose_master.py:10 | the rounded value is within 0.5 of its argument and is even on an exact half |
| Compass.RoundHalfEvenUnique | windrose_master.py:10 | those two facts determine `np.round`'s result |
| Compass.RawIndex | windrose_master.py:10 | the index before the name lookup is at most the number of points; that many sector widths lie within half a sector of the bearing modulo 360, and on an exact half-sector tie the index is even |
| Compass.ClassifyPeriodic | windrose_master.py:8-11 | adding any whole number of turns to a bearing does not change its point |
| Compass.ClassifyNearest | windrose_master.py:10 | the chosen point's centre is at least as close, around the circle, as every other point's centre |
| Compass.NearestOf8 | windy.py:8-9 | on the 8-point rose the chosen point's centre is within 22.5 degrees of the bearing, around the circle, and no farther than any other point's centre |
| Compass.NearestOf16 | windrose_master.py:9-10 | on the 16-point rose the chosen point's centre is within 11.25 degrees of the bearing, around the circle, and no farther than any other point's centre |
| Compass.ClassifyTie | windrose_master.py:10 | a bearing exactly between points k and k+1 goes to whichever index is even |
| Compass.ClassifyWrapsToNorth | windrose_master.py:9-10 | a bearing less than half a sector below 360 rounds to the last index, which the repeated list entry maps to `N` |
| Compass.TieExamples16 | windrose_master.py:8-11 | 11.25 gives `N`, 22.5 gives `NNE`, 33.75 gives `NE`, and 348.75 gives raw index 16, i.e. `N` |
| Compass.TieExamples8 | windy.py:6-9 | 22.5 gives `N`, 67.5 gives `E`, and 0 and 360 both give `N` |
| Ordering.Rank | windrose_master.py:16 | `order.index`: the first position holding the name when it is listed, and the list's length exactly when it is absent (where `index` raises) |
| Ordering.Sort | windrose_master.py:16 | `sorted` returns a permutation of its input that is ordered by the key |
| Ordering.SortStable | windrose_master.py:16 | among elements with equal keys the input order is kept |
| Ordering.SortIdempotent | windrose_master.py:16 | sorting a sorted result changes nothing |
| Ordering.SortedUnique | windrose_master.py:16 | two key-ordered permutations of the same elements are equal when the key tells elements apart |
| Ordering.SortDirections | windrose_master.py:13-16 | fails exactly when some name is not a compass point, naming one such name; otherwise a permutation in compass order |
| Ordering.SortDirectionsIdempotent | windy.py:11-13 | sorting the sorted directions again gives the same list |
| Ordering.SortDirectionsCanonical | windrose_master.py:13-16 | any arrangement of the compass points sorts back to the canonical order list |
| SpeedBins.Cut | windrose_master.py:45 | a class is found only if it contains the speed (right-closed); none is found exactly when the speed is at or below the first edge or above a finite last edge |
| SpeedBins.ClassUnique | windrose_master.py:45 | no speed lies in two classes |
| SpeedBins.FixedBinsShape | windrose_master.py:43-44 | six classes with one distinct label each, and a speed is counted exactly when it is positive, so 0 knots is never counted |
| SpeedBins.LinSpace | create_windrose.py:33 | six edges from the minimum to the maximum in equal steps of a fifth of the range |
| SpeedBins.SpanLabelsNameClasses | create_windrose.py:33-37 | one label per class; a speed lies in class i exactly when it is above label i's lower edge and at most its upper edge; the labels are pairwise different |
| SpeedBins.DynamicBins | create_windrose.py:31-37 | fails exactly when `pd.cut` raises ValueError: with repeated edges when there is no speed (NaN edges) or every speed is the same, and otherwise with repeated labels when two of the one-decimal labels print alike; else five valid classes from the minimum to the maximum, with distinct labels |
| SpeedBins.Print1 | create_windrose.py:34 | `f'{x:.1f}'`: the sign is kept (a small negative prints `-0.0`), and the digits are the magnitude in tenths, within half a tenth |
| SpeedBins.Print1Apart | create_windrose.py:34 | two values more than a tenth apart never print alike |
| SpeedBins.WideRangePrintsApart | create_windrose.py:31-37 | a speed range wider than half a knot always yields the five classes |
| SpeedBins.NarrowRangeRepeatsLabels | create_windrose.py:33-37 | speeds 0.0 and 0.1 give two labels `0.0-0.0`, so `pd.cut` raises |
| SpeedBins.DynamicCounted | create_windrose.py:37 | an observed speed is counted exactly when it exceeds the minimum, so the slowest observation is never counted |
| Frames.DropNa | windrose_master.py:32 | keeps the columns; every kept row is complete; a complete row is kept exactly as many times as it occurs, and an incomplete row never |
| Frames.CompleteRowsConcat | windrose_master.py:32 | `dropna` keeps the rows' relative order: dropping from two blocks one after the other is dropping from each block and joining the results |
| Frames.BeforeDot | windy.py:18 | the part of a name before its first dot; a name with no dot is unchanged |
| Frames.RenameLookup | windy.py:18-19 | after cutting the headers at their first dot, looking a name up is a missing column exactly when no header cuts to it, a duplicate exactly when two do, and otherwise finds the one header that does |
| Frames.RenameRestoresRepeat | windy.py:18-19 | the headers `ddd`, `ff`, `ddd.1` (pandas' name for a repeated `ddd`) cut back to two `ddd` columns, so the lookup reports a duplicate |
| Frames.ColumnIndex | windrose_master.py:35 | `df[name]` succeeds exactly when the name labels one column; missing-column exactly when absent; duplicate exactly when two columns carry it |
| Tally.GroupCount | windrose_master.py:45 | each row counts the observations with its key, which is positive; the rows' keys are exactly the keys that occur, each once, ordered by direction in the given order and then by class; the counts add up to the number of observations |
| Tally.GridOrdered | windrose_master.py:45 | the grid of every direction against every class, built from lists without repeats, is ordered by direction first and class second |
| Tally.CountRowsOrdered | windrose_master.py:45 | dropping the empty cells of an ordered grid keeps the remaining keys in order |
| Tally.ZeroFill | windrose_master.py:48-51 | the table is kept as a prefix; each appended row is a listed point not yet present, under the placeholder class with count 0 |
| Tally.ZeroFillCovers | windrose_master.py:48-51 | afterwards every listed point has a row |
| Tally.ZeroFillAppendsOnce | create_windrose.py:40-43 | no point is appended twice, because membership is checked against the growing table |
| Tally.ZeroFillTotal | windrose_master.py:48-51 | the total count is unchanged |
| Tally.ZeroFillRepeatedNorth | create_windrose.py:40-43 | the 17-entry list with `N` twice gives the same table as the 16 points |
| Tally.MissingRows | windy.py:26-27 | one zero row per listed point absent from the table, and none for a present point |
| Tally.MissingRowsCount | windy.py:26 | the list comprehension yields each point absent from the table as many times as it is listed, and a present point never |
| Tally.ZeroFillConcat | windy.py:26-28 | the table is kept as a prefix; each appended row is a listed point absent from the table, under the placeholder class with count 0; afterwards every listed point has a row, and an absent point has as many rows as it is listed |
| Tally.ZeroFillAgrees | windy.py:25-28 | for a list without repeats, concatenating the missing rows equals the append loop |
| Tally.SortDirectionColumn | windrose_master.py:54 | fails on an unknown direction; otherwise class and count stay in place row by row, while the direction column becomes a compass-ordered permutation of itself |
| Tally.SortDirectionColumnKeepsRowsIff | windrose_master.py:54 | the step leaves the table unchanged exactly when its directions were already in compass order |
| Tally.SortDirectionColumnMisaligns | windrose_master.py:54 | on two rows out of compass order, each count ends up under the other row's direction |
| Tally.SortRows | windrose_master.py:54 | the intended sort: fails on an unknown direction, otherwise a compass-ordered permutation of the whole rows |
| Tally.SortRowsKeepsCounts | windrose_master.py:54 | on the same two rows, the intended sort swaps whole rows, so each count stays with its direction |
| Tally.Arrange | create_windrose.py:47 | either sort fails only on an unknown direction, keeps the length and yields compass order; the whole-row sort is a permutation |
| Tally.ArrangeKeeps | windy.py:29 | either sort keeps the multiset of directions and the total count |
| Tally.TotalPerm | windrose_master.py:54 | rearranging rows keeps the total count |
| Tally.KeysPerm | windrose_master.py:54 | rearranging rows keeps every key, and keeps the keys free of repeats |
| Percent.Share | windy.py:33 | `frequency / total * 100` for a non-zero total, between 0 and 100 when the count is at most the total |
| Percent.Percentages | windy.py:32-33 | all NaN (`0/0`) exactly when the total is zero; otherwise one value per row, proportional to the row's count |
| Percent.ZeroTotal | windy.py:32-33 | a zero total means every count is zero, so every NaN comes from `0/0` |
| Percent.PercentagesBounded | windy.py:33 | every percentage lies between 0 and 100 |
| Percent.PercentagesSumTo100 | windy.py:32-33 | with a non-zero total the percentages add up to exactly 100 |
| Pivoting.LookupRow | windrose_master.py:64 | with distinct keys, looking up a row's key finds that row's count |
| Pivoting.Pivot | windrose_master.py:64-65 | fails exactly when two rows share a (direction, class) pair; otherwise the grid is every class against every direction that occurs |
| Pivoting.PivotCells | windrose_master.py:64-65 | each row's count sits in its own cell, and every other cell holds 0 |
| Pivoting.MonthPivotOfSheet | windrose_master.py:56-65 | looking up the name of a sheet that no later sheet shares gives the pivot of that sheet's own table |
| Pivoting.MonthPivotNoSheet | windrose_master.py:56-64 | a month that no sheet is named after is a missing-key error |
| WindFrequency.GroupOrder | windrose_master.py:45 | the order `groupby` lists directions in: the compass points, each once, in increasing string order |
| WindFrequency.KeyOf | windrose_master.py:45 | an observation has a key exactly when its speed falls in a class; the key is its point together with the label of the class its speed falls in |
| WindFrequency.TagSize | windrose_master.py:45 | the observations with no class are the ones dropped |
| WindFrequency.TagCount | windrose_master.py:45 | each key occurs among the tagged keys as often as observations have that point and class |
| WindFrequency.Extract | windrose_master.py:35 | fails exactly when `ddd` or `ff` is missing or repeated, reporting `ddd` first; otherwise one observation per row with that row's values |
| WindFrequency.Grouped | windrose_master.py:45 | the grouped rows are compass points, each row's count is the number of observations with its point and class, every pair with a positive count has a row, no pair has two, and the total is the number counted |
| WindFrequency.Filled | windrose_master.py:45-51 | after grouping and zero-fill, every listed point has a row; each row's count is the number of observations with its point and class; every pair with a positive count has a row; no pair has two rows (for the concatenating fill, when the point list has no repeats); the total is the number counted |
| WindFrequency.FillCovers | windy.py:25-28 | both zero-fill styles leave a row for every listed point |
| WindFrequency.FillTotal | windy.py:25-28 | both zero-fill styles keep the total |
| WindFrequency.FillKeys | windy.py:25-28 | both zero-fill styles keep every grouped key; the append loop keeps the keys free of repeats, and so does the concatenation when the point list has none |
| WindFrequency.Tabulate | windrose_master.py:45-54 | when every listed point is a compass point, grouping, zero-fill and sorting never fail |
| WindFrequency.TabulateShape | windrose_master.py:45-54 | after sorting, every listed point still has a row and the total is the number of counted observations |
| WindFrequency.TabulateCounts | windrose_master.py:45-54 | with the whole-row sort, each row's count is the number of observations with its point and class, every pair with a positive count has a row, and no pair has two rows (for the concatenating fill, when the point list has no repeats) |
| WindFrequency.CountsSurviveSort | windrose_master.py:54 | the intended sort keeps every row's count equal to the number of observations with that row's direction and class, keeps a row for every pair with a positive count, and keeps the keys free of repeats |
| WindFrequency.CountedFixed | windrose_master.py:43-45 | with the knot classes, exactly the observations with positive speed are counted |
| WindFrequency.CountedDynamic | create_windrose.py:31-37 | with the range classes, exactly the observations faster than the slowest are counted |
| WindFrequency.MasterSheetTable | windrose_master.py:29-56 | one sheet's table fails exactly when `ddd` or `ff` is missing or repeated |
| WindFrequency.MasterSheetTableShape | windrose_master.py:45-54 | a sheet with both columns gives a table in which all 16 points have a row, and whose total is the number of rows with positive speed |
| WindFrequency.MasterSheetTableCounts | windrose_master.py:45-54 | with the whole-row sort, each row's count is the number of rows with its point and knot class; every (point, class) pair that occurs has a row, and no pair has two |
| WindFrequency.SheetNamesMembers | windrose_master.py:27 | the sheet names are exactly the names some sheet carries |
| WindFrequency.FirstWithoutDirections | windrose_master.py:27-37 | the first sheet whose `ddd` lookup fails, with every earlier sheet having one |
| WindFrequency.Collect | windrose_master.py:40-56 | fails exactly when some sheet's table fails, with the error of the first such sheet; otherwise one entry per sheet name |
| WindFrequency.CollectLatest | windrose_master.py:56 | a sheet's table is the one stored under its name unless a later sheet has the same name |
| WindFrequency.MasterTables | windrose_master.py:18-60 | no tables at all exactly when some sheet lacks `ddd` or `ff`; a missing `ddd` anywhere is reported before any count; otherwise one table per sheet name |
| WindFrequency.MasterTablesLatest | windrose_master.py:41-56 | each sheet name maps to that sheet's own table |
| WindFrequency.CreateWindroseTable | create_windrose.py:16-49 | a column error is passed on; otherwise it fails, with `pd.cut`'s error, exactly when the range classes cannot be built (all speeds equal, none at all, or two labels printing alike) |
| WindFrequency.WideSpeedsGiveBins | create_windrose.py:31-37 | two observations whose speeds differ by more than half a knot are enough for the range classes to be built |
| WindFrequency.CreateWindroseTableChain | create_windrose.py:31-47 | bridging lemma: when both columns are there and the range classes are built, the table is `Tabulate` over the 16-point list with the append loop and the first range label as placeholder |
| WindFrequency.CreateWindroseTableShape | create_windrose.py:31-47 | with both columns and range classes that are built, a table is built; all 16 points have a row, and the total is the number of observations faster than the slowest |
| WindFrequency.CreateWindroseTableCounts | create_windrose.py:37-47 | when the range classes are built and whole rows are sorted, each row's count is the number of observations with its point and range class; every (point, class) pair that occurs has a row, and no pair has two |
| WindFrequency.WindyTable | windy.py:15-37 | fails exactly when, after cutting names at the first dot, `ddd` or `ff` is missing or repeated; otherwise the percentage column belongs to the returned table |
| WindFrequency.WindyTableChain | windy.py:17-33 | bridging lemma: with both columns after the renaming, the table is `Tabulate` over the 8 points, the knot classes and the concatenating fill, and the percentages are those of that table |
| WindFrequency.WindyTableShape | windy.py:17-33 | with both columns after the renaming a table is built; all 8 points have a row; the total is the number of rows with positive speed; the percentages add up to 100 when that number is positive and are all NaN otherwise |
| WindFrequency.WindyTableCounts | windy.py:24-29 | with the whole-row sort, each row's count is the number of rows with its point and knot class; every (point, class) pair that occurs has a row, and no pair has two |

## Left out

- The Streamlit pages, file upload, selection boxes, plotting and download link: these are user-interface code with no bearing on the counts.
- Excel reading (`pd.ExcelFile`, `read_excel` with its column range and skipped rows): a sheet is given as an already parsed `Frames.Frame`.
- Duplicate sheet names are accepted by `WindFrequency.Collect`: a workbook cannot contain two, and a later name wins as in the dictionary.
- pibalstat.py: it passes raw columns to an external plotting library whose binning is not visible.
- Floating point: bearings and speeds are exact reals. So there is no rounding near a sector or class boundary, and no infinities. The `replace(inf, NaN)` after `dropna` therefore has nothing to act on.
- The text of the range labels: `SpeedBins.Span` carries the two edges. Their one-decimal rendering is modelled only as far as `pd.cut` needs it, to refuse labels that print alike.
- SpeedBins.Print1: rounds the exact real half to even. Python formats the nearest double, so a value at or next to a half tenth (0.15, say) may print differently.
- `groupby` on a categorical class emits zero rows for unused categories unless `observed=True`. The model produces only the occurring (direction, class) pairs. Extra zero rows would change neither a count nor a total.
- `DataFrame.append` was removed in pandas 2. The model follows the pandas 1 behaviour the scripts were written against.
- The error message shown by `st.error`: a failure is a `Failure` value, and the routine's `None` result is its absence of a table.
- A repeated `ddd` or `ff` column is modelled as an error. For windy.py such a column can arise when cutting names at the dot. pandas would hand back a frame instead of a column, and the following step raises.
- Percent.Percentages: a zero total is the single value `AllNaN(rows)` instead of one IEEE NaN per row.

## Findings

| source | as written | input that shows it | evidently intended | confidence | as-written member | corrected member |
|---|---|---|---|---|---|---|
| windrose_master.py:54 | the sorted direction list is assigned to the `wind_direction` column alone, so class and count stay in their old rows (same line at create_windrose.py:47 and windy.py:29) | grouped rows `(E, 0-5 knot, 3)`, `(N, 6-10 knot, 1)` in `groupby` order: afterwards `N` carries 3 at `0-5 knot` and `E` carries 1 at `6-10 knot` | reorder whole rows into compass order, so that each count stays with its direction | high, not executed | Tally.SortDirectionColumnMisaligns | Tally.SortRows |

`Tally.SortRows` is a permutation of whole rows by its contract. `Tally.SortRowsKeepsCounts` runs it on the same two rows. Both sorts are available to every routine through `Tally.Sorting`. The end-to-end count lemmas are proved for the corrected `WholeRows` sort:

- `WindFrequency.MasterSheetTableCounts`;
- `WindFrequency.CreateWindroseTableCounts`;
- `WindFrequency.WindyTableCounts`.

Coverage, totals and percentages hold for both sorts.
