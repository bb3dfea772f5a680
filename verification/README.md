# Delivery delay dashboard: a verified model of its data pipeline

The dashboard is a Streamlit script, `app.py`. It loads a table of food
deliveries and runs the same steps top to bottom on every page load:

1. It cleans the table:
   - nulls in each categorical column it has (Weather, Traffic, Vehicle, Area, Category) become `"Unknown"`;
   - null agent ratings become the mean rating;
   - null agent ages become the median age.
2. It derives a per-row `Is_Late` flag: delivery time above the full table's mean plus one sample standard deviation.
3. It computes the percentage of late deliveries and an agent age bucket.
4. It offers five sidebar option lists: `"All"` followed by the sorted distinct values of each column.
5. It filters the table by the five selections.
6. It aggregates the filtered rows for the charts:
   - mean delivery time per (Weather, Traffic), per Vehicle and per Area;
   - late rate per Weather.

This project models that pipeline in Dafny and proves what each step promises.

Modules:

- `Wrappers`: `Option` (NaN and null are `None`) and `Result`.
- `Records`:
  - the `Row` of the loaded file, with optional categorical and numeric fields and a real `Delivery_Time`;
  - the derived `Record`, which adds `Is_Late` and `Agent_Age_Group`;
  - the `Schema` of which columns the file has;
  - column projections.
- `Stats`:
  - pandas' `sum`, `mean`, `dropna`, `fillna` and `median` on exact reals;
  - the sample variance (`ddof=1`).
- `Cleaning`: lines 89-98. The categorical loop is a method with a loop over the five columns. The rating and age fills are functions on the table.
- `Features`: lines 100-110.
  - The threshold and `Is_Late` flag, `late_percentage` and `age_group`.
  - `Derive`, the whole block as a method checked against the function `DeriveSpec`.
- `Options`: `options` (lines 117-118), with a lexicographic string order and an insertion sort that drops duplicates.
- `Filters`: the filter chain (lines 126-131). `ApplyFilters` is a method that narrows `filtered_df` one column at a time. `Where` is boolean-mask indexing.
- `Aggregate`: the group-bys of lines 169, 175, 187 and 197-198, as maps from group key to value.
- `Dashboard`: one run of the script.
  - `RunDashboard` is checked against `DashboardSpec`. Its steps are: features, then the option lists, then filtering and aggregation.
  - It also states the cross-step properties: late flags and the late percentage are fixed over the unfiltered table, and selections narrow the charts.

Conventions:

- The sample standard deviation needs a square root. It is therefore a parameter `std`, constrained by `Stats.IsSampleStdDev`: `std * std` is the sample variance, and `std` is `None` (NaN) when there are fewer than two rows.
- A column the script reads but the file lacks raises a `KeyError` in pandas. Here it is `Err(MissingColumn(name))`:
  - `Delivery_Time` at line 100;
  - `Agent_Age` at line 110;
  - the first absent categorical column at lines 120-124.
- An absent `Agent_Rating` is only skipped.

How the code behaves at its edges:

- For delivery times 10, 20, 30 and 100 the mean is 40 and the sample standard deviation is sqrt(5000/3), about 40.8. Only the 100-minute delivery is late (`Features.ThresholdExample`).
- An absent categorical column is skipped by the cleaning loop (lines 89-92), but `options(df[col])` at lines 120-124 raises `KeyError` for it (`Dashboard.OptionLists`).
- An age that is still NaN after the fill (every age was null, so the median is NaN) fails both comparisons of lines 105-108 and is labelled `"40+"` (`Features.AgeGroup`).

## Model

| member | source | states |
|---|---|---|
| Records.CountLate | app.py:102-103 | the number of late records is at most the table size, and is zero exactly when no record is late |
| Stats.Mean | app.py:94-95 | the mean is defined (not NaN) exactly when the column has a value |
| Stats.MeanBetween | app.py:94-95 | the mean of values within bounds lies within those bounds |
| Stats.Observed | app.py:94-98 | `dropna` never lengthens a column |
| Stats.ObservedMembers | app.py:94-98 | `dropna` keeps exactly the observed values |
| Stats.ObservedFrom | app.py:94-98 | every value `dropna` keeps comes from an observed entry of the column |
| Stats.ObservedWithin | app.py:94-98 | `dropna` keeps only values within any bounds the observed entries respect |
| Stats.ObservedEmpty | app.py:94-98 | nothing is observed exactly when every entry is null, i.e. when the null count is the column length |
| Stats.FillNone | app.py:94-98 | `fillna(v)` keeps every observed entry, puts `v` at every null and keeps the length |
| Stats.FillNoneObservedLength | app.py:94-98 | after filling with a value, every entry is observed |
| Stats.FillNoneObservedSum | app.py:94-95 | after filling with `m`, the observed total is the old total plus `m` once per null |
| Stats.NullMassIsProduct | app.py:94-95 | the amount a fill with `m` adds is `m` times the number of nulls |
| Stats.ObservedCount | app.py:94-98 | the observed count plus the null count is the column length |
| Stats.FillWithMeanKeepsMean | app.py:94-95 | filling nulls with the mean leaves the mean unchanged, including when every entry is null |
| Stats.FillNoneKeepsExcess | app.py:94-95 | filling nulls with `m` does not change by how much the observed values exceed `m` in total |
| Stats.SortAsc | app.py:97-98 | the sorted column is ascending and a permutation of the input |
| Stats.Median | app.py:97-98 | the median is defined exactly when the column has a value |
| Stats.MedianBalanced | app.py:97-98 | at most half the values lie strictly below the median, and at most half strictly above |
| Stats.MedianWithinRange | app.py:97-98 | the median lies between the smallest and the largest value |
| Stats.SampleVariance | app.py:101 | the sample variance (divisor n - 1) is never negative |
| Stats.IsSampleStdDev | app.py:101 | the std is defined (not NaN) exactly when there are at least two values; then it is non-negative and its square is the sample variance |
| Cleaning.CleanCats | app.py:89-92 | present columns end up non-null, nulls become "Unknown", observed values and absent columns are kept, numeric fields untouched |
| Cleaning.FillColumn | app.py:92 | `fillna("Unknown")` on one column: its nulls become "Unknown", its observed values are kept, other columns and the numeric fields are untouched |
| Cleaning.CleanCategoricals | app.py:89-92 | after the loop, every row has its present columns non-null, nulls there became "Unknown", observed values and absent columns are kept, numeric fields untouched |
| Cleaning.FillCategoricals | app.py:89-92 | the loop over the five columns leaves the table equal to cleaning every row |
| Cleaning.RatingFill | app.py:95 | the rating fill value (`mean`) is defined (not NaN) exactly when some rating is observed |
| Cleaning.FillRatings | app.py:94-95 | rows with a rating are unchanged; a null rating becomes the mean of the observed ratings |
| Cleaning.FillRatingsColumn | app.py:94-95 | the filled rating column is `fillna` of the column with its own mean |
| Cleaning.FillRatingsComplete | app.py:94-95 | when any rating is observed, no rating stays null |
| Cleaning.FillRatingsKeepsMean | app.py:94-95 | the rating mean after the fill equals the mean before it |
| Cleaning.FillRatingsInRange | app.py:94-95 | filled ratings stay within any bounds the observed ratings respect |
| Cleaning.FillRatingsIdempotent | app.py:94-95 | filling ratings twice is the same as filling once |
| Cleaning.AgeFill | app.py:98 | the age fill value (`median`) is defined (not NaN) exactly when some age is observed |
| Cleaning.FillAges | app.py:97-98 | rows with an age are unchanged; a null age becomes the median of the observed ages |
| Cleaning.FillAgesComplete | app.py:97-98 | when any age is observed, no age stays null |
| Cleaning.AgeFillIsMedian | app.py:97-98 | the age fill value splits the observed ages into halves |
| Cleaning.FillAgesInRange | app.py:97-98 | filled ages stay within any bounds the observed ages respect |
| Cleaning.FillAgesIdempotent | app.py:97-98 | filling ages twice is the same as filling once |
| Cleaning.FillsIndependent | app.py:94-98 | the rating and age fills commute: each column is handled independently |
| Cleaning.CleanedCategoricals | app.py:89-98 | after the whole block, present categorical columns are non-null, nulls became "Unknown", other values are kept and Delivery_Time is untouched |
| Cleaning.CleanedRatings | app.py:94-95 | after the whole block, a row's rating is the raw mean fill when it was null and the rating column exists, else the raw rating |
| Cleaning.CleanedAges | app.py:97-98 | after the whole block, a row's age is the raw median fill when it was null and the age column exists, else the raw age |
| Cleaning.Cleaned | app.py:89-98 | the cleaned table has one row per loaded row (the per-column effects are the three lemmas above) |
| Features.AgeGroup | app.py:105-108 | exactly one of three buckets: below 25, 25 to 40 inclusive, above 40 or NaN |
| Features.AgeGroupBoundaries | app.py:105-108 | ages 24, 25, 40 and 41 fall into "<25", "25-40", "25-40" and "40+" |
| Features.Threshold | app.py:102 | the threshold is defined exactly when both the mean and the std are, and is at least the mean when the std is non-negative |
| Features.IsLate | app.py:102 | a NaN threshold makes no delivery late |
| Features.LatePercentage | app.py:103 | the late percentage is defined exactly for a non-empty table |
| Features.LateMean | app.py:103 | the mean of the `Is_Late` column is the share of late rows |
| Features.LatePercentageIsShare | app.py:103 | the late percentage is defined exactly for a non-empty table, is 100 x late rows / all rows, and lies in [0, 100] |
| Features.DeriveSpec | app.py:89-110 | fails exactly when Delivery_Time or Agent_Age is absent; otherwise one record per loaded row |
| Features.Derive | app.py:89-110 | the block, run step by step, gives `DeriveSpec` |
| Features.DerivedRows | app.py:89-110 | every derived record holds the cleaned row, and its age bucket is that of the median-filled raw age |
| Features.DerivedLateness | app.py:100-102 | the mean is over the raw times, the threshold is mean plus std, and a record is late exactly when its time exceeds the threshold |
| Features.DerivedLatePercentage | app.py:103 | the late percentage is 100 x late rows / all rows of the full table, defined exactly when the table is non-empty |
| Features.NothingLateWithoutStd | app.py:101-102 | with fewer than two rows the std is NaN and no row is late |
| Features.ExampleStatistics | app.py:100-101 | times 10, 20, 30, 100 have mean 40 and sample variance 5000/3 |
| Features.ThresholdExample | app.py:100-102 | for those times only the 100-minute delivery is late |
| Features.LatePercentageExample | app.py:103 | for those times the late percentage is 25 |
| Options.StrLess | app.py:118 | Python's string `<`: a proper prefix sorts first, and no string is less than itself |
| Options.StrLessIrreflexive | app.py:118 | the string order used by `sorted` is irreflexive |
| Options.StrLessTransitive | app.py:118 | the string order is transitive |
| Options.StrLessTotal | app.py:118 | any two distinct strings are ordered one way or the other |
| Options.AscendingDistinct | app.py:118 | a strictly ascending list has no duplicates |
| Options.InsertDistinctMembers | app.py:118 | inserting into the sorted list adds exactly the new value |
| Options.InsertDistinctAscending | app.py:118 | inserting keeps the list strictly ascending |
| Options.SortedDistinct | app.py:118 | `sorted(unique(...))` is strictly ascending with the same members |
| Options.Values | app.py:118 | the distinct values are exactly those some row holds in the column |
| Options.FilterOptions | app.py:117-118 | "All" first, then a strictly ascending, duplicate-free list of exactly the column's non-null values |
| Filters.Where | app.py:127-131 | boolean-mask indexing never lengthens the table |
| Filters.Passes | app.py:127-131 | a selection "All" lets every row through; any other selection never matches a null |
| Filters.KeepSelected | app.py:126-131 | the filtered table is no longer than the table, and every row in it is from the table and passes all five selections |
| Filters.WhereWhere | app.py:126-131 | filtering twice is filtering once by the conjunction |
| Filters.WhereAll | app.py:126 | a mask true everywhere keeps the table as is |
| Filters.WhereMembers | app.py:127-131 | a record is kept exactly when it is in the table and passes the mask |
| Filters.WhereIndices | app.py:127-131 | the kept positions are increasing, in range, and exactly those passing the mask |
| Filters.WhereAtIndices | app.py:127-131 | the k-th kept record is the record at the k-th kept position |
| Filters.WhereSplit | app.py:127-131 | the records a mask keeps and the records its negation keeps together are the table's records, as a multiset, so their counts add up to the table's length |
| Filters.SelectedMeans | app.py:126-131 | passing the chain means passing every column's predicate |
| Filters.ChainSkip | app.py:127-131 | a line whose selection is "All" leaves `filtered_df` unchanged |
| Filters.ChainNarrow | app.py:127-131 | any other line narrows `filtered_df` by one more column |
| Filters.ChainStart | app.py:126 | before the chain, `filtered_df` is the whole table |
| Filters.ApplyFilters | app.py:126-131 | the chain run line by line gives the rows passing all five selections, in order |
| Filters.FilterIsOrderedSubsequence | app.py:126-131 | the filtered table is the table's rows at the selected positions, in increasing order, no longer than the table |
| Filters.KeptRowsMatch | app.py:126-131 | every kept row equals each selection that is not "All" |
| Filters.DroppedRowsMismatch | app.py:126-131 | every dropped row differs from some selection that is not "All" |
| Filters.AllSelectionsKeepEverything | app.py:126-131 | with all five selections "All" the filtered table is the table row for row |
| Filters.FilterComplement | app.py:126-131 | the rows the chain keeps and the rows it drops together are the table's rows, as a multiset, so their counts add up to the table's length |
| Aggregate.Keys | app.py:169 | the group keys are exactly the non-null key values present |
| Aggregate.Group | app.py:169-198 | a group is no longer than the table, and every member is from the table and holds the key |
| Aggregate.GroupMembers | app.py:169 | a group holds exactly the rows with its key |
| Aggregate.GroupOfKey | app.py:169 | a group is non-empty exactly when its key occurs, so there are no zero-count groups |
| Aggregate.MeanTimeBy | app.py:175 | one entry per key present |
| Aggregate.MeanTimeByIsGroupMean | app.py:175 | each entry is its group's mean delivery time: times the group size it is the group's total |
| Aggregate.MeanTimeByWithinBounds | app.py:175 | each entry lies within any bounds on its group's delivery times |
| Aggregate.NoRowsNoGroups | app.py:169-198 | an empty table gives no groups |
| Aggregate.MeanTimeByWeatherTraffic | app.py:169 | one entry per (Weather, Traffic) pair of some row; rows with either null are dropped |
| Aggregate.MeanTimeByVehicle | app.py:175 | one entry per Vehicle value present |
| Aggregate.MeanTimeByArea | app.py:187 | one entry per Area value present |
| Aggregate.LateRateByWeather | app.py:197-198 | one entry per Weather value present |
| Aggregate.LateRateIsShare | app.py:197-198 | each weather's entry is 100 x late rows / group size of a non-empty group, in [0, 100] |
| Dashboard.FirstMissing | app.py:120-124 | the first categorical column, in sidebar order, that the table lacks, or none when all are present |
| Dashboard.OptionLists | app.py:120-124 | fails exactly when a categorical column is absent, naming the first one; otherwise five lists, each starting with "All" |
| Dashboard.BuildOptions | app.py:120-124 | the five `options` calls in order give `OptionLists` |
| Dashboard.ViewOf | app.py:126-198 | the count card shows the filtered length, at most the table's; every filtered row is from the table and passes all selections; the mean-time and late-percentage cards are the full table's |
| Dashboard.FirstMissingAt | app.py:120-124 | the first absent column is the one at position k when all before it are present |
| Dashboard.DashboardSpec | app.py:89-198 | fails exactly when Delivery_Time, Agent_Age or a categorical column is absent; the count card shows the filtered length, at most the table's; each of the five option lists starts with "All" |
| Dashboard.RunDashboard | app.py:89-198 | a run step by step gives `DashboardSpec` |
| Dashboard.LatenessSurvivesFiltering | app.py:100-102 | a filtered row is late exactly when its time exceeds the full table's mean plus std |
| Dashboard.LatePercentageIgnoresSelection | app.py:103 | the late-percentage card is 100 x late rows / all rows of the unfiltered table, whatever the selections |
| Dashboard.AllSelectionsShowEverything | app.py:126-131 | with every selection "All", the filtered table is the derived table and the count is the row count |
| Dashboard.OptionsOfCleanedColumn | app.py:117-124 | each option list is "All" plus the sorted values of the cleaned column, and includes "Unknown" when the loaded column had a null |
| Dashboard.OptionsOfDerivedColumn | app.py:117-118 | the option list of a derived column lists exactly the cleaned values, with "Unknown" when the loaded column had a null |
| Dashboard.SelectionNarrowsGroups | app.py:169-198 | a selected value is the only key left in the charts grouped by its column |
| Dashboard.GroupKeysNarrowed | app.py:175 | when every row holds one value in a column, that value is the only group key |
| Dashboard.PairGroupsNarrowed | app.py:169 | every (Weather, Traffic) key of the first chart agrees with the Weather selection and with the Traffic selection, whichever is not "All" |
| Dashboard.KeysMatchSelection | app.py:126-131 | every value a filtered row holds in a selected column is the selection |
| Dashboard.EmptySelectionNoGroups | app.py:169-198 | a selection matching no row leaves every chart without groups |

## Left out

- Loading the file (`pd.read_csv`, lines 80-84) and its `st.cache_data` memoisation: the loaded table is an input.
- Page configuration, CSS, markdown, KPI card HTML and chart layout (lines 9-75, 136-166, 207-217): presentation only. The KPI values themselves are in `Dashboard.View`.
- The Streamlit widgets (lines 115, 120-124): the five selections are parameters. A selection is any string, not necessarily one of its options.
- Plotly figure construction (lines 168-202, apart from the group-bys). This includes the scatter and box plots, which pass `filtered_df` through unchanged, and the `ValueError` plotly raises when `Agent_Rating` is absent.
- The square root inside `std` (line 101): `std` is a parameter constrained by its square.
- IEEE floating point: all arithmetic is exact `real`.
- A null `Delivery_Time`: the time is a non-null `real`, so NaN propagation through the mean, std and comparison is not modelled.
- Aggregate.MeanTimeByWeatherTraffic, Aggregate.MeanTimeByVehicle, Aggregate.MeanTimeByArea, Aggregate.LateRateByWeather: results are maps, so the ascending key order of pandas' `groupby` output and `reset_index` is not modelled.
- The median is computed from an insertion sort rather than pandas' selection algorithm; only its value is modelled.
- Mixed-type categorical columns, on which `sorted` raises: categorical values are strings here.
