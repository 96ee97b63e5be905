# Bike-sharing dashboard: the data-derivation layer in Dafny

The dashboard loads a pre-cleaned table of daily bike rentals. It sorts the
table by date and re-indexes it. It then keeps the rows inside a user-chosen
date range, inclusive at both ends. Over that view it computes three column
totals (all, casual and registered rides) and three bar charts of mean daily
rides: per weather condition, per season, and per day type (Weekend or
Weekday). In each chart the bars whose mean equals the largest mean are
highlighted, so tied maxima are all highlighted.

This project models that layer and proves its properties:

- `rows.dfy`, module `Rows`: the row datatype. Dates are day numbers counted
  from 1970-01-01. The two derived columns are `Option` fields, where `None`
  means the column has not been added yet.
- `loader.dfy`, module `Loader`: the in-place sort by date (insertion sort
  over an `array` of index-labelled rows) and the in-place index reset.
- `range_filter.dfy`, module `RangeFilter`: the inclusive date-range mask and
  the table's own date bounds, which are the default selection.
- `weekdays.dfy`, module `Weekdays`: day of the week (Monday = 0), the
  `is_weekend` column and the `day_type` label. Both columns are written into
  the view in place by loops over an `array`.
- `aggregate.dfy`, module `GroupMeans`: group-by-mean over the weather,
  season and day-type columns, with means as exact `real`s.
- `highlight.dfy`, module `Highlight`: the maximum mean and the highlight
  flags.
- `totals.dfy`, module `Totals`: the three column sums.
- `dashboard.dfy`, module `Dashboard`: one pass of the script, from the
  loaded table and a date range to the metrics and charts.

Two behaviours of the code are worth stating up front:

- The code does not check that start <= end. For an inverted range the mask
  selects nothing and the view is empty (`RangeFilter.InvertedRangeIsEmpty`).
- pandas' `groupby` sorts the keys. See "Left out" for what the model states
  instead.

## Model

| member | source | states |
|---|---|---|
| `Loader.SortByDate` | dashboard/app.py:24 | afterwards the rows are in ascending date order and the entries (row with index label) are a permutation of the entries before |
| `Loader.ResetIndex` | dashboard/app.py:25 | afterwards every entry's label is its position 0..n-1 and every row is unchanged |
| `Loader.MultisetRows` | dashboard/app.py:24 | two frames that hold the same entries up to order also hold the same rows up to order, so sorting permutes the rows |
| `Loader.Load` | dashboard/app.py:20-25 | the loaded table has as many rows as the input, labels 0..n-1, rows in ascending date order, and its rows are a permutation of the input rows |
| `RangeFilter.FilterMembership` | dashboard/app.py:37-38 | a row is in the view exactly when it is in the table and start <= date <= end, both ends included |
| `RangeFilter.InvertedRangeIsEmpty` | dashboard/app.py:37-38 | a range with start after end gives an empty view, not an error |
| `RangeFilter.FilterRange` | dashboard/app.py:37-38 | the boolean-mask selection in table order, never longer than the table; its meaning is proved in `FilterMembership`, `FilterIsSubsequence` and `FilterKeepsEveryCopy` |
| `RangeFilter.FilterIsSubsequence` | dashboard/app.py:37-38 | the view is the table restricted to exactly its in-range positions, in order: each view row sits at a strictly increasing table position, each such position is in range, and every in-range position, duplicates included, is one of them |
| `RangeFilter.FilterKeepsEveryCopy` | dashboard/app.py:37-38 | the view has exactly as many rows as the table has in-range positions, so a day that occurs twice in range is counted twice |
| `RangeFilter.FilterKeepsSorted` | dashboard/app.py:37-38 | a date-sorted table gives a date-sorted view |
| `RangeFilter.CoveringRangeKeepsAll` | dashboard/app.py:37-38 | a range covering every date of the table keeps the whole table, in order |
| `RangeFilter.DateBounds` | dashboard/app.py:28-29 | the min and max date: absent exactly for an empty table; otherwise every date lies between them and both are the date of some row |
| `RangeFilter.SortedBounds` | dashboard/app.py:24-29 | for a sorted non-empty table the bounds are the first and the last row's dates |
| `RangeFilter.DefaultRangeKeepsAll` | dashboard/app.py:28-38 | the default selection [min date, max date] keeps the whole table |
| `Weekdays.DayOfWeek` | dashboard/app.py:8 | `dt.dayofweek` of a day number: always 0 (Monday) to 6 (Sunday); `NextDayOfWeek` and `WeekendExamples` pin it to the calendar |
| `Weekdays.IsWeekendDate` | dashboard/app.py:8 | `dayofweek >= 5`, Saturday or Sunday; its meaning is proved in `WeekendWeekly` and `WeekendExamples` |
| `Weekdays.WithWeekendFlags` | dashboard/app.py:8 | the view with the weekend column added, keeping the row count; `WeekendFlagMeaning` proves what each row holds |
| `Weekdays.NextDayOfWeek` | dashboard/app.py:8 | consecutive days have consecutive days of the week, Sunday (6) wrapping to Monday (0) |
| `Weekdays.WeekendWeekly` | dashboard/app.py:8 | being a weekend repeats every seven days |
| `Weekdays.WeekendExamples` | dashboard/app.py:8 | 2024-01-06 and 2024-01-07 (Saturday, Sunday) are weekend days; 2024-01-08 (Monday) is not |
| `Weekdays.MarkWeekends` | dashboard/app.py:7-9 | the array holds afterwards the view with the weekend flag set on every row |
| `Weekdays.WeekendFlagMeaning` | dashboard/app.py:8 | flagging keeps the row count; a row is flagged weekend iff its day of the week is >= 5; every other column is unchanged |
| `Weekdays.WeekendFlagDependsOnDateOnly` | dashboard/app.py:8 | rows with the same date get the same flag |
| `Weekdays.DayTypeLabel` | dashboard/app.py:100 | the `replace` mapping from the flag to its label; its meaning is proved in `DayTypeLabelMeaning` |
| `Weekdays.DayTypeLabelMeaning` | dashboard/app.py:100 | the label is Weekend exactly for a true flag and Weekday exactly for a false one, so each row gets exactly one of the two |
| `Weekdays.AddDayTypes` | dashboard/app.py:100 | the array holds afterwards the flagged view with the day-type label set from each row's flag |
| `Weekdays.Labelled` | dashboard/app.py:100 | the view with both derived columns, keeping the row count; `LabelledMeaning` proves what each row holds |
| `Weekdays.LabelledMeaning` | dashboard/app.py:100 | in the labelled view each row's day type is Weekend or Weekday, Weekend iff its date is a Saturday or Sunday, and only the two derived columns differ from the input row |
| `GroupMeans.GroupTotal` | dashboard/app.py:12 | the days or the rides of one group; its meaning is proved in `GroupNonEmptyIffPresent`, `RidesAtLeast`, `RidesAtMost` and `GroupsPartitionRows` |
| `GroupMeans.GroupNonEmptyIffPresent` | dashboard/app.py:12 | a group has at least one day exactly when some row carries its key |
| `GroupMeans.GroupKeys` | dashboard/app.py:12 | the output keys are pairwise distinct, and a key is listed exactly when its group is non-empty |
| `GroupMeans.Mean` | dashboard/app.py:12 | a group's mean times its number of days is its total rides |
| `GroupMeans.Aggregate` | dashboard/app.py:11-17 | `groupby(...)['count'].mean().reset_index()`, also used at line 101; its meaning is proved in `AggregateMeaning`, `MeanWithinGroup` and `AggregateOfNothing` |
| `GroupMeans.AggregateMeaning` | dashboard/app.py:11-17 | one entry per distinct key present in the input, no key twice, and each entry's mean is the group's rides divided by its days |
| `GroupMeans.AggregateOfNothing` | dashboard/app.py:11-17 | empty input gives an empty aggregate |
| `GroupMeans.GroupMin` | dashboard/app.py:12 | the smallest count of a non-empty group: a count of some row of the group and at most every count of the group |
| `GroupMeans.GroupMax` | dashboard/app.py:12 | the largest count of a non-empty group: a count of some row of the group and at least every count of the group |
| `GroupMeans.RidesAtLeast` | dashboard/app.py:12 | if every count of a group is at least lo, its rides are at least lo times its days |
| `GroupMeans.RidesAtMost` | dashboard/app.py:12 | if every count of a group is at most hi, its rides are at most hi times its days |
| `GroupMeans.MeanWithinGroup` | dashboard/app.py:12 | a group's mean lies between its smallest and its largest count |
| `GroupMeans.MeanBounds` | dashboard/app.py:12 | bounds lo..hi on every count of a group bound its mean |
| `GroupMeans.AggregateOnlyReadsKeyAndCount` | dashboard/app.py:41-43 | tables that agree row by row on the key column and on count have the same aggregate, so the added weekend column does not change the weather and season charts |
| `GroupMeans.GroupsPartitionRows` | dashboard/app.py:12 | summed over the output keys, the groups' days and rides equal those of all rows that have a key: the groups partition the rows |
| `GroupMeans.WeatherExample` | dashboard/app.py:11-13 | two clear days of 10 and 20 rides and a rainy day of 5 give Clear 15 and Rain 5 |
| `Highlight.MaxMean` | dashboard/app.py:70 | the maximum of a non-empty aggregate's means is at least every mean and equals one of them |
| `Highlight.Highlights` | dashboard/app.py:71 | the colour rule `x == max_value`, the same at lines 86 and 104; its meaning is proved in `HighlightMeaning`, `TiesAllHighlighted` and `SomeBarHighlighted` |
| `Highlight.HighlightMeaning` | dashboard/app.py:70-71 | one flag per bar, and a bar is flagged exactly when no bar has a larger mean (same rule at lines 85-86 and 103-104) |
| `Highlight.TiesAllHighlighted` | dashboard/app.py:85-86 | bars with equal means are flagged alike, so every tied maximum is highlighted |
| `Highlight.SomeBarHighlighted` | dashboard/app.py:103-104 | a non-empty chart highlights at least one bar |
| `Highlight.TieExample` | dashboard/app.py:70-71 | means 50, 50 and 30 highlight the first two bars and not the third |
| `Totals.Total` | dashboard/app.py:53-61 | the column sums of `count`, `casual_users` and `registered_users`, 0 for an empty view; its meaning is proved in `TotalAppend`, `TotalBounds` and `TotalsConsistent` |
| `Totals.TotalAppend` | dashboard/app.py:53 | a column sum over a split view is the sum of the sums of the parts |
| `Totals.TotalBounds` | dashboard/app.py:53-61 | each row's value is at most the column sum, and the sum is at most the row count times an upper bound on the values |
| `Totals.TotalsConsistent` | dashboard/app.py:53-61 | where every row has count = casual + registered, the total rides are the casual plus the registered rides |
| `Dashboard.Chart` | dashboard/app.py:70-71 | one bar per aggregate entry, with its key and mean, highlighted exactly when its mean is the largest |
| `Dashboard.Summarize` | dashboard/app.py:53-104 | the three totals and the season, weather and day-type charts of a view; `ChartsAgreeWithTotals`, `DayTypeChartMeaning` and `EmptyRangeGivesEmptySummary` prove what they hold |
| `Dashboard.TotalIgnoresWeekendFlags` | dashboard/app.py:41-53 | adding the weekend column leaves every column sum unchanged |
| `Dashboard.Derive` | dashboard/app.py:37-104 | the in-place pipeline (copy the view, flag weekends, group, label day types, group, sum) yields the summary of the filtered view |
| `Dashboard.DayTypeChartMeaning` | dashboard/app.py:100-101 | the day-type chart has at most two bars, labelled Weekend or Weekday; Weekend appears iff the view has a Saturday or Sunday, Weekday iff it has another day |
| `Dashboard.CategoryGroupsCoverView` | dashboard/app.py:12-16 | every row has a weather and a season key, so the keyed days are all the view's days and the keyed rides are the total rides metric |
| `Dashboard.ChartsAgreeWithTotals` | dashboard/app.py:11-17 | summed over the season or weather groups, the days give the view's length and the rides give the total rides metric |
| `Dashboard.DefaultSelectionShowsAll` | dashboard/app.py:28-38 | with the default selection the view is the whole loaded table |
| `Dashboard.EmptyRangeGivesEmptySummary` | dashboard/app.py:37-61 | a range holding no dates gives zero totals and three empty charts |

## Left out

- Reading the CSV file and parsing the date strings are file I/O and library
  parsing. Rows arrive typed, with dates as day numbers. A missing file or
  column is not modelled.
- The filter compares dates against `str(start_date)`. The model compares
  day numbers, which is the same for dates without a time of day.
- The Streamlit sidebar, date picker, metrics and headers are not modelled.
  Neither is matplotlib/seaborn rendering. All are presentation and foreign
  calls. The date range becomes the parameters `start` and `end`.
- Colour strings become the boolean `highlighted` flag.
- pandas' floating-point `mean()` is not modelled. Means are exact `real`s.
- Key order: pandas' `groupby` sorts the keys. The model lists keys in order
  of first appearance. `GroupMeans.AggregateMeaning` states only that each
  present key appears exactly once. It says nothing about their order.
- `Loader.SortByDate`: pandas' default sort is not stable. The model's
  insertion sort is stable. Its contract promises only sorted order and a
  permutation, which is what pandas promises.
- The view in the source is a slice of the loaded table. Copy-versus-view
  semantics when columns are written into it are not modelled. The model
  copies the view into a fresh array and writes the columns there.
- The filtered view keeps the loaded table's index labels. The model's view
  holds rows without labels, since nothing downstream reads them.
- The upstream promise count = casual + registered is never checked by the
  code. It appears only as the hypothesis of `Totals.TotalsConsistent`.
