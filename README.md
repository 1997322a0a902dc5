# Vehicle crash dashboard: the data shaping, in Dafny

The dashboard loads a CSV file of Massachusetts vehicle crashes for 2017 and draws
them as a line graph, a bar plot, a pie chart or a map. This project models the
computation behind those views, with the plotting, mapping and widget calls removed:

- **Loading** (`loading_data`), in module `Loader`. The Month column is taken from
  the parsed crash date. Then every row whose LAT or LON is missing is dropped.
- **Monthly counts** (`groupby('Month').size().reset_index(name='Crashes')` in
  `lineplot`, `barplot` and `crashStats`), in module `Monthly`. The result has one row
  per month that occurs, in increasing month order, with that month's number of
  records. A month without records has no row; it is not given a zero.
- **`crashStats`**, in module `Stats`. It returns the sum, maximum and minimum of the
  monthly counts.
- **The line graph's lookup**, in module `LineView`. It reads the selected month's count
  with `.iloc[0]` on a boolean selection, and that raises when the month has no row.
  The model gives a `Failure(PositionOutOfBounds)` result there.
- **The pie chart's categories**, in module `Categories`. `value_counts()` counts a
  column. Every category whose share is below 2.5 percent is summed into an `'Other'`
  entry and removed. The float test `count / total * 100 < 2.5` is written exactly
  as `count * 40 < total`.
- Module `Records` holds the row types. Module `Scenarios` holds worked examples, one of them starting from records.

Records are values (`CsvRow`, `Crash`). A missing value (NaN in pandas) is `None`.
The pie column is chosen from the closed set `Field = County | CollisionType`
(`CNTY_NAME`, `MANR_COLL_DESCR`). The computations modelled here have no loops, so every
operation is a function. Lines 25-26 assign the CRASH_DATE and Month columns into the
data frame in place; `DeriveMonths` models that by building new rows that carry the
Month value. In `piechart`, line 69 inserts `'Other'` into the count series and line 70
rebinds it after the drop; `Collapse` models both as one function that builds the new
series.

Edge cases of the code that the model makes explicit:

- For a selected month with no records, `.iloc[0]` at line 35 raises.
  `LinePlotData` fails exactly then.
- With shares 50/45/3/2 percent, only the 2 percent category is below 2.5
  (`FourCategoriesScenario`). The 3 percent category keeps its own wedge.
- Line 69 always adds `'Other'`, holding 0 when no category is below the threshold
  (`OtherAlwaysPresent`).

## Model

| member | source | states |
|---|---|---|
| `Loader.WithMonth` | VehicleCrashVisualization.py:25-26 | the derived month is the parsed date's calendar month, so it lies in 1..12; every other column (date, LAT, LON, county, collision type, severity) is carried over unchanged |
| `Loader.DeriveMonths` | VehicleCrashVisualization.py:26 | the Month column is added to every row: same length, row i gets the month of row i's date |
| `Loader.DropMissingCoords` | VehicleCrashVisualization.py:27 | a record is in the result exactly when it is in the input and has both LAT and LON; the result is never longer |
| `Loader.Load` | VehicleCrashVisualization.py:23-28 | every loaded record has both coordinates and a month in 1..12 equal to its date's month |
| `Loader.LoadKeepsExactly` | VehicleCrashVisualization.py:27 | a CSV row appears, with its month, in the loaded data exactly when it is in the CSV and has both coordinates |
| `Loader.LoadDistributes` | VehicleCrashVisualization.py:27 | loading two blocks of rows equals loading each and concatenating: kept rows keep their relative order |
| `Loader.LoadSize` | VehicleCrashVisualization.py:27 | the loaded size equals the number of rows with both coordinates, and equals the CSV size exactly when no row misses one |
| `Loader.LoadIdempotent` | VehicleCrashVisualization.py:27 | dropping rows with missing coordinates again changes nothing |
| `Records.CountMonthPositive` | VehicleCrashVisualization.py:32 | a month's record count is positive exactly when some record has that month |
| `Monthly.Bump` | VehicleCrashVisualization.py:32 | counting one more record keeps the table sorted by month with positive counts, and adds its month to the set of months |
| `Monthly.BumpCounts` | VehicleCrashVisualization.py:32 | counting one more record adds one to its month's count and to the total, and no other month changes |
| `Monthly.MonthlyCounts` | VehicleCrashVisualization.py:32 | the group-by table is strictly sorted by month, its counts are positive, each month's count is its number of records, and the counts sum to the number of records |
| `Monthly.CountInPresent` | VehicleCrashVisualization.py:49 | in a sorted table of positive counts, a month has a row exactly when its count is positive |
| `Monthly.MonthlyRows` | VehicleCrashVisualization.py:109 | the table has a row for a month exactly when some record has that month, and each row holds that month's number of records |
| `Stats.MaxCrashes` | VehicleCrashVisualization.py:111 | the maximum is at least every row's count and is the count of some row |
| `Stats.MinCrashes` | VehicleCrashVisualization.py:112 | the minimum is at most every row's count and is the count of some row |
| `Stats.Summarize` | VehicleCrashVisualization.py:110-112 | the sum of the counts; the max and min are absent (NaN) exactly for an empty table, and otherwise bound every row and are attained |
| `Stats.CrashStats` | VehicleCrashVisualization.py:108-113 | the total is the number of records; max and min exist exactly for non-empty data; max bounds every month's count, min bounds every present month's count, and both are the count of some present month |
| `LineView.CrashesWhere` | VehicleCrashVisualization.py:35 | the boolean selection holds exactly the counts of the rows for the month, and is empty exactly when the month has no row |
| `LineView.SelectedMonthCrashes` | VehicleCrashVisualization.py:35 | `.iloc[0]` succeeds exactly when the month has a row, and then gives that month's positive count |
| `LineView.LinePlotData` | VehicleCrashVisualization.py:31-36 | the line view fails exactly when no record falls in the selected month; otherwise it reports that month's record count and name, and its points are sorted by month, one per month present, each holding that month's record count and together summing to the number of records |
| `Categories.Tally` | VehicleCrashVisualization.py:65 | counting one more value keeps categories distinct and counts positive, and adds the value to the categories |
| `Categories.TallyCounts` | VehicleCrashVisualization.py:65 | counting one more value adds one to its count and to the sum, and no other category changes |
| `Categories.ValueCounts` | VehicleCrashVisualization.py:65 | one entry per distinct value, with a positive count equal to its number of records; missing values are skipped, so the sum is the number of records with a value |
| `Categories.ValueCountsLabels` | VehicleCrashVisualization.py:65 | a category appears exactly when some record holds it |
| `Categories.LargeEntries` | VehicleCrashVisualization.py:70 | the kept entries are exactly the input entries at or above the threshold |
| `Categories.SplitSum` | VehicleCrashVisualization.py:68-70 | the kept entries' sum plus the small entries' sum is the total |
| `Categories.LargeEntriesCounts` | VehicleCrashVisualization.py:70 | a category survives the drop exactly when it was present at or above the threshold, and it keeps its count |
| `Categories.Collapse` | VehicleCrashVisualization.py:66-70 | small categories are removed and large ones keep their counts; `'Other'` is the last entry and holds the sum of the removed counts; categories stay distinct; the total is unchanged |
| `Categories.OtherAlwaysPresent` | VehicleCrashVisualization.py:69 | `'Other'` is always present, and holds 0 exactly when no category is below the threshold |
| `Categories.PieWedges` | VehicleCrashVisualization.py:64-70 | the wedges sum to the number of records with a value (the percentages sum to 100); a non-`'Other'` category is a wedge exactly when it occurs at or above the threshold, with its record count |
| `Scenarios.ThreeMonthsScenario` | VehicleCrashVisualization.py:108-113 | for counts {1:5, 3:3, 12:2} the summary is (10, 5, 2); the February lookup fails and the March lookup gives 3 |
| `Scenarios.ThreeRecordsScenario` | VehicleCrashVisualization.py:108-113 | three records in January, March and December give the table {1:1, 3:1, 12:1} and the summary (3, 1, 1) |
| `Scenarios.FourCategoriesScenario` | VehicleCrashVisualization.py:66-70 | for counts A:50, B:45, C:3, D:2 only D is collapsed, giving A:50, B:45, C:3, Other:2 |

## Left out

- CSV reading and date parsing (`pd.read_csv`, `pd.to_datetime`, lines 24-25) are library I/O. A row comes in with its date already parsed (`CrashDate`, a real calendar date). A missing file or an unparseable date, both errors of the library, is not modelled.
- A row whose CRASH_DATE is missing is not modelled: every `CsvRow` has a date. In the code, `pd.to_datetime` turns a missing date into NaT without raising (line 25), so the row gets a NaN Month (line 26) and survives the coordinate filter (line 27). `groupby('Month')` then drops NaN keys (lines 32, 49, 109), so the code's monthly counts can sum to fewer than the loaded rows. `MonthlyCounts` and `CrashStats` promise a sum equal to the number of records only because such rows are absent here.
- The Streamlit layer is not modelled: title, button, image, video, subheader, selectboxes, `st.write` and the top-level dispatch in lines 116-149. The slider's month is a parameter of `LinePlotData`, and its range 1..12 is that function's precondition.
- The bar view with an absent month is not modelled. Line 54 puts ticks only at the months present, and line 55 then sets all twelve month names. When a month is absent, current matplotlib rejects the mismatch with a ValueError, and older versions put the wrong names on the bars.
- Drawing is not modelled: the matplotlib calls, colours, ticks and the bar-label loop in lines 37-45, 50-61 and 71-79, the `show_grid` flag, and the `explode` list in line 73, which compares raw counts against 2.5.
- `map_display` (lines 82-103) is not modelled. It is a pydeck call, and its centre is a floating-point mean of LAT and LON.
- Float percentages are not modelled. Only the threshold decision is, as `count * 40 < total`. This is exact over the rationals, so rounding at the exact 2.5 percent boundary is not captured.
- `Categories.ValueCounts`: gives categories in order of first occurrence. `value_counts()` sorts them by descending count, and that order only affects how the wedges are drawn.
- `Categories.Collapse`: requires that no category is literally `'Other'`. Line 69 would overwrite such a category and line 70 might then drop it, and that behaviour is not modelled. `Categories.PieWedges` carries the same requirement on the records.
- Counts are unbounded integers. pandas uses 64-bit counts, which cannot overflow at this data size.
