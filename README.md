# NYC taxi CO2 pipeline — a Dafny model

This project models a four-stage batch pipeline over an embedded analytical
store (DuckDB). The stages are load, clean, transform and analyse, and they
process NYC yellow-cab and green-cab trip records for 2024.

- **load** rebuilds one raw table per fleet from that fleet's parquet files, in
  sorted path order, and loads an emission-factor lookup from a CSV file.
- **clean** keeps the distinct raw rows that pass a validity filter. It first
  reconciles column names that differ between the fleets (`tpep_*` and `lpep_*`).
- **transform** adds to each row its CO2 mass, its average speed and the
  calendar fields of its pickup time.
- **analyse** runs read-only queries, prints reports for each fleet, and skips a
  fleet whose table is missing.

The store is a `Catalog` (`map<string, Table>`) held by a `Connection` object
(`store.dfy`). Its methods are the SQL statements the stages issue: drop if
exists, create as a query result, insert into, and close. Each stage has two
parts:

- a function of the catalog, `CleanStage`, `TransformStage`, `LoadStage` or
  `AnalysisRun`. It gives both the tables the stage leaves and the result it
  returns or the error it raises;
- a method that issues the statements one by one on the connection, and is
  proved to end in that state.

The lemmas beside each stage function state what the stage promises: row
conservation, filter invariants, replace-not-append idempotence, failure before
any change, and order and extremal properties of the reports.

SQL NULL is `Option`. Details follow the store's semantics:

- `ORDER BY ... DESC` puts NULLs last;
- `AVG` and `SUM` skip NULLs, and give NULL when every value is NULL;
- column identifiers match ignoring (ASCII) case;
- Python's `sorted` on paths is lexicographic by code point.

Modules: `Text` (case folding, substring, string order), `Seqs` (filter, first-
occurrence distinct, count), `Sorting` (stable insertion sort under a total
preorder), `Store`, `Fleets` (the per-fleet table, column and tag names),
`Load`, `Clean`, `Transform`, `Analysis`.

Points where the code's behaviour may be surprising:

- The cleaning filter has no lower bound on trip duration (clean.py:50). The
  four verification queries do not check the year (clean.py:61-66).
- A missing emission factor gives NULL CO2 values (the scalar subquery is
  empty, transform.py:36-39). It is not a fatal error.
- `avg_mph` is NULL whenever the duration is not positive, not only when it is
  zero (transform.py:42-44).
- clean.py, transform.py and analysis.py catch nothing. An exception ends the
  whole run, including the other fleet, and leaves the connection unclosed.
  Only load.py catches errors, and it closes the connection in `finally`
  (load.py:119-128).
- The largest-trip line formats the CO2 value with `:.4f`. When every CO2 value
  of a non-empty table is NULL, that value is Python `None` and the format
  raises (analysis.py:103-107). The model returns `FormatFailed` in that case.

## Model

| member | source | states |
|---|---|---|
| Text.LexLeqTotalOrder | load.py:33-34 | the code-point order `sorted` uses on paths is total, transitive and antisymmetric |
| Seqs.Filter | clean.py:46-51 | a WHERE clause keeps only rows that satisfy it, keeps every such row of its input, and never adds rows |
| Seqs.FilterMultiset | clean.py:46-51 | a WHERE clause keeps each satisfying row as many times as it occurs and drops every other row |
| Seqs.FilterConcat | clean.py:46-51 | a WHERE clause keeps the rows in their input order: the rows of a concatenation are filtered part by part |
| Seqs.Distinct | clean.py:45 | `SELECT DISTINCT` has no duplicates, the same members as its input, and no more rows |
| Seqs.CountIf | clean.py:68-70 | a `COUNT(*) ... WHERE` is at most the row count, and zero exactly when no row satisfies the condition |
| Seqs.CountIfFilter | clean.py:68-70 | a `COUNT(*) ... WHERE` is the number of rows the WHERE clause keeps |
| Sorting.Sort | analysis.py:53 | an ORDER BY is a permutation of its input |
| Sorting.SortSorts | analysis.py:53 | under a total preorder the ordered rows are sorted |
| Sorting.SortedUnique | load.py:33-34 | two sorted permutations of the same elements are equal when only equal elements tie |
| Sorting.SortExtremes | analysis.py:53-58 | the first ordered row precedes every input row and the last follows every one; both are input rows |
| Store.Connection.Connect | load.py:21 | connecting opens the database with its tables and the requested read-only flag |
| Store.Connection.DropIfExists | clean.py:40 | `DROP TABLE IF EXISTS` removes exactly that table |
| Store.Connection.Create | clean.py:43-52 | `CREATE TABLE AS` adds exactly that table |
| Store.Connection.InsertRows | load.py:56 | an insert of a file whose column count matches appends its rows; otherwise it fails and changes nothing |
| Store.Connection.Close | load.py:126-127 | closing keeps the tables |
| Clean.ResolveColumn | clean.py:18-22 | get_column_name's first match, as a function of the column list; its meaning is stated by ResolveColumnSpec and ResolvedIsColumn |
| Clean.KeepTrip | clean.py:47-51 | the WHERE condition of the cleaning query; what it keeps is stated by CleanRows |
| Clean.CheckCount | clean.py:68-70 | the count of one verification query; see CheckCountsZero and Seqs.CountIfFilter |
| Clean.CleanStage | clean.py:24-72 | clean_table as a function of the database, giving the tables it leaves and its report or error; see CleanFailsBeforeDrop, CleanStageContents and CleanStageIdempotent |
| Clean.CleanMainStage | clean.py:74-81 | clean.py's main as a function of the database; see CleanMainSpec |
| Clean.ResolveColumnSpec | clean.py:18-22 | `get_column_name` gives None exactly when no candidate equals a column ignoring case; otherwise it gives the table's spelling of the first match, candidates taking precedence over columns |
| Clean.ResolvedIsColumn | clean.py:20-21 | the returned name is one of the table's own columns |
| Clean.GetColumnName | clean.py:13-22 | the nested loop with early return computes the first-match column, and fails on a missing table |
| Clean.ResolveRoles | clean.py:28-34 | the four roles resolve together or the stage raises; each resolved role is the first match of its own candidate list, and is a table column |
| Clean.CleanRows | clean.py:43-51 | the clean rows have no duplicates, are exactly the raw rows passing the filter, and are no more than the raw rows |
| Clean.CleanRowsIdempotent | clean.py:43-51 | cleaning clean rows changes nothing |
| Clean.CheckCountsZero | clean.py:61-70 | each verification query finds zero rows in a cleaned table |
| Clean.RunChecks | clean.py:68-72 | the loop over the verification queries gives one count per check, in order |
| Clean.CleanFailsBeforeDrop | clean.py:33-34 | an unresolved role raises before the drop, leaving the database unchanged |
| Clean.CleanStageContents | clean.py:40-72 | on success the clean table holds the filtered distinct raw rows with the raw columns, the counts are raw and clean row counts, all four checks are 0, and no other table changes |
| Clean.CleanStageIdempotent | clean.py:40-44 | a second run on an unchanged raw table leaves the same database and report |
| Clean.CleanTable | clean.py:24-72 | clean_table statement by statement ends in the state and result of the stage function |
| Clean.CleanMainSpec | clean.py:74-81 | yellow is cleaned first and a failure there stops the run; on success each fleet's clean table comes from its own raw table |
| Clean.CleanMain | clean.py:74-81 | main runs yellow then green and closes the connection only when both succeed |
| Transform.Co2Kgs | transform.py:36-39 | `trip_distance * factor / 1000.0`, NULL without a factor; see DeriveSpec |
| Transform.AvgMph | transform.py:42-44 | the CASE expression for `avg_mph`; see DeriveSpec |
| Transform.Derive | transform.py:33-50 | one row of the SELECT: the clean row and its six derived columns; see DeriveSpec and DeriveRanges |
| Transform.DeriveAll | transform.py:31-53 | the rows of the SELECT over the clean table; see TransformStageContents and DeriveAllInRange |
| Transform.TransformStage | transform.py:19-56 | transform_table as a function of the database; see TransformStageContents, TransformStageFailure and TransformStageIdempotent |
| Transform.TransformFleet | transform.py:65-78 | one of main's calls, with a fleet's table names, timestamp columns and vehicle type; see TransformMainSpec |
| Transform.TransformMainStage | transform.py:60-80 | transform.py's main as a function of the database; see TransformMainSpec |
| Transform.FactorFor | transform.py:37-39 | the factor subquery gives the first factor tagged with the fleet's vehicle type, NULL when there is none |
| Transform.DeriveSpec | transform.py:33-50 | each derived row carries the clean row; CO2 times 1000 is distance times factor; the speed is NULL exactly when the duration is not positive and otherwise covers the distance in the duration; hour, day and month come from the pickup and the week is one less |
| Transform.DeriveRanges | transform.py:36-50 | a trip with positive distance and a non-negative factor has a non-negative CO2; a well-formed pickup gives fields in 0-23, 0-6, 0-52 and 1-12 (`InRange`) |
| Transform.DeriveAllInRange | transform.py:47-50 | every row derived from well-formed pickups has its calendar fields in the ranges the analysis reports expect |
| Transform.TransformStageContents | transform.py:25-56 | on success the transformed table has one derived row per clean row in order, the clean columns then the six derived ones, the clean row count as report, and no other table changes |
| Transform.TransformStageFailure | transform.py:25-53 | when the CREATE fails, only the dropped transformed table is gone |
| Transform.TransformStageIdempotent | transform.py:25-32 | a rerun on unchanged inputs leaves the same database and count |
| Transform.TransformTable | transform.py:19-58 | transform_table statement by statement ends in the state and result of the stage function |
| Transform.TransformMainSpec | transform.py:60-80 | yellow runs first with `tpep_*` and `yellow_taxi`, and a failure there stops the run; on success each fleet's table holds its own clean rows derived with its own factor |
| Transform.TransformMain | transform.py:60-80 | main's statements end in the state and result of the two-fleet stage function |
| Transform.TwoYellowTripsExample | transform.py:36-44 | 10 miles in an hour and 5 miles in half an hour at 400 g/mile give 4 kg and 2 kg, both at 10 mph |
| Analysis.LargestIndex | analysis.py:38-43 | the row `ORDER BY trip_co2_kgs DESC LIMIT 1` returns: its CO2 sorts at or before every row's under DESC NULLS LAST, and it is the first such row |
| Analysis.PeriodOf | analysis.py:49-51 | the grouping column of a row; see GroupByMatches |
| Analysis.InPeriod | analysis.py:49-51 | the rows of one group; see GroupByMatches and FilterMultiset |
| Analysis.SqlSum | analysis.py:64 | `SUM` skipping NULLs, NULL when no value is present; see MonthlyTotalsSpec |
| Analysis.SqlAvg | analysis.py:49 | `AVG` skipping NULLs, NULL when no value is present; see PeriodRowsSpec and PeriodMeanWithoutNulls |
| Analysis.GroupBy | analysis.py:49-52 | the GROUP BY accumulation of count, sum and non-NULL count per period; see GroupByShape and GroupByMatches |
| Analysis.PeriodRows | analysis.py:48-54 | the rows of the grouped query before ordering; see PeriodRowsSpec |
| Analysis.RankedPeriods | analysis.py:53 | the grouped rows under `ORDER BY avg_co2 DESC`; see HeaviestAndLightestSpec |
| Analysis.HeaviestAndLightest | analysis.py:45-58 | heaviest_and_lightest; see HeaviestAndLightestSpec |
| Analysis.MonthlyTotals | analysis.py:60-68 | monthly_totals; see MonthlyTotalsSpec |
| Analysis.LabelOf | analysis.py:111-120 | the `transform` passed to print_heavy_light; see HourLabelRange and NameLabels |
| Analysis.PeriodReport | analysis.py:110-120 | one heaviest_and_lightest call and its print_heavy_light; see EmptyReport and the three ReportLabels lemmas |
| Analysis.TableExists | analysis.py:26-33 | table_exists; see AnalyseFleetMissing |
| Analysis.AnalyseFleet | analysis.py:93-123 | the body of main's loop for one fleet; see AnalyseFleetMissing |
| Analysis.AnalyseRows | analysis.py:102-123 | the queries and prints on a fleet's rows, raising on a NULL largest CO2; see AnalyseFleetMissing and LargestTripNull |
| Analysis.RunFleets | analysis.py:92-135 | main's loop with any body, an exception ending it; see AnalysisRunSpec |
| Analysis.AnalysisRun | analysis.py:92-97 | main's loop over the fleets with its per-fleet body; see AnalysisRunSpec |
| Analysis.LargestTrip | analysis.py:35-43 | the largest trip is None exactly on an empty table; otherwise it is some row's (CO2, distance), and its CO2 sorts at or before every row's under DESC NULLS LAST |
| Analysis.LargestTripIsMaximum | analysis.py:38-43 | when some row has a CO2 value, the largest trip has one and it is at least that value |
| Analysis.LargestTripExample | analysis.py:38-43 | of trips emitting 4 kg over 10 miles and 2 kg over 5 miles, the first is the largest |
| Analysis.LargestTripNull | analysis.py:103-106 | the reported largest trip has a NULL CO2 exactly when the table is non-empty and all CO2 values are NULL |
| Analysis.GroupByShape | analysis.py:49-52 | GROUP BY gives distinct keys, one for each row's period, and the group counts add up to the row count |
| Analysis.GroupByMatches | analysis.py:49-52 | each group's count, CO2 sum and non-NULL count are those of the rows of its period, and its count is positive |
| Analysis.PeriodRowsSpec | analysis.py:48-54 | each grouped row is one distinct period value with n > 0 rows and the SQL mean of their CO2; every row's period is grouped; the counts add up to the row count |
| Analysis.PeriodMeanWithoutNulls | analysis.py:49 | with no NULL CO2, a period's mean is its CO2 sum over its row count |
| Analysis.HeaviestAndLightestSpec | analysis.py:45-58 | an empty table gives (None, None); otherwise the first grouped row has the largest mean and the last the smallest, both among the grouped rows |
| Analysis.MonthlyTotalsSpec | analysis.py:60-68 | one total for each distinct month, in strictly ascending order; each is the SQL sum of that month's CO2 values |
| Analysis.HourLabelRange | analysis.py:111 | the hour label `h % 24 + 1` lies in 1-24 and is the hour plus one for hours 0-23 |
| Analysis.NameLabels | analysis.py:19-24 | day and month numbers in range get names; any other number is printed as itself |
| Analysis.PrintHeavyLight | analysis.py:70-82 | no data exactly when either row is missing; otherwise both rows are reported |
| Analysis.EmptyReport | analysis.py:55-57 | an empty table reports no data |
| Analysis.DayReportLabels | analysis.py:113-114 | with days in range the day report prints day names |
| Analysis.MonthReportLabels | analysis.py:119-120 | with months in range the month report prints month names |
| Analysis.HourReportLabels | analysis.py:110-111 | with hours in range the hour report prints the hour plus one |
| Analysis.AnalyseFleetMissing | analysis.py:92-97 | a fleet is reported missing exactly when its table is absent; its queries fail exactly on a table of the wrong kind or whose CO2 values are all NULL |
| Analysis.AnalysisRunSpec | analysis.py:92-135 | the loop fails exactly when one fleet fails; otherwise there is one report per fleet in order, and a missing table is reported without stopping the other fleet |
| Analysis.AnalysisMain | analysis.py:84-139 | main opens the store read-only, leaves every table unchanged, runs the loop with `continue`, and closes only when the loop completes |
| Load.PathLeq | load.py:33-34 | the order `sorted` puts paths in; see Text.LexLeqTotalOrder |
| Load.SortByPath | load.py:33-34 | `sorted(glob.glob(...))`; see SortByPathSpec and SortByPathUnique |
| Load.ConcatRows | load.py:55-62 | the rows of the files, in order; see InsertFilesAll and ConcatRowsCount |
| Load.FileRowTotal | load.py:72-73 | the files' total row count; see ConcatRowsCount and FileRowTotalSorted |
| Load.SameWidth | load.py:55-62 | every file has the table's column count; see InsertFilesAll |
| Load.InsertFiles | load.py:55-62 | the insert loop over one fleet's files, stopping at the first failing insert; see InsertFilesAll and InsertFilesStops |
| Load.StatsPickupColumn | load.py:106 | the pickup column chosen by the "yellow" substring test; see StatsPickupColumnOfFleet |
| Load.StatsRun | load.py:89-112 | whether both stats queries of a table find their columns; see StatsFailure |
| Load.RunStats | load.py:85-116 | the stats loop on the connection returns the first table whose queries fail, as StatsFailure states |
| Load.LoadStage | load.py:19-116 | load_parquet_files's try block as a function of the database; see LoadStageFrame, LoadStageIdempotent, LoadStageMissingInput, LoadStageSucceedsWhen, LoadStageContents and LoadStageYellowFails |
| Load.LoadFiles | load.py:41-62 | creating the two raw tables and inserting the files; see LoadStageContents and LoadStageYellowFails |
| Load.LoadLookup | load.py:64-116 | loading the CSV lookup, the counts and the stats loop; see LoadStageSucceedsWhen |
| Load.SortByPathSpec | load.py:33-34 | the sorted file list is ordered by path and holds the same files |
| Load.SortByPathUnique | load.py:33-34 | any two listings of the same files with distinct paths sort to the same sequence |
| Load.InsertFilesAll | load.py:55-62 | the insert loop completes exactly when every file has the table's width, and then it has appended every file's rows in order |
| Load.InsertFilesStops | load.py:55-62 | when the loop stops at the first file of another width, the rows of the files before it have been appended |
| Load.ConcatRowsCount | load.py:72-73 | the concatenated rows have as many rows as the files together |
| Load.FileRowTotalSorted | load.py:33-34 | sorting the files keeps their total row count |
| Load.StatsPickupColumnOfFleet | load.py:106 | the stats query of each raw table reads that fleet's own pickup column |
| Load.StatsFailure | load.py:85-116 | the stats loop fails exactly when some table lacks a column it names, and then it fails at such a table |
| Load.LoadStageFrame | load.py:25-29 | tables other than the three source tables are unchanged |
| Load.LoadStageIdempotent | load.py:25-29 | all three tables are dropped first, so a rerun on the same files leaves the same database and report |
| Load.LoadStageMissingInput | load.py:36-38 | with no files for either fleet the stage fails after the drop: none of the three tables exists and nothing else changed |
| Load.LoadStageSucceedsWhen | load.py:19-116 | the stage succeeds exactly when both fleets have files, every file has its first sorted file's width, the CSV is readable and the stats queries find their columns |
| Load.LoadStageContents | load.py:41-74 | on success each raw table has its first sorted file's columns and all its files' rows in sorted path order; the counts are the files' total rows and the lookup holds the CSV rows |
| Load.LoadStageYellowFails | load.py:41-56 | a yellow file of another width leaves the yellow table with the rows of the files before it and an empty green table, and the lookup is not loaded |
| Load.InsertAll | load.py:55-62 | the insert loop on the connection ends in the state the insert function gives |
| Load.LoadBody | load.py:24-116 | the try block statement by statement ends in the state and result of the stage function |
| Load.LoadParquetFiles | load.py:15-128 | the connection is closed on every path, and the error is caught and returned rather than raised |

## Left out

- download_data.py is not part of this model. It does HTTP streaming and checks
  the filesystem.
- Logging, `print` and plotting (matplotlib, `os.makedirs`) are left out. Values
  the code prints are returned as results: the clean and load counts, the
  verification counts, and the reports.
- File and CSV parsing, `glob` matching and `PRAGMA table_info` are left out.
  A parquet file is given as a path, a column list and a row sequence, and the
  CSV as its rows, or None when it cannot be read. The glob results are given
  as inputs in the order the listing produced them.
- Failing to connect to the store is not modelled.
- Every parquet file is assumed readable. A corrupt or unreadable file would
  make the CREATE or the INSERT fail (load.py:41-62); only the CSV has a
  read-failure case (`ReadFailed`).
- Calendar extraction (`date_diff`, `date_part`, `strftime`) is not modelled.
  An instant carries its seconds and its year, hour, day of week, week number
  and month as given values.
- Floating point is not modelled. Distances, factors, CO2 and means are `real`,
  so there is no rounding and no `:.4f` formatting. A NULL mean that pandas
  prints as `nan` is simply NULL here.
- NULL values in the passenger, distance and timestamp columns are not
  modelled. Only CO2 and speed can be NULL.
- Column types are not modelled. An insert fails only on a column-count
  mismatch, and a query fails only on a missing column or on a table of the
  wrong kind.
- A scalar subquery returning several factor rows raises in the store. The
  model uses the first matching factor instead.
- The DISTINCT and GROUP BY row orders are not modelled faithfully, because SQL
  leaves them unspecified. The model uses first-occurrence order, and ties under
  `ORDER BY avg_co2 DESC` keep that order. Among trips tied on CO2,
  `ORDER BY trip_co2_kgs DESC LIMIT 1` may return any one; `LargestIndex`
  takes the first. The stated properties do not depend on these choices.
- The min, max and avg values of load.py's stats queries are display only, so
  only whether the queries run is modelled.
- Load.LoadStage: when a stats query fails after the three counts were printed,
  the model returns only the error, not the counts.
- Case folding is ASCII-only, and identifiers with non-ASCII letters are not
  modelled.
- The store's identifier splicing and the behaviour of quoted identifiers are
  not modelled.
