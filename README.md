# AQIForecaster-SA feature pipeline, in Dafny

This project models the batch feature pipeline of AQIForecaster-SA and proves properties of the model. The pipeline has three parts:

- **Daily aggregation and reshape** (`DataProcessor`, module `DataProcessing`). Each raw measurement file holds `(parameter, datetime, value)` rows. A value that fails numeric coercion is dropped, and each timestamp is truncated to its date. The surviving readings are averaged per `(parameter, date)`, in pandas' sorted key order. The non-empty per-file tables are concatenated in file order. The concatenation is then pivoted into a wide table: one row per date, one column per parameter, and a missing cell where there is no reading.
- **Feature derivation** (`FeatureEngineer`, module `FeatureEngineering`). This is a class holding a data frame that its methods extend in place. They add the calendar columns `day_of_week` and `is_weekend`, lag columns `{c}_lag_{k}`, and trailing rolling columns `{c}_rolling_mean_{w}` and `{c}_rolling_std_{w}`.
- **Feature-store schema** (`FeatureStoreManager.generate_feature_descriptions`, module `FeatureStore`). This builds the list of feature names and descriptions for the fixed pollutants `no, no2, nox, o3`, lags `1, 2, 3` and window `3`.

Supporting modules:

- `Common` holds `Option`, `Result` and parsed timestamps. A timestamp is a day counted from 1970-01-01 plus a time of day.
- `Order` holds strictly sorted sequences. A sorted sequence is determined by its elements.
- `Text` holds Python's `str` order and the decimal rendering of an `int` inside an f-string, with its round trip.
- `FeatureNames` holds the column-name patterns that the engineer and the schema share. It proves that a name determines its column, its kind and its number.

Modelling choices:

- Values are exact `real`s, so means are exact.
- A failed coercion, NaN or NaT is `None` or `Missing`.
- A file that cannot be read or parsed is `CsvFile.Unreadable`.
- Exceptions are `Result` or `Status` values. An `add_*` method that raises part-way keeps the columns it already assigned, as pandas does.
- pandas `std()` is modelled as its square, the sample variance with `ddof=1`.
- Where a pandas operation is a loop over columns and lags in the source, the model uses a method with loop invariants. Each such method is proved equal to a specification function (`LagFeatures`, `RollingFeatures`, `SchemaOf`).

## Model

| member | source | states |
|---|---|---|
| `DataProcessing.FlattenAndPrepare` | aqiforecaster_sa/data_processor.py:18-50 | The result is `None` exactly when reading or parsing the file raises. Otherwise it is the daily aggregate: rows sorted by (parameter, date), so at most one per key; a row for every key carried by a surviving reading and for no other key; each value the mean of exactly the surviving readings with that key |
| `DataProcessing.Accumulate` | aqiforecaster_sa/data_processor.py:39 | The one-pass group-by yields a sorted group list. Each key's total and count are the sum and number of exactly the surviving readings with that key, and a key with no reading has no group |
| `DataProcessing.GroupCountPositive` | aqiforecaster_sa/data_processor.py:36-39 | A group is non-empty exactly when some surviving row carries its key |
| `DataProcessing.GroupPermutation` | aqiforecaster_sa/data_processor.py:39 | Reordering the raw rows changes no group's sum or count |
| `DataProcessing.AtMostOneRowPerKey` | aqiforecaster_sa/data_processor.py:39 | The daily table never holds two rows with the same (parameter, date) |
| `DataProcessing.DailyAggregateDetermined` | aqiforecaster_sa/data_processor.py:39-42 | Two daily aggregates of raw tables whose groups agree are the same table |
| `DataProcessing.SameGroupsSameTable` | aqiforecaster_sa/data_processor.py:39 | Raw tables with equal group sums and counts give equal daily tables |
| `DataProcessing.FlattenOrderIndependent` | aqiforecaster_sa/data_processor.py:39 | The daily table does not depend on the order of the raw rows |
| `DataProcessing.DroppedRowIgnored` | aqiforecaster_sa/data_processor.py:33-36 | A row whose value failed coercion, or whose parameter or date is missing, can be removed from any position without changing the daily table |
| `DataProcessing.FailedCoercionNotZero` | aqiforecaster_sa/data_processor.py:33-36 | A reading of 10 beside a failed coercion on the same day averages to 10, not 5: the failure is not read as zero |
| `DataProcessing.TimeOfDayIgnored` | aqiforecaster_sa/data_processor.py:30 | Moving a reading to another time on the same day leaves the daily table unchanged |
| `DataProcessing.DailyMeanExample` | aqiforecaster_sa/data_processor.py:30-42 | Readings of 10 and 20 at 08:00 and 20:00 on one day and 15 on the next give two rows `(date, "no2", 15)` in `datetime, parameter, value` order |
| `DataProcessing.SingleReadingTable` | aqiforecaster_sa/data_processor.py:39-42 | A file with a single reading gives a one-row table holding that reading |
| `DataProcessing.DailyTableNonEmpty` | aqiforecaster_sa/data_processor.py:36-39 | A readable file's daily table is non-empty exactly when one of its rows survives |
| `DataProcessing.Contributions` | aqiforecaster_sa/data_processor.py:56-62 | The collected tables are never empty and never outnumber the files |
| `DataProcessing.ConcatKeepsFileOrder` | aqiforecaster_sa/data_processor.py:58-66 | Concatenating the collected tables gives every file's daily rows, file after file, with no regrouping across files |
| `DataProcessing.ContributesIff` | aqiforecaster_sa/data_processor.py:65-73 | Some table is collected exactly when some readable file has a surviving row |
| `DataProcessing.AsWrittenAbortsOnUnreadable` | aqiforecaster_sa/data_processor.py:58-61 | As written, the loop raises (the result is `None`) exactly when some file is unreadable. Otherwise it collects what the corrected loop collects |
| `DataProcessing.UnreadableFileDiscrepancy` | aqiforecaster_sa/data_processor.py:59-60 | An unreadable first file makes the loop as written raise, while the corrected loop keeps the second file's table |
| `DataProcessing.DataProcessor.constructor` | aqiforecaster_sa/data_processor.py:8-16 | The processor starts with its files and no aggregated or wide table |
| `DataProcessing.DataProcessor.ProcessAllCsvFiles` | aqiforecaster_sa/data_processor.py:52-73 | The corrected loop of the Findings row, which skips an unreadable file: the file generator is exhausted. The stored aggregate becomes the concatenation of all files' daily rows if some table was collected, and otherwise stays as it was |
| `DataProcessing.DatesOf` | aqiforecaster_sa/data_processor.py:84 | The pivot index is strictly ascending and holds exactly the dates of the long table |
| `DataProcessing.ParametersOf` | aqiforecaster_sa/data_processor.py:84 | The pivot columns are strictly sorted and are exactly the parameters of the long table |
| `DataProcessing.CellsOf` | aqiforecaster_sa/data_processor.py:84 | A cell exists exactly for each (date, parameter) pair in the long table; no cell is invented |
| `DataProcessing.CellValue` | aqiforecaster_sa/data_processor.py:84 | Without repeated pairs, each long row's value is the value of its cell |
| `DataProcessing.Pivot` | aqiforecaster_sa/data_processor.py:84 | The pivot fails exactly when a (date, parameter) pair repeats. Otherwise it is the wide table: sorted dates and parameters, a cell exactly for each pair present, holding that pair's value |
| `DataProcessing.PivotDetermined` | aqiforecaster_sa/data_processor.py:84 | The wide table is determined by the long table: two pivots of it are equal |
| `DataProcessing.PivotExample` | aqiforecaster_sa/data_processor.py:84 | `no2` on two days and `o3` on the first gives two dates, two columns and a missing `o3` cell on the second day |
| `DataProcessing.OverlappingFilesPivotFails` | aqiforecaster_sa/data_processor.py:66-84 | Two files with a reading of the same parameter on the same day give two rows with that pair, and the pivot then fails |
| `DataProcessing.DataProcessor.CreateParameterTimeseries` | aqiforecaster_sa/data_processor.py:75-86 | With no stored aggregate the read fails. Otherwise the result is the pivot of the stored aggregate, and it is stored only when the pivot succeeds |
| `FeatureEngineering.DayOfWeek` | aqiforecaster_sa/feature_engineer.py:20 | The weekday lies in 0..6 |
| `FeatureEngineering.DayOfWeekNextDay` | aqiforecaster_sa/feature_engineer.py:20 | The weekday advances by one each day, wrapping from 6 to 0, and repeats every 7 days |
| `FeatureEngineering.DayOfWeekCalendar` | aqiforecaster_sa/feature_engineer.py:20 | 1970-01-01 is a Thursday (3), 2024-01-01 a Monday (0) and 2024-01-06 a Saturday (5) |
| `FeatureEngineering.CalendarColumnsOf` | aqiforecaster_sa/feature_engineer.py:20-21 | Over a timestamp column, the weekday is missing exactly where the timestamp is and lies in 0..6 elsewhere. The weekend flag holds exactly when the weekday is at least 5 |
| `FeatureEngineering.TimeFeaturesEffect` | aqiforecaster_sa/feature_engineer.py:13-21 | A missing `timestamp` column raises a KeyError and a column that is not datetime-like fails, both changing nothing. Otherwise the two calendar columns are set from `timestamp` and no other column changes |
| `FeatureEngineering.TimeFeaturesExtends` | aqiforecaster_sa/feature_engineer.py:20-21 | Adding calendar features keeps the row count and keeps the existing column names first and in order |
| `FeatureEngineering.ShiftShift` | aqiforecaster_sa/feature_engineer.py:33 | Shifting by `a` and then by `b` rows is shifting by `a + b` |
| `FeatureEngineering.ShiftExample` | aqiforecaster_sa/feature_engineer.py:33 | 15, 20, 25 shifted by one is missing, 15, 20: the leading cell is not back-filled |
| `FeatureEngineering.RollingMeanDefined` | aqiforecaster_sa/feature_engineer.py:43 | The rolling mean at row `i` is defined exactly when `1 <= w <= i + 1` and every cell of rows `i-w+1..i` holds a number. It is then the mean of those rows |
| `FeatureEngineering.RollingVarianceDefinedWithMean` | aqiforecaster_sa/feature_engineer.py:44 | For `w >= 2` the rolling std is defined at exactly the rows where the mean is. For `w < 2` it is never defined. It is never negative |
| `FeatureEngineering.RollingMeanIsMeanOfLags` | aqiforecaster_sa/feature_engineer.py:33-44 | The rolling mean and std at row `i` are those of the lag-`w-1` to lag-0 cells at row `i`: the window ends at the current row |
| `FeatureEngineering.RollingMeanExample` | aqiforecaster_sa/feature_engineer.py:43 | A window of 2 over 10, 20, 30, missing, 50 gives missing, 15, 25, missing, missing |
| `FeatureEngineering.FlagRollingExample` | aqiforecaster_sa/feature_engineer.py:43 | A boolean column is accepted by `rolling`: a window of 2 over True, False, True gives missing, 0.5, 0.5 |
| `FeatureEngineering.SampleVariance` | aqiforecaster_sa/feature_engineer.py:44 | The square of `std()` with `ddof=1` is never negative |
| `FeatureEngineering.AssignExtends` | aqiforecaster_sa/feature_engineer.py:33 | `df[name] = col` with a column of the frame's length keeps the frame well formed, keeps its row count and keeps its existing names first and in order |
| `FeatureEngineering.RunExtends` | aqiforecaster_sa/feature_engineer.py:31-44 | Any run of loop bodies keeps the row count and keeps the existing column names first and in order |
| `FeatureEngineering.RunOnlyChanges` | aqiforecaster_sa/feature_engineer.py:31-44 | A run of loop bodies changes no column other than the ones it assigns |
| `FeatureEngineering.RaisedStays` | aqiforecaster_sa/feature_engineer.py:31-44 | Once a loop body raises, no later body runs: the table and the error stay as they were |
| `FeatureEngineering.RunDone` | aqiforecaster_sa/feature_engineer.py:31-44 | When no body reads a column another one assigns, a run completes exactly when every body's check passes on the original table |
| `FeatureEngineering.RunRaisedAt` | aqiforecaster_sa/feature_engineer.py:31-44 | Otherwise the run raises the error of the first failing body, keeping the columns the bodies before it assigned |
| `FeatureEngineering.RunTargetsHold` | aqiforecaster_sa/feature_engineer.py:31-44 | For independent bodies, each body that passed holds at the end of the run the columns it computes from the original table |
| `FeatureEngineering.Rerun` | aqiforecaster_sa/feature_engineer.py:31-44 | Running independent bodies again over their own result repeats the first run's statuses and never changes the table |
| `FeatureEngineering.RunNames` | aqiforecaster_sa/feature_engineer.py:31-44 | When every target is new and no body repeats, a completed run appends exactly the targets, in loop order, after the existing names |
| `FeatureEngineering.NoUnderscoreIndependent` | aqiforecaster_sa/feature_engineer.py:31-44 | Bodies over source columns without an underscore are independent: every feature name contains one, so no body reads another's output, and no two write the same column |
| `FeatureEngineering.LagFeaturesDone` | aqiforecaster_sa/feature_engineer.py:31-33 | When no requested column is one of the call's own feature names (for instance when none contains `_`, `NoUnderscoreIndependent`), `add_lag_features` completes exactly when there are no lags or every requested column exists |
| `FeatureEngineering.LagFeaturesRaised` | aqiforecaster_sa/feature_engineer.py:31-33 | When no requested column is one of the call's own feature names (for instance when none contains `_`, `NoUnderscoreIndependent`), a call that does not complete raises a KeyError for the first missing column, after finishing the columns before it |
| `FeatureEngineering.LagFeaturesAlignment` | aqiforecaster_sa/feature_engineer.py:33 | When no requested column is one of the call's own feature names and no two passes write the same name (both hold when no requested column contains `_`, `NoUnderscoreIndependent`), on completion `{c}_lag_{k}` holds the original column `c` shifted by `k`: row `i` holds row `i-k`, and the first `k` rows are missing |
| `FeatureEngineering.LagFeaturesNames` | aqiforecaster_sa/feature_engineer.py:31-33 | With distinct columns and lags and new names, one column per (column, lag) is appended after the existing ones |
| `FeatureEngineering.LagNamesOrder` | aqiforecaster_sa/feature_engineer.py:31-33 | The appended names come in column-major, then lag order: `{columns[i]}_lag_{lags[j]}` is number `i * |lags| + j` |
| `FeatureEngineering.LagFeaturesIdempotent` | aqiforecaster_sa/feature_engineer.py:33 | When no requested column is one of the call's own feature names and no two passes write the same name (both hold when no requested column contains `_`, `NoUnderscoreIndependent`), calling `add_lag_features` twice with the same arguments gives the same table and status as calling it once |
| `FeatureEngineering.LagRequestsAt` | aqiforecaster_sa/feature_engineer.py:31-33 | The body for column `i` and lag `j` is loop pass `i * |lags| + j`, and it shifts `columns[i]` by `lags[j]` into `{columns[i]}_lag_{lags[j]}` |
| `FeatureEngineering.RollingFeaturesDone` | aqiforecaster_sa/feature_engineer.py:42-44 | When no requested column is one of the call's own feature names (for instance when none contains `_`, `NoUnderscoreIndependent`), `add_rolling_window_features` completes exactly when there are no columns, or the window is non-negative and every column exists and holds only numbers, booleans (read as 0 and 1) or missing cells |
| `FeatureEngineering.RollingFeaturesRaised` | aqiforecaster_sa/feature_engineer.py:42-44 | When no requested column is one of the call's own feature names (for instance when none contains `_`, `NoUnderscoreIndependent`), a call that does not complete raises at the first failing column (a KeyError, an invalid window, or a column holding a timestamp), after finishing the columns before it |
| `FeatureEngineering.RollingFeaturesAlignment` | aqiforecaster_sa/feature_engineer.py:43-44 | When no requested column is one of the call's own feature names and no two passes write the same name (both hold when no requested column contains `_`, `NoUnderscoreIndependent`), on completion `{c}_rolling_mean_{w}` and `{c}_rolling_std_{w}` hold the trailing rolling mean and sample variance of the original column `c` |
| `FeatureEngineering.RollingFeaturesIdempotent` | aqiforecaster_sa/feature_engineer.py:43-44 | When no requested column is one of the call's own feature names and no two passes write the same name (both hold when no requested column contains `_`, `NoUnderscoreIndependent`), calling `add_rolling_window_features` twice with the same arguments gives the same table and status as calling it once |
| `FeatureEngineering.ApplyLagFeatures` | aqiforecaster_sa/feature_engineer.py:24-33 | The nested `for column` / `for lag` loops produce exactly the table and status of `LagFeatures` |
| `FeatureEngineering.ApplyColumnLags` | aqiforecaster_sa/feature_engineer.py:32-33 | The inner `for lag` loop on one column: a present column gets one shifted column per lag, in lag order; a missing column raises a KeyError at the first lag and changes nothing; with no lags nothing happens |
| `FeatureEngineering.LagRunPrefix` | aqiforecaster_sa/feature_engineer.py:32-33 | The first `j` passes of the inner loop over a present column add the shifted columns of the first `j` lags and complete |
| `FeatureEngineering.ColumnLagsRun` | aqiforecaster_sa/feature_engineer.py:31-33 | One pass of the outer loop, in terms of the whole run: a present column adds its lag columns and the run goes on; a missing column with some lags ends `add_lag_features` with a KeyError and the table built so far |
| `FeatureEngineering.ApplyRollingFeatures` | aqiforecaster_sa/feature_engineer.py:35-44 | The `for column` loop produces exactly the table and status of `RollingFeatures` |
| `FeatureEngineering.ApplyRollingColumn` | aqiforecaster_sa/feature_engineer.py:42-44 | One pass of the `for column` loop: a missing column raises a KeyError, then a negative window and then a column holding a timestamp raise (booleans are read as 0 and 1); otherwise the rolling mean and then the rolling std are assigned |
| `FeatureEngineering.FeatureEngineer.constructor` | aqiforecaster_sa/feature_engineer.py:5-11 | The engineer keeps the caller's frame object itself, not a copy, and remembers its table as the original |
| `FeatureEngineering.FeatureEngineer.AddTimeFeatures` | aqiforecaster_sa/feature_engineer.py:13-21 | The shared frame's table becomes `TimeFeatures` of its old table and still extends the original |
| `FeatureEngineering.FeatureEngineer.AddLagFeatures` | aqiforecaster_sa/feature_engineer.py:24-33 | The shared frame's table becomes `LagFeatures` of its old table and still extends the original |
| `FeatureEngineering.FeatureEngineer.AddRollingWindowFeatures` | aqiforecaster_sa/feature_engineer.py:35-44 | The shared frame's table becomes `RollingFeatures` of its old table and still extends the original |
| `FeatureEngineering.FeatureEngineer.GetEngineeredData` | aqiforecaster_sa/feature_engineer.py:47-53 | Returns the engineer's frame object itself, whose table has the original rows and the original columns first and in order, followed by the engineered ones |
| `FeatureEngineering.SharedFrameExample` | aqiforecaster_sa/feature_engineer.py:11-53 | The caller's frame, the engineer's frame and the frame `get_engineered_data` returned are one object: lag features added after `get_engineered_data` appear in the earlier result and in the caller's frame |
| `FeatureNames.FeatureNameInjective` | aqiforecaster_sa/feature_engineer.py:33-44 | A feature name determines its source column, its kind and its lag or window, so distinct features never share a column |
| `FeatureNames.FeatureNameShape` | aqiforecaster_sa/feature_engineer.py:33-44 | A feature name is longer than its source column, contains an underscore and ends in a digit |
| `Text.IntToStringRoundTrip` | aqiforecaster_sa/feature_engineer.py:33 | Reading back the f-string rendering of an `int` gives the same number |
| `Text.IntToStringInjective` | aqiforecaster_sa/feature_engineer.py:33 | Distinct integers render as distinct f-string digits |
| `Text.StrLtIsOrder` | aqiforecaster_sa/data_processor.py:84 | Python's `str` comparison, used to sort the pivot's parameter columns, is a strict total order |
| `Order.SortedUnique` | aqiforecaster_sa/data_processor.py:39-84 | Two strictly sorted sequences with the same elements are equal, so sorted group keys and pivot labels are determined by their sets |
| `DataProcessing.DailyLtIsOrder` | aqiforecaster_sa/data_processor.py:39 | Ordering daily rows by (parameter, date), the order `groupby` emits its groups in, is a strict order |
| `FeatureStore.LagDescription` | aqiforecaster_sa/hopsworks_integration.py:45-48 | The lag entry is named `{c}_lag_{k}`, and its description contains the pollutant and the lag |
| `FeatureStore.RollingMeanDescription` | aqiforecaster_sa/hopsworks_integration.py:50-53 | The mean entry is named `{c}_rolling_mean_{w}`, and its description contains the pollutant and the window |
| `FeatureStore.RollingStdDescription` | aqiforecaster_sa/hopsworks_integration.py:54-57 | The std entry is named `{c}_rolling_std_{w}`, and its description contains the pollutant and the window |
| `FeatureStore.DescribeNamesAndMentions` | aqiforecaster_sa/hopsworks_integration.py:46-56 | Every feature entry is named with the engineer's column pattern, and its description mentions its pollutant and its lag or window |
| `FeatureStore.DescribeFeatures` | aqiforecaster_sa/hopsworks_integration.py:34-58 | The nested append loops build exactly `SchemaOf` their three lists |
| `FeatureStore.GenerateFeatureDescriptions` | aqiforecaster_sa/hopsworks_integration.py:33-58 | The returned list is the schema of the fixed pollutant, lag and window lists |
| `FeatureStore.KeysLength` | aqiforecaster_sa/hopsworks_integration.py:43-57 | The loops append `|pollutants| * (|lags| + 2 * |windows|)` entries |
| `FeatureStore.SchemaLength` | aqiforecaster_sa/hopsworks_integration.py:34-58 | The schema has 3 + 4 * (3 + 2 * 1) = 23 entries |
| `FeatureStore.SchemaStart` | aqiforecaster_sa/hopsworks_integration.py:34-38 | The schema starts with `datetime`, `day_of_week`, `is_weekend`, in that order |
| `FeatureStore.SchemaLagAt` | aqiforecaster_sa/hopsworks_integration.py:43-48 | For any lists, lag `j` of pollutant `p` is entry `3 + p * (|lags| + 2 * |windows|) + j` |
| `FeatureStore.SchemaWindowAt` | aqiforecaster_sa/hopsworks_integration.py:43-57 | For any lists, the mean and then the std of window `w` of pollutant `p` follow that pollutant's lag entries |
| `FeatureStore.KeysLagAt` | aqiforecaster_sa/hopsworks_integration.py:43-48 | The appended entry at `p * (|lags| + 2 * |windows|) + j` is lag `j` of pollutant `p` |
| `FeatureStore.KeysWindowAt` | aqiforecaster_sa/hopsworks_integration.py:43-57 | The appended entries at `p * (|lags| + 2 * |windows|) + |lags| + 2w` and the next are the rolling mean and rolling std of window `w` of pollutant `p` |
| `FeatureStore.FiveEntryLag` | aqiforecaster_sa/hopsworks_integration.py:43-48 | With three lags and one window, lag `j` of pollutant `p` is schema entry `3 + 5p + j` |
| `FeatureStore.FiveEntryWindow` | aqiforecaster_sa/hopsworks_integration.py:49-57 | With three lags and one window, entries `3 + 5p + 3` and `3 + 5p + 4` are pollutant `p`'s rolling mean and rolling std |
| `FeatureStore.SchemaLagLayout` | aqiforecaster_sa/hopsworks_integration.py:39-48 | For pollutant `p` in the order no, no2, nox, o3, entries `3 + 5p` to `3 + 5p + 2` are its lags 1, 2, 3 in order |
| `FeatureStore.SchemaWindowLayout` | aqiforecaster_sa/hopsworks_integration.py:39-57 | Entries `3 + 5p + 3` and `3 + 5p + 4` are that pollutant's rolling mean and rolling std over 3 |
| `FeatureStore.KeysDistinct` | aqiforecaster_sa/hopsworks_integration.py:43-57 | With distinct pollutants, lags and windows, no feature is appended twice |
| `FeatureStore.FeatureNamesDiffer` | aqiforecaster_sa/hopsworks_integration.py:43-57 | With distinct pollutants, lags and windows, two different appended entries have different names |
| `FeatureStore.CalendarNamesDiffer` | aqiforecaster_sa/hopsworks_integration.py:34-38 | The three leading entries have different names |
| `FeatureStore.SchemaOfNamesDiffer` | aqiforecaster_sa/hopsworks_integration.py:34-57 | With distinct pollutants, lags and windows, no two entries share a name |
| `FeatureStore.SchemaNamesDistinct` | aqiforecaster_sa/hopsworks_integration.py:34-57 | All 23 schema names are distinct |
| `FeatureStore.SchemaNamesEngineered` | aqiforecaster_sa/hopsworks_integration.py:35-57 | When time, lag (1, 2, 3) and rolling (3) features are added to a table without error, every schema name after `datetime` is a column of the engineered table. `datetime` is left out because the engineer reads a `timestamp` column, while the processor's wide table names its index `datetime`; fed that table directly, `add_time_features` would raise a KeyError |
| `FeatureStore.SchemaOfNamesEngineered` | aqiforecaster_sa/hopsworks_integration.py:34-57 | For any pollutants and lags and one window, when the engineer adds those features without error, every schema name after `datetime` is a column of the engineered table |
| `FeatureStore.EngineeredKey` | aqiforecaster_sa/hopsworks_integration.py:43-57 | With one window, every lag or rolling feature the schema lists for a pollutant, lag or window that the engineer was given is a column of the engineered table |
| `FeatureStore.EngineeredCalendar` | aqiforecaster_sa/hopsworks_integration.py:36-37 | `day_of_week` and `is_weekend` are columns of the engineered table |
| `FeatureStore.EngineeredLag` | aqiforecaster_sa/hopsworks_integration.py:44-48 | `{c}_lag_{k}` is a column of the engineered table for each pollutant and lag |
| `FeatureStore.EngineeredWindow` | aqiforecaster_sa/hopsworks_integration.py:49-57 | `{c}_rolling_mean_{w}` and `{c}_rolling_std_{w}` are columns of the engineered table for each pollutant |

## Left out

- File and network I/O are not modelled: CSV reading and writing, the directory `glob`, S3 download, the AQI HTTP API, JSON configuration and the feature store (`login_to_hopsworks`, `get_or_create_feature_group`, `update_feature_descriptions`, `insert_data`). Each file is an already-read sequence of rows, or `Unreadable`. A written CSV is the table stored in the processor's field.
- Logging (`loguru`) is not modelled. `utils.py`, whose filename depends on the clock, and `main.py` are also left out. `main.py` calls `DataProcessor()` without its argument and calls a method that does not exist, so it has no coherent behaviour.
- Datetime string parsing and pandas dtype inference are not modelled. Timestamps arrive parsed. Any parse failure is a file-level `Unreadable`, as the source's `try`/`except` turns it into `None`.
- Floating point is replaced by exact `real`s. IEEE NaN is modelled only as "missing".
- FeatureEngineering.RollingVarianceColumn: models `rolling(...).std()` as its square, the sample variance with `ddof=1`, because `real` has no square root. Definedness is the same as for the std.
- FeatureEngineering.RollingMeanColumn: the window is a plain row count. pandas' offset windows (`'3D'` and the like) and explicit `min_periods` are not modelled, because the source never passes them.
- Path handling in `DataProcessor` is not modelled. `location.glob('*.csv')` already yields paths under `location`, and `flatten_and_prepare_data` joins `location` again, so a relative `location` makes every file unreadable. The glob also matches the processor's own outputs, and a later run on the same directory picks them up. `final_aggregated_data.csv` has the columns `datetime, parameter, value`, so it is read without error and aggregated again: its rows repeat the raw files' daily (date, parameter) pairs, and `create_parameter_timeseries` then fails in the pivot, as in `OverlappingFilesPivotFails`. `timeseries_data.csv` has no `value` column, so reading it fails, which is the unreadable-file case of the Findings row.
- The written CSV and re-read of `final_aggregated_data.csv` are modelled as storing and reading back the same rows. Date-to-string formatting and re-parsing is taken as lossless.

Three behaviours a reader might expect are not what the code does. The model follows the code, and in the third case also models the evidently intended loop:

- Leading lag and rolling cells are not back-filled or forward-filled. They stay missing (`ShiftExample`, `RollingMeanExample`).
- The raw pollutant columns are never dropped. `get_engineered_data` returns the original columns plus the new ones.
- A file that cannot be read does not leave the other files to be processed: `process_all_csv_files` as written raises on it. `ContributionsAsWritten` and `AsWrittenAbortsOnUnreadable` follow the code. `DataProcessor.ProcessAllCsvFiles` follows the evidently intended loop, which skips the file (see Findings). As written, the exception leaves `aggregated_data_path` unchanged and the file generator only partly consumed.

## Findings

| source | as written | input that shows it | evidently intended | confidence | as-written member | corrected member |
|---|---|---|---|---|---|---|
| aqiforecaster_sa/data_processor.py:59-60 | `flatten_and_prepare_data` returns `None` when a file cannot be read, and the loop then evaluates `df.empty` on `None`, which raises AttributeError and ends the whole run | files `[unreadable, one valid reading]` | skip the file that failed and keep processing the others | high (not executed) | `DataProcessing.AsWrittenAbortsOnUnreadable`, `DataProcessing.UnreadableFileDiscrepancy` | `DataProcessing.Contributions`, `DataProcessing.ContributesIff`, `DataProcessing.DataProcessor.ProcessAllCsvFiles` |
