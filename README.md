# Climate Future Explorer: the data-analysis core

This project models in Dafny the analysis core of the Climate Future
Explorer (`data_handler.py`). That core takes the daily climate readings the
climate service returns and does four things:

- It reduces them to a monthly table, averaging some columns and summing others.
- It computes the basic per-year metrics: the mean temperature of a year,
  and per-season figures grouped by a `season` label.
- It computes the statistics of two windows of years: one around the
  current year and one around the target year. The statistics are means,
  extremes, cumulative totals, extreme-event rates and per-season figures.
- It flattens the difference of the two windows' nested statistics
  dictionaries into one map from `"<group>_<stat>_change"` names to the
  difference `future - current`.

## Modules

| file | module | models |
|---|---|---|
| `common.dfy` | `Common` | NaN-carrying values, the Python exceptions, `Option`/`Result` |
| `series.dfy` | `Series` | sum, mean, max, min, count above a threshold |
| `table.dfy` | `Table` | dates, the ten climate columns, rows |
| `monthly.dfy` | `Monthly` | the monthly resample |
| `basic_metrics.dfy` | `BasicMetrics` | `calculate_temp_mean`, `calculate_seasonal_metrics` |
| `window.dfy` | `ClimateWindow` | `get_window_stats` |
| `window_laws.dfy` | `WindowLaws` | what the window statistics mean |
| `changes.dfy` | `Changes` | `compute_changes` |
| `changes_laws.dfy` | `ChangesLaws` | what `compute_changes` computes |
| `analysis.dfy` | `Analysis` | `analyze_climate_data` |
| `analysis_laws.dfy` | `AnalysisLaws` | its success and failure cases and its report |

## How the source is modelled

- Numbers are `real`. A pandas reduction over an empty selection is NaN.
  The model keeps that NaN as `Value.NaN` and propagates it through
  subtraction and scaling.
- Python exceptions become `Failure` values in a `Result`:
  - `KeyError(key)` for a missing dictionary key;
  - `TypeError` for subscripting `None` or a number, or subtracting a dictionary
    (see `Changes.Subscript` under "## Left out" for numpy scalars);
  - `AttributeError` for `.keys()` on `None`;
  - `ZeroDivisionError` for dividing by a window size of zero.
- A nested statistics dictionary is a `Changes.Tree`. Its leaves are numbers.
  Its inner dictionaries keep their entries in insertion order, as Python
  dicts do.
- The pandas table that `analyze_climate_data` extends in place with `year`
  and `month` columns is the class `Analysis.Frame`. The one-year table that
  `calculate_seasonal_metrics` extends with a `season` column is
  `BasicMetrics.SeasonFrame`.
- Each loop of the source is a method with a loop. The method is proved
  equal to a specification function:
  - `compute_changes` is `Changes.ComputeChanges`, specified by `Changes.Fold`;
  - the season loop is `ClimateWindow.FillSeasonalStats`, specified by
    `ClimateWindow.SeasonalOf`.

  The properties are then proved about those functions.
- The clock (`datetime.now()`) is a parameter `now` of
  `Analysis.AnalyzeClimateData`.
- The three 95th percentiles of each window are parameters
  (`ClimateWindow.Thresholds`). The model does not compute them.

### Behaviours of the code kept as they are

- An empty window gives no statistics. `get_window_stats` returns `None`
  for an empty window (data_handler.py:148-149). `compute_changes(None, ...)`
  then raises `AttributeError`, and `compute_changes(dict, None)` raises
  `TypeError` (data_handler.py:229-238). `AnalysisOf` returns those errors.
  The lemma `AnalysisLaws.AnalysisErrors` states which error each
  combination of window size and empty windows gives.
- A window size of zero divides by zero (`ZeroDivisionError`) as soon as either
  window has rows (data_handler.py:190), because the statistics of both windows
  are computed before `compute_changes` runs.
- The extreme-event rates are divided by the requested window size, not by
  the number of years present.

## Model

| member | source | states |
|---|---|---|
| Monthly.MonthlyAggregateMonths | data_handler.py:91-102 | the monthly table holds exactly the calendar months present in the daily table |
| Monthly.MonthlyAggregateOrdered | data_handler.py:91-102 | for chronological input, the monthly rows are in strictly ascending month order: one row per month |
| Monthly.MonthlyAggregateLabels | data_handler.py:91 | each monthly row is labelled with the last day of its month, as `resample('M')` labels its bins |
| Monthly.MonthlyAggregateValues | data_handler.py:91-102 | each monthly row holds the sum of radiation, precipitation and snowfall over all days of its month, and the mean of every other column |
| Monthly.MonthRecordField | data_handler.py:92-101 | each column of a monthly row is its fixed reducer (sum or mean) applied to that column of the month's days |
| Monthly.FirstMonthGroup | data_handler.py:91 | in chronological input, the days of the first month are exactly the leading run of same-month days |
| BasicMetrics.OfYear | data_handler.py:111 | the year filter keeps a row exactly when it lies in that year, and returns no more rows than the table has |
| BasicMetrics.OfYearAppend | data_handler.py:111 | the year filter keeps table order and multiplicity: it distributes over concatenation |
| BasicMetrics.TempMeanNaNIffNoRows | data_handler.py:107-115 | the year's mean temperature is NaN exactly when no row lies in that year |
| BasicMetrics.TempMeanWithinBounds | data_handler.py:107-115 | any bounds on the year's daily mean temperatures also bound the reported mean |
| BasicMetrics.TempMeanBetweenExtremes | data_handler.py:107-115 | the reported mean lies between the year's lowest and highest mean temperature |
| BasicMetrics.SeasonFrame.AddSeasonColumn | data_handler.py:121-124 | the table gains a `season` column holding each row's month label; its rows are unchanged |
| BasicMetrics.CalculateSeasonalMetrics | data_handler.py:117-131 | the method returns the year's rows grouped by season label and aggregated, as `SeasonalMetricsOf` specifies |
| BasicMetrics.SeasonalMetricsKeys | data_handler.py:120-126 | a label is a group exactly when it is a season and some row of the year has a month of that season |
| BasicMetrics.SeasonalMetricsOrdered | data_handler.py:126 | the groups come out in sorted label order: fall, spring, summer, winter |
| BasicMetrics.SeasonalMetricsValues | data_handler.py:126-130 | each group is non-empty and carries the mean temperature, total precipitation and mean radiation of the year's rows in that season |
| BasicMetrics.SeasonLabelsMatchSeasons | data_handler.py:121-124 | the season labels agree with the month lists of the window seasons (fall being autumn), and only months 1 to 12 get a label |
| BasicMetrics.SeasonGroupsCoverRows | data_handler.py:121-126 | with months 1 to 12, the four season groups together hold every row of the year exactly once |
| BasicMetrics.OfSeason | data_handler.py:121-126 | the season filter keeps a row exactly when its month has that season's label, and returns no more rows than the table has |
| BasicMetrics.OfSeasonAppend | data_handler.py:121-126 | the season filter keeps table order and multiplicity: it distributes over concatenation |
| BasicMetrics.GroupByKeys | data_handler.py:126 | a name is a group key exactly when it is a label and its group of rows is non-empty |
| BasicMetrics.GroupByEntries | data_handler.py:126-130 | every group entry names a non-empty group and carries that group's figures |
| BasicMetrics.GroupByOrdered | data_handler.py:126 | group keys follow the order of the labels |
| ClimateWindow.SelectWindow | data_handler.py:142-146 | a row is in the window exactly when it is in the table and its year lies within `w // 2` of the centre year |
| ClimateWindow.SelectWindowAppend | data_handler.py:143-146 | selection keeps table order: it distributes over concatenation |
| ClimateWindow.SelectWindowSameHalfWidth | data_handler.py:144-145 | window sizes with the same half width (4 and 5, for example) select the same rows |
| ClimateWindow.NegativeSizeSelectsNothing | data_handler.py:144-145 | a negative window size selects no row |
| ClimateWindow.HalfWidthIsFloor | data_handler.py:144 | the half width is the floor of half the window size |
| ClimateWindow.Years | data_handler.py:172 | the year groups are distinct and are exactly the years present in the window |
| ClimateWindow.FillSeasonalStats | data_handler.py:203-212 | the method builds the seasonal dictionary season by season, equal to `SeasonalOf` |
| ClimateWindow.GetWindowStats | data_handler.py:140-220 | the method returns None for an empty window, fails with a division by zero for size 0, and otherwise returns the window's statistics, as `WindowStatsOf` specifies |
| WindowLaws.NoneIffEmptyWindow | data_handler.py:148-149 | the statistics are None exactly when no row lies in the band |
| WindowLaws.StatsNeedPositiveSize | data_handler.py:143-149 | statistics exist only for a positive window size |
| WindowLaws.StatsOfNonEmptyWindow | data_handler.py:140-220 | with a positive size and some row in the band, the statistics are those of the selected window |
| WindowLaws.WindowMeans | data_handler.py:152-160 | each mean lies between its column's minimum and maximum; the humidity mean is the mean of the row-by-row average of maximum and minimum humidity |
| WindowLaws.WindowExtremes | data_handler.py:163-169 | each extreme bounds its column and is attained by a row of the window |
| WindowLaws.AnnualMeans | data_handler.py:172-182 | the annual precipitation and snowfall means are the window totals divided by the number of distinct years |
| WindowLaws.YearSumsTotal | data_handler.py:172-175 | the per-year sums add up to the column's total over the window |
| WindowLaws.EventRates | data_handler.py:185-193 | each rate is the number of rows strictly above the threshold divided by the window size, and lies between 0 and the row count divided by the size |
| WindowLaws.SeasonsPartitionMonths | data_handler.py:196-201 | every month from 1 to 12 lies in exactly one season |
| WindowLaws.InMonthsMembers | data_handler.py:205 | a season bucket holds exactly the rows of the window whose month is one of the season's months |
| WindowLaws.SeasonBucketsPartitionWindow | data_handler.py:196-205 | with months 1 to 12, every row of the window lies in exactly one season bucket, and the four bucket sizes add up to the window size |
| WindowLaws.SeasonPrecipTotal | data_handler.py:210 | the precipitation total of a non-empty season is three times its monthly mean, and with exactly three months it is their sum |
| WindowLaws.SeasonAbsentIsNaN | data_handler.py:205-212 | a season's figures are all NaN exactly when the window holds none of its months |
| Changes.Subscript | data_handler.py:233-235 | `future[key]` fails with `TypeError` on a number, fails with `KeyError(key)` on a missing key, and otherwise returns the entry |
| Changes.ComputeChanges | data_handler.py:229-236 | the method's loop and recursion compute `Fold`, the key-by-key specification of `compute_changes` |
| ChangesLaws.ChangesSucceedIff | data_handler.py:229-236 | on a well-formed current tree, `compute_changes` succeeds exactly when the future tree has every key path of the current one, with a number wherever the current one has a number |
| ChangesLaws.MissingKeyFails | data_handler.py:233-235 | a current key that the future dictionary lacks makes `compute_changes` fail |
| ChangesLaws.MissingKeyRaises | data_handler.py:231-235 | the first missing key reached, after every earlier entry is visited without failing, raises `KeyError` for that key |
| ChangesLaws.FoldErrorKinds | data_handler.py:229-236 | `compute_changes` fails only with a `KeyError` or a `TypeError` |
| ChangesLaws.ChangesAreLeafDifferences | data_handler.py:229-236 | the result has, for each leaf path of the current tree, its flattened name mapped to future minus current, and no other key |
| ChangesLaws.ExtraFutureKeyIgnored | data_handler.py:231 | a key that only the future dictionary has does not change the result |
| ChangesLaws.FoldReadsCurrentKeys | data_handler.py:231-235 | the future dictionary is read only at the keys of the current one |
| ChangesLaws.SameShapeFoldOk | data_handler.py:229-236 | two dictionaries with the same keys at every level always produce changes |
| ChangesLaws.PrefixFreeDistinct | data_handler.py:233-235 | when no entry's name stem is a prefix of a sibling's, no two leaves share a flattened name |
| ChangesLaws.PrefixFreeWellFormed | data_handler.py:229-236 | a prefix-free tree has distinct keys at every level |
| Analysis.Frame.AddCalendarColumns | data_handler.py:136-138 | the table gains `year` and `month` columns that agree with each row's date; its records are unchanged |
| Analysis.Frame.Rows | data_handler.py:137-138 | the extended table's rows are the records with their year and month |
| Analysis.AnalyzeClimateData | data_handler.py:133-244 | the method extends the table in place and returns `AnalysisOf` on its rows, for the current and the target year |
| AnalysisLaws.AnalysisSucceedsIff | data_handler.py:140-244 | the analysis succeeds exactly when the window size is positive and both windows hold rows |
| AnalysisLaws.AnalysisErrors | data_handler.py:140-238 | size zero with either window non-empty divides by zero; an empty current window gives `AttributeError` when the size is non-zero or both windows are empty; an empty target window after a non-empty current one gives `TypeError` |
| AnalysisLaws.AnalysisOkNeeds | data_handler.py:148-149 | a successful analysis had a positive size and rows in both windows |
| AnalysisLaws.AnalysisOkWhen | data_handler.py:222-244 | a positive size and rows in both windows give a successful analysis |
| AnalysisLaws.ReportOfErrors | data_handler.py:229-236 | comparing a None current window fails with `AttributeError`; a None target window fails with `TypeError` |
| AnalysisLaws.ReportOfStats | data_handler.py:238-244 | the report holds both windows' statistics, plus future minus current under the flattened name of every statistic, and nothing else |
| AnalysisLaws.AnalysisReport | data_handler.py:222-244 | with a positive size and both windows non-empty, the report holds the statistics of the window around the current year and of the window around the target year, and each statistic's change under its flattened name, and no other key |
| AnalysisLaws.ChangesOfStats | data_handler.py:229-238 | changes between two windows' statistics always succeed, and are the leaf-wise differences under their flattened names |
| AnalysisLaws.ToTreeWellFormed | data_handler.py:214-220 | a window's statistics dictionary has distinct keys at every level and no two flattened names that clash |
| AnalysisLaws.ToTreeSameShape | data_handler.py:214-220 | any two windows' statistics dictionaries have the same keys at the same places |
| AnalysisLaws.StatsSeasonNames | data_handler.py:196-212 | a window's seasonal dictionary holds winter, spring, summer and autumn, in that order |
| AnalysisLaws.TempMeanChange | data_handler.py:152-238 | the change of the mean temperature is reported as `means_temp_mean_change`, equal to the target mean minus the current mean |
| Series.CountAbove | data_handler.py:190-192 | the count of rows strictly above a threshold is zero exactly when none exceeds it, and the full length exactly when all do |
| Series.MeanWithinExtremes | data_handler.py:153-155 | a column mean lies between the column's minimum and maximum |
| Series.MeanOfMeans | data_handler.py:156-159 | averaging two column means equals the mean of the row-by-row averages |

## Left out

- Fetching the daily data over HTTP, client setup and caching, the date range of the request, and building the daily table: these are I/O. The model starts from the daily records.
- `calculate_seasonal_metrics` also returns the standard deviation of the temperature. The model leaves it out because it is floating-point, and computing it needs a square root.
- The 95th percentiles (`quantile(0.95)`) are inputs to the model. The model does not compute them, because pandas interpolates them in floating point.
- `datetime.now()` is the parameter `now`. The model does not read a clock.
- NaN in the input data is left out. Every daily reading is a number, and NaN arises only from reductions over empty selections.
- Floating-point rounding is left out. Arithmetic is exact over the reals.
- `resample('M')` also emits rows for calendar months strictly between two present months. It fills their means with NaN and their sums with zero. The daily table is a gap-free date range, so no such month occurs. The model emits only present months.
- Monthly.MonthlyAggregateOrdered: assumes ascending input order, as the daily table is built from an ascending date range. The model does not sort unsorted input as `resample` would.
- Monthly.MonthlyAggregateValues: assumes ascending input order (same reason).
- The AI prompt and its analysis call are foreign calls and are left out. `main.py` and `visualization.py` (the user interface and charts) are not part of this model.
- `pd.to_datetime` on the `date` column is left out: the dates are already calendar dates, so it changes nothing.
- Aliasing is left out. The pandas row-filter copy warning at `data_handler.py:121` has no effect on results.
- Changes.Subscript: subscripting a statistics leaf always fails with `TypeError`. In the source, the leaves that pandas reductions produce are numpy scalars (data_handler.py:152-182, 203-212), and subscripting them raises `IndexError`. Only the Python-float rates (data_handler.py:190-192) raise `TypeError`. The model does not record which kind of number a leaf holds. The case arises only for trees of different shapes, which two windows' statistics never are (`AnalysisLaws.ToTreeSameShape`).
- The `changes` dictionary is a `map`, so the insertion order of its keys in the source (data_handler.py:230-236) is not kept. Nothing in the core depends on that order.
