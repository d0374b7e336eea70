# Store-metric analysis toolkit: a verified model

This project models two parts of the analysis code in Dafny.

The first is the exploratory-analysis toolkit `eda_toolkit.py`. It has these parts:
- `DataScouter`: the store rows of a sheet, and the metric rows under one store.
- `AnomalyDetector`: two outlier detectors for a monthly metric series. One flags jumps against a local moving baseline. The other works per year, with a robust z-score and the interquartile-range fences.
- `TrendTools.calculate_slope`: the least-squares slope of a series.
- `EventTools`: the holiday-month calendar, extraction of window data, the year-ago window aware of Chinese New Year (CNY), and the break-point scan.
- `ImpactAnalyzer.analyze_metric`: the before/after comparison around an event month.
- `AttributionAnalyzer.calculate_absolute_shift`: the per-category change between two count tables.

The second is the order-analysis utilities:
- the day labels of `time_utils.py` (`Holiday`, `Weekend`, `Workday`, and the marketing events);
- the product-pair association analysis of `basket_analyzer.py`;
- the hour-to-period mapping `assign_period` of `pipeline.py`.

## How the model is written

- Every source class is a set of static methods, so there are no Dafny classes. A method that updates local lists and dictionaries in a loop becomes a Dafny `method` with a `while` or `for` loop. That method is proved equal to a recursive specification function: `DetectVolatilityOutliers`, `DetectOutliers`, `GetWindowData`, `GetAlignedYoyIndices`, `ScanForBreakPoint`, `AnalyzeAssociations`, `ScanEntities` and `GetMetricsMap` are the ones. The lemmas then state, about that function, what the source promises.
- Pure code is functions and lemmas: `is_holiday`, `analyze_metric`, `calculate_slope`, `calculate_absolute_shift`, `get_day_type`, `get_marketing_event` and `assign_period`.
- Floats are exact `real`s, and NumPy's NaN is the `NaN` value of `Values.Val`.
- Exceptions that the code lets escape are explicit outcomes:
  - `Detection.IndexError`: `dates[i]` is past the end of `dates`.
  - `YoyOutcome.ParseError` and `Analysis.Raised`: `int()` fails on a date inside the CNY scan, which is not inside any `try`.
  - `Analysis.AnchorNotFound`: the anchor date is missing.
- The two calendar tables (`HOLIDAY_MONTHS`, `CNY_MONTH_MAP`) are a `Calendar` parameter. Their shipped values are `EventCalendar.SourceCalendar`.
- Outside code is passed in as a function parameter: `scipy.stats.ttest_ind` is `tstat` and `np.std` is `std`.
- Python's `sorted`, which is stable, is an insertion sort under a total preorder, in `Sorting.SortBy`.
- A `Counter` and a `dict` keep their keys in insertion order, in `Basket.Counter`.
- A set whose iteration order matters is listed in first-seen order (`Sorting.Dedup`).

Where the written description of the toolkit and the code disagree, the model follows the code:
- `calculate_slope` fits the non-NaN points at their original positions (`arange` is built before masking). It does not renumber them densely.
- Dates on the monthly axis are parsed as `"Y-M"`. `split('-')` must give exactly two integers. So an ISO `YYYY-MM-DD` date is never a holiday (`EventCalendar.DailyDateIsNotHoliday`), and in the CNY scan it raises.
- The year-ago lookup key is unpadded (`f"{y}-{m}"`). On a zero-padded axis it is never found, and the standard 12-month shift is used.
- `calculate_slope(...) or np.nan` turns a slope of exactly 0 into NaN, so a flat trend is reported as NaN (`Impact.FlatTrendIsNaN`).

## Model

| member | source | states |
|---|---|---|
| Scouter.EntitiesMeaning | gemini-scaffold/employees/DataAnalyst/scripts/eda_toolkit.py:11-21 | A name is an entity exactly when some row qualifies with that name. A row qualifies when its cell is a string of more than one character with no excluded keyword, and the column-13 cell three rows below exists and is present. The entity maps to the last qualifying row with that name. |
| Scouter.ScanEntities | gemini-scaffold/employees/DataAnalyst/scripts/eda_toolkit.py:11-21 | The loop, with its `continue`, builds exactly the entity map of `Entities`. `None` for the keywords means the eight default keywords, and an empty list excludes nothing. |
| Scouter.NextEntityRowMeaning | gemini-scaffold/employees/DataAnalyst/scripts/eda_toolkit.py:31-39 | The boundary is the first row after the entity whose label is longer than one character and holds no blacklisted keyword, or the row count when there is none. No row before it starts an entity. |
| Scouter.MetricRowsMeaning | gemini-scaffold/employees/DataAnalyst/scripts/eda_toolkit.py:44-53 | A metric is in the map exactly when some row of the range is classified as it. Its value is the last such row: a later row overwrites an earlier one. |
| Scouter.MetricsMapMeaning | gemini-scaffold/employees/DataAnalyst/scripts/eda_toolkit.py:24-55 | Each metric maps to the last row strictly between the entity's row and the next entity whose `elif` verdict is that metric. That row cannot start an entity, and neither can any row before the boundary. |
| Scouter.PlainPosLabelEndsBlock | gemini-scaffold/employees/DataAnalyst/scripts/eda_toolkit.py:32-51 | A bare `POS` label classifies as `POS_Buyers`. It is not blacklisted, though, so it is taken for the next entity and the metrics map under `StoreA` comes out empty. |
| Scouter.GetMetricsMap | gemini-scaffold/employees/DataAnalyst/scripts/eda_toolkit.py:24-55 | The boundary search loop, with its `break`, and the `elif` loop after it compute exactly `MetricsMap`. |
| Scouter.ClassifyLabel | gemini-scaffold/employees/DataAnalyst/scripts/eda_toolkit.py:47-53 | The `elif` chain gives the verdict of `Classify`, with `停留时长` tried before `时长`. |
| Anomaly.Spike | gemini-scaffold/employees/DataAnalyst/scripts/eda_toolkit.py:67-84 | A point is only flagged when it is not NaN. |
| Anomaly.PointSpike | gemini-scaffold/employees/DataAnalyst/scripts/eda_toolkit.py:68-84 | The loop body at point `i` skips a NaN point, an all-NaN baseline and a zero baseline. Otherwise it yields the relative deviation when that exceeds the threshold in absolute value. |
| Anomaly.VolatilityScanStopsAtError | gemini-scaffold/employees/DataAnalyst/scripts/eda_toolkit.py:67-91 | Once reading `dates[i]` has raised, later points do not change the outcome. |
| Anomaly.VolatilityScanFails | gemini-scaffold/employees/DataAnalyst/scripts/eda_toolkit.py:67-91 | The scan raises `IndexError` exactly when some flagged point lies past the end of `dates`. |
| Anomaly.VolatilityScanMembers | gemini-scaffold/employees/DataAnalyst/scripts/eda_toolkit.py:67-91 | A scan that does not raise holds a record for every flagged point and for nothing else. |
| Anomaly.VolatilityScanCount | gemini-scaffold/employees/DataAnalyst/scripts/eda_toolkit.py:67-91 | A scan that does not raise holds each record exactly as many times as there are flagged points it describes: one record per flagged point. |
| Anomaly.VolatilityOutliersMeaning | gemini-scaffold/employees/DataAnalyst/scripts/eda_toolkit.py:58-93 | The result raises exactly when a flagged point has no date, and never when `dates` is at least as long as the series. Otherwise it is sorted by date and holds exactly one record per flagged point: each record occurs as often as there are flagged points it describes. |
| Anomaly.DeviationKind | gemini-scaffold/employees/DataAnalyst/scripts/eda_toolkit.py:82-89 | `Surge` means a rise above a positive baseline. Against a negative baseline the labels are swapped. |
| Anomaly.NoWindowNoOutliers | gemini-scaffold/employees/DataAnalyst/scripts/eda_toolkit.py:67-76 | With `window == 0` the baseline is empty, so nothing is flagged. |
| Anomaly.VolatilityExample | gemini-scaffold/employees/DataAnalyst/scripts/eda_toolkit.py:58-93 | After two months at 1, a 10 is one `Surge` record with deviation 9 and method `Vol(2M)`. |
| Anomaly.DetectVolatilityOutliers | gemini-scaffold/employees/DataAnalyst/scripts/eda_toolkit.py:58-93 | The loop, then the sort, computes exactly `VolatilityOutliers`, including its `IndexError`. |
| Anomaly.SortedByDateIsSortedPermutation | gemini-scaffold/employees/DataAnalyst/scripts/eda_toolkit.py:93 | `sorted(..., key=date)` is ordered by the date string and is a permutation of its input. |
| Anomaly.YearIndicesMembers | gemini-scaffold/employees/DataAnalyst/scripts/eda_toolkit.py:104-109 | A year's `indices` are exactly the positions whose date has that text before its first `-`. |
| Anomaly.YearFences | gemini-scaffold/employees/DataAnalyst/scripts/eda_toolkit.py:113-130 | A year is skipped exactly when it has fewer than three non-NaN values or a zero spread. Otherwise the spread is non-zero and Q1 ≤ median ≤ Q3. The spread is the MAD, falling back to `std` when the MAD is 0. A spread taken from the MAD is positive. |
| Anomaly.MadNonNegative | gemini-scaffold/employees/DataAnalyst/scripts/eda_toolkit.py:121 | The median absolute deviation is never negative. |
| Anomaly.JudgeMeaning | gemini-scaffold/employees/DataAnalyst/scripts/eda_toolkit.py:124-154 | A value is flagged exactly when its robust z-score exceeds the threshold or it lies outside Q1 − 1.5·IQR and Q3 + 1.5·IQR. The z rule takes precedence. The record carries the date, the value and the unrounded score. With a positive spread, `High` means a positive score. |
| Anomaly.InsideBoxNotFlagged | gemini-scaffold/employees/DataAnalyst/scripts/eda_toolkit.py:139-145 | A value inside [Q1, Q3] whose z-score is within the threshold is never flagged. |
| Anomaly.FlagPointsMembers | gemini-scaffold/employees/DataAnalyst/scripts/eda_toolkit.py:132-154 | A year's records are exactly the verdicts on its points. |
| Anomaly.AllYearsMembers | gemini-scaffold/employees/DataAnalyst/scripts/eda_toolkit.py:111-154 | The records of all years are exactly the union of each year's records. |
| Anomaly.YearRecordsMembers | gemini-scaffold/employees/DataAnalyst/scripts/eda_toolkit.py:104-154 | The records of year `key` are exactly the verdicts on the points whose date has year `key`, each against that year's fences. |
| Anomaly.YearRecordsCount | gemini-scaffold/employees/DataAnalyst/scripts/eda_toolkit.py:104-154 | Year `key` yields each record exactly as often as there are points of that year flagged with it. |
| Anomaly.CollectedCount | gemini-scaffold/employees/DataAnalyst/scripts/eda_toolkit.py:132-154 | Collecting the verdicts over increasing positions yields each record once per position whose verdict it is. |
| Anomaly.AllYearsCount | gemini-scaffold/employees/DataAnalyst/scripts/eda_toolkit.py:111-154 | Over distinct years, the concatenated records hold each record as often as the points of all those years flagged with it. |
| Anomaly.OutliersCount | gemini-scaffold/employees/DataAnalyst/scripts/eda_toolkit.py:96-156 | `detect_outliers` returns each record exactly as often as the points flagged with it against their own year's fences. |
| Anomaly.OutliersMeaning | gemini-scaffold/employees/DataAnalyst/scripts/eda_toolkit.py:96-156 | There are no records when the two lists differ in length. Otherwise the result is sorted by date and holds exactly the verdicts on every point against the fences of its own year, one record per flagged point. |
| Anomaly.GroupByYear | gemini-scaffold/employees/DataAnalyst/scripts/eda_toolkit.py:104-109 | The first loop gives the years in first-seen order and, for each year, exactly its positions in increasing order. |
| Anomaly.FlagYears | gemini-scaffold/employees/DataAnalyst/scripts/eda_toolkit.py:111-154 | The loop over `year_data` appends each year's records in insertion order. |
| Anomaly.FlagYear | gemini-scaffold/employees/DataAnalyst/scripts/eda_toolkit.py:113-154 | One year: no records for a skipped year, otherwise the inner loop against that year's fences. |
| Anomaly.FlagYearPoints | gemini-scaffold/employees/DataAnalyst/scripts/eda_toolkit.py:132-154 | The inner loop skips NaN values and appends the verdict of the z rule, else the IQR rule, for each point. |
| Anomaly.DetectOutliers | gemini-scaffold/employees/DataAnalyst/scripts/eda_toolkit.py:96-156 | The two loops and the sort compute exactly `Outliers`. |
| Trend.Slope | gemini-scaffold/employees/DataAnalyst/scripts/eda_toolkit.py:161-168 | `None` exactly when there are fewer than two entries or fewer than two non-NaN entries. |
| Trend.PointsCount | gemini-scaffold/employees/DataAnalyst/scripts/eda_toolkit.py:163-167 | The regression takes one point per non-NaN entry. |
| Trend.PointsAt | gemini-scaffold/employees/DataAnalyst/scripts/eda_toolkit.py:163-167 | Each point keeps the original position of its entry as its x-value, and that entry's value. |
| Trend.PointsIncreasing | gemini-scaffold/employees/DataAnalyst/scripts/eda_toolkit.py:163-167 | The x-values strictly increase, so the fit is well defined. |
| Trend.PointsComplete | gemini-scaffold/employees/DataAnalyst/scripts/eda_toolkit.py:163-167 | Every non-NaN entry is a point. |
| Trend.FitOfLine | gemini-scaffold/employees/DataAnalyst/scripts/eda_toolkit.py:166-168 | The least-squares fit of points on a line `a·x + b` has slope `a`. |
| Trend.SlopeOfLine | gemini-scaffold/employees/DataAnalyst/scripts/eda_toolkit.py:161-168 | A series on an exact line gives that line's slope, however many NaN gaps it has. |
| Trend.SlopeOfConstant | gemini-scaffold/employees/DataAnalyst/scripts/eda_toolkit.py:161-168 | A series whose non-NaN values are equal has slope 0. |
| EventCalendar.ParseYearMonth | gemini-scaffold/employees/DataAnalyst/scripts/eda_toolkit.py:177 | `map(int, d.split('-'))` yields two non-negative integers or fails. |
| EventCalendar.YearMonthKeyParses | gemini-scaffold/employees/DataAnalyst/scripts/eda_toolkit.py:206 | The lookup key `f"{y}-{m}"` parses back to `(y, m)`. |
| EventCalendar.IsHolidayOfKey | gemini-scaffold/employees/DataAnalyst/scripts/eda_toolkit.py:175-179 | For a `"Y-M"` key, `is_holiday` is exactly membership of the month in the year's holiday list. |
| EventCalendar.PaddedMonthIsHoliday | gemini-scaffold/employees/DataAnalyst/scripts/eda_toolkit.py:172-179 | `int()` accepts a zero-padded month, so `"2024-02"` is a holiday. |
| EventCalendar.DailyDateIsNotHoliday | gemini-scaffold/employees/DataAnalyst/scripts/eda_toolkit.py:175-179 | A `YYYY-MM-DD` date fails to unpack, and the bare `except` makes it not a holiday. |
| EventCalendar.UnknownYearIsNotHoliday | gemini-scaffold/employees/DataAnalyst/scripts/eda_toolkit.py:172-178 | A year missing from the table (`2023`) has no holidays. |
| EventCalendar.KeptIndicesMembers | gemini-scaffold/employees/DataAnalyst/scripts/eda_toolkit.py:181-189 | An index is taken exactly when it lies in `[start, end)` and in the series and, in clean mode, is not a holiday. |
| EventCalendar.KeptIndicesIncreasing | gemini-scaffold/employees/DataAnalyst/scripts/eda_toolkit.py:183-188 | The taken indices lie in the window and in the series, in strictly increasing order. |
| EventCalendar.WindowAtKeptIndices | gemini-scaffold/employees/DataAnalyst/scripts/eda_toolkit.py:183-189 | The returned values are the series read at the taken indices, one for one. |
| EventCalendar.FullWindowIsSlice | gemini-scaffold/employees/DataAnalyst/scripts/eda_toolkit.py:181-189 | In full mode the window is the slice of the series clipped to its bounds. |
| EventCalendar.GetWindowData | gemini-scaffold/employees/DataAnalyst/scripts/eda_toolkit.py:181-189 | The loop computes exactly `Window`. |
| EventCalendar.CnyScanOutcome | gemini-scaffold/employees/DataAnalyst/scripts/eda_toolkit.py:196-200 | The scan stops at the first CNY month or at the first unparseable date, whichever comes first. It reports no CNY month only when neither occurs. |
| EventCalendar.CnyScanFinds | gemini-scaffold/employees/DataAnalyst/scripts/eda_toolkit.py:196-200 | A CNY month preceded only by parseable, non-CNY months is found at its offset. |
| EventCalendar.Reanchor | gemini-scaffold/employees/DataAnalyst/scripts/eda_toolkit.py:202-210 | Once a CNY month is found, the result is always a window, never an error. |
| EventCalendar.AlignedYoy | gemini-scaffold/employees/DataAnalyst/scripts/eda_toolkit.py:191-210 | There is no window (`-1, -1`) exactly when the range leaves the axis or starts before position 12. Any other window starts at 0 or later and has the input's length. An error names an unparseable date inside the range. |
| EventCalendar.AlignedYoyWithoutCny | gemini-scaffold/employees/DataAnalyst/scripts/eda_toolkit.py:193-201 | A range without a CNY month uses the standard shift of 12. |
| EventCalendar.AlignedYoyWithCny | gemini-scaffold/employees/DataAnalyst/scripts/eda_toolkit.py:196-210 | With CNY at offset `pos`: when last year's CNY key is on the axis at `lastIdx >= pos`, the window is `(lastIdx - pos, lastIdx - pos + (end - start))`, so that key sits at the same offset; otherwise it is the standard shift `(start - 12, end - 12)`. |
| EventCalendar.AlignedYoyScanned | gemini-scaffold/employees/DataAnalyst/scripts/eda_toolkit.py:195-210 | How the scan's three outcomes decide the result. |
| EventCalendar.GetAlignedYoyIndices | gemini-scaffold/employees/DataAnalyst/scripts/eda_toolkit.py:191-210 | The method, with its early `break`, computes exactly `AlignedYoy`. |
| BreakPoint.ScanUpToTaken | gemini-scaffold/employees/DataAnalyst/scripts/eda_toolkit.py:214-219 | The running best is either `-1, 0`, or an eligible split in range carrying its own non-zero \|t\|. |
| BreakPoint.ScanUpToBounds | gemini-scaffold/employees/DataAnalyst/scripts/eda_toolkit.py:214-219 | The running best bounds the \|t\| of every eligible split seen so far. |
| BreakPoint.ScanUpToFirst | gemini-scaffold/employees/DataAnalyst/scripts/eda_toolkit.py:219 | Ties keep the earlier split, because the comparison is strict. |
| BreakPoint.BreakPointIsBest | gemini-scaffold/employees/DataAnalyst/scripts/eda_toolkit.py:212-220 | The result is the first eligible split of maximal \|t\| in `[min_window, n - min_window)`. It is `-1, 0` when no eligible split has a non-zero, non-NaN statistic, which is always so for `n ≤ 2·min_window`. A split is eligible when at most half of each side is NaN. |
| BreakPoint.ScanForBreakPoint | gemini-scaffold/employees/DataAnalyst/scripts/eda_toolkit.py:212-220 | The loop, with its `continue`, computes `BreakPointOf`, which has all the properties of `BreakPointIsBest`. |
| BreakPoint.AllNaNStatisticsGiveNoBreak | gemini-scaffold/employees/DataAnalyst/scripts/eda_toolkit.py:218-220 | A test that yields only NaN leaves `-1, 0`. |
| Impact.AnalyzeMetricOutcomes | gemini-scaffold/employees/DataAnalyst/scripts/eda_toolkit.py:229-243 | The error dictionary comes back exactly when the anchor is missing from `dates`. A `ValueError` only comes from a date that is not `"Y-M"`. On an axis of parseable dates the two matrices come back exactly when the anchor is found. |
| Impact.LookupRaisesOnDate | gemini-scaffold/employees/DataAnalyst/scripts/eda_toolkit.py:240-243 | A year-ago lookup raises only on a date of the axis that does not parse. |
| Impact.YoyPreSlopeFullIsNaN | gemini-scaffold/employees/DataAnalyst/scripts/eda_toolkit.py:237-289 | The full pre-event stretch starts at 0, so it never has a year-ago window, and `yoy_pre_slope_full` is always NaN. |
| Impact.AnchorInNoWindow | gemini-scaffold/employees/DataAnalyst/scripts/eda_toolkit.py:235-238 | The anchor month belongs to none of the four stretches that `StretchesAround` names and `analyze_metric` reads. |
| Impact.SafeMeanIsNanMean | gemini-scaffold/employees/DataAnalyst/scripts/eda_toolkit.py:264-265 | `safe_mean` equals `np.nanmean`. It is a number exactly when the window has a non-NaN value. |
| Impact.SafePctChangeMeaning | gemini-scaffold/employees/DataAnalyst/scripts/eda_toolkit.py:267-270 | The change is defined exactly for two numbers with a non-zero base, where `pre·(1 + change) = post`. Against a positive base it is positive exactly for a rise. |
| Impact.FlatTrendIsNaN | gemini-scaffold/employees/DataAnalyst/scripts/eda_toolkit.py:282-290 | `slope or np.nan` reports a flat stretch as NaN. |
| Impact.SlopeOrNaNMeaning | gemini-scaffold/employees/DataAnalyst/scripts/eda_toolkit.py:282-290 | A trend entry is a number exactly when the slope exists and is non-zero, and it is then that slope. With fewer than two non-NaN values it is NaN. |
| Attribution.GetMeaning | gemini-scaffold/employees/DataAnalyst/scripts/eda_toolkit.py:305 | `counts.get(c, 0)` is 0 for a missing key, and otherwise the count stored under `c`. |
| Attribution.RowsMeaning | gemini-scaffold/employees/DataAnalyst/scripts/eda_toolkit.py:304-305 | There is exactly one row per category of either table, holding both counts and their difference. |
| Attribution.AbsoluteShiftMeaning | gemini-scaffold/employees/DataAnalyst/scripts/eda_toolkit.py:301-305 | The result is empty exactly when either table is empty. Otherwise it holds each category's row exactly once, in non-increasing `Abs_Change`. |
| Attribution.OneSidedChange | gemini-scaffold/employees/DataAnalyst/scripts/eda_toolkit.py:305 | A category found in one table only changes by its whole count. |
| Statistics.Ascending | gemini-scaffold/employees/DataAnalyst/scripts/eda_toolkit.py:120-127 | The values that the median and the percentiles select from are in order and are a permutation of the year's values. |
| Statistics.PercentileMonotone | gemini-scaffold/employees/DataAnalyst/scripts/eda_toolkit.py:127 | A higher percentage never gives a lower percentile. |
| Statistics.PercentileExtremes | gemini-scaffold/employees/DataAnalyst/scripts/eda_toolkit.py:127 | The 0th and 100th percentiles are the minimum and the maximum. |
| Statistics.MedianIsPercentile50 | gemini-scaffold/employees/DataAnalyst/scripts/eda_toolkit.py:120-127 | `np.median` is the 50th percentile. |
| Statistics.PercentileBounds | gemini-scaffold/employees/DataAnalyst/scripts/eda_toolkit.py:120-127 | Every percentile lies within any bounds of the values. |
| Statistics.QuartilesOrdered | gemini-scaffold/employees/DataAnalyst/scripts/eda_toolkit.py:120-128 | Q1 ≤ median ≤ Q3, so the IQR is non-negative. |
| Values.CleanMembers | gemini-scaffold/employees/DataAnalyst/scripts/eda_toolkit.py:74 | Removing the NaNs keeps exactly the non-NaN values. |
| Values.NanCountComplementsClean | gemini-scaffold/employees/DataAnalyst/scripts/eda_toolkit.py:217 | The NaN count plus the non-NaN count is the length. |
| Values.NanMean | gemini-scaffold/employees/DataAnalyst/scripts/eda_toolkit.py:265 | `np.nanmean` is a number exactly when some value is not NaN. |
| Values.NanMeanBounds | gemini-scaffold/employees/DataAnalyst/scripts/eda_toolkit.py:78 | A mean lies between any bounds of the values it averages. |
| Text.Split | gemini-scaffold/employees/DataAnalyst/scripts/eda_toolkit.py:106 | `split` always yields at least one part. |
| Text.JoinSplit | gemini-scaffold/employees/DataAnalyst/scripts/eda_toolkit.py:106 | Joining the parts with the separator gives back the string. |
| Text.IndexOf | gemini-scaffold/employees/DataAnalyst/scripts/eda_toolkit.py:230-232 | `list.index` fails exactly when the element is absent. Otherwise it returns the first position holding it. |
| Text.ParseNatToDecimal | gemini-scaffold/employees/DataAnalyst/scripts/eda_toolkit.py:202-206 | `int(str(n)) == n` for non-negative `n`. |
| DayTypes.DayString | projects/order_analysis/src/utils/time_utils.py:10 | `strftime('%Y-%m-%d')` is ten characters long. |
| DayTypes.ParseDayString | projects/order_analysis/src/utils/time_utils.py:10 | Reading the rendering back gives the year, month and day. |
| DayTypes.DayStringSameDay | projects/order_analysis/src/utils/time_utils.py:10-16 | Two timestamps render alike exactly when they fall on the same day. |
| DayTypes.DayOfWeek | projects/order_analysis/src/utils/time_utils.py:20 | `dayofweek` lies in 0 to 6. |
| DayTypes.YearStartStep | projects/order_analysis/src/utils/time_utils.py:20 | A March-to-February year has 366 days exactly when the year it ends in is a leap year. |
| DayTypes.DaysFromCivilConsecutive | projects/order_analysis/src/utils/time_utils.py:20 | The day count grows by one from each day to the next, across month and year ends. |
| DayTypes.EpochIsThursday | projects/order_analysis/src/utils/time_utils.py:20 | 1970-01-01 is day 0, a Thursday (3). |
| DayTypes.WeekdayAdvances | projects/order_analysis/src/utils/time_utils.py:20 | Consecutive days have consecutive weekdays, and Sunday is followed by Monday. |
| DayTypes.ListedHoliday | projects/order_analysis/src/utils/time_utils.py:14-16 | The listed holidays are exactly 1 to 3 January 2026. |
| DayTypes.DayTypeMeaning | projects/order_analysis/src/utils/time_utils.py:4-25 | `Holiday` exactly for 1 to 3 January 2026, whatever the weekday. Otherwise `Weekend` exactly for Saturday and Sunday, else `Workday`. |
| DayTypes.MarketingEventMeaning | projects/order_analysis/src/utils/time_utils.py:27-34 | `Christmas` exactly on 25 December 2025, and `NewYear` exactly on 1 January 2026. |
| DayTypes.DayTypeIgnoresTime | projects/order_analysis/src/utils/time_utils.py:4-34 | Both labels depend on the calendar day only, not on the time of day. |
| DayTypes.HolidayBeforeWeekend | projects/order_analysis/src/utils/time_utils.py:16-25 | Saturday 3 January 2026 is a `Holiday`, because the list is checked before the weekend. The Sunday after it is a `Weekend` and the Monday a `Workday`. |
| Basket.OrderIdsMembers | projects/order_analysis/src/core/basket_analyzer.py:13 | The groups are exactly the order numbers that occur on some row. |
| Basket.ItemsOfCount | projects/order_analysis/src/core/basket_analyzer.py:13-14 | An order has a product list exactly when one of its rows exists. The list has more than one entry exactly when two rows carry that order. |
| Basket.QualifyingEmpty | projects/order_analysis/src/core/basket_analyzer.py:14-17 | The filtered baskets are empty exactly when no order has more than one row. |
| Basket.QualifyingLengths | projects/order_analysis/src/core/basket_analyzer.py:14 | Every kept basket has more than one line. |
| Basket.BasketsQualify | projects/order_analysis/src/core/basket_analyzer.py:13-17 | There is nothing to analyse exactly when no order number occurs on two rows. Every basket has at least two lines. |
| Basket.UniqueMeaning | projects/order_analysis/src/core/basket_analyzer.py:25 | `sorted(set(items))` holds each product of the basket exactly once, in strictly ascending order. |
| Basket.HeadsMultiplicity | projects/order_analysis/src/core/basket_analyzer.py:30 | The pairs starting with the first product list each later product once. |
| Basket.PairsMultiplicity | projects/order_analysis/src/core/basket_analyzer.py:30-31 | `combinations(u, 2)` of an ascending list holds each pair `a < b` of its elements exactly once, and no other pair. |
| Basket.IncrementAllCount | projects/order_analysis/src/core/basket_analyzer.py:27-31 | Counting a list of keys adds each key's multiplicity to its count. |
| Basket.IncrementAllTidy | projects/order_analysis/src/core/basket_analyzer.py:27-31 | Counting keeps every key counted at least once and listed once in insertion order. |
| Basket.ItemTallyCount | projects/order_analysis/src/core/basket_analyzer.py:23-28 | `item_counts[x]` is the number of baskets holding `x`, however often `x` appears in them. |
| Basket.PairTallyCount | projects/order_analysis/src/core/basket_analyzer.py:23-31 | `pair_counts[(a, b)]` is the number of baskets holding both `a` and `b` when `a < b`, and 0 for any other key order. |
| Basket.TalliesTidy | projects/order_analysis/src/core/basket_analyzer.py:20-31 | Both counters list each of their keys once, with a count of at least 1. |
| Basket.HoldingBothAtMost | projects/order_analysis/src/core/basket_analyzer.py:40-41 | No more baskets hold both products than hold either one. |
| Basket.PairCountsBounded | projects/order_analysis/src/core/basket_analyzer.py:35-41 | A counted pair is ordered `a < b`, and neither product has a lower count than the pair, so both confidences lie in (0, 1]. |
| Basket.UniqueOfRepeated | projects/order_analysis/src/core/basket_analyzer.py:24-25 | A basket of one product, however many lines, reduces to that product once. |
| Basket.RepeatedItemAddsNoPair | projects/order_analysis/src/core/basket_analyzer.py:24-31 | An order with one product on several lines counts that product once and adds no pair. |
| Basket.MostCommonTop | projects/order_analysis/src/core/basket_analyzer.py:35 | `most_common(n)` keeps `min(n, number of keys)` keys of the counter, each a counted key, none twice. |
| Basket.MostCommonHighest | projects/order_analysis/src/core/basket_analyzer.py:35 | A key that `most_common(n)` leaves out counts no more than any key it keeps. |
| Basket.CandidatesCounted | projects/order_analysis/src/core/basket_analyzer.py:35 | The `most_common` candidates all have a positive count, in non-increasing count, and both of their products are counted. |
| Basket.SupportedRows | projects/order_analysis/src/core/basket_analyzer.py:35-49 | The collected rows are the rows of a prefix of the candidates, each with support of at least `min_support`. |
| Basket.RowSound | projects/order_analysis/src/core/basket_analyzer.py:39-49 | The row of a counted pair states a co-occurrence equal to the number of baskets holding both products. Its confidences are that count over each product's basket count, in (0, 1]. |
| Basket.HeadIsPrefix | projects/order_analysis/src/core/basket_analyzer.py:53 | `head(n)` is a prefix of at most `n` rows. |
| Basket.RankedFromCandidates | projects/order_analysis/src/core/basket_analyzer.py:35-53 | Result row `k` is the row of candidate `k`, which has support. There are at most `top_n` rows. |
| Basket.RankedOrdered | projects/order_analysis/src/core/basket_analyzer.py:35-53 | There are at most `top_n` rows, in non-increasing co-occurrence. |
| Basket.RankedSound | projects/order_analysis/src/core/basket_analyzer.py:35-53 | Every row is sound for the baskets, as `RowSound` states. |
| Basket.SupportedPairsMembers | projects/order_analysis/src/core/basket_analyzer.py:35-37 | A pair has support exactly when its products are ordered `a < b` and bought together in at least one and at least `min_support` baskets. |
| Basket.CutCount | projects/order_analysis/src/core/basket_analyzer.py:35-37 | Cutting a ranking at its first key below `m` keeps as many keys as are counted at least `m` times, unless the ranking runs out first. |
| Basket.LeftOutBelow | projects/order_analysis/src/core/basket_analyzer.py:35-53 | A counted key missing from the first `j` keys of a ranking counts no more than the `j`-th. |
| Basket.KeptCount | projects/order_analysis/src/core/basket_analyzer.py:34-49 | The rows before the `break` number `min(2·top_n candidates, supported pairs)`. |
| Basket.RankedSize | projects/order_analysis/src/core/basket_analyzer.py:35-53 | There are `top_n` rows unless fewer pairs have support, then one per supported pair; none for `top_n <= 0`. |
| Basket.RankedPairs | projects/order_analysis/src/core/basket_analyzer.py:35-53 | Each row is about a different supported pair, and every supported pair left out counts no more than the last row. |
| Basket.RankedLeftOut | projects/order_analysis/src/core/basket_analyzer.py:35-53 | No supported pair left out is bought together in more baskets than the last row's co-occurrence. |
| Basket.RankedMeaning | projects/order_analysis/src/core/basket_analyzer.py:35-53 | The rows satisfy `RankedRows`: exactly `min(top_n, supported pairs)` rows, in non-increasing co-occurrence, each sound and about its own pair, none of the supported pairs left out bought together more often than the last row. |
| Basket.AssociationsMeaning | projects/order_analysis/src/core/basket_analyzer.py:7-54 | The result is empty when no order number occurs on two rows. In every case it satisfies `RankedRows` for the baskets of the orders with more than one row: `top_n` rows unless fewer pairs have support (then one per supported pair), in non-increasing co-occurrence, each sound and about its own pair, and no supported pair left out bought together more often than the last row. |
| Basket.AnalyzeAssociations | projects/order_analysis/src/core/basket_analyzer.py:7-54 | The counting loops and the collection loop compute exactly `Associations`. |
| Basket.TallyBaskets | projects/order_analysis/src/core/basket_analyzer.py:23-31 | The loop over the baskets builds exactly `item_counts` and `pair_counts` as the tallies define them. |
| Basket.CollectSupported | projects/order_analysis/src/core/basket_analyzer.py:34-49 | The loop over the candidates, with its `break`, collects exactly `Supported`. |
| Basket.CountEach | projects/order_analysis/src/core/basket_analyzer.py:27-31 | The `+= 1` loop over one basket's keys is `IncrementAll`. |
| Periods.AssignPeriodRanges | projects/order_analysis/src/pipeline.py:24-29 | Each daytime period is exactly the hours from its first hour up to the next period's first hour (6, 11, 14, 17, 22). `5_LateNight` is exactly the hours below 6 or from 22 on. |
| Periods.LabelsFollowTheDay | projects/order_analysis/src/pipeline.py:24-29 | Between 06:00 and 21:59 the labels never decrease in string order, and different periods have different labels; so the period distribution that `calc_overview` groups by label (strategies/temporal_strategy.py:22, `groupby` sorts its keys) comes out in time-of-day order. |

## Left out

- Finite-precision arithmetic is not modelled: there are no infinities, no rounding and no overflow in floats. `round(z, 2)` is not applied, so a record's score is unrounded.
- The formatted text of `method` (`Vol(2M)`, `Z=1.23`, `IQR`) is only the `Rule` value it names.
- `scipy.stats.ttest_ind` and `np.std` are parameters, not implementations.
- Anomaly.DetectVolatilityOutliers: `window` is a `nat`. A negative window would slice from the end of the list in Python, and that is not modelled.
- BreakPoint.ScanForBreakPoint: `min_window` is a `nat`, for the same reason.
- EventCalendar.GetWindowData: requires `|dates| <= |series|`. A shorter `series` raises `IndexError` in the source, and that is not modelled.
- Impact.AnalyzeMetricOutcomes: requires `|dates| <= |values|` (see `Impact.AnalyzeMetric`), for the same reason.
- `int()` is modelled only on non-empty ASCII digit strings. Whitespace, signs, `_` and non-ASCII digits are left out, so `-` always acts as the separator.
- `get_day_type` accepts only a `Timestamp` with a four-digit year. `pd.to_datetime` on strings and other inputs is not modelled.
- Dates are `Timestamp` values in the proleptic Gregorian calendar. `Valid` limits them to years 1000 to 9999, which covers every nanosecond `Timestamp`.
- Order numbers and product names are strings. Other cell types of the order table are left out, and so is the conversion to a `DataFrame`.
- The `DataFrame` of associations is a list of `Association` rows. Its column layout and the empty frame's columns are left out.
- Attribution.AbsoluteShiftMeaning: does not state the order among rows with equal `Abs_Change`. The source builds them from a `set` and sorts with pandas' default unstable quicksort, so that order is not determined.
- The sheet handling of `scan_entities` and `get_metrics_map` is left out. The model takes the columns as lists: `names` is column `name_col_idx` and `traffic` is column 13. `labels` is `str(cell).strip()` of column 0, already rendered and stripped.
- Scouter.GetMetricsMap: `name_row_idx` is a `nat`. A negative row index is not modelled.
- Scouter.ScanEntities: returns a `map`. The insertion order of the entity dictionary is left out.
- Plotting (`ChartGenerator`), the debug `print` calls, file I/O and the rest of `pipeline.py` are not modelled, because they do not affect the computed results.
