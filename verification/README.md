# Neighbourhood incident forecast — the monthly series and the forecast frame

This project models the data path of the "Neighbourhood Incident Forecast" dashboard page,
`Neighourhood_Incident_Forecast.py`. Incident rows have already been filtered to one neighbourhood
and one crime category. From them the page builds a gap-free monthly count series, and then it
frames a seasonal forecast around that series. The path has four stages:

1. **Monthly aggregation** (lines 20-26). The rows are grouped by `(OCC_YEAR, OCC_MONTH)`; each
   group's size becomes its `Total`. pandas returns the groups in key order.
2. **Dating and sorting** (lines 29-33). Each group gets the text `YEAR-MM-01`, with the month
   zero-padded by `str.zfill(2)`. `pd.to_datetime` turns the texts into dates and fails for the
   whole column if one text is not a real date. The table is then sorted by `DATE`.
3. **Gap filling** (lines 42-53, inside `forecast_category`). An empty table gives an empty frame
   and no model is fitted. Otherwise the table is indexed by `DATE` and reindexed at month-start
   frequency (`asfreq('MS')`) from its earliest to its latest month. Months with no row become 0.
4. **Forecast framing** (lines 67-79). The model's predictions for `forecast_horizon` periods are
   paired with the `forecast_horizon` months that follow the last month of the series. Every
   prediction is clamped at zero (`np.maximum(preds, 0.0)`).

Modules, one per file:

- `Calendar` (calendar.dfy): dates, the month index `year*12 + (month-1)`, and the month after a
  month start.
- `DateText` (date_text.dfy): the date text the script writes for a group, and a parser for that
  text.
- `Aggregation` (aggregation.dfy): the groupby/size.
- `MonthlyTable` (monthly_table.dfy): lines 20-33 as a whole.
- `Forecast` (forecast.dfy): `forecast_category`.
- `Dashboard` (dashboard.dfy): one run of the script followed by a click (lines 85-86), with every
  result stated in terms of the incident rows. Lines 20-33 run at module level on every rerun,
  before any click, so a month outside 1..12 breaks the page as soon as it loads.
- `Results` (results.dfy): the `Result` and `Option` types used for the error paths.

The fitted auto-ARIMA model is a parameter, `Predictor = (seq<real>, nat) -> seq<real>`. It is
given the gap-filled series and the horizon, and it returns the point predictions. No property
depends on what it predicts.

Four details of the script that the model keeps:

- The monthly table built by lines 20-33 has no zero months. Gap filling happens only inside
  `forecast_category`, on the series the model is fitted on.
- `asfreq` spans the earliest to the latest `DATE` of the table. A repeated `DATE` makes the
  reindex raise (`Forecast.ForecastCategory` returns `Err(DuplicateDates)`). The model proves that
  a table built by lines 20-33 never has one (`Dashboard.ForecastOnTable`).
- The frame is built from two columns. When the model returns a different number of predictions
  than `forecast_horizon`, the DataFrame constructor raises. The model returns
  `Err(LengthMismatch)` in that case rather than assuming the model's output length.
- A group whose month is not 1..12 makes `pd.to_datetime` raise for the whole column. The model
  returns `Err(BadDate(...))` from `Dashboard.RunForecast` exactly when some row's month is not a
  calendar month.

## Model

| member | source | states |
|---|---|---|
| Calendar.MonthStartAt | Neighourhood_Incident_Forecast.py:29-32 | the date built for month index k is the first day of a real month, and its month index is k |
| Calendar.MonthStartAtIndex | Neighourhood_Incident_Forecast.py:29-32 | a month-start date is recovered from its month index, so dates and indices are interchangeable |
| Calendar.MonthIndexInjective | Neighourhood_Incident_Forecast.py:29-32 | two (year, month) keys with months in 1..12 and the same month index are the same key |
| Calendar.MonthStartOrder | Neighourhood_Incident_Forecast.py:33 | on month-start dates, sorting by DATE is sorting by month index, in both directions |
| Calendar.NextMonth | Neighourhood_Incident_Forecast.py:71 | adding MonthBegin(1) to a month start gives a month start one index later and strictly after it |
| Calendar.NextMonthRollsOver | Neighourhood_Incident_Forecast.py:70-74 | the month after December is January of the next year; in general the next month is the month with the next index |
| Calendar.DaysInMonth | Neighourhood_Incident_Forecast.py:29-32 | a month has 28 to 31 days, and February has 29 exactly in leap years |
| DateText.IntToText | Neighourhood_Incident_Forecast.py:31 | `astype(str)` of a month: for a month of 0 or more, a digit string that reads back as the month; for a negative month, '-' followed by a digit string that reads back as its magnitude |
| DateText.ZFill | Neighourhood_Incident_Forecast.py:31 | `str.zfill` leaves a text of at least the width alone; a shorter one is padded with '0's to the width, after its sign when it has one, and keeps its own characters in order at the end |
| DateText.ParseDate | Neighourhood_Incident_Forecast.py:29-32 | a text with no '-' is malformed; a converted date is a real calendar day: month 1..12 and a day that month has |
| DateText.NatToText | Neighourhood_Incident_Forecast.py:30 | `astype(str)` of a year is a non-empty run of digits, one digit exactly below 10 |
| DateText.ParseNat | Neighourhood_Incident_Forecast.py:29 | a field parses as a number exactly when it is a non-empty run of digits |
| DateText.ParseNatRoundTrip | Neighourhood_Incident_Forecast.py:30 | reading back the decimal text of a number gives the number |
| DateText.MonthFieldParses | Neighourhood_Incident_Forecast.py:31 | the zero-padded month field is two digits exactly when the month is below 100, and then it reads back as the month |
| DateText.SplitDateText | Neighourhood_Incident_Forecast.py:29-32 | the date text splits back into its year, month and day fields; a month field that starts with '-' makes it malformed |
| DateText.DateString | Neighourhood_Incident_Forecast.py:29-32 | the text built for (year, month) converts to the first day of that month when the month is 1..12, and fails otherwise |
| DateText.MonthStart | Neighourhood_Incident_Forecast.py:29-32 | a group's DATE exists exactly when its month is 1..12, and is then the first day of that month |
| Aggregation.AddRow | Neighourhood_Incident_Forecast.py:23-24 | adding a row keeps the groups in strict key order, and the key set gains exactly the row's key |
| Aggregation.AddRowCounts | Neighourhood_Incident_Forecast.py:23-24 | adding a row raises exactly its own key's total by one, keeps every group non-empty, and raises the grand total by one |
| Aggregation.Aggregate | Neighourhood_Incident_Forecast.py:20-26 | the groups are in strict key order with the same keys as the rows; each key's total is the number of rows with that key; the totals sum to the number of rows |
| Aggregation.AggregateCounts | Neighourhood_Incident_Forecast.py:20-26 | every group's Total equals the number of rows with its year and month, and is at least one |
| MonthlyTable.ToDatetime | Neighourhood_Incident_Forecast.py:29-32 | converting a column succeeds exactly when every entry converts, and then converts each entry in place |
| MonthlyTable.DateTexts | Neighourhood_Incident_Forecast.py:29-32 | the text column has one entry per group, each group's own text, which converts exactly when its month is 1..12, and then to the first day of that month |
| MonthlyTable.AttachDates | Neighourhood_Incident_Forecast.py:29-32 | dating the groups succeeds exactly when every month is 1..12, and then dates each group the first day of its month, keeping its total |
| MonthlyTable.InsertByDate | Neighourhood_Incident_Forecast.py:33 | inserting into a date-sorted table keeps it sorted and adds exactly that row (as a multiset) |
| MonthlyTable.SortByDate | Neighourhood_Incident_Forecast.py:33 | sorting gives a date-sorted permutation of the table |
| MonthlyTable.SortKeepsAscending | Neighourhood_Incident_Forecast.py:33 | sorting a table whose dates already strictly increase leaves it unchanged |
| MonthlyTable.SumObsMatches | Neighourhood_Incident_Forecast.py:29-32 | adding the DATE column keeps the sum of the totals |
| MonthlyTable.ValidGroupsIffValidRows | Neighourhood_Incident_Forecast.py:29-32 | every group has a month in 1..12 exactly when every incident row does |
| MonthlyTable.DatedGroupsFacts | Neighourhood_Incident_Forecast.py:20-32 | the dated groups strictly increase by date; each is a month start holding that month's row count (at least one); every row's month has an entry; the totals sum to the number of rows |
| MonthlyTable.BuildMonthly | Neighourhood_Incident_Forecast.py:20-33 | the monthly table is built exactly when every row's month is 1..12, and it is then the strictly date-ascending table of month starts with each month's row count, covering every row, summing to the number of rows |
| Forecast.FirstMonth | Neighourhood_Incident_Forecast.py:49 | the first month of the asfreq range is the earliest DATE of the table |
| Forecast.LastMonth | Neighourhood_Incident_Forecast.py:49 | the last month of the asfreq range is the latest DATE of the table |
| Forecast.Reindex | Neighourhood_Incident_Forecast.py:48-50 | reindexing onto n months holds, for each month, the total of the row dated that month, or 0 |
| Forecast.Lookup | Neighourhood_Incident_Forecast.py:48-50 | `asfreq` plus `fillna(0.0)` read at one month; it carries no contract of its own, and `LookupFound` and `LookupAbsent` give its value: the total of the row dated that month, or 0 |
| Forecast.LookupFound | Neighourhood_Incident_Forecast.py:48-50 | with distinct months, the reindexed value at an observed row's month is that row's total |
| Forecast.LookupAbsent | Neighourhood_Incident_Forecast.py:50 | a month no row is dated at is filled with 0 |
| Forecast.GapFill | Neighourhood_Incident_Forecast.py:46-53 | the filled series starts at the earliest month, has one entry per month through the latest month, and holds each month's total or 0 |
| Forecast.Dates | Neighourhood_Incident_Forecast.py:46-53 | the index laid out month by month from the first month, as `asfreq('MS')` does, agrees with the closed form: its i-th date is the month start i months after the first |
| Forecast.ToFloats | Neighourhood_Incident_Forecast.py:51 | the float cast keeps each count's value, so no entry of the training series is negative |
| Forecast.Training | Neighourhood_Incident_Forecast.py:46-57 | the series the model is fitted on has one value per month from the first to the last month of the table, each that month's total or 0, as a real; `Dashboard.TrainingMatches` equates it with the incidents' own monthly counts |
| Forecast.GapFillKeepsObserved | Neighourhood_Incident_Forecast.py:46-53 | every observed month lies in the filled range and keeps its count at its own DATE |
| Forecast.GapFillZeroWhereAbsent | Neighourhood_Incident_Forecast.py:46-53 | every month in the range with no observation holds 0 at its own DATE |
| Forecast.FilledDatesConsecutive | Neighourhood_Incident_Forecast.py:46-53 | each date of the filled series is the month after the previous one, so the dates strictly increase |
| Forecast.SumReindex | Neighourhood_Incident_Forecast.py:48-50 | reindexing onto a range that covers every row keeps the sum of the totals |
| Forecast.GapFillKeepsTotal | Neighourhood_Incident_Forecast.py:46-53 | gap filling adds only zeros: the filled series sums to the table's total |
| Forecast.FutureIndex | Neighourhood_Incident_Forecast.py:70-74 | date_range(start, periods=n, freq="MS") has n dates, the i-th being i months after start |
| Forecast.FutureIndexConsecutive | Neighourhood_Incident_Forecast.py:70-74 | the future index starts at its start date and each date is the month after the one before |
| Forecast.FutureAfter | Neighourhood_Incident_Forecast.py:70-74 | the future index has horizon dates, beginning with the month after the last filled month |
| Forecast.Clamp | Neighourhood_Incident_Forecast.py:78 | `np.maximum(p, 0.0)` is never negative; it is p when p is 0 or more and 0 when p is negative |
| Forecast.Frame | Neighourhood_Incident_Forecast.py:76-79 | the frame pairs dates and clamped predictions one to one, and no forecast is negative |
| Forecast.FrameFollows | Neighourhood_Incident_Forecast.py:70-79 | the frame built after a filled series lists the months that follow its last month, in order, with no negative forecast |
| Forecast.FrameOrMismatch | Neighourhood_Incident_Forecast.py:70-79 | the frame is built exactly when the model returned one prediction per requested month, and otherwise fails with a length mismatch; a built frame follows the filled series' last month and clamps each prediction |
| Forecast.FitAndFrame | Neighourhood_Incident_Forecast.py:56-79 | on a non-empty table, a frame is returned exactly when the model, fitted on the training series, gives one prediction per requested month, and the only failure is a length mismatch; the frame lists the months after the last month, each prediction clamped at zero |
| Forecast.ForecastCategory | Neighourhood_Incident_Forecast.py:36-81 | an empty table gives an empty frame; a repeated DATE fails, and only it does; a prediction count other than the horizon fails, and only it does; otherwise the frame has horizon rows dated the months after the last observed month, each forecast the matching prediction clamped at zero |
| Forecast.ForecastOutcome | Neighourhood_Incident_Forecast.py:67-79 | on a non-empty table with distinct dates, a frame is returned exactly when the model gives one prediction per requested month, and each forecast is its prediction clamped at zero |
| Dashboard.TableSpansIncidents | Neighourhood_Incident_Forecast.py:20-33 | the monthly table's first and last months are the months of the earliest and the latest incident |
| Dashboard.TableShape | Neighourhood_Incident_Forecast.py:20-33 | a monthly table has month-start, distinct dates, is empty exactly when there are no incidents, and ends at the latest incident's month |
| Dashboard.LookupCountsIncidents | Neighourhood_Incident_Forecast.py:46-50 | reindexing the monthly table at any month gives the number of incidents in that month |
| Dashboard.FilledCountsIncidents | Neighourhood_Incident_Forecast.py:46-53 | every entry of the filled series is the number of incidents in its month |
| Dashboard.TrainingSeriesFromIncidents | Neighourhood_Incident_Forecast.py:46-53 | the model is fitted on one count per month from the earliest to the latest incident, each the number of incidents that month (0 when none), summing to the number of incidents |
| Dashboard.TrainingMatches | Neighourhood_Incident_Forecast.py:46-53 | the series the model is fitted on equals the incidents' own monthly counts, read off the rows from the earliest to the latest incident's month (`TrainingOf`) |
| Dashboard.ForecastOnTable | Neighourhood_Incident_Forecast.py:36-81 | on a monthly table, forecast_category never reports repeated dates and gives an empty frame for no incidents; otherwise it returns a frame exactly when the model, fitted on the incidents' monthly counts, gives one prediction per month, and that frame lists the horizon months after the latest incident with each prediction clamped at zero |
| Dashboard.RunForecast | Neighourhood_Incident_Forecast.py:85-86 | the click fails on dates exactly when some row's month is not 1..12; no incidents give an empty frame; with valid rows, a frame comes back exactly when the model, fitted on the incidents' monthly counts from the earliest to the latest month, gives one prediction per requested month, and the only other failure is that mismatch; a frame lists the horizon months after the latest incident, each forecast the matching prediction clamped at zero |
| Dashboard.ExampleFilledSeries | Neighourhood_Incident_Forecast.py:46-53 | one incident in January 2021 and two in March 2021 give the training series [1, 0, 2] |
| Dashboard.ExampleBuilds | Neighourhood_Incident_Forecast.py:20-53 | the same incidents build a monthly table, and it fills to [1, 0, 2] |
| Dashboard.ExampleForecastStart | Neighourhood_Incident_Forecast.py:70-74 | with the same incidents, a frame that follows the latest incident (as RunForecast's frames do) starts in April 2021 |

## Left out

- The Streamlit title, header, sidebar widgets and button (lines 4-13) are UI. The slider's range
  (12 to 36 in steps of 6) is kept as the precondition `Dashboard.ValidHorizon` of `RunForecast`.
- The filtering on line 16 and the column encodings come from `data.py`, which is not part of this
  model. The rows reach the model already filtered to one neighbourhood and one category, so the
  other two grouping keys of line 23 are constant and are dropped. This assumes `Neighborhood` and
  `MCI_CATEGORY` are ordinary columns, not pandas categoricals: with categoricals, `groupby`
  (default `observed=False`) would also emit zero-size groups for the other categories, repeating
  each `DATE`, and `asfreq` would then raise.
- Rows with a missing year or month (which `groupby` would drop) are not modelled: every row has
  an integer year and month.
- `pm.auto_arima` model selection, fitting and `predict` (lines 56-67) are a third-party library
  working in floating point. They are the `Predictor` parameter. Their error-suppression flags
  (lines 61-62) are outside the model, and so is a fit that raises.
- The float cast (line 51) keeps each count's value. IEEE rounding and NaN are not modelled;
  forecasts are Dafny reals.
- Plotly rendering (lines 87-95) and the Gemini prompt, network call and its
  `st.cache_resource` memoization (lines 97-113) are presentation and external services.
- `crime_monthly is None` (line 42) cannot happen on this path: the table always exists.
- Aggregation.Incident: the year is a natural number; the text of a negative year is not modelled.
- MonthlyTable.BuildMonthly: does not model pandas' Timestamp bounds (1677-09-21 to 2262-04-11).
  Month starts outside 1677-10 to 2262-04 make `pd.to_datetime` raise in the source, but they are
  accepted here.
- Forecast.FutureIndex: does not model the same bounds for `pd.date_range` (line 70). A future
  month past 2262-04 (say the last month is 2262-03 and the horizon is 12) makes it raise in the
  source, while `FutureIndex`, and so `Forecast.ForecastCategory`, returns such dates.
- DateText.ParseDate: reads only the `YEAR-MM-DD` shape the script writes. The other formats
  `pd.to_datetime` infers are not modelled.
- Forecast.ForecastCategory: requires every DATE to be a month start. `asfreq('MS')` on other
  dates would drop them from the grid. Every table built by lines 20-33 meets the requirement
  (`Dashboard.TableShape`).
- Forecast.ForecastCategory: the column names of the empty frame (`DATE`, `Forecast`) are not
  modelled; the empty frame is the empty sequence of rows.
- Running the same forecast twice gives the same frame because every member is a pure function.
  This relies on the predictor being deterministic, which the `Predictor` parameter assumes.
