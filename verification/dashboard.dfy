/** The dashboard's forecast path end to end: incident rows of one neighbourhood and crime category,
    the monthly table, and `forecast_category` run with the horizon chosen on the slider. */
module Dashboard {
  import opened Results
  import opened Calendar
  import opened DateText
  import opened Aggregation
  import opened MonthlyTable
  import opened Forecast

  /** The slider offers 12 to 36 months in steps of 6. */
  predicate ValidHorizon(h: int) {
    12 <= h <= 36 && (h - 12) % 6 == 0
  }

  datatype PipelineError = BadDate(dateError: DateError) | ForecastFailed(forecastError: ForecastError)

  /** Month index of the earliest incident. It ranges over the incident rows, not the monthly
      table, so that results can be stated before any table exists; `TableSpansIncidents` shows it
      agrees with `FirstMonth` of the table. Its bounds are in `IncidentRange`. */
  function EarliestIncident(rows: seq<Incident>): int
    requires |rows| > 0
  {
    var k := MonthIndex(rows[0].year, rows[0].month);
    if |rows| == 1 then k
    else
      var rest := EarliestIncident(rows[1..]);
      if k <= rest then k else rest
  }

  /** Month index of the latest incident; it agrees with `LastMonth` of the table. */
  function LatestIncident(rows: seq<Incident>): int
    requires |rows| > 0
  {
    var k := MonthIndex(rows[0].year, rows[0].month);
    if |rows| == 1 then k
    else
      var rest := LatestIncident(rows[1..]);
      if k >= rest then k else rest
  }

  /** The earliest and latest incident months bound every row's month, and each is some row's
      month. */
  lemma {:induction false} IncidentRange(rows: seq<Incident>)
    requires |rows| > 0
    ensures forall i :: 0 <= i < |rows| ==>
      EarliestIncident(rows) <= MonthIndex(rows[i].year, rows[i].month) <= LatestIncident(rows)
    ensures exists i :: 0 <= i < |rows| && MonthIndex(rows[i].year, rows[i].month) == EarliestIncident(rows)
    ensures exists i :: 0 <= i < |rows| && MonthIndex(rows[i].year, rows[i].month) == LatestIncident(rows)
  {
    if |rows| > 1 {
      IncidentRange(rows[1..]);
      assert forall i :: 1 <= i < |rows| ==> rows[i] == rows[1..][i - 1];
      var a :| 0 <= a < |rows[1..]| && MonthIndex(rows[1..][a].year, rows[1..][a].month) == EarliestIncident(rows[1..]);
      var b :| 0 <= b < |rows[1..]| && MonthIndex(rows[1..][b].year, rows[1..][b].month) == LatestIncident(rows[1..]);
      assert rows[a + 1] == rows[1..][a] && rows[b + 1] == rows[1..][b];
    }
  }

  /** A positive count means some row has that year and month. */
  lemma {:induction false} CountPositive(rows: seq<Incident>, year: int, month: int)
    requires Count(rows, year, month) > 0
    ensures exists i :: 0 <= i < |rows| && rows[i].year == year && rows[i].month == month
  {
    var n := |rows|;
    if !(rows[n - 1].year == year && rows[n - 1].month == month) {
      CountPositive(rows[..n - 1], year, month);
      var i :| 0 <= i < n - 1 && rows[..n - 1][i].year == year && rows[..n - 1][i].month == month;
      assert rows[i] == rows[..n - 1][i];
    }
  }

  /** No row with that year and month means a zero count. */
  lemma {:induction false} CountAbsent(rows: seq<Incident>, year: int, month: int)
    requires forall i :: 0 <= i < |rows| ==> !(rows[i].year == year && rows[i].month == month)
    ensures Count(rows, year, month) == 0
  {
    if |rows| > 0 {
      var n := |rows|;
      assert forall i :: 0 <= i < n - 1 ==> rows[..n - 1][i] == rows[i];
      CountAbsent(rows[..n - 1], year, month);
    }
  }

  /** Every table entry's month is the month of some incident row. */
  lemma {:induction false} EntryHasRow(rows: seq<Incident>, series: seq<Observation>, j: nat)
    requires IsMonthlyTableOf(rows, series) && j < |series|
    ensures exists i :: 0 <= i < |rows| && rows[i].year == series[j].date.year && rows[i].month == series[j].date.month
  {
    assert CountedAt(rows, series, j);
    CountPositive(rows, series[j].date.year, series[j].date.month);
  }

  /** Every incident row's month has a table entry. */
  lemma {:induction false} RowHasEntry(rows: seq<Incident>, series: seq<Observation>, i: nat)
    requires IsMonthlyTableOf(rows, series) && i < |rows|
    ensures exists j :: 0 <= j < |series| && series[j].date == Date(rows[i].year, rows[i].month, 1)
  {
    assert CoveredAt(rows, series, i);
  }

  /** The monthly table spans exactly the months of the incidents: its first and last dates are the
      months of the earliest and the latest incident. */
  lemma {:induction false} TableSpansIncidents(rows: seq<Incident>, series: seq<Observation>)
    requires IsMonthlyTableOf(rows, series) && |rows| > 0
    ensures |series| > 0
    ensures FirstMonth(series) == EarliestIncident(rows)
    ensures LastMonth(series) == LatestIncident(rows)
  {
    RowHasEntry(rows, series, 0);
    IncidentRange(rows);
    var lo, hi := EarliestIncident(rows), LatestIncident(rows);
    var first, last := FirstMonth(series), LastMonth(series);
    var jf :| 0 <= jf < |series| && Index(series[jf].date) == first;
    var jl :| 0 <= jl < |series| && Index(series[jl].date) == last;
    EntryHasRow(rows, series, jf);
    EntryHasRow(rows, series, jl);
    var a :| 0 <= a < |rows| && MonthIndex(rows[a].year, rows[a].month) == lo;
    var b :| 0 <= b < |rows| && MonthIndex(rows[b].year, rows[b].month) == hi;
    RowHasEntry(rows, series, a);
    RowHasEntry(rows, series, b);
    var ja :| 0 <= ja < |series| && series[ja].date == Date(rows[a].year, rows[a].month, 1);
    var jb :| 0 <= jb < |series| && series[jb].date == Date(rows[b].year, rows[b].month, 1);
    assert first <= lo by { assert Index(series[ja].date) == lo; }
    assert hi <= last by { assert Index(series[jb].date) == hi; }
  }

  /** The facts about a monthly table that `forecast_category` relies on: its dates are month starts
      and distinct, it is empty exactly when there are no incidents, and its last month is the month
      of the latest incident. */
  lemma {:induction false} TableShape(rows: seq<Incident>, series: seq<Observation>)
    requires IsMonthlyTableOf(rows, series)
    ensures AllMonthStarts(series) && DistinctDates(series)
    ensures |series| == 0 <==> |rows| == 0
    ensures |rows| > 0 ==> LastMonth(series) == LatestIncident(rows)
  {
    if |rows| > 0 {
      TableSpansIncidents(rows, series);
    }
    if |series| > 0 {
      EntryHasRow(rows, series, 0);
    }
    forall i, j | 0 <= i < j < |series| ensures series[i].date != series[j].date {
      assert DateLess(series[i].date, series[j].date);
    }
  }

  /** `counts[j]` is the number of incident rows in the `j`-th month from month index `start`. */
  predicate CountsPerMonth(rows: seq<Incident>, start: int, counts: seq<nat>) {
    forall j :: 0 <= j < |counts| ==>
      counts[j] == Count(rows, MonthStartAt(start + j).year, MonthStartAt(start + j).month)
  }

  /** Looking a month up in the monthly table gives the number of incidents in that month (0 when
      the table has no entry for it). */
  lemma {:induction false} LookupCountsIncidents(rows: seq<Incident>, series: seq<Observation>, k: int)
    requires IsMonthlyTableOf(rows, series)
    ensures Lookup(series, k) == Count(rows, MonthStartAt(k).year, MonthStartAt(k).month)
  {
    TableShape(rows, series);
    DistinctDatesAreDistinctMonths(series);
    var d := MonthStartAt(k);
    if i :| 0 <= i < |series| && series[i].date == d {
      LookupFound(series, i);
      assert CountedAt(rows, series, i);
    } else {
      forall i | 0 <= i < |series| ensures Index(series[i].date) != k {
        MonthStartAtIndex(series[i].date);
      }
      LookupAbsent(series, k);
      forall i | 0 <= i < |rows| ensures !(rows[i].year == d.year && rows[i].month == d.month) {
        RowHasEntry(rows, series, i);
      }
      CountAbsent(rows, d.year, d.month);
    }
  }

  /** A series whose every lookup counts the incidents of that month fills to those counts. */
  lemma {:induction false} FilledCountsFromLookups(rows: seq<Incident>, series: seq<Observation>)
    requires |series| > 0
    requires forall k :: Lookup(series, k) == Count(rows, MonthStartAt(k).year, MonthStartAt(k).month)
    ensures CountsPerMonth(rows, FirstMonth(series), GapFill(series).counts)
  {
  }

  /** Every month of the filled series holds the number of incidents in that month. */
  lemma {:induction false} FilledCountsIncidents(rows: seq<Incident>, series: seq<Observation>)
    requires IsMonthlyTableOf(rows, series) && |series| > 0
    ensures CountsPerMonth(rows, FirstMonth(series), GapFill(series).counts)
  {
    forall k ensures Lookup(series, k) == Count(rows, MonthStartAt(k).year, MonthStartAt(k).month) {
      LookupCountsIncidents(rows, series, k);
    }
    FilledCountsFromLookups(rows, series);
  }

  /** The series the model is fitted on, in terms of the incident rows: one entry per month from the
      earliest to the latest incident, each the number of incidents in that month (0 for a month
      with none), adding up to the number of rows. */
  lemma {:induction false} TrainingSeriesFromIncidents(rows: seq<Incident>, series: seq<Observation>)
    requires IsMonthlyTableOf(rows, series) && |rows| > 0
    ensures |series| > 0
    ensures GapFill(series).start == EarliestIncident(rows)
    ensures |GapFill(series).counts| == LatestIncident(rows) - EarliestIncident(rows) + 1
    ensures CountsPerMonth(rows, EarliestIncident(rows), GapFill(series).counts)
    ensures SumCounts(GapFill(series).counts) == |rows|
  {
    TableSpansIncidents(rows, series);
    FilledCountsIncidents(rows, series);
    GapFillKeepsTotal(series);
  }

  /** The monthly counts of the incidents from the earliest month to the latest, every month in
      between included, as reals: what the model is fitted on, read off the rows directly. */
  function TrainingOf(rows: seq<Incident>): (xs: seq<real>)
    requires |rows| > 0
  {
    IncidentRange(rows);
    var lo := EarliestIncident(rows);
    seq(LatestIncident(rows) - lo + 1, j requires 0 <= j =>
      Count(rows, MonthStartAt(lo + j).year, MonthStartAt(lo + j).month) as real)
  }

  /** The series `forecast_category` fits its model on is the incidents' monthly counts, gaps
      filled with zero. */
  lemma {:induction false} TrainingMatches(rows: seq<Incident>, series: seq<Observation>)
    requires IsMonthlyTableOf(rows, series) && |rows| > 0
    ensures |series| > 0 && Training(series) == TrainingOf(rows)
  {
    TrainingSeriesFromIncidents(rows, series);
    TrainingFromCounts(rows, series);
  }

  lemma {:induction false} TrainingFromCounts(rows: seq<Incident>, series: seq<Observation>)
    requires |rows| > 0 && |series| > 0
    requires |GapFill(series).counts| == LatestIncident(rows) - EarliestIncident(rows) + 1
    requires CountsPerMonth(rows, EarliestIncident(rows), GapFill(series).counts)
    ensures Training(series) == TrainingOf(rows)
  {
    var counts := GapFill(series).counts;
    var lo := EarliestIncident(rows);
    forall j | 0 <= j < |counts|
      ensures Training(series)[j] == TrainingOf(rows)[j]
    {
      assert counts[j] == Count(rows, MonthStartAt(lo + j).year, MonthStartAt(lo + j).month);
    }
  }

  /** `forecast_category` on any series shaped like a monthly table of `rows`. */
  lemma {:induction false} ForecastOnShape(rows: seq<Incident>, series: seq<Observation>, horizon: nat, predict: Predictor)
    requires AllMonthStarts(series) && DistinctDates(series)
    requires |series| == 0 <==> |rows| == 0
    requires |rows| > 0 ==> LastMonth(series) == LatestIncident(rows)
    requires |rows| > 0 ==> Training(series) == TrainingOf(rows)
    ensures ForecastCategory(series, horizon, predict) != Err(DuplicateDates)
    ensures |rows| == 0 ==> ForecastCategory(series, horizon, predict) == Ok([])
    ensures |rows| > 0 && ForecastCategory(series, horizon, predict).Ok? ==>
      FrameAfter(ForecastCategory(series, horizon, predict).value, LatestIncident(rows), horizon)
    ensures |rows| > 0 ==>
      (ForecastCategory(series, horizon, predict).Ok? <==> |predict(TrainingOf(rows), horizon)| == horizon)
    ensures |rows| > 0 && ForecastCategory(series, horizon, predict).Ok? ==>
      ClampedFrom(ForecastCategory(series, horizon, predict).value, predict(TrainingOf(rows), horizon))
  {
    if |rows| > 0 {
      ForecastOutcome(series, horizon, predict);
    }
  }

  /** What `forecast_category` returns on a monthly table, stated in terms of the incident rows: it
      never reports repeated dates, gives an empty frame when there are no incidents, and otherwise
      any frame it returns covers the `horizon` months after the latest incident, with no negative
      forecast. */
  lemma {:induction false} ForecastOnTable(rows: seq<Incident>, series: seq<Observation>, horizon: nat, predict: Predictor)
    requires IsMonthlyTableOf(rows, series)
    ensures AllMonthStarts(series)
    ensures ForecastCategory(series, horizon, predict) != Err(DuplicateDates)
    ensures |rows| == 0 ==> ForecastCategory(series, horizon, predict) == Ok([])
    ensures |rows| > 0 && ForecastCategory(series, horizon, predict).Ok? ==>
      FrameAfter(ForecastCategory(series, horizon, predict).value, LatestIncident(rows), horizon)
    ensures |rows| > 0 ==>
      (ForecastCategory(series, horizon, predict).Ok? <==> |predict(TrainingOf(rows), horizon)| == horizon)
    ensures |rows| > 0 && ForecastCategory(series, horizon, predict).Ok? ==>
      ClampedFrom(ForecastCategory(series, horizon, predict).value, predict(TrainingOf(rows), horizon))
  {
    TableShape(rows, series);
    if |rows| > 0 {
      TrainingMatches(rows, series);
    }
    ForecastOnShape(rows, series, horizon, predict);
  }

  /** One run of the page followed by a click on "Generate Incident Forecast": lines 20-33 build
      the monthly table at module level, on every rerun of the script and before any click, and
      the click (lines 85-86) runs `forecast_category` on it. A `BadDate` therefore breaks the page
      as soon as it loads, not only when the button is pressed. */
  function RunForecast(rows: seq<Incident>, horizon: nat, predict: Predictor)
    : (r: Result<seq<ForecastRow>, PipelineError>)
    requires ValidHorizon(horizon)
    ensures (r.Err? && r.error.BadDate?) <==> !ValidRows(rows)
    ensures |rows| == 0 ==> r == Ok([])
    ensures r.Err? && r.error.ForecastFailed? ==> r.error == ForecastFailed(LengthMismatch)
    ensures r.Ok? && |rows| > 0 ==> FrameAfter(r.value, LatestIncident(rows), horizon)
    ensures ValidRows(rows) && |rows| > 0 ==> (r.Ok? <==> |predict(TrainingOf(rows), horizon)| == horizon)
    ensures r.Ok? && |rows| > 0 ==> ClampedFrom(r.value, predict(TrainingOf(rows), horizon))
  {
    match BuildMonthly(rows)
    case Err(e) => Err(BadDate(e))
    case Ok(series) =>
      ForecastOnTable(rows, series, horizon, predict);
      var result := ForecastCategory(series, horizon, predict);
      if result.Err? then Err(ForecastFailed(result.error)) else Ok(result.value)
  }

  /** The incident rows of the example below: one in January 2021 and two in March 2021. */
  function ExampleRows(): seq<Incident> {
    [Incident(2021, 1), Incident(2021, 3), Incident(2021, 3)]
  }

  lemma {:induction false} ExampleSpan()
    ensures ValidRows(ExampleRows())
    ensures EarliestIncident(ExampleRows()) == MonthIndex(2021, 1)
    ensures LatestIncident(ExampleRows()) == MonthIndex(2021, 3)
  {
  }

  lemma {:induction false} ExampleCounts()
    ensures Count(ExampleRows(), 2021, 1) == 1
    ensures Count(ExampleRows(), 2021, 2) == 0
    ensures Count(ExampleRows(), 2021, 3) == 2
  {
    var rows := ExampleRows();
    var r1 := [Incident(2021, 1)];
    var r2 := r1 + [Incident(2021, 3)];
    assert r1[..0] == [] && r2[..1] == r1 && rows[..2] == r2;
    assert Count(r1, 2021, 1) == 1 && Count(r1, 2021, 2) == 0 && Count(r1, 2021, 3) == 0;
    assert Count(r2, 2021, 1) == 1 && Count(r2, 2021, 2) == 0 && Count(r2, 2021, 3) == 1;
  }

  /** Incidents in January and March 2021 (two in March): the model is fitted on January through
      March, with February filled as 0. */
  lemma {:induction false} ExampleFilledSeries(series: seq<Observation>)
    requires IsMonthlyTableOf(ExampleRows(), series)
    ensures GapFill(series).counts == [1, 0, 2]
  {
    var rows := ExampleRows();
    ExampleSpan();
    ExampleCounts();
    TrainingSeriesFromIncidents(rows, series);
    var lo := MonthIndex(2021, 1);
    var counts := GapFill(series).counts;
    assert MonthStartAt(lo) == Date(2021, 1, 1);
    assert MonthStartAt(lo + 1) == Date(2021, 2, 1);
    assert MonthStartAt(lo + 2) == Date(2021, 3, 1);
    assert |counts| == 3;
  }

  /** The example's rows build a monthly table, and that table fills to January through March. */
  lemma {:induction false} ExampleBuilds()
    ensures BuildMonthly(ExampleRows()).Ok?
    ensures GapFill(BuildMonthly(ExampleRows()).value).counts == [1, 0, 2]
  {
    ExampleSpan();
    ExampleCounts();
    ExampleFilledSeries(BuildMonthly(ExampleRows()).value);
  }

  /** With the same incidents, a frame `RunForecast` returns (see its last postcondition) starts in
      April 2021. */
  lemma {:induction false} ExampleForecastStart(frame: seq<ForecastRow>)
    requires FrameAfter(frame, LatestIncident(ExampleRows()), 12)
    ensures frame[0].date == Date(2021, 4, 1)
  {
    ExampleSpan();
    assert MonthStartAt(MonthIndex(2021, 3) + 1) == Date(2021, 4, 1);
  }
}
