/** `forecast_category`: the empty-input guard, the gap-free monthly series handed to the model,
    the future date index and the clamp of the predictions. */
module Forecast {
  import opened Results
  import opened Calendar
  import opened MonthlyTable

  /** The fitted auto-ARIMA model, seen from outside: given the monthly series (as floats) and a
      number of periods, its point predictions. */
  type Predictor = (seq<real>, nat) -> seq<real>

  /** One row of the returned frame: a future DATE and its (clamped) Forecast. */
  datatype ForecastRow = ForecastRow(date: Date, forecast: real)

  datatype ForecastError =
    | DuplicateDates   // `asfreq` cannot reindex a series whose DATE index repeats
    | LengthMismatch   // the frame's DATE and Forecast columns would differ in length

  /** The gap-free series `ts`: consecutive months from month index `start`, one count per month. */
  datatype Filled = Filled(start: int, counts: seq<nat>)

  predicate AllMonthStarts(series: seq<Observation>) {
    forall i :: 0 <= i < |series| ==> IsMonthStart(series[i].date)
  }

  predicate DistinctDates(series: seq<Observation>) {
    forall i, j :: 0 <= i < j < |series| ==> series[i].date != series[j].date
  }

  predicate DistinctMonths(series: seq<Observation>) {
    forall i, j :: 0 <= i < j < |series| ==> Index(series[i].date) != Index(series[j].date)
  }

  /** Month index of the earliest DATE in the series. */
  function FirstMonth(series: seq<Observation>): (lo: int)
    requires |series| > 0
    ensures forall i :: 0 <= i < |series| ==> lo <= Index(series[i].date)
    ensures exists i :: 0 <= i < |series| && Index(series[i].date) == lo
  {
    if |series| == 1 then Index(series[0].date)
    else
      var rest := FirstMonth(series[1..]);
      assert forall i :: 1 <= i < |series| ==> series[i] == series[1..][i - 1];
      if Index(series[0].date) <= rest then Index(series[0].date) else rest
  }

  /** Month index of the latest DATE in the series. */
  function LastMonth(series: seq<Observation>): (hi: int)
    requires |series| > 0
    ensures forall i :: 0 <= i < |series| ==> Index(series[i].date) <= hi
    ensures exists i :: 0 <= i < |series| && Index(series[i].date) == hi
  {
    if |series| == 1 then Index(series[0].date)
    else
      var rest := LastMonth(series[1..]);
      assert forall i :: 1 <= i < |series| ==> series[i] == series[1..][i - 1];
      if Index(series[0].date) >= rest then Index(series[0].date) else rest
  }

  /** The value the reindexed series holds for month `k`: the total of the row dated that month,
      or 0 when no row is (the `fillna(0.0)`). */
  function Lookup(series: seq<Observation>, k: int): nat {
    if |series| == 0 then 0
    else if Index(series[0].date) == k then series[0].total
    else Lookup(series[1..], k)
  }

  /** `reindex` onto the `n` consecutive months starting at month index `start`. */
  function Reindex(series: seq<Observation>, start: int, n: nat): (counts: seq<nat>)
    ensures |counts| == n
    ensures forall i :: 0 <= i < n ==> counts[i] == Lookup(series, start + i)
  {
    if n == 0 then [] else Reindex(series, start, n - 1) + [Lookup(series, start + n - 1)]
  }

  /** `set_index('DATE')['Total'].asfreq('MS').fillna(0.0).sort_index()`: one entry per month from
      the earliest to the latest DATE, inclusive. */
  function GapFill(series: seq<Observation>): (ts: Filled)
    requires |series| > 0
    ensures ts.start == FirstMonth(series)
    ensures |ts.counts| == LastMonth(series) - FirstMonth(series) + 1
    ensures forall i :: 0 <= i < |ts.counts| ==> ts.counts[i] == Lookup(series, ts.start + i)
  {
    var lo, hi := FirstMonth(series), LastMonth(series);
    Filled(lo, Reindex(series, lo, hi - lo + 1))
  }

  /** The DATE index of a filled series: the month-start range from its first month, one month at
      a time, as `asfreq('MS')` lays it out. Its i-th date is the month i months after the first. */
  function Dates(ts: Filled): (ds: seq<Date>)
    ensures |ds| == |ts.counts|
    ensures forall i :: 0 <= i < |ds| ==> ds[i] == MonthStartAt(ts.start + i)
  {
    FutureIndex(MonthStartAt(ts.start), |ts.counts|)
  }

  /** `.astype(float)`. */
  function ToFloats(counts: seq<nat>): (xs: seq<real>)
    ensures |xs| == |counts|
    ensures forall i :: 0 <= i < |xs| ==> xs[i] == counts[i] as real && xs[i] >= 0.0
  {
    seq(|counts|, i requires 0 <= i < |counts| => counts[i] as real)
  }

  /** `pd.date_range(start, periods=n, freq="MS")`: `n` month starts, stepping one month at a time. */
  function FutureIndex(start: Date, n: nat): (ds: seq<Date>)
    requires IsMonthStart(start)
    ensures |ds| == n
    ensures forall i :: 0 <= i < n ==> ds[i] == MonthStartAt(Index(start) + i)
    decreases n
  {
    if n == 0 then []
    else
      var rest := FutureIndex(NextMonth(start), n - 1);
      MonthStartAtIndex(start);
      [start] + rest
  }

  /** `np.maximum(pred, 0.0)`. */
  function Clamp(x: real): (r: real)
    ensures r >= 0.0 && (x >= 0.0 ==> r == x)
    ensures x < 0.0 ==> r == 0.0
  {
    if x < 0.0 then 0.0 else x
  }

  /** The returned frame: DATE and Forecast columns side by side, predictions clamped at zero. */
  function Frame(dates: seq<Date>, preds: seq<real>): (rows: seq<ForecastRow>)
    requires |dates| == |preds|
    ensures |rows| == |dates|
    ensures forall i :: 0 <= i < |rows| ==> rows[i].date == dates[i]
    ensures forall i :: 0 <= i < |rows| ==> rows[i].forecast >= 0.0
    ensures ClampedFrom(rows, preds)
  {
    seq(|dates|, i requires 0 <= i < |dates| => ForecastRow(dates[i], Clamp(preds[i])))
  }

  /** The future index starts the month after the last month of the filled series. */
  function FutureAfter(ts: Filled, horizon: nat): (ds: seq<Date>)
    requires |ts.counts| > 0
    ensures |ds| == horizon
    ensures forall i :: 0 <= i < horizon ==> ds[i] == MonthStartAt(ts.start + |ts.counts| + i)
  {
    var last := MonthStartAt(ts.start + |ts.counts| - 1);
    FutureIndex(NextMonth(last), horizon)
  }

  /** The series the model is fitted on. */
  function Training(series: seq<Observation>): (xs: seq<real>)
    requires |series| > 0
    ensures |xs| == LastMonth(series) - FirstMonth(series) + 1
    ensures forall i :: 0 <= i < |xs| ==> xs[i] == Lookup(series, FirstMonth(series) + i) as real
  {
    ToFloats(GapFill(series).counts)
  }

  /** `forecast_category(crime_monthly, forecast_horizon)`. An empty table gives an empty frame and the
      model is never consulted. A repeated DATE makes the reindex fail. Otherwise the model sees the
      gap-filled series; when it returns `horizon` predictions, the frame pairs the `horizon` months
      following the last observed month with the predictions clamped at zero. */
  function ForecastCategory(series: seq<Observation>, horizon: nat, predict: Predictor)
    : (r: Result<seq<ForecastRow>, ForecastError>)
    requires AllMonthStarts(series)
    ensures |series| == 0 ==> r == Ok([])
    ensures |series| > 0 ==> (r == Err(DuplicateDates) <==> !DistinctDates(series))
    ensures |series| > 0 ==> (r == Err(LengthMismatch)
      <==> DistinctDates(series) && |predict(Training(series), horizon)| != horizon)
    ensures r.Ok? && |series| > 0 ==> FrameAfter(r.value, LastMonth(series), horizon)
    ensures r.Ok? && |series| > 0 ==> ClampedFrom(r.value, predict(Training(series), horizon))
  {
    if |series| == 0 then Ok([])
    else if !DistinctDates(series) then Err(DuplicateDates)
    else FitAndFrame(series, horizon, predict)
  }

  /** Lines 56-79 on a non-empty series: fit the model on the gap-filled series, predict
      `horizon` months and frame them after the last month. */
  function FitAndFrame(series: seq<Observation>, horizon: nat, predict: Predictor)
    : (r: Result<seq<ForecastRow>, ForecastError>)
    requires |series| > 0
    ensures r.Ok? <==> |predict(Training(series), horizon)| == horizon
    ensures r.Err? ==> r.error == LengthMismatch
    ensures r.Ok? ==> FrameAfter(r.value, LastMonth(series), horizon)
    ensures r.Ok? ==> ClampedFrom(r.value, predict(Training(series), horizon))
  {
    FrameOrMismatch(GapFill(series), horizon, predict(Training(series), horizon))
  }

  /** The last step of `forecast_category`: the DATE/Forecast frame for the months after the filled
      series, which pandas refuses to build when the model returned a different number of
      predictions than requested. */
  function FrameOrMismatch(ts: Filled, horizon: nat, preds: seq<real>)
    : (r: Result<seq<ForecastRow>, ForecastError>)
    requires |ts.counts| > 0
    ensures r.Ok? <==> |preds| == horizon
    ensures r.Err? ==> r.error == LengthMismatch
    ensures r.Ok? ==> FrameAfter(r.value, ts.start + |ts.counts| - 1, horizon)
    ensures r.Ok? ==> ClampedFrom(r.value, preds)
  {
    if |preds| != horizon then Err(LengthMismatch)
    else
      FrameFollows(ts, preds);
      Ok(Frame(FutureAfter(ts, horizon), preds))
  }

  /** `frame` lists the `horizon` months that follow month index `last`, in order, and forecasts no
      negative count. */
  predicate FrameAfter(frame: seq<ForecastRow>, last: int, horizon: nat) {
    && |frame| == horizon
    && (forall i :: 0 <= i < horizon ==> frame[i].date == MonthStartAt(last + 1 + i))
    && (forall i :: 0 <= i < horizon ==> frame[i].forecast >= 0.0)
  }

  /** The frame built after a filled series starts the month after its last month. */
  lemma {:induction false} FrameFollows(ts: Filled, preds: seq<real>)
    requires |ts.counts| > 0
    ensures FrameAfter(Frame(FutureAfter(ts, |preds|), preds), ts.start + |ts.counts| - 1, |preds|)
  {
    var frame := Frame(FutureAfter(ts, |preds|), preds);
    forall i | 0 <= i < |preds|
      ensures frame[i].date == MonthStartAt(ts.start + |ts.counts| - 1 + 1 + i)
    {
    }
  }

  /** Every forecast of `frame` is the matching prediction clamped at zero. */
  predicate ClampedFrom(frame: seq<ForecastRow>, preds: seq<real>) {
    |frame| == |preds| && forall i :: 0 <= i < |frame| ==> frame[i].forecast == Clamp(preds[i])
  }

  /** On a non-empty series with distinct dates, `forecast_category` succeeds exactly when the
      model returns one prediction per requested month, and then forecasts each prediction clamped
      at zero. */
  lemma {:induction false} ForecastOutcome(series: seq<Observation>, horizon: nat, predict: Predictor)
    requires AllMonthStarts(series) && DistinctDates(series) && |series| > 0
    ensures ForecastCategory(series, horizon, predict).Ok? <==> |predict(Training(series), horizon)| == horizon
    ensures ForecastCategory(series, horizon, predict).Ok? ==>
      ClampedFrom(ForecastCategory(series, horizon, predict).value, predict(Training(series), horizon))
  {
  }

  /** Sum of a run of monthly counts. It peels the last month off, the way `Reindex` builds the
      run one month at a time at its end. */
  function SumCounts(counts: seq<nat>): nat {
    if |counts| == 0 then 0 else SumCounts(counts[..|counts| - 1]) + counts[|counts| - 1]
  }

  /** Distinct month-start dates have distinct month indices. */
  lemma {:induction false} DistinctDatesAreDistinctMonths(series: seq<Observation>)
    requires AllMonthStarts(series) && DistinctDates(series)
    ensures DistinctMonths(series)
  {
    forall i, j | 0 <= i < j < |series| ensures Index(series[i].date) != Index(series[j].date) {
      MonthStartAtIndex(series[i].date);
      MonthStartAtIndex(series[j].date);
    }
  }

  lemma {:induction false} LookupFound(series: seq<Observation>, i: nat)
    requires DistinctMonths(series) && i < |series|
    ensures Lookup(series, Index(series[i].date)) == series[i].total
  {
    if i > 0 {
      assert series[1..][i - 1] == series[i];
      assert DistinctMonths(series[1..]) by {
        assert forall a :: 0 <= a < |series[1..]| ==> series[1..][a] == series[a + 1];
      }
      LookupFound(series[1..], i - 1);
    }
  }

  lemma {:induction false} LookupAbsent(series: seq<Observation>, k: int)
    requires forall i :: 0 <= i < |series| ==> Index(series[i].date) != k
    ensures Lookup(series, k) == 0
  {
    if |series| > 0 {
      assert forall a :: 0 <= a < |series[1..]| ==> series[1..][a] == series[a + 1];
      LookupAbsent(series[1..], k);
    }
  }

  /** Every observed month keeps its count, at its own DATE, in the filled series. */
  lemma {:induction false} GapFillKeepsObserved(series: seq<Observation>, i: nat)
    requires AllMonthStarts(series) && DistinctDates(series) && i < |series|
    ensures var ts := GapFill(series); var k := Index(series[i].date) - ts.start;
      0 <= k < |ts.counts| && ts.counts[k] == series[i].total && Dates(ts)[k] == series[i].date
  {
    DistinctDatesAreDistinctMonths(series);
    LookupFound(series, i);
    MonthStartAtIndex(series[i].date);
  }

  /** Every month between the first and the last observed one with no observation is filled with 0. */
  lemma {:induction false} GapFillZeroWhereAbsent(series: seq<Observation>, k: int)
    requires AllMonthStarts(series) && |series| > 0
    requires FirstMonth(series) <= k <= LastMonth(series)
    requires forall i :: 0 <= i < |series| ==> series[i].date != MonthStartAt(k)
    ensures var ts := GapFill(series); ts.counts[k - ts.start] == 0 && Dates(ts)[k - ts.start] == MonthStartAt(k)
  {
    forall i | 0 <= i < |series| ensures Index(series[i].date) != k {
      MonthStartAtIndex(series[i].date);
    }
    LookupAbsent(series, k);
  }

  /** The filled series' dates are consecutive months: each is the month after the one before,
      so they strictly increase. */
  lemma {:induction false} FilledDatesConsecutive(ts: Filled)
    ensures forall i :: 0 <= i < |ts.counts| - 1 ==>
      IsMonthStart(Dates(ts)[i]) && Dates(ts)[i + 1] == NextMonth(Dates(ts)[i])
    ensures forall i, j :: 0 <= i < j < |ts.counts| ==> DateLess(Dates(ts)[i], Dates(ts)[j])
  {
    forall i | 0 <= i < |ts.counts| - 1 ensures Dates(ts)[i + 1] == NextMonth(Dates(ts)[i]) {
      NextMonthRollsOver(Dates(ts)[i]);
    }
    forall i, j | 0 <= i < j < |ts.counts| ensures DateLess(Dates(ts)[i], Dates(ts)[j]) {
      MonthStartOrder(MonthStartAt(ts.start + i), MonthStartAt(ts.start + j));
    }
  }

  lemma {:induction false} SumReindexSnoc(series: seq<Observation>, start: int, n: nat)
    requires n > 0
    ensures SumCounts(Reindex(series, start, n))
      == SumCounts(Reindex(series, start, n - 1)) + Lookup(series, start + n - 1)
  {
    var c := Reindex(series, start, n);
    assert c[..n - 1] == Reindex(series, start, n - 1);
  }

  lemma {:induction false} SumReindexEmpty(start: int, n: nat)
    ensures SumCounts(Reindex([], start, n)) == 0
  {
    var c := Reindex([], start, n);
    forall i | 0 <= i < n
      ensures c[i] == 0
    {
      assert c[i] == Lookup([], start + i);
    }
    SumCountsZero(c);
  }

  lemma {:induction false} SumCountsZero(counts: seq<nat>)
    requires forall i :: 0 <= i < |counts| ==> counts[i] == 0
    ensures SumCounts(counts) == 0
  {
    if |counts| > 0 {
      SumCountsZero(counts[..|counts| - 1]);
    }
  }

  /** Looking a month up in a series is looking it up in the tail, plus the first row's total when
      the first row is that month and no other row is. */
  lemma {:induction false} LookupCons(series: seq<Observation>, k: int)
    requires |series| > 0
    requires forall i :: 1 <= i < |series| ==> Index(series[i].date) != Index(series[0].date)
    ensures Lookup(series, k) == Lookup(series[1..], k) + (if k == Index(series[0].date) then series[0].total else 0)
  {
    if k == Index(series[0].date) {
      assert forall a :: 0 <= a < |series[1..]| ==> series[1..][a] == series[a + 1];
      LookupAbsent(series[1..], k);
    }
  }

  /** Reindexing a series is reindexing its tail plus the first row's total, when the first row's
      month occurs nowhere else. */
  lemma {:induction false} SumReindexCons(series: seq<Observation>, start: int, n: nat)
    requires |series| > 0
    requires forall i :: 1 <= i < |series| ==> Index(series[i].date) != Index(series[0].date)
    ensures SumCounts(Reindex(series, start, n)) == SumCounts(Reindex(series[1..], start, n))
      + (if start <= Index(series[0].date) < start + n then series[0].total else 0)
  {
    if n > 0 {
      var k0, t0 := Index(series[0].date), series[0].total;
      var a := SumCounts(Reindex(series, start, n - 1));
      var b := SumCounts(Reindex(series[1..], start, n - 1));
      assert a == b + (if start <= k0 < start + n - 1 then t0 else 0) by {
        SumReindexCons(series, start, n - 1);
      }
      assert SumCounts(Reindex(series, start, n)) == a + Lookup(series, start + n - 1) by {
        SumReindexSnoc(series, start, n);
      }
      assert SumCounts(Reindex(series[1..], start, n)) == b + Lookup(series[1..], start + n - 1) by {
        SumReindexSnoc(series[1..], start, n);
      }
      LookupCons(series, start + n - 1);
    }
  }

  /** Reindexing onto a range that covers every row keeps the total count. */
  lemma {:induction false} SumReindex(series: seq<Observation>, start: int, n: nat)
    requires DistinctMonths(series)
    requires forall i :: 0 <= i < |series| ==> start <= Index(series[i].date) < start + n
    ensures SumCounts(Reindex(series, start, n)) == SumObs(series)
  {
    if |series| == 0 {
      SumReindexEmpty(start, n);
    } else {
      assert forall a :: 0 <= a < |series[1..]| ==> series[1..][a] == series[a + 1];
      SumReindexCons(series, start, n);
      SumReindex(series[1..], start, n);
    }
  }

  /** Gap filling adds only zeros: the filled series sums to the table's total. */
  lemma {:induction false} GapFillKeepsTotal(series: seq<Observation>)
    requires AllMonthStarts(series) && DistinctDates(series) && |series| > 0
    ensures SumCounts(GapFill(series).counts) == SumObs(series)
  {
    DistinctDatesAreDistinctMonths(series);
    SumReindex(series, FirstMonth(series), LastMonth(series) - FirstMonth(series) + 1);
  }

  /** The future index: `n` consecutive months from `start`, each the month after the one before. */
  lemma {:induction false} FutureIndexConsecutive(start: Date, n: nat)
    requires IsMonthStart(start)
    ensures n > 0 ==> FutureIndex(start, n)[0] == start
    ensures forall i :: 0 <= i < n - 1 ==> FutureIndex(start, n)[i + 1] == NextMonth(FutureIndex(start, n)[i])
  {
    MonthStartAtIndex(start);
    var ds := FutureIndex(start, n);
    forall i | 0 <= i < n - 1 ensures ds[i + 1] == NextMonth(ds[i]) {
      NextMonthRollsOver(ds[i]);
    }
  }
}
