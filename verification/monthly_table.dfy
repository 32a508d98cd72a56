/** The monthly table handed to the forecaster: each group gets its DATE (the first day of its month),
    and the table is sorted by DATE. */
module MonthlyTable {
  import opened Results
  import opened Calendar
  import opened DateText
  import opened Aggregation

  /** One row of the monthly table: a DATE and the number of incidents in that month. */
  datatype Observation = Observation(date: Date, total: nat)

  predicate ValidMonths(gs: seq<Group>) {
    forall i :: 0 <= i < |gs| ==> 1 <= gs[i].month <= 12
  }

  /** `pd.to_datetime` on a column of texts: every entry converted, or the first failure. */
  function ToDatetime(texts: seq<string>): (r: Result<seq<Date>, DateError>)
    ensures r.Ok? <==> forall i :: 0 <= i < |texts| ==> ParseDate(texts[i]).Ok?
    ensures r.Ok? ==> |r.value| == |texts|
    ensures r.Ok? ==> forall i :: 0 <= i < |texts| ==> r.value[i] == ParseDate(texts[i]).value
  {
    if |texts| == 0 then Ok([])
    else
      var head := ParseDate(texts[0]);
      var tail := ToDatetime(texts[1..]);
      assert forall i :: 1 <= i < |texts| ==> texts[1..][i - 1] == texts[i];
      if head.Err? then Err(head.error)
      else if tail.Err? then Err(tail.error)
      else Ok([head.value] + tail.value)
  }

  /** The text column `OCC_YEAR + "-" + OCC_MONTH.zfill(2) + "-01"`. Each group's text converts
      exactly when its month is a calendar month, to that month's first day. */
  function DateTexts(gs: seq<Group>): (texts: seq<string>)
    ensures |texts| == |gs|
    ensures forall i :: 0 <= i < |gs| ==> texts[i] == DateString(gs[i].year, gs[i].month)
    ensures forall i :: 0 <= i < |gs| ==>
      (ParseDate(texts[i]).Ok? <==> 1 <= gs[i].month <= 12)
      && (ParseDate(texts[i]).Ok? ==> ParseDate(texts[i]).value == Date(gs[i].year, gs[i].month, 1))
  {
    seq(|gs|, i requires 0 <= i < |gs| => DateString(gs[i].year, gs[i].month))
  }

  function Pair(gs: seq<Group>, dates: seq<Date>): (obs: seq<Observation>)
    requires |dates| == |gs|
    ensures |obs| == |gs|
    ensures forall i :: 0 <= i < |gs| ==> obs[i] == Observation(dates[i], gs[i].total)
  {
    seq(|gs|, i requires 0 <= i < |gs| => Observation(dates[i], gs[i].total))
  }

  /** The DATE column added to the grouped table. One bad month fails the whole column; otherwise
      every group is dated the first day of its month and keeps its total. */
  function AttachDates(gs: seq<Group>): (r: Result<seq<Observation>, DateError>)
    ensures r.Ok? <==> ValidMonths(gs)
    ensures r.Ok? ==> |r.value| == |gs|
    ensures r.Ok? ==> forall i :: 0 <= i < |gs| ==>
      r.value[i] == Observation(Date(gs[i].year, gs[i].month, 1), gs[i].total)
  {
    match ToDatetime(DateTexts(gs))
    case Err(e) => Err(e)
    case Ok(dates) => Ok(Pair(gs, dates))
  }

  /** No row is dated after a later row. */
  predicate SortedByDate(obs: seq<Observation>) {
    forall i, j :: 0 <= i < j < |obs| ==> !DateLess(obs[j].date, obs[i].date)
  }

  /** Dates strictly increase along the table (so no date repeats). */
  predicate StrictlyAscending(obs: seq<Observation>) {
    forall i, j :: 0 <= i < j < |obs| ==> DateLess(obs[i].date, obs[j].date)
  }

  function InsertByDate(x: Observation, xs: seq<Observation>): (r: seq<Observation>)
    requires SortedByDate(xs)
    ensures SortedByDate(r)
    ensures multiset(r) == multiset(xs) + multiset{x}
  {
    if |xs| == 0 || !DateLess(xs[0].date, x.date) then [x] + xs
    else
      var tail := InsertByDate(x, xs[1..]);
      assert xs == [xs[0]] + xs[1..];
      assert forall k :: 0 <= k < |tail| ==> !DateLess(tail[k].date, xs[0].date) by {
        forall k | 0 <= k < |tail| ensures !DateLess(tail[k].date, xs[0].date) {
          assert tail[k] in multiset(tail);
          if tail[k] != x {
            assert tail[k] in multiset(xs[1..]);
            var j :| 0 <= j < |xs[1..]| && xs[1..][j] == tail[k];
            assert xs[j + 1] == tail[k];
          }
        }
      }
      [xs[0]] + tail
  }

  /** `sort_values('DATE')`: the same rows, in date order. */
  function SortByDate(xs: seq<Observation>): (r: seq<Observation>)
    ensures SortedByDate(r)
    ensures multiset(r) == multiset(xs)
  {
    if |xs| == 0 then []
    else
      assert xs == [xs[0]] + xs[1..];
      InsertByDate(xs[0], SortByDate(xs[1..]))
  }

  /** Sorting a table whose dates already increase leaves it as it is. */
  lemma {:induction false} SortKeepsAscending(xs: seq<Observation>)
    requires StrictlyAscending(xs)
    ensures SortByDate(xs) == xs
  {
    if |xs| > 0 {
      SortKeepsAscending(xs[1..]);
      if |xs| > 1 {
        assert DateLess(xs[0].date, xs[1].date);
      }
    }
  }

  /** Sum of the `Total` column once dates are attached; `SumObsMatches` ties it to `SumTotals`
      and the sort keeps it. It peels the first row off, like `SumTotals`. */
  function SumObs(obs: seq<Observation>): nat {
    if |obs| == 0 then 0 else obs[0].total + SumObs(obs[1..])
  }

  /** Two tables with the same totals row by row have the same sum. */
  lemma {:induction false} SumObsMatches(obs: seq<Observation>, gs: seq<Group>)
    requires |obs| == |gs|
    requires forall i :: 0 <= i < |gs| ==> obs[i].total == gs[i].total
    ensures SumObs(obs) == SumTotals(gs)
  {
    if |gs| > 0 {
      SumObsMatches(obs[1..], gs[1..]);
    }
  }

  predicate ValidRows(rows: seq<Incident>) {
    forall i :: 0 <= i < |rows| ==> 1 <= rows[i].month <= 12
  }

  /** The groups have real months exactly when every incident row has one. */
  lemma {:induction false} ValidGroupsIffValidRows(rows: seq<Incident>)
    ensures ValidMonths(Aggregate(rows)) <==> ValidRows(rows)
  {
    var gs := Aggregate(rows);
    if ValidMonths(gs) {
      forall i | 0 <= i < |rows| ensures 1 <= rows[i].month <= 12 {
        assert (rows[i].year, rows[i].month) in RowKeys(rows);
        var j :| 0 <= j < |gs| && (gs[j].year, gs[j].month) == (rows[i].year, rows[i].month);
      }
    }
    if ValidRows(rows) {
      forall j | 0 <= j < |gs| ensures 1 <= gs[j].month <= 12 {
        assert (gs[j].year, gs[j].month) in GroupKeys(gs);
        var i :| 0 <= i < |rows| && (gs[j].year, gs[j].month) == (rows[i].year, rows[i].month);
      }
    }
  }

  /** Some row of the table is dated `d`. */
  predicate HasEntry(series: seq<Observation>, d: Date) {
    exists j :: 0 <= j < |series| && series[j].date == d
  }

  /** The grouped table with its DATE column, before sorting. */
  predicate DatedGroups(gs: seq<Group>, obs: seq<Observation>) {
    |obs| == |gs|
    && forall i :: 0 <= i < |gs| ==> obs[i] == Observation(Date(gs[i].year, gs[i].month, 1), gs[i].total)
  }

  /** What the dated table says about the incident rows it came from. */
  lemma {:induction false} DatedGroupsFacts(rows: seq<Incident>, obs: seq<Observation>)
    requires ValidMonths(Aggregate(rows)) && DatedGroups(Aggregate(rows), obs)
    ensures StrictlyAscending(obs)
    ensures forall i :: 0 <= i < |obs| ==>
      IsMonthStart(obs[i].date) && obs[i].total == Count(rows, obs[i].date.year, obs[i].date.month) >= 1
    ensures forall i :: 0 <= i < |rows| ==>
      HasEntry(obs, Date(rows[i].year, rows[i].month, 1))
    ensures SumObs(obs) == |rows|
    ensures IsMonthlyTableOf(rows, obs)
  {
    var gs := Aggregate(rows);
    SumObsMatches(obs, gs);
    forall i | 0 <= i < |obs|
      ensures IsMonthStart(obs[i].date) && obs[i].total == Count(rows, obs[i].date.year, obs[i].date.month) >= 1
    {
      assert obs[i].date == Date(gs[i].year, gs[i].month, 1) && obs[i].total == gs[i].total;
      AggregateCounts(rows, i);
    }
    forall i | 0 <= i < |rows|
      ensures HasEntry(obs, Date(rows[i].year, rows[i].month, 1))
    {
      assert (rows[i].year, rows[i].month) in RowKeys(rows);
      var j :| 0 <= j < |gs| && (gs[j].year, gs[j].month) == (rows[i].year, rows[i].month);
      assert obs[j].date == Date(rows[i].year, rows[i].month, 1);
    }
    assert forall i: nat :: i < |obs| ==> CountedAt(rows, obs, i);
    assert forall i: nat :: i < |rows| ==> CoveredAt(rows, obs, i);
  }

  /** Entry `i` of the table holds the number of rows in its month, and that is at least one. */
  predicate CountedAt(rows: seq<Incident>, series: seq<Observation>, i: nat)
    requires i < |series|
  {
    series[i].total == Count(rows, series[i].date.year, series[i].date.month) >= 1
  }

  /** The month of row `i` has an entry in the table. */
  predicate CoveredAt(rows: seq<Incident>, series: seq<Observation>, i: nat)
    requires i < |rows|
  {
    HasEntry(series, Date(rows[i].year, rows[i].month, 1))
  }

  /** `series` is the monthly table of `rows`: dates strictly increase and are month starts, each
      total is the number of rows in that month (at least one), every row's month has an entry, and
      the totals add up to the number of rows. */
  predicate IsMonthlyTableOf(rows: seq<Incident>, series: seq<Observation>) {
    && StrictlyAscending(series)
    && (forall i :: 0 <= i < |series| ==> IsMonthStart(series[i].date))
    && (forall i: nat :: i < |series| ==> CountedAt(rows, series, i))
    && (forall i: nat :: i < |rows| ==> CoveredAt(rows, series, i))
    && SumObs(series) == |rows|
  }

  /** Lines 20-33 of the script: incident rows -> monthly table sorted by DATE. It fails exactly when
      some row's month is not a calendar month. */
  function BuildMonthly(rows: seq<Incident>): (r: Result<seq<Observation>, DateError>)
    ensures r.Ok? <==> ValidRows(rows)
    ensures r.Ok? ==> IsMonthlyTableOf(rows, r.value)
  {
    ValidGroupsIffValidRows(rows);
    match AttachDates(Aggregate(rows))
    case Err(e) => Err(e)
    case Ok(obs) =>
      DatedGroupsFacts(rows, obs);
      SortKeepsAscending(obs);
      Ok(SortByDate(obs))
  }
}
