/** Monthly aggregation: the groupby over (OCC_YEAR, OCC_MONTH) followed by `.size()`.
    Rows reach this stage already restricted to one neighbourhood and one crime category, so the
    other two grouping keys are constant and a row is identified by its (year, month). */
module Aggregation {

  /** One incident row: its occurrence year and occurrence month, as the dataset encodes them. */
  datatype Incident = Incident(year: nat, month: int)

  /** One row of the grouped table: a (year, month) key and its "Total" (the group's size). */
  datatype Group = Group(year: nat, month: int, total: nat)

  /** pandas orders group keys lexicographically: by year, then by month. */
  predicate KeyBefore(y1: nat, m1: int, y2: nat, m2: int) {
    y1 < y2 || (y1 == y2 && m1 < m2)
  }

  predicate StrictlyOrdered(gs: seq<Group>) {
    forall i, j :: 0 <= i < j < |gs| ==> KeyBefore(gs[i].year, gs[i].month, gs[j].year, gs[j].month)
  }

  /** Every group holds at least one row. */
  predicate NonEmptyGroups(gs: seq<Group>) {
    forall i :: 0 <= i < |gs| ==> gs[i].total >= 1
  }

  /** Number of rows with the given year and month. */
  function Count(rows: seq<Incident>, year: int, month: int): nat {
    if |rows| == 0 then 0
    else
      var last := if rows[|rows| - 1].year == year && rows[|rows| - 1].month == month then 1 else 0;
      Count(rows[..|rows| - 1], year, month) + last
  }

  function RowKeys(rows: seq<Incident>): set<(nat, int)> {
    set i | 0 <= i < |rows| :: (rows[i].year, rows[i].month)
  }

  function GroupKeys(gs: seq<Group>): set<(nat, int)> {
    set i | 0 <= i < |gs| :: (gs[i].year, gs[i].month)
  }

  /** The total the table records for a key (0 when the key has no group). */
  function TotalOf(gs: seq<Group>, year: int, month: int): nat {
    if |gs| == 0 then 0
    else
      var first := if gs[0].year == year && gs[0].month == month then gs[0].total else 0;
      first + TotalOf(gs[1..], year, month)
  }

  /** Sum of the group sizes, which `Aggregate` keeps equal to the number of rows. It peels the
      first group off, the way `AddRow` walks the groups. */
  function SumTotals(gs: seq<Group>): nat {
    if |gs| == 0 then 0 else gs[0].total + SumTotals(gs[1..])
  }

  lemma {:induction false} GroupKeysCons(g: Group, gs: seq<Group>)
    ensures GroupKeys([g] + gs) == {(g.year, g.month)} + GroupKeys(gs)
  {
    var r := [g] + gs;
    assert (r[0].year, r[0].month) in GroupKeys(r);
    forall k | k in GroupKeys(r) ensures k in {(g.year, g.month)} + GroupKeys(gs) {
      var i :| 0 <= i < |r| && k == (r[i].year, r[i].month);
      if i > 0 { assert k == (gs[i - 1].year, gs[i - 1].month); }
    }
    forall k | k in GroupKeys(gs) ensures k in GroupKeys(r) {
      var i :| 0 <= i < |gs| && k == (gs[i].year, gs[i].month);
      assert k == (r[i + 1].year, r[i + 1].month);
    }
  }

  /** A group whose key comes before the first key of an ordered table can be put in front of it. */
  lemma {:induction false} OrderedCons(g: Group, gs: seq<Group>)
    requires StrictlyOrdered(gs)
    requires |gs| > 0 ==> KeyBefore(g.year, g.month, gs[0].year, gs[0].month)
    ensures StrictlyOrdered([g] + gs)
  {
    var r := [g] + gs;
    forall i, j | 0 <= i < j < |r| ensures KeyBefore(r[i].year, r[i].month, r[j].year, r[j].month) {
      if i == 0 && j > 1 {
        assert KeyBefore(gs[0].year, gs[0].month, gs[j - 1].year, gs[j - 1].month);
      }
    }
  }

  /** Adds one row with key (year, month) to an ordered table: its group's size grows by one,
      or a new group of size one appears in key order. */
  function AddRow(gs: seq<Group>, year: nat, month: int): (r: seq<Group>)
    requires StrictlyOrdered(gs)
    ensures StrictlyOrdered(r)
    ensures GroupKeys(r) == GroupKeys(gs) + {(year, month)}
    ensures |gs| > 0 ==> |r| > 0 && (r[0].year, r[0].month) in {(gs[0].year, gs[0].month), (year, month)}
  {
    if |gs| == 0 then
      GroupKeysCons(Group(year, month, 1), gs);
      assert [Group(year, month, 1)] + gs == [Group(year, month, 1)];
      [Group(year, month, 1)]
    else if gs[0].year == year && gs[0].month == month then
      GroupKeysCons(gs[0], gs[1..]);
      GroupKeysCons(gs[0].(total := gs[0].total + 1), gs[1..]);
      assert gs == [gs[0]] + gs[1..];
      OrderedCons(gs[0].(total := gs[0].total + 1), gs[1..]);
      [gs[0].(total := gs[0].total + 1)] + gs[1..]
    else if KeyBefore(year, month, gs[0].year, gs[0].month) then
      GroupKeysCons(Group(year, month, 1), gs);
      OrderedCons(Group(year, month, 1), gs);
      [Group(year, month, 1)] + gs
    else
      var tail := AddRow(gs[1..], year, month);
      GroupKeysCons(gs[0], tail);
      GroupKeysCons(gs[0], gs[1..]);
      assert gs == [gs[0]] + gs[1..];
      assert |tail| > 0 ==> KeyBefore(gs[0].year, gs[0].month, tail[0].year, tail[0].month);
      OrderedCons(gs[0], tail);
      [gs[0]] + tail
  }

  /** Adding a row raises exactly its own key's total by one and keeps every group non-empty. */
  lemma {:induction false} AddRowCounts(gs: seq<Group>, year: nat, month: int)
    requires StrictlyOrdered(gs)
    ensures NonEmptyGroups(gs) ==> NonEmptyGroups(AddRow(gs, year, month))
    ensures SumTotals(AddRow(gs, year, month)) == SumTotals(gs) + 1
    ensures forall y, m :: (TotalOf(AddRow(gs, year, month), y, m)
      == TotalOf(gs, y, m) + (if y == year && m == month then 1 else 0))
  {
    var r := AddRow(gs, year, month);
    if |gs| == 0 {
    } else if gs[0].year == year && gs[0].month == month {
      assert r[1..] == gs[1..];
    } else if KeyBefore(year, month, gs[0].year, gs[0].month) {
      assert r[1..] == gs;
    } else {
      AddRowCounts(gs[1..], year, month);
      assert r[1..] == AddRow(gs[1..], year, month);
    }
  }

  /** The grouped table `groupby([...]).size().reset_index(name="Total")`, in pandas' key order. */
  function Aggregate(rows: seq<Incident>): (gs: seq<Group>)
    ensures StrictlyOrdered(gs)
    ensures NonEmptyGroups(gs)
    ensures GroupKeys(gs) == RowKeys(rows)
    ensures forall y, m :: TotalOf(gs, y, m) == Count(rows, y, m)
    ensures SumTotals(gs) == |rows|
  {
    if |rows| == 0 then []
    else
      var prefix := rows[..|rows| - 1];
      var last := rows[|rows| - 1];
      assert RowKeys(rows) == RowKeys(prefix) + {(last.year, last.month)} by {
        forall k | k in RowKeys(rows) ensures k in RowKeys(prefix) + {(last.year, last.month)} {
          var i :| 0 <= i < |rows| && k == (rows[i].year, rows[i].month);
          if i < |rows| - 1 { assert k == (prefix[i].year, prefix[i].month); }
        }
        forall k | k in RowKeys(prefix) ensures k in RowKeys(rows) {
          var i :| 0 <= i < |prefix| && k == (prefix[i].year, prefix[i].month);
          assert k == (rows[i].year, rows[i].month);
        }
      }
      AddRowCounts(Aggregate(prefix), last.year, last.month);
      AddRow(Aggregate(prefix), last.year, last.month)
  }

  /** In a table with one group per key, the total recorded for a group's key is that group's total. */
  lemma {:induction false} TotalOfOwnKey(gs: seq<Group>, i: nat)
    requires StrictlyOrdered(gs)
    requires i < |gs|
    ensures TotalOf(gs, gs[i].year, gs[i].month) == gs[i].total
  {
    if i == 0 {
      TotalOfAbsent(gs[1..], gs[0].year, gs[0].month);
    } else {
      assert gs[1..][i - 1] == gs[i];
      TotalOfOwnKey(gs[1..], i - 1);
    }
  }

  /** A table whose keys all come after (year, month) records nothing for it. */
  lemma {:induction false} TotalOfAbsent(gs: seq<Group>, year: nat, month: int)
    requires forall i :: 0 <= i < |gs| ==> KeyBefore(year, month, gs[i].year, gs[i].month)
    ensures TotalOf(gs, year, month) == 0
  {
    if |gs| > 0 {
      TotalOfAbsent(gs[1..], year, month);
    }
  }

  /** Each aggregated count equals the number of incident rows with that year and month, and is
      at least one. */
  lemma {:induction false} AggregateCounts(rows: seq<Incident>, i: nat)
    requires i < |Aggregate(rows)|
    ensures Aggregate(rows)[i].total == Count(rows, Aggregate(rows)[i].year, Aggregate(rows)[i].month)
    ensures Aggregate(rows)[i].total >= 1
  {
    TotalOfOwnKey(Aggregate(rows), i);
  }
}
