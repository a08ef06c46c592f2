/** The report scheduler's tick over one tenant's schedule table (src/reports/report-scheduler.service.ts). */
module ReportScheduler {
  import opened Wrappers
  import opened CronHelper
  import opened CronBounds

  type Id = nat

  /** Instants are milliseconds since the epoch. */
  datatype Schedule = Schedule(active: bool, nextRun: Option<int>, lastRun: Option<int>, cron: string)

  type Table = map<Id, Schedule>

  const BATCH := 50

  /** `nextRunAfter` as the scheduler sees it: from an expression and an instant, a later instant or a rejection. */
  type Search = (string, int) -> Result<int, CronError>

  ghost predicate Forward(search: Search) {
    forall cron, after :: search(cron, after).Ok? ==> after < search(cron, after).value
  }

  /** The search is that of the cron helper. */
  ghost predicate IsNextRun(search: Search) {
    forall cron, after {:trigger NextRun(cron, after)} :: search(cron, after) == NextRun(cron, after)
  }

  predicate IsDue(row: Schedule, now: int) {
    row.active && row.nextRun.Some? && row.nextRun.value <= now
  }

  ghost predicate Distinct(ids: seq<Id>) {
    forall i, j :: 0 <= i < j < |ids| ==> ids[i] != ids[j]
  }

  /** An answer to the due query: the earliest due rows, at most 50, ties in any order. */
  ghost predicate DueRows(rows: Table, now: int, due: seq<Id>) {
    && |due| <= BATCH && Distinct(due)
    && (forall i :: 0 <= i < |due| ==> due[i] in rows && IsDue(rows[due[i]], now))
    && (forall i, j :: 0 <= i < j < |due| ==> rows[due[i]].nextRun.value <= rows[due[j]].nextRun.value)
    && (forall id :: id in rows && IsDue(rows[id], now) && id !in due ==>
          |due| == BATCH && forall i :: 0 <= i < |due| ==> rows[due[i]].nextRun.value <= rows[id].nextRun.value)
  }

  /** Active and with a next run that has come. */
  ghost predicate HasCome(rows: Table, id: Id, now: int) {
    id in rows && rows[id].active && rows[id].nextRun.Some? && rows[id].nextRun.value <= now
  }

  ghost function Come(rows: Table, now: int): set<Id> {
    set id | id in rows && rows[id].active && rows[id].nextRun.Some? && rows[id].nextRun.value <= now
  }

  /**
   * What the due query answers: of the active rows whose next run has come all when there are at most 50, else 50 of
   * them such that none of the others is earlier; in the order of their next runs, each once.
   */
  lemma DueRowsExactly(rows: Table, now: int, due: seq<Id>)
    ensures DueRows(rows, now, due) <==>
            && (forall i, j :: 0 <= i < j < |due| ==> due[i] != due[j])
            && (forall i :: 0 <= i < |due| ==> HasCome(rows, due[i], now))
            && (forall i, j :: 0 <= i < j < |due| ==> rows[due[i]].nextRun.value <= rows[due[j]].nextRun.value)
            && (if |Come(rows, now)| <= 50 then forall id :: HasCome(rows, id, now) ==> id in due
                else |due| == 50
                     && forall id, i :: HasCome(rows, id, now) && id !in due && 0 <= i < |due| ==>
                          rows[due[i]].nextRun.value <= rows[id].nextRun.value)
  {
    if Distinct(due) && forall i :: 0 <= i < |due| ==> HasCome(rows, due[i], now) {
      var come := Come(rows, now);
      var taken := set id | id in due;
      DistinctCount(due, taken);
      assert taken <= come;
      Subset(taken, come);
      if |come| <= 50 {
        if DueRows(rows, now, due) {
          forall id | HasCome(rows, id, now)
            ensures id in due
          {
            assert id in come;
          }
        }
      } else if |due| < |come| && DueRows(rows, now, due) {
        assert taken != come;
        var id :| id in come && id !in taken;
      }
    }
  }

  lemma {:induction false} DistinctCount(due: seq<Id>, taken: set<Id>)
    requires Distinct(due) && forall id :: id in taken <==> id in due
    ensures |taken| == |due|
    decreases |due|
  {
    if due == [] {
      assert taken == {};
    } else {
      var n := |due| - 1;
      assert due == due[..n] + [due[n]];
      DistinctCount(due[..n], taken - {due[n]});
    }
  }

  lemma Subset<T>(a: set<T>, b: set<T>)
    requires a <= b
    ensures |a| <= |b| && (|a| == |b| ==> a == b)
  {
    assert b == a + (b - a);
  }

  /** One clock reading per processed row, none before the query. */
  ghost predicate Clocks(now: int, due: seq<Id>, clocks: seq<int>) {
    |clocks| == |due| && forall i :: 0 <= i < |clocks| ==> now <= clocks[i]
  }

  /** The table after a tick: a row whose search rejects throws, and the rows after it are not processed. */
  ghost function RunAll(search: Search, rows: Table, due: seq<Id>, clocks: seq<int>): Table
    requires |clocks| == |due| && forall i :: 0 <= i < |due| ==> due[i] in rows
  {
    if due == [] then rows
    else
      match search(rows[due[0]].cron, clocks[0])
      case Err(_) => rows
      case Ok(t) => RunAll(search, Advance(rows, due[0], t, clocks[0]), due[1..], clocks[1..])
  }

  function Advance(rows: Table, id: Id, t: int, clock: int): Table
    requires id in rows
  {
    rows[id := rows[id].(nextRun := Some(t), lastRun := Some(clock))]
  }

  /** The schedules whose report is generated in a tick: all up to and including the first rejected one. */
  ghost function Ran(search: Search, rows: Table, due: seq<Id>, clocks: seq<int>): seq<Id>
    requires |clocks| == |due| && forall i :: 0 <= i < |due| ==> due[i] in rows
  {
    if due == [] then []
    else
      match search(rows[due[0]].cron, clocks[0])
      case Err(_) => [due[0]]
      case Ok(t) => [due[0]] + Ran(search, Advance(rows, due[0], t, clocks[0]), due[1..], clocks[1..])
  }

  ghost predicate Accepted(search: Search, rows: Table, due: seq<Id>, clocks: seq<int>, i: nat)
    requires |clocks| == |due| && forall k :: 0 <= k < |due| ==> due[k] in rows
    requires i < |due|
  {
    search(rows[due[i]].cron, clocks[i]).Ok?
  }

  lemma RunAllStep(search: Search, rows: Table, due: seq<Id>, clocks: seq<int>, i: nat)
    requires |clocks| == |due| && i < |due| && forall k :: i <= k < |due| ==> due[k] in rows
    ensures var r := search(rows[due[i]].cron, clocks[i]);
            && (r.Err? ==> RunAll(search, rows, due[i..], clocks[i..]) == rows)
            && (r.Ok? ==> RunAll(search, rows, due[i..], clocks[i..]) ==
                          RunAll(search, Advance(rows, due[i], r.value, clocks[i]), due[i + 1..], clocks[i + 1..]))
  {
    assert due[i..][1..] == due[i + 1..] && clocks[i..][1..] == clocks[i + 1..];
  }

  class ReportSchedulerService {
    var rows: Table

    constructor ()
      ensures rows == map[]
    {
      rows := map[];
    }

    /** The search in the `finally` block of `runSchedule`. */
    method FindNext(cron: string, clock: int, ghost search: Search) returns (next: Result<int, CronError>)
      requires IsNextRun(search)
      ensures next == search(cron, clock)
    {
      next := NextRunAfter(cron, clock);
    }

    /** The loop over the due rows: each is run, and advanced unless its search throws. */
    method RunSchedules(due: seq<Id>, clocks: seq<int>, ghost search: Search) returns (thrown: bool)
      requires |clocks| == |due| && Distinct(due) && forall i :: 0 <= i < |due| ==> due[i] in rows
      requires IsNextRun(search)
      modifies this
      ensures rows == RunAll(search, old(rows), due, clocks)
      ensures thrown <==> exists i :: 0 <= i < |due| && !Accepted(search, old(rows), due, clocks, i)
    {
      var crons := seq(|due|, i requires 0 <= i < |due| && due[i] in rows reads this => rows[due[i]].cron);
      for i := 0 to |due|
        invariant rows.Keys == old(rows).Keys
        invariant forall k :: i <= k < |due| ==> rows[due[k]] == old(rows)[due[k]]
        invariant RunAll(search, rows, due[i..], clocks[i..]) == RunAll(search, old(rows), due, clocks)
        invariant forall k :: 0 <= k < i ==> Accepted(search, old(rows), due, clocks, k)
      {
        var next := FindNext(crons[i], clocks[i], search);
        RunAllStep(search, rows, due, clocks, i);
        if next.Err? {
          assert !Accepted(search, old(rows), due, clocks, i);
          return true;
        }
        rows := Advance(rows, due[i], next.value, clocks[i]);
      }
      return false;
    }

    /** `processSchedulesForTenant`: runs the due rows in order and advances each in a `finally` block. */
    method ProcessSchedules(now: int, due: seq<Id>, clocks: seq<int>) returns (thrown: bool)
      requires DueRows(rows, now, due) && Clocks(now, due, clocks)
      modifies this
      ensures rows == RunAll(NextRun, old(rows), due, clocks)
      ensures thrown <==> exists i :: 0 <= i < |due| && !Accepted(NextRun, old(rows), due, clocks, i)
    {
      thrown := RunSchedules(due, clocks, NextRun);
    }
  }

  /** The row of a schedule after its report was generated and its search succeeded. */
  ghost function Advanced(search: Search, row: Schedule, clock: int): Schedule
    requires search(row.cron, clock).Ok?
  {
    row.(nextRun := Some(search(row.cron, clock).value), lastRun := Some(clock))
  }

  /** What a tick does to each row when no search rejects. */
  lemma {:induction false} TickAdvances(search: Search, rows: Table, due: seq<Id>, clocks: seq<int>)
    requires |clocks| == |due| && Distinct(due) && forall i :: 0 <= i < |due| ==> due[i] in rows
    requires forall i :: 0 <= i < |due| ==> Accepted(search, rows, due, clocks, i)
    ensures var after := RunAll(search, rows, due, clocks);
            && after.Keys == rows.Keys
            && (forall id :: id in rows && id !in due ==> after[id] == rows[id])
            && (forall i :: 0 <= i < |due| ==>
                  Accepted(search, rows, due, clocks, i) && after[due[i]] == Advanced(search, rows[due[i]], clocks[i]))
    ensures Ran(search, rows, due, clocks) == due
  {
    if due != [] {
      assert Accepted(search, rows, due, clocks, 0);
      var mid := Advance(rows, due[0], search(rows[due[0]].cron, clocks[0]).value, clocks[0]);
      var ids, times := due[1..], clocks[1..];
      assert due[0] !in ids && due == [due[0]] + ids;
      forall i | 0 <= i < |ids|
        ensures mid[ids[i]] == rows[due[i + 1]] && Accepted(search, mid, ids, times, i)
      {
        assert Accepted(search, rows, due, clocks, i + 1);
      }
      TickAdvances(search, mid, ids, times);
      var after := RunAll(search, rows, due, clocks);
      forall i | 0 <= i < |due|
        ensures after[due[i]] == Advanced(search, rows[due[i]], clocks[i])
      {
        if i > 0 {
          assert due[i] == ids[i - 1] && clocks[i] == times[i - 1];
          assert Accepted(search, mid, ids, times, i - 1);
        }
      }
    }
  }

  /** A tick generates every selected report exactly when no row before the last one has its search rejected. */
  lemma {:induction false} TickRunsAllExactly(search: Search, rows: Table, due: seq<Id>, clocks: seq<int>)
    requires |clocks| == |due| && Distinct(due) && forall i :: 0 <= i < |due| ==> due[i] in rows
    ensures Ran(search, rows, due, clocks) <= due
    ensures Ran(search, rows, due, clocks) == due
            <==> forall i :: 0 <= i < |due| - 1 ==> Accepted(search, rows, due, clocks, i)
  {
    if |due| > 1 {
      if Accepted(search, rows, due, clocks, 0) {
        var mid := Advance(rows, due[0], search(rows[due[0]].cron, clocks[0]).value, clocks[0]);
        var ids, times := due[1..], clocks[1..];
        TickRunsAllExactly(search, mid, ids, times);
        assert due == [due[0]] + ids;
        forall i | 0 <= i < |ids|
          ensures Accepted(search, mid, ids, times, i) <==> Accepted(search, rows, due, clocks, i + 1)
        {
          assert ids[i] != due[0];
        }
        if i :| 0 <= i < |due| - 1 && !Accepted(search, rows, due, clocks, i) {
          assert !Accepted(search, mid, ids, times, i - 1);
        }
      }
    }
  }

  /** No schedule runs early: every report generated by a tick was due at the tick. */
  lemma NeverEarly(search: Search, rows: Table, now: int, due: seq<Id>, clocks: seq<int>, id: Id)
    requires DueRows(rows, now, due) && Clocks(now, due, clocks)
    requires id in Ran(search, rows, due, clocks)
    ensures id in rows && rows[id].active && rows[id].nextRun.Some? && rows[id].nextRun.value <= now
  {
    TickRunsAllExactly(search, rows, due, clocks);
    assert id in due;
  }
}
