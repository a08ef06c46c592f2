/** Fairness and starvation over whole runs of the report scheduler (src/reports/report-scheduler.service.ts). */
module SchedulerRuns {
  import opened Wrappers
  import Calendar
  import opened CronHelper
  import opened CronBounds
  import opened ReportScheduler

  /** What happens to one tenant's table: ticks, and the edits of the reports controller between them. */
  datatype Event =
    | Tick(now: int, due: seq<Id>, clocks: seq<int>)
    | Create(now: int, id: Id, row: Schedule)
    | Reschedule(now: int, id: Id, cron: string, nextRun: int)
    | Deactivate(now: int, id: Id)

  /** Creating or rescheduling computes a next run after the present; a tick gets an answer to its due query. */
  ghost predicate Enabled(s: Table, e: Event) {
    match e
    case Tick(now, due, clocks) => DueRows(s, now, due) && Clocks(now, due, clocks)
    case Create(now, id, row) => id !in s && row.nextRun.Some? && row.nextRun.value > now
    case Reschedule(now, id, _, nextRun) => id in s && nextRun > now
    case Deactivate(_, id) => id in s
  }

  ghost function Apply(search: Search, s: Table, e: Event): Table
    requires Enabled(s, e)
  {
    match e
    case Tick(_, due, clocks) => RunAll(search, s, due, clocks)
    case Create(_, id, row) => s[id := row]
    case Reschedule(_, id, cron, nextRun) => s[id := s[id].(cron := cron, nextRun := Some(nextRun))]
    case Deactivate(_, id) => s[id := s[id].(active := false)]
  }

  /** A run: enabled events with a non-decreasing clock. */
  ghost predicate Run(search: Search, s: Table, now: int, es: seq<Event>)
    decreases |es|
  {
    es != [] ==> now <= es[0].now && Enabled(s, es[0]) && Run(search, Apply(search, s, es[0]), es[0].now, es[1..])
  }

  /** No search of the run rejects its schedule. */
  ghost predicate NoRejection(search: Search, s: Table, now: int, es: seq<Event>)
    requires Run(search, s, now, es)
    decreases |es|
  {
    es != [] ==>
      && (es[0].Tick? ==> forall i :: 0 <= i < |es[0].due| ==> Accepted(search, s, es[0].due, es[0].clocks, i))
      && NoRejection(search, Apply(search, s, es[0]), es[0].now, es[1..])
  }

  /** Is the report of `id` generated in some tick of the run? */
  ghost predicate WasRun(search: Search, s: Table, now: int, es: seq<Event>, id: Id)
    requires Run(search, s, now, es)
    decreases |es|
  {
    es != [] &&
    ((es[0].Tick? && id in Ran(search, s, es[0].due, es[0].clocks)) || WasRun(search, Apply(search, s, es[0]), es[0].now, es[1..], id))
  }

  /** No edit of the run addresses schedule `id`. */
  predicate Unedited(es: seq<Event>, id: Id) {
    forall i :: 0 <= i < |es| && !es[i].Tick? ==> es[i].id != id
  }

  function Ticks(es: seq<Event>): nat {
    if es == [] then 0 else (if es[0].Tick? then 1 else 0) + Ticks(es[1..])
  }

  /** The other active schedules whose next run is at or before that of `id`. */
  ghost function Ahead(s: Table, id: Id): set<Id>
    requires id in s && s[id].nextRun.Some?
  {
    set j | j in s && j != id && s[j].active && s[j].nextRun.Some? && s[j].nextRun.value <= s[id].nextRun.value
  }

  function ToSet(ids: seq<Id>): (r: set<Id>)
    ensures forall x :: x in r <==> x in ids
  {
    if ids == [] then {} else {ids[0]} + ToSet(ids[1..])
  }

  lemma {:induction false} DistinctSize(ids: seq<Id>)
    requires Distinct(ids)
    ensures |ToSet(ids)| == |ids|
  {
    if ids != [] {
      DistinctSize(ids[1..]);
      assert ids[0] !in ids[1..];
    }
  }

  /** A row is ahead after the tick exactly when it was ahead before and not processed. */
  lemma AheadAfterTick(search: Search, s: Table, now: int, due: seq<Id>, clocks: seq<int>, id: Id, j: Id)
    requires Forward(search)
    requires DueRows(s, now, due) && Clocks(now, due, clocks)
    requires forall i :: 0 <= i < |due| ==> Accepted(search, s, due, clocks, i)
    requires id in s && IsDue(s[id], now) && id !in due
    ensures var after := RunAll(search, s, due, clocks);
            && id in after && after[id] == s[id]
            && (j in Ahead(after, id) <==> j in Ahead(s, id) && j !in due)
            && (j in due ==> j in Ahead(s, id))
  {
    hide RunAll, Ran;
    TickAdvances(search, s, due, clocks);
    if j in due {
      var i :| 0 <= i < |due| && due[i] == j;
      assert Accepted(search, s, due, clocks, i);
      assert s[due[i]].nextRun.value <= s[id].nextRun.value;
    }
  }

  /** A tick that leaves a due schedule out moves 50 schedules from before it to after it. */
  lemma TickShrinksAhead(search: Search, s: Table, now: int, due: seq<Id>, clocks: seq<int>, id: Id)
    requires Forward(search)
    requires DueRows(s, now, due) && Clocks(now, due, clocks)
    requires forall i :: 0 <= i < |due| ==> Accepted(search, s, due, clocks, i)
    requires id in s && IsDue(s[id], now) && id !in due
    ensures var after := RunAll(search, s, due, clocks);
            id in after && after[id] == s[id] && |Ahead(after, id)| == |Ahead(s, id)| - BATCH
  {
    AheadAfterTick(search, s, now, due, clocks, id, id);
    var before, rest := Ahead(s, id), Ahead(RunAll(search, s, due, clocks), id);
    forall j
      ensures (j in rest <==> j in before && j !in due) && (j in due ==> j in before)
    {
      AheadAfterTick(search, s, now, due, clocks, id, j);
    }
    DistinctSize(due);
    RemovalSize(before, ToSet(due), rest);
  }

  lemma RemovalSize(before: set<Id>, gone: set<Id>, rest: set<Id>)
    requires gone <= before && forall j :: j in rest <==> j in before && j !in gone
    ensures |rest| == |before| - |gone|
  {
    assert rest == before - gone;
  }

  /** While a due schedule waits, its queue shrinks by 50 per tick and nothing joins it. */
  lemma {:induction false} WaitingShrinksAhead(search: Search, s: Table, now: int, es: seq<Event>, id: Id)
    requires Forward(search)
    requires Run(search, s, now, es) && NoRejection(search, s, now, es) && Unedited(es, id)
    requires id in s && s[id].active && s[id].nextRun.Some? && s[id].nextRun.value <= now && !WasRun(search, s, now, es, id)
    ensures 50 * Ticks(es) <= |Ahead(s, id)|
    decreases |es|
  {
    if es != [] {
      var e := es[0];
      var s' := Apply(search, s, e);
      assert Unedited(es[1..], id);
      match e {
        case Tick(t, due, clocks) =>
          TickAdvances(search, s, due, clocks);
          TickShrinksAhead(search, s, t, due, clocks, id);
        case Create(_, j, _) =>
          assert Ahead(s', id) <= Ahead(s, id);
          SubsetSize(Ahead(s', id), Ahead(s, id));
        case Reschedule(_, j, _, _) =>
          assert es[0].id != id;
          assert Ahead(s', id) <= Ahead(s, id);
          SubsetSize(Ahead(s', id), Ahead(s, id));
        case Deactivate(_, j) =>
          assert es[0].id != id;
          assert Ahead(s', id) <= Ahead(s, id);
          SubsetSize(Ahead(s', id), Ahead(s, id));
      }
      WaitingShrinksAhead(search, s', e.now, es[1..], id);
    }
  }

  lemma SubsetSize<T>(a: set<T>, b: set<T>)
    requires a <= b
    ensures |a| <= |b|
  {
    assert b == a + (b - a);
  }

  /** Fairness: with r schedules ahead of it, a due schedule is run within floor(r / 50) + 1 ticks. */
  lemma DueScheduleIsRun(search: Search, s: Table, now: int, es: seq<Event>, id: Id)
    requires Forward(search)
    requires Run(search, s, now, es) && NoRejection(search, s, now, es) && Unedited(es, id)
    requires id in s && s[id].active && s[id].nextRun.Some? && s[id].nextRun.value <= now
    requires Ticks(es) >= |Ahead(s, id)| / 50 + 1
    ensures WasRun(search, s, now, es, id)
  {
    if !WasRun(search, s, now, es, id) {
      WaitingShrinksAhead(search, s, now, es, id);
    }
  }

  /** Over a run no schedule's next run moves back, and a tick that runs it moves it strictly past the tick. */
  lemma {:induction false} NextRunIncreases(search: Search, s: Table, now: int, es: seq<Event>, id: Id)
    requires Forward(search)
    requires Run(search, s, now, es) && NoRejection(search, s, now, es) && Unedited(es, id)
    requires id in s && s[id].nextRun.Some?
    ensures var after := Final(search, s, now, es);
            id in after && after[id].nextRun.Some? && after[id].nextRun.value >= s[id].nextRun.value
            && (WasRun(search, s, now, es, id) ==> after[id].nextRun.value > s[id].nextRun.value && after[id].nextRun.value > now)
    decreases |es|
  {
    if es != [] {
      var e := es[0];
      assert Unedited(es[1..], id);
      if e.Tick? {
        TickAdvances(search, s, e.due, e.clocks);
        if id in e.due {
          var i :| 0 <= i < |e.due| && e.due[i] == id;
          assert Apply(search, s, e)[id].nextRun.value > e.clocks[i];
        }
      }
      NextRunIncreases(search, Apply(search, s, e), e.now, es[1..], id);
    }
  }

  ghost function Final(search: Search, s: Table, now: int, es: seq<Event>): Table
    requires Run(search, s, now, es)
    decreases |es|
  {
    if es == [] then s else Final(search, Apply(search, s, es[0]), es[0].now, es[1..])
  }

  // ── Expressions the search never rejects ───────────────────────────────────

  ghost predicate SafeTable(s: Table) {
    forall id :: id in s ==> NeverRejects(s[id].cron)
  }

  ghost predicate SafeEvent(e: Event) {
    && (e.Create? ==> NeverRejects(e.row.cron))
    && (e.Reschedule? ==> NeverRejects(e.cron))
  }

  lemma {:induction false} SafeTick(s: Table, due: seq<Id>, clocks: seq<int>)
    requires SafeTable(s) && |clocks| == |due| && Distinct(due) && forall i :: 0 <= i < |due| ==> due[i] in s
    ensures forall i :: 0 <= i < |due| ==> Accepted(NextRun, s, due, clocks, i)
    ensures SafeTable(RunAll(NextRun, s, due, clocks))
  {
    forall i | 0 <= i < |due|
      ensures Accepted(NextRun, s, due, clocks, i)
    {
      assert Outcome(s[due[i]].cron, clocks[i], NextRun(s[due[i]].cron, clocks[i]));
    }
    TickAdvances(NextRun, s, due, clocks);
    var after := RunAll(NextRun, s, due, clocks);
    forall id | id in after
      ensures NeverRejects(after[id].cron)
    {
      if id in due {
        var i :| 0 <= i < |due| && due[i] == id;
        assert after[id].cron == s[id].cron;
      }
    }
  }

  /** Tables and edits that hold only expressions the search never rejects keep every tick free of rejections. */
  lemma {:induction false} SafeRunHasNoRejection(s: Table, now: int, es: seq<Event>)
    requires Run(NextRun, s, now, es) && SafeTable(s) && forall i :: 0 <= i < |es| ==> SafeEvent(es[i])
    ensures NoRejection(NextRun, s, now, es)
    decreases |es|
  {
    if es != [] {
      var e := es[0];
      assert SafeEvent(e);
      if e.Tick? {
        SafeTick(s, e.due, e.clocks);
      }
      assert forall i :: 0 <= i < |es[1..]| ==> es[1..][i] == es[i + 1];
      SafeRunHasNoRejection(Apply(NextRun, s, e), e.now, es[1..]);
    }
  }

  /** Such a run keeps the table so. */
  lemma {:induction false} SafeRunKeepsTable(s: Table, now: int, es: seq<Event>)
    requires Run(NextRun, s, now, es) && SafeTable(s) && forall i :: 0 <= i < |es| ==> SafeEvent(es[i])
    ensures SafeTable(Final(NextRun, s, now, es))
    decreases |es|
  {
    if es != [] {
      var e := es[0];
      assert SafeEvent(e);
      if e.Tick? {
        SafeTick(s, e.due, e.clocks);
      }
      assert forall i :: 0 <= i < |es[1..]| ==> es[1..][i] == es[i + 1];
      SafeRunKeepsTable(Apply(NextRun, s, e), e.now, es[1..]);
    }
  }

  // ── Fair exactly with expressions the search does not waver on ─────────────

  /** The reports controller stores an expression together with what its own search answers, and only if it does. */
  ghost predicate Stored(crons: iset<string>, e: Event) {
    && (e.Create? ==>
          && e.row.cron in crons && e.row.active && e.row.lastRun.None?
          && NextRun(e.row.cron, e.now).Ok? && e.row.nextRun == Some(NextRun(e.row.cron, e.now).value))
    && (e.Reschedule? ==> e.cron in crons && NextRun(e.cron, e.now) == Ok(e.nextRun))
  }

  ghost predicate AllStored(crons: iset<string>, es: seq<Event>) {
    forall i :: 0 <= i < |es| ==> Stored(crons, es[i])
  }

  function LastInstant(start: int, es: seq<Event>): int {
    if es == [] then start else es[|es| - 1].now
  }

  ghost predicate FairRun(s: Table, now: int, es: seq<Event>, id: Id)
    requires Run(NextRun, s, now, es)
  {
    id in s && s[id].active && s[id].nextRun.Some? && s[id].nextRun.value <= now && Unedited(es, id)
    && Ticks(es) >= |Ahead(s, id)| / 50 + 1 ==>
      WasRun(NextRun, s, now, es, id)
  }

  /** A past from the empty table and a run after it, with edits by the controller. */
  ghost predicate History(crons: iset<string>, start: int, past: seq<Event>, now: int, es: seq<Event>) {
    && Run(NextRun, map[], start, past) && AllStored(crons, past)
    && LastInstant(start, past) <= now
    && Run(NextRun, Final(NextRun, map[], start, past), now, es) && AllStored(crons, es)
  }

  /** In every table the controller can bring about with these expressions a due schedule is run in time. */
  ghost predicate AlwaysFair(crons: iset<string>) {
    forall start, past, now, es, id :: History(crons, start, past, now, es) ==>
      FairRun(Final(NextRun, map[], start, past), now, es, id)
  }

  /** The search accepts the expression from one instant and rejects it from another. */
  ghost predicate Wavers(cron: string) {
    exists a, b :: NextRun(cron, a).Ok? && NextRun(cron, b).Err?
  }

  lemma SteadyNeverRejects(cron: string, a: int)
    requires !Wavers(cron) && NextRun(cron, a).Ok?
    ensures NeverRejects(cron)
  {
    forall after, r | Outcome(cron, after, r)
      ensures r.Ok?
    {
      OutcomeUnique(cron, after, r, NextRun(cron, after));
    }
  }

  lemma StoredIsSafe(crons: iset<string>, es: seq<Event>)
    requires AllStored(crons, es) && forall cron :: cron in crons ==> !Wavers(cron)
    ensures forall i :: 0 <= i < |es| ==> SafeEvent(es[i])
  {
    forall i | 0 <= i < |es|
      ensures SafeEvent(es[i])
    {
      assert Stored(crons, es[i]);
      if es[i].Create? {
        SteadyNeverRejects(es[i].row.cron, es[i].now);
      } else if es[i].Reschedule? {
        SteadyNeverRejects(es[i].cron, es[i].now);
      }
    }
  }

  lemma SteadyIsFair(crons: iset<string>, start: int, past: seq<Event>, now: int, es: seq<Event>, id: Id)
    requires forall cron :: cron in crons ==> !Wavers(cron)
    requires History(crons, start, past, now, es)
    ensures FairRun(Final(NextRun, map[], start, past), now, es, id)
  {
    var s := Final(NextRun, map[], start, past);
    StoredIsSafe(crons, past);
    StoredIsSafe(crons, es);
    SafeRunKeepsTable(map[], start, past);
    SafeRunHasNoRejection(s, now, es);
    if id in s && IsDue(s[id], now) && Unedited(es, id) && Ticks(es) >= |Ahead(s, id)| / BATCH + 1 {
      DueScheduleIsRun(NextRun, s, now, es, id);
    }
  }

  /** Two due schedules of one expression that is now rejected: the tick stops at the first. */
  lemma RejectedPair(s: Table, row: Schedule, now: int)
    requires s == map[0 := row, 1 := row] && IsDue(row, now) && NextRun(row.cron, now).Err?
    ensures var es := [Tick(now, [0, 1], [now, now])];
            Run(NextRun, s, now, es) && !FairRun(s, now, es, 1)
  {
    var es := [Tick(now, [0, 1], [now, now])];
    assert es[1..] == [];
    assert DueRows(s, now, [0, 1]);
    assert RunAll(NextRun, s, [0, 1], [now, now]) == s;
    assert Ran(NextRun, s, [0, 1], [now, now]) == [0];
    assert Run(NextRun, s, now, []) && !WasRun(NextRun, s, now, [], 1);
    assert Ahead(s, 1) == {0};
    assert Ticks(es) == 1 + Ticks([]);
  }

  /** The controller creates two schedules of the expression. */
  lemma CreatedPair(cron: string, start: int) returns (past: seq<Event>, row: Schedule)
    requires NextRun(cron, start).Ok?
    ensures Run(NextRun, map[], start, past) && AllStored(iset{cron}, past) && LastInstant(start, past) == start
    ensures row == Schedule(true, Some(NextRun(cron, start).value), None, cron)
    ensures Final(NextRun, map[], start, past) == map[0 := row, 1 := row]
  {
    row := Schedule(true, Some(NextRun(cron, start).value), None, cron);
    var first, second := Create(start, 0, row), Create(start, 1, row);
    past := [first, second];
    var s1 := Apply(NextRun, map[], first);
    assert s1 == map[0 := row];
    var s2 := Apply(NextRun, s1, second);
    assert past[1..] == [second] && past[1..][1..] == [];
    assert Run(NextRun, s2, start, []) && Final(NextRun, s2, start, []) == s2;
    assert Run(NextRun, s1, start, [second]) && Final(NextRun, s1, start, [second]) == s2;
  }

  lemma PairHistory(crons: iset<string>, cron: string, start: int, past: seq<Event>, row: Schedule, now: int)
    requires cron in crons && row.cron == cron
    requires Run(NextRun, map[], start, past) && AllStored(iset{cron}, past) && LastInstant(start, past) <= now
    requires Final(NextRun, map[], start, past) == map[0 := row, 1 := row]
    requires IsDue(row, now) && NextRun(cron, now).Err?
    ensures !AlwaysFair(crons)
  {
    hide Run, Final, FairRun, LastInstant;
    RejectedPair(Final(NextRun, map[], start, past), row, now);
    var es := [Tick(now, [0, 1], [now, now])];
    forall i | 0 <= i < |past|
      ensures Stored(crons, past[i])
    {
      assert Stored(iset{cron}, past[i]);
    }
    assert History(crons, start, past, now, es);
  }

  /** A rejection comes back every 400 years, so there is one after the schedules have come due. */
  lemma WaveringIsUnfair(crons: iset<string>, cron: string, a: int, b: int)
    requires cron in crons && NextRun(cron, a).Ok? && NextRun(cron, b).Err?
    ensures !AlwaysFair(crons)
  {
    hide Run, Final, AllStored, AlwaysFair, AfterPeriods;
    var past, row := CreatedPair(cron, a);
    var due := NextRun(cron, a).value;
    var k: nat := if due <= b then 0 else due - b;
    RejectionRepeats(cron, b, k);
    PairHistory(crons, cron, a, past, row, AfterPeriods(b, k));
  }

  /**
   * Over all tables the controller can bring about from the empty one, the scheduler is fair with a set of expressions
   * if and only if the search accepts none of them from one instant and rejects it from another.
   */
  lemma FairExactly(crons: iset<string>)
    ensures AlwaysFair(crons) <==> forall cron :: cron in crons ==> !Wavers(cron)
  {
    if forall cron :: cron in crons ==> !Wavers(cron) {
      forall start, past, now, es, id | History(crons, start, past, now, es)
        ensures FairRun(Final(NextRun, map[], start, past), now, es, id)
      {
        SteadyIsFair(crons, start, past, now, es, id);
      }
    } else {
      var cron :| cron in crons && Wavers(cron);
      var a, b :| NextRun(cron, a).Ok? && NextRun(cron, b).Err?;
      WaveringIsUnfair(crons, cron, a, b);
    }
  }

  /** The leap-day expression wavers. */
  lemma LeapDayWavers(cron: string)
    requires CronFields(cron) == LEAP_DAY
    ensures Wavers(cron)
  {
    assert TwoCommonYears(2025);
    var b := YearStart(2025);
    LeapDayRejected(cron, 2025, b);
    OutcomeUnique(cron, b, NextRun(cron, b), Err(NoMatch));
    var day := Calendar.DayNumber(Calendar.Date(2024, 2, 29));
    Calendar.CivilOfDayNumber(Calendar.Date(2024, 2, 29));
    Calendar.FieldsAt(day, 0, 0);
    LeapDayMatches(Calendar.At(day, 0, 0));
    var a := (Calendar.At(day, 0, 0) - 1) * Calendar.MINUTE_MS;
    assert FirstMinute(a) == Calendar.At(day, 0, 0);
    assert Found(LEAP_DAY, FirstMinute(a), SCAN_MINUTES);
    FoundBoundsOutcome(cron, a, SCAN_MINUTES, NextRun(cron, a));
  }

  // ── Starvation: the condition of fairness is needed ────────────────────────

  /** Every tick of the run happens while searches for `cron` are rejected. */
  ghost predicate RejectedThroughout(search: Search, cron: string, es: seq<Event>) {
    forall i, k :: 0 <= i < |es| && es[i].Tick? && 0 <= k < |es[i].clocks| ==> search(cron, es[i].clocks[k]).Err?
  }

  /** Schedule `p` is active and strictly earlier than every other active schedule. */
  ghost predicate Earliest(s: Table, p: Id) {
    && p in s && s[p].active && s[p].nextRun.Some?
    && forall j :: j in s && j != p && s[j].active && s[j].nextRun.Some? ==> s[p].nextRun.value < s[j].nextRun.value
  }

  lemma EarliestComesFirst(s: Table, now: int, due: seq<Id>, p: Id)
    requires DueRows(s, now, due) && Earliest(s, p) && IsDue(s[p], now)
    ensures due != [] && due[0] == p
  {
    if p in due {
      var i :| 0 <= i < |due| && due[i] == p;
    }
  }

  /** While the earliest due schedule is rejected, every tick runs that schedule alone and changes nothing. */
  lemma {:induction false} RejectionStarvesOthers(search: Search, s: Table, now: int, es: seq<Event>, p: Id, id: Id)
    requires Run(search, s, now, es) && Unedited(es, p) && id != p
    requires Earliest(s, p) && IsDue(s[p], now) && RejectedThroughout(search, s[p].cron, es)
    ensures !WasRun(search, s, now, es, id)
    ensures Ticks(es) > 0 ==> WasRun(search, s, now, es, p)
    ensures Unedited(es, id) && id in s ==> id in Final(search, s, now, es) && Final(search, s, now, es)[id] == s[id]
    decreases |es|
  {
    if es != [] {
      var e := es[0];
      assert Unedited(es[1..], p);
      assert Unedited(es, id) ==> Unedited(es[1..], id);
      if e.Tick? {
        EarliestComesFirst(s, e.now, e.due, p);
        assert search(s[p].cron, e.clocks[0]).Err?;
        assert Apply(search, s, e) == s;
      } else {
        assert e.id != p;
      }
      var s' := Apply(search, s, e);
      assert s'[p] == s[p] && Earliest(s', p);
      assert RejectedThroughout(search, s[p].cron, es[1..]) by {
        assert forall i :: 0 <= i < |es[1..]| ==> es[1..][i] == es[i + 1];
      }
      RejectionStarvesOthers(search, s', e.now, es[1..], p, id);
    }
  }

  /** A concrete case: through a whole common year before another, a due leap-day schedule starves all later ones. */
  lemma LeapDayStarves(s: Table, now: int, es: seq<Event>, p: Id, id: Id, y: int)
    requires Run(NextRun, s, now, es) && Unedited(es, p) && id != p
    requires Earliest(s, p) && IsDue(s[p], now)
    requires CronFields(s[p].cron) == LEAP_DAY && TwoCommonYears(y)
    requires forall i, k :: 0 <= i < |es| && es[i].Tick? && 0 <= k < |es[i].clocks| ==>
               YearStart(y) <= es[i].clocks[k] <= YearStart(y + 1)
    ensures !WasRun(NextRun, s, now, es, id)
  {
    forall i, k | 0 <= i < |es| && es[i].Tick? && 0 <= k < |es[i].clocks|
      ensures NextRun(s[p].cron, es[i].clocks[k]).Err?
    {
      var clock := es[i].clocks[k];
      LeapDayRejected(s[p].cron, y, clock);
      OutcomeUnique(s[p].cron, clock, NextRun(s[p].cron, clock), Err(NoMatch));
    }
    RejectionStarvesOthers(NextRun, s, now, es, p, id);
  }
}
