/**
 * Crash safety of migration runs: errors and crashes at any statement, for every script
 * (src/database/tenant-migration-runner.service.ts).
 */
module MigrationSafety {
  import opened Wrappers
  import opened TenantMigrations

  // ── What a consistent schema holds ─────────────────────────────────────────

  /** The changes among the first `n` commands. */
  function ChangesUpto(script: Script, n: nat): seq<string>
    requires n <= |script|
  {
    if n == 0 then []
    else ChangesUpto(script, n - 1) + (if script[n - 1].Change? then [script[n - 1].what] else [])
  }

  function ChangesOf(script: Script): seq<string> {
    ChangesUpto(script, |script|)
  }

  function AllChanges(recorded: seq<string>, scripts: Scripts): seq<string> {
    if recorded == [] then []
    else AllChanges(recorded[..|recorded| - 1], scripts) + ChangesOf(scripts(recorded[|recorded| - 1]))
  }

  /** The schema holds exactly the changes of the recorded migrations: none is there in part or without its record. */
  ghost predicate Consistent(s: Schema, scripts: Scripts) {
    s.changes == AllChanges(s.recorded, scripts)
  }

  /** The schema with one more migration, whole. */
  function Full(s: Schema, name: string, script: Script): Schema {
    Schema(s.changes + ChangesOf(script), s.recorded + [name])
  }

  lemma FullIsConsistent(s: Schema, name: string, scripts: Scripts)
    requires Consistent(s, scripts)
    ensures Consistent(Full(s, name, scripts(name)), scripts)
  {
    assert (s.recorded + [name])[..|s.recorded|] == s.recorded;
  }

  /** A schema with another number of changes than its records call for is not consistent. */
  lemma WrongSizeIsInconsistent(s: Schema, t: Schema, scripts: Scripts)
    requires Consistent(s, scripts) && t.recorded == s.recorded && |t.changes| != |s.changes|
    ensures !Consistent(t, scripts)
  {
  }

  lemma {:induction false} ChangesGrow(script: Script, m: nat, n: nat)
    requires m <= n <= |script|
    ensures |ChangesUpto(script, m)| <= |ChangesUpto(script, n)|
    ensures |ChangesUpto(script, m)| < |ChangesUpto(script, n)| <==> exists i :: m <= i < n && script[i].Change?
  {
    if m < n {
      ChangesGrow(script, m, n - 1);
      if i :| m <= i < n && script[i].Change? {
        assert i < n - 1 || script[n - 1].Change?;
      }
    }
  }

  lemma NoChanges(script: Script, n: nat)
    requires n <= |script|
    ensures ChangesUpto(script, n) == [] <==> forall i :: 0 <= i < n ==> !script[i].Change?
  {
    ChangesGrow(script, 0, n);
  }

  // ── Which scripts leak ─────────────────────────────────────────────────────

  predicate RunnerEnd(c: Command) {
    c.End? && c.viaRunner
  }

  /** The query runner throws at command `k`: it was told before that the transaction ended. */
  predicate Stuck(script: Script, k: nat)
    requires k < |script|
  {
    RunnerEnd(script[k]) && exists j :: 0 <= j < k && RunnerEnd(script[j])
  }

  /** How many of the first `m` commands are executed when no statement has trouble. */
  function ReachedUpto(script: Script, m: nat): (n: nat)
    requires m <= |script|
    ensures n <= m && forall k :: 0 <= k < n ==> !Stuck(script, k)
    ensures n < m ==> Stuck(script, n)
  {
    if m == 0 then 0
    else
      var n := ReachedUpto(script, m - 1);
      if n < m - 1 || Stuck(script, m - 1) then n else m
  }

  function Reached(script: Script): (n: nat)
    ensures n <= |script| && forall k :: 0 <= k < n ==> !Stuck(script, k)
    ensures n < |script| ==> Stuck(script, n)
  {
    ReachedUpto(script, |script|)
  }

  predicate FirstEnd(script: Script, e: nat)
    requires e < |script|
  {
    script[e].End? && forall k :: 0 <= k < e ==> script[k].Change?
  }

  /**
   * The script changes something and ends the runner's transaction, in such a way that the change can stay without its
   * record or be lost from it: the change comes after the end, or the end commits, or the script runs to its end.
   */
  ghost predicate Leaks(script: Script) {
    exists i, e :: 0 <= i < |script| && 0 <= e < |script| && LeakAt(script, i, e)
  }

  predicate LeakAt(script: Script, i: nat, e: nat)
    requires i < |script| && e < |script|
  {
    var n := Reached(script);
    && i < n && e < n && script[i].Change? && FirstEnd(script, e)
    && (e < i || script[e].commit || n == |script|)
  }

  predicate EndsTransaction(script: Script) {
    exists e :: 0 <= e < |script| && script[e].End?
  }

  predicate ChangesSomething(script: Script) {
    exists i :: 0 <= i < |script| && script[i].Change?
  }

  lemma {:induction false} FindFirstEnd(script: Script, e: nat) returns (f: nat)
    requires e < |script| && script[e].End?
    ensures f <= e && FirstEnd(script, f)
  {
    if k :| 0 <= k < e && script[k].End? {
      f := FindFirstEnd(script, k);
    } else {
      f := e;
    }
  }

  /** A script the query runner does not throw in leaks exactly when it changes something and ends the transaction. */
  lemma LeaksExactly(script: Script)
    requires Reached(script) == |script|
    ensures Leaks(script) <==> ChangesSomething(script) && EndsTransaction(script)
  {
    if ChangesSomething(script) && EndsTransaction(script) {
      var i :| 0 <= i < |script| && script[i].Change?;
      var e :| 0 <= e < |script| && script[e].End?;
      var f := FindFirstEnd(script, e);
      assert LeakAt(script, i, f);
    }
  }

  // ── Points of a file whose script does not end the transaction ─────────────

  /** How many commands of the script are done after `j` statements. */
  function Done(script: Script, j: nat): (d: nat)
    ensures d <= |script|
  {
    if j <= 2 then 0 else if j - 2 <= |script| then j - 2 else |script|
  }

  function PointOf(s: Schema, name: string, script: Script, troubles: nat -> Trouble, j: nat): Point
    requires j <= |script| + 4
  {
    Iterate(StepperOf(Statements(name, script), troubles), Begun(s), j)
  }

  function Recorded(s: Schema, name: string, script: Script, j: nat): seq<string> {
    if j > |script| + 2 then s.recorded + [name] else s.recorded
  }

  /** All is in the open transaction until the last statement commits it. */
  ghost predicate PlainPoint(s: Schema, name: string, script: Script, j: nat, p: Point)
    requires j <= |script| + 4
  {
    && (p.conn.committed == s || (j == |script| + 4 && p.conn.committed == Full(s, name, script)))
    && (!p.threw && j == |script| + 4 ==> p.conn.committed == Full(s, name, script))
    && (!p.threw && 1 <= j < |script| + 4 ==>
          p.conn.active && p.conn.working == Some(Schema(s.changes + ChangesUpto(script, Done(script, j)),
                                                         Recorded(s, name, script, j))))
  }

  /** One more change extends the changes so far. */
  lemma OneMore(s: Schema, script: Script, d: nat)
    requires d < |script|
    ensures script[d].Change? ==>
              s.changes + ChangesUpto(script, d) + [script[d].what] == s.changes + ChangesUpto(script, d + 1)
    ensures !script[d].Change? ==> ChangesUpto(script, d + 1) == ChangesUpto(script, d)
  {
    assert ChangesUpto(script, d) + [] == ChangesUpto(script, d);
  }

  lemma PlainStep(s: Schema, name: string, script: Script, j: nat, p: Point, trouble: Trouble)
    requires !EndsTransaction(script) && 1 <= j < |script| + 4 && PlainPoint(s, name, script, j, p)
    ensures PlainPoint(s, name, script, j + 1, Go(p, Statements(name, script)[j], trouble))
  {
    hide Statements;
    var stmt := Statements(name, script)[j];
    if 2 <= j < |script| + 2 {
      assert stmt == Run(script[j - 2]);
      assert script[j - 2].Change?;
      OneMore(s, script, j - 2);
    }
  }

  lemma PlainFirst(s: Schema, name: string, script: Script, trouble: Trouble)
    ensures PlainPoint(s, name, script, 1, Go(Begun(s), Start, trouble))
  {
    assert s.changes + [] == s.changes;
  }

  lemma {:induction false} PlainPoints(s: Schema, name: string, script: Script, troubles: nat -> Trouble, step: Stepper,
                                       j: nat)
    requires !EndsTransaction(script) && j <= |script| + 4 && IsStepper(step, Statements(name, script), troubles)
    ensures PlainPoint(s, name, script, j, Iterate(step, Begun(s), j))
  {
    hide Statements;
    if j > 0 {
      var p := Iterate(step, Begun(s), j - 1);
      NextPoint(step, Statements(name, script), troubles, Begun(s), j - 1);
      if j == 1 {
        PlainFirst(s, name, script, troubles(0));
      } else {
        PlainPoints(s, name, script, troubles, step, j - 1);
        PlainStep(s, name, script, j - 1, p, troubles(j - 1));
      }
    }
  }

  // ── Points of a file whose script changes nothing ──────────────────────────

  /** No change is ever made, so recording the name is all that can happen. */
  ghost predicate StillPoint(s: Schema, name: string, p: Point, before: bool) {
    && p.conn.committed.changes == s.changes && Current(p.conn).changes == s.changes
    && (p.conn.committed.recorded == s.recorded || p.conn.committed.recorded == s.recorded + [name])
    && (Current(p.conn).recorded == s.recorded || Current(p.conn).recorded == s.recorded + [name])
    && (before ==> p.conn.committed.recorded == Current(p.conn).recorded == s.recorded)
  }

  lemma StillStep(s: Schema, name: string, script: Script, j: nat, p: Point, trouble: Trouble)
    requires !ChangesSomething(script) && j < |script| + 4 && StillPoint(s, name, p, j <= |script| + 2)
    ensures StillPoint(s, name, Go(p, Statements(name, script)[j], trouble), j + 1 <= |script| + 2)
  {
    hide Statements;
    if 2 <= j < |script| + 2 {
      assert Statements(name, script)[j] == Run(script[j - 2]);
      assert !script[j - 2].Change?;
    }
  }

  lemma {:induction false} StillPoints(s: Schema, name: string, script: Script, troubles: nat -> Trouble, step: Stepper,
                                       j: nat)
    requires !ChangesSomething(script) && j <= |script| + 4 && IsStepper(step, Statements(name, script), troubles)
    ensures StillPoint(s, name, Iterate(step, Begun(s), j), j <= |script| + 2)
  {
    hide Statements;
    if j > 0 {
      StillPoints(s, name, script, troubles, step, j - 1);
      var p := Iterate(step, Begun(s), j - 1);
      StillStep(s, name, script, j - 1, p, troubles(j - 1));
      NextPoint(step, Statements(name, script), troubles, Begun(s), j - 1);
    }
  }

  // ── Points of a file in whose script the query runner throws ───────────────

  /** The first end, if it is among the first `d` commands. */
  ghost predicate Ended(script: Script, d: nat)
    requires d <= |script|
  {
    exists e :: 0 <= e < d && script[e].End?
  }

  ghost predicate RunnerEnded(script: Script, d: nat)
    requires d <= |script|
  {
    exists e :: 0 <= e < d && RunnerEnd(script[e])
  }

  /** Nothing is committed but what was there, and beyond the command the runner throws at nothing is executed. */
  ghost predicate StuckPoint(s: Schema, script: Script, n: nat, j: nat, p: Point)
    requires n < |script|
  {
    && p.conn.committed == s
    && (!p.threw ==> j <= n + 2)
    && (!p.threw && 1 <= j ==>
          var d := Done(script, j);
          && (p.conn.active <==> !RunnerEnded(script, d))
          && (p.conn.working.Some? <==> !Ended(script, d))
          && (p.conn.working.Some? ==> p.conn.working.value == Schema(s.changes + ChangesUpto(script, d), s.recorded)))
  }

  lemma EndedStep(script: Script, d: nat)
    requires d < |script|
    ensures Ended(script, d + 1) <==> Ended(script, d) || script[d].End?
    ensures RunnerEnded(script, d + 1) <==> RunnerEnded(script, d) || RunnerEnd(script[d])
  {
    if Ended(script, d) {
      var e :| 0 <= e < d && script[e].End?;
    }
    if RunnerEnded(script, d) {
      var e :| 0 <= e < d && RunnerEnd(script[e]);
    }
  }

  /** In a script that does not leak, a reached change comes before every end, and no such end commits. */
  lemma NoLeakOrder(script: Script, i: nat, e: nat)
    requires !Leaks(script) && i < Reached(script) && e < Reached(script)
    requires script[i].Change? && script[e].End?
    ensures i < e && (forall f :: 0 <= f <= e && FirstEnd(script, f) ==> !script[f].commit)
  {
    var f := FindFirstEnd(script, e);
    assert !LeakAt(script, i, f);
    assert i < f && !script[f].commit;
    forall g | 0 <= g <= e && FirstEnd(script, g)
      ensures !script[g].commit
    {
      FirstEndUnique(script, f, g);
    }
  }

  lemma FirstEndUnique(script: Script, f: nat, g: nat)
    requires f < |script| && g < |script| && FirstEnd(script, f) && FirstEnd(script, g)
    ensures f == g
  {
  }

  lemma StuckChange(s: Schema, script: Script, n: nat, d: nat, p: Point)
    requires n == Reached(script) < |script| && !Leaks(script) && d < n && !p.threw && script[d].Change?
    requires StuckPoint(s, script, n, d + 2, p)
    ensures StuckPoint(s, script, n, d + 3, Go(p, Run(script[d]), Fine))
  {
    EndedStep(script, d);
    OneMore(s, script, d);
    assert !Ended(script, d) by {
      if e :| 0 <= e < d && script[e].End? {
        NoLeakOrder(script, d, e);
      }
    }
  }

  lemma StuckEnd(s: Schema, script: Script, n: nat, d: nat, p: Point)
    requires n == Reached(script) < |script| && !Leaks(script) && d < n && !p.threw && script[d].End?
    requires StuckPoint(s, script, n, d + 2, p)
    ensures EndTransaction(p.conn, script[d].commit, script[d].viaRunner).committed == s
  {
    if p.conn.working.Some? && script[d].commit {
      forall k | 0 <= k < d
        ensures script[k].Change?
      {
        assert !script[k].End?;
      }
      assert FirstEnd(script, d);
      assert d == 0 || !LeakAt(script, 0, d);
      assert s.changes + [] == s.changes;
    }
  }

  lemma StuckEndStep(s: Schema, script: Script, n: nat, d: nat, p: Point)
    requires n == Reached(script) < |script| && !Leaks(script) && d < n && !p.threw && script[d].End?
    requires StuckPoint(s, script, n, d + 2, p)
    ensures StuckPoint(s, script, n, d + 3, Go(p, Run(script[d]), Fine))
  {
    EndedStep(script, d);
    StuckEnd(s, script, n, d, p);
    assert Ended(script, d + 1);
  }

  lemma StuckCommand(s: Schema, script: Script, n: nat, d: nat, p: Point, trouble: Trouble)
    requires n == Reached(script) < |script| && !Leaks(script) && d <= n && !p.threw
    requires StuckPoint(s, script, n, d + 2, p)
    ensures StuckPoint(s, script, n, d + 3, Go(p, Run(script[d]), trouble))
  {
    if d == n {
      assert Stuck(script, n) && RunnerEnded(script, d);
    } else {
      if script[d].Change? {
        StuckChange(s, script, n, d, p);
      } else {
        StuckEndStep(s, script, n, d, p);
      }
      assert Go(p, Run(script[d]), trouble).conn in {p.conn, Go(p, Run(script[d]), Fine).conn};
    }
  }

  lemma StuckOpening(s: Schema, script: Script, n: nat, trouble: Trouble, next: Trouble)
    requires n < |script|
    ensures StuckPoint(s, script, n, 0, Begun(s))
    ensures StuckPoint(s, script, n, 1, Go(Begun(s), Start, trouble))
    ensures StuckPoint(s, script, n, 2, Go(Go(Begun(s), Start, trouble), Load, next))
  {
    assert s.changes + [] == s.changes;
  }

  lemma StuckThrew(s: Schema, script: Script, n: nat, j: nat, p: Point, stmt: Statement, trouble: Trouble)
    requires n < |script| && StuckPoint(s, script, n, j, p) && p.threw
    ensures StuckPoint(s, script, n, j + 1, Go(p, stmt, trouble))
  {
  }

  lemma {:induction false} StuckPoints(s: Schema, name: string, script: Script, troubles: nat -> Trouble, step: Stepper,
                                       j: nat)
    requires Reached(script) < |script| && !Leaks(script) && j <= |script| + 4
    requires IsStepper(step, Statements(name, script), troubles)
    ensures StuckPoint(s, script, Reached(script), j, Iterate(step, Begun(s), j))
  {
    hide StuckPoint, Leaks, Go, Statements;
    var n, stmts := Reached(script), Statements(name, script);
    if j <= 2 {
      StuckOpening(s, script, n, troubles(0), troubles(1));
      NextPoint(step, stmts, troubles, Begun(s), 0);
      NextPoint(step, stmts, troubles, Begun(s), 1);
      assert Iterate(step, Begun(s), 0) == Begun(s);
    } else {
      StuckPoints(s, name, script, troubles, step, j - 1);
      NextPoint(step, stmts, troubles, Begun(s), j - 1);
      StuckNext(s, name, script, n, j - 1, Iterate(step, Begun(s), j - 1), stmts[j - 1], troubles(j - 1));
    }
  }

  lemma StuckNext(s: Schema, name: string, script: Script, n: nat, j: nat, p: Point, stmt: Statement, trouble: Trouble)
    requires n == Reached(script) < |script| && !Leaks(script) && 2 <= j < |script| + 4
    requires stmt == Statements(name, script)[j] && StuckPoint(s, script, n, j, p)
    ensures StuckPoint(s, script, n, j + 1, Go(p, stmt, trouble))
  {
    hide Statements, Leaks, Go;
    if p.threw {
      StuckThrew(s, script, n, j, p, stmt, trouble);
    } else {
      assert j - 2 <= n;
      assert stmt == Run(script[j - 2]);
      StuckCommand(s, script, n, j - 2, p, trouble);
    }
  }

  // ── Scripts that do not leak are safe at every point ───────────────────────

  lemma SafePoint(s: Schema, name: string, scripts: Scripts, troubles: nat -> Trouble, j: nat)
    requires Consistent(s, scripts) && !Leaks(scripts(name)) && j <= |scripts(name)| + 4
    ensures Consistent(PointOf(s, name, scripts(name), troubles, j).conn.committed, scripts)
  {
    SafeStep(s, name, scripts, troubles, StepperOf(Statements(name, scripts(name)), troubles), j);
  }

  lemma SafeStep(s: Schema, name: string, scripts: Scripts, troubles: nat -> Trouble, step: Stepper, j: nat)
    requires Consistent(s, scripts) && !Leaks(scripts(name)) && j <= |scripts(name)| + 4
    requires IsStepper(step, Statements(name, scripts(name)), troubles)
    ensures Consistent(Iterate(step, Begun(s), j).conn.committed, scripts)
  {
    var script := scripts(name);
    FullIsConsistent(s, name, scripts);
    if Reached(script) < |script| {
      StuckPoints(s, name, script, troubles, step, j);
    } else if !EndsTransaction(script) {
      PlainPoints(s, name, script, troubles, step, j);
    } else {
      LeaksExactly(script);
      StillPoints(s, name, script, troubles, step, j);
      NoChanges(script, |script|);
      assert s.changes + [] == s.changes;
    }
  }

  // ── Scripts that leak show it ──────────────────────────────────────────────

  function NoTrouble(): nat -> Trouble {
    (j: nat) => Fine
  }

  /** Without trouble: what is committed after `d` commands, counted, when the first end is `e`. */
  ghost predicate Counted(s: Schema, script: Script, e: nat, d: nat, p: Point)
    requires e < |script| && script[e].End? && d <= |script|
  {
    var size := |ChangesUpto(script, d)| - |ChangesUpto(script, e)|;
    && !p.threw
    && (p.conn.active <==> !RunnerEnded(script, d))
    && (if d <= e then p.conn == Conn(s, Some(Schema(s.changes + ChangesUpto(script, d), s.recorded)), true)
        else p.conn.working.None? && p.conn.committed.recorded == s.recorded
             && |p.conn.committed.changes|
                == |s.changes| + (if script[e].commit then |ChangesUpto(script, e)| else 0) + size)
  }

  lemma NoEarlyEnd(script: Script, e: nat, d: nat)
    requires e < |script| && FirstEnd(script, e) && d <= e
    ensures !RunnerEnded(script, d) && (d < e ==> script[d].Change?)
  {
  }

  lemma CountedStep(s: Schema, script: Script, e: nat, d: nat, p: Point)
    requires e < |script| && FirstEnd(script, e) && d < Reached(script) && Counted(s, script, e, d, p)
    ensures Counted(s, script, e, d + 1, Go(p, Run(script[d]), Fine))
  {
    EndedStep(script, d);
    OneMore(s, script, d);
    assert !Stuck(script, d);
    if d < e {
      NoEarlyEnd(script, e, d + 1);
    }
  }

  lemma CountedBase(s: Schema, script: Script, e: nat)
    requires e < |script| && FirstEnd(script, e)
    ensures Counted(s, script, e, 0, Go(Go(Begun(s), Start, Fine), Load, Fine))
  {
    assert s.changes + [] == s.changes;
  }

  lemma {:induction false} CountedPoints(s: Schema, name: string, script: Script, e: nat, step: Stepper, d: nat)
    requires e < |script| && FirstEnd(script, e) && d <= Reached(script)
    requires IsStepper(step, Statements(name, script), NoTrouble())
    ensures Counted(s, script, e, d, Iterate(step, Begun(s), d + 2))
  {
    hide Statements;
    var stmts := Statements(name, script);
    if d == 0 {
      NextPoint(step, stmts, NoTrouble(), Begun(s), 0);
      NextPoint(step, stmts, NoTrouble(), Begun(s), 1);
      assert Iterate(step, Begun(s), 0) == Begun(s);
      CountedBase(s, script, e);
    } else {
      CountedPoints(s, name, script, e, step, d - 1);
      NextPoint(step, stmts, NoTrouble(), Begun(s), d + 1);
      assert stmts[d + 1] == Run(script[d - 1]);
      CountedStep(s, script, e, d - 1, Iterate(step, Begun(s), d + 1));
    }
  }

  /** Committed beyond the first end `e`: the recorded names of before, and this many changes. */
  ghost predicate Sized(s: Schema, script: Script, e: nat, d: nat, t: Schema)
    requires e < |script| && script[e].End? && d <= |script|
  {
    && t.recorded == s.recorded
    && |t.changes| == |s.changes| + (if script[e].commit then |ChangesUpto(script, e)| else 0)
                      + |ChangesUpto(script, d)| - |ChangesUpto(script, e)|
  }

  lemma SizedPoint(s: Schema, name: string, script: Script, e: nat, step: Stepper, d: nat)
    requires e < |script| && FirstEnd(script, e) && e < d <= Reached(script)
    requires IsStepper(step, Statements(name, script), NoTrouble())
    ensures Sized(s, script, e, d, Iterate(step, Begun(s), d + 2).conn.committed)
  {
    CountedPoints(s, name, script, e, step, d);
  }

  lemma RecordOutside(p: Point, name: string)
    requires !p.threw && p.conn.working.None?
    ensures Go(p, Record(name), Fine).conn.committed == Schema(p.conn.committed.changes, p.conn.committed.recorded + [name])
  {
  }

  lemma RecordAlone(s: Schema, name: string, script: Script, e: nat, step: Stepper)
    requires e < |script| == Reached(script) && FirstEnd(script, e)
    requires IsStepper(step, Statements(name, script), NoTrouble())
    ensures var p, q := Iterate(step, Begun(s), |script| + 2), Iterate(step, Begun(s), |script| + 3);
            q.conn.committed == Schema(p.conn.committed.changes, s.recorded + [name])
  {
    hide Statements, Reached, ChangesUpto, Go, Iterate, IsStepper, RunnerEnded;
    var n := |script|;
    CountedPoints(s, name, script, e, step, n);
    RecordOutside(Iterate(step, Begun(s), n + 2), name);
    NextPoint(step, Statements(name, script), NoTrouble(), Begun(s), n + 2);
  }

  /** A change after the end of the transaction is committed at once. */
  lemma LateChangeShows(s: Schema, scripts: Scripts, script: Script, i: nat, e: nat, t: Schema)
    requires Consistent(s, scripts) && e < i < |script| && script[e].End? && script[i].Change?
    requires Sized(s, script, e, i + 1, t)
    ensures !Consistent(t, scripts)
  {
    ChangesGrow(script, e, i + 1);
    WrongSizeIsInconsistent(s, t, scripts);
  }

  /** A change before a commit of the migration's own is committed without its record. */
  lemma EarlyCommitShows(s: Schema, scripts: Scripts, script: Script, i: nat, e: nat, t: Schema)
    requires Consistent(s, scripts) && i < e < |script| && script[i].Change? && script[e].End? && script[e].commit
    requires Sized(s, script, e, e + 1, t)
    ensures !Consistent(t, scripts)
  {
    ChangesGrow(script, 0, e);
    OneMore(s, script, e);
    WrongSizeIsInconsistent(s, t, scripts);
  }

  /** A change rolled back shows when the record is made without it. */
  lemma LostChangeShows(s: Schema, name: string, scripts: Scripts, i: nat, e: nat, t: Schema, u: Schema)
    requires Consistent(s, scripts) && i < e < |scripts(name)| && scripts(name)[i].Change?
    requires scripts(name)[e].End? && !scripts(name)[e].commit
    requires Sized(s, scripts(name), e, |scripts(name)|, t) && u == Schema(t.changes, s.recorded + [name])
    ensures !Consistent(t, scripts) || !Consistent(u, scripts)
  {
    var script := scripts(name);
    ChangesGrow(script, 0, |script|);
    if |t.changes| != |s.changes| {
      WrongSizeIsInconsistent(s, t, scripts);
    } else {
      RecordedIsInconsistent(s, name, scripts, u);
    }
  }

  lemma RecordedIsInconsistent(s: Schema, name: string, scripts: Scripts, t: Schema)
    requires Consistent(s, scripts) && |t.changes| == |s.changes| && t.recorded == s.recorded + [name]
    requires |ChangesOf(scripts(name))| > 0
    ensures !Consistent(t, scripts)
  {
    assert (s.recorded + [name])[..|s.recorded|] == s.recorded;
    assert |AllChanges(t.recorded, scripts)| == |s.changes| + |ChangesOf(scripts(name))|;
  }

  /** A script that leaks leaves the schema inconsistent at some point of its file, without any trouble. */
  lemma LeakShows(s: Schema, name: string, scripts: Scripts, step: Stepper) returns (j: nat)
    requires Consistent(s, scripts) && Leaks(scripts(name))
    requires IsStepper(step, Statements(name, scripts(name)), NoTrouble())
    ensures j <= |scripts(name)| + 4 && !Consistent(Iterate(step, Begun(s), j).conn.committed, scripts)
  {
    hide Sized, Consistent, Reached, Iterate, IsStepper;
    var script := scripts(name);
    var i, e :| 0 <= i < |script| && 0 <= e < |script| && LeakAt(script, i, e);
    if e < i || script[e].commit {
      j := (if e < i then i else e) + 3;
      SizedPoint(s, name, script, e, step, j - 2);
      var t := Iterate(step, Begun(s), j).conn.committed;
      if e < i {
        LateChangeShows(s, scripts, script, i, e, t);
      } else {
        EarlyCommitShows(s, scripts, script, i, e, t);
      }
    } else {
      j := LostShows(s, name, scripts, i, e, step);
    }
  }

  lemma LostShows(s: Schema, name: string, scripts: Scripts, i: nat, e: nat, step: Stepper) returns (j: nat)
    requires Consistent(s, scripts) && i < |scripts(name)| && e < |scripts(name)| && LeakAt(scripts(name), i, e)
    requires i < e && !scripts(name)[e].commit && IsStepper(step, Statements(name, scripts(name)), NoTrouble())
    ensures j <= |scripts(name)| + 4 && !Consistent(Iterate(step, Begun(s), j).conn.committed, scripts)
  {
    var n := |scripts(name)|;
    SizedPoint(s, name, scripts(name), e, step, n);
    RecordAlone(s, name, scripts(name), e, step);
    var t, u := Iterate(step, Begun(s), n + 2).conn.committed, Iterate(step, Begun(s), n + 3).conn.committed;
    LostChangeShows(s, name, scripts, i, e, t, u);
    j := if Consistent(t, scripts) then n + 3 else n + 2;
  }

  // ── Every stop point of every run ──────────────────────────────────────────

  /** What the server holds when the process stops after `n` files and `j` statements of the next one. */
  function StopPoint(s: Schema, names: seq<string>, scripts: Scripts, troubles: Troubles, n: nat, j: nat): Schema
    requires n <= |names|
  {
    var p := Process(s, names, scripts, troubles, n);
    if n == |names| || p.failed.Some? || names[n] in p.schema.recorded then p.schema
    else
      var script := scripts(names[n]);
      PointOf(p.schema, names[n], script, troubles(n), if j <= |script| + 4 then j else |script| + 4).conn.committed
  }

  /** Every run from a consistent schema leaves it consistent wherever it stops and whatever errors it meets. */
  ghost predicate CrashSafe(names: seq<string>, scripts: Scripts) {
    forall s: Schema, troubles: Troubles, n: nat, j: nat ::
      n <= |names| && Consistent(s, scripts) ==> Consistent(StopPoint(s, names, scripts, troubles, n, j), scripts)
  }

  lemma {:induction false} RunsStayConsistent(s: Schema, names: seq<string>, scripts: Scripts, troubles: Troubles, n: nat)
    requires n <= |names| && Consistent(s, scripts)
    requires forall k :: 0 <= k < |names| ==> !Leaks(scripts(names[k]))
    ensures Consistent(Process(s, names, scripts, troubles, n).schema, scripts)
  {
    if n > 0 {
      RunsStayConsistent(s, names, scripts, troubles, n - 1);
      var p := Process(s, names, scripts, troubles, n - 1);
      var script := scripts(names[n - 1]);
      SafePoint(p.schema, names[n - 1], scripts, troubles(n - 1), |script| + 4);
    }
  }

  function PrefixOf(names: seq<string>, scripts: Scripts, k: nat): Schema
    requires k <= |names|
  {
    Schema(AllChanges(names[..k], scripts), names[..k])
  }

  lemma {:induction false} PrefixSkipped(names: seq<string>, scripts: Scripts, troubles: Troubles, k: nat, n: nat)
    requires n <= k <= |names|
    ensures Process(PrefixOf(names, scripts, k), names, scripts, troubles, n)
         == Progress(PrefixOf(names, scripts, k), [], names[..n], None)
  {
    if n > 0 {
      PrefixSkipped(names, scripts, troubles, k, n - 1);
      assert names[..n] == names[..n - 1] + [names[n - 1]];
      assert names[..k][n - 1] == names[n - 1];
    }
  }

  /**
   * Crash safety, exactly: the changes in the schema are those of the recorded migrations at every stop point of every
   * run, whatever statement has trouble, if and only if no script leaks.
   */
  lemma AppliedIsRecorded(names: seq<string>, scripts: Scripts)
    requires Distinct(names)
    ensures CrashSafe(names, scripts) <==> forall k :: 0 <= k < |names| ==> !Leaks(scripts(names[k]))
  {
    if forall k :: 0 <= k < |names| ==> !Leaks(scripts(names[k])) {
      forall s: Schema, troubles: Troubles, n: nat, j: nat | n <= |names| && Consistent(s, scripts)
        ensures Consistent(StopPoint(s, names, scripts, troubles, n, j), scripts)
      {
        RunsStayConsistent(s, names, scripts, troubles, n);
        if n < |names| {
          var script := scripts(names[n]);
          SafePoint(Process(s, names, scripts, troubles, n).schema, names[n], scripts, troubles(n),
                    if j <= |script| + 4 then j else |script| + 4);
        }
      }
    } else {
      var k :| 0 <= k < |names| && Leaks(scripts(names[k]));
      LeakStops(names, scripts, k);
    }
  }

  /** No statement of any file has trouble. */
  function NoTroubles(): Troubles {
    (file: nat) => NoTrouble()
  }

  /** Starting from the files before `k` recorded, a run without trouble reaches every point of file `k`. */
  lemma PointIsReached(names: seq<string>, scripts: Scripts, k: nat, j: nat)
    requires Distinct(names) && k < |names| && j <= |scripts(names[k])| + 4
    ensures StopPoint(PrefixOf(names, scripts, k), names, scripts, NoTroubles(), k, j)
         == PointOf(PrefixOf(names, scripts, k), names[k], scripts(names[k]), NoTrouble(), j).conn.committed
  {
    PrefixSkipped(names, scripts, NoTroubles(), k, k);
    assert names[k] !in names[..k];
  }

  lemma LeakStops(names: seq<string>, scripts: Scripts, k: nat)
    requires Distinct(names) && k < |names| && Leaks(scripts(names[k]))
    ensures !CrashSafe(names, scripts)
  {
    var s := PrefixOf(names, scripts, k);
    var j := LeakShows(s, names[k], scripts, StepperOf(Statements(names[k], scripts(names[k])), NoTrouble()));
    PointIsReached(names, scripts, k, j);
    assert !Consistent(StopPoint(s, names, scripts, NoTroubles(), k, j), scripts);
  }

  // ── Files without an end of the transaction ────────────────────────────────

  /** No statement of the file has trouble. */
  predicate AllFine(script: Script, troubles: nat -> Trouble) {
    forall j :: 0 <= j < |script| + 4 ==> troubles(j) == Fine
  }

  /** The commit takes effect: all statements before it go well and it does not fail before. */
  predicate CommitTaken(script: Script, troubles: nat -> Trouble) {
    (forall j :: 0 <= j < |script| + 3 ==> troubles(j) == Fine) && troubles(|script| + 3) != Before
  }

  lemma PlainStepThrows(s: Schema, name: string, script: Script, j: nat, p: Point, trouble: Trouble)
    requires !EndsTransaction(script) && j < |script| + 4 && PlainPoint(s, name, script, j, p) && !p.threw
    ensures Go(p, Statements(name, script)[j], trouble).threw <==> trouble != Fine
  {
    hide Statements;
    if 2 <= j < |script| + 2 {
      assert Statements(name, script)[j] == Run(script[j - 2]);
      assert script[j - 2].Change?;
    }
  }

  lemma {:induction false} PlainThrows(s: Schema, name: string, script: Script, troubles: nat -> Trouble, step: Stepper,
                                       j: nat)
    requires !EndsTransaction(script) && j <= |script| + 4 && IsStepper(step, Statements(name, script), troubles)
    ensures !Iterate(step, Begun(s), j).threw <==> forall i :: 0 <= i < j ==> troubles(i) == Fine
  {
    hide Statements;
    if j > 0 {
      var p := Iterate(step, Begun(s), j - 1);
      NextPoint(step, Statements(name, script), troubles, Begun(s), j - 1);
      PlainThrows(s, name, script, troubles, step, j - 1);
      PlainPoints(s, name, script, troubles, step, j - 1);
      if !p.threw {
        PlainStepThrows(s, name, script, j - 1, p, troubles(j - 1));
      }
    }
  }

  lemma PlainLast(s: Schema, name: string, script: Script, p: Point, trouble: Trouble)
    requires PlainPoint(s, name, script, |script| + 3, p)
    ensures var end := Go(p, Finish, trouble);
            end.conn.committed == (if !p.threw && trouble != Before then Full(s, name, script) else s)
  {
  }

  /**
   * A file whose script does not end the transaction throws exactly when some statement has trouble, and leaves all
   * or nothing: all exactly when its commit took effect.
   */
  lemma PlainFile(s: Schema, name: string, script: Script, troubles: nat -> Trouble)
    requires !EndsTransaction(script)
    ensures var end := FileEnd(s, name, script, troubles);
            && (!end.threw <==> AllFine(script, troubles))
            && end.conn.committed == (if CommitTaken(script, troubles) then Full(s, name, script) else s)
  {
    PlainEnd(s, name, script, troubles, StepperOf(Statements(name, script), troubles));
  }

  lemma PlainEnd(s: Schema, name: string, script: Script, troubles: nat -> Trouble, step: Stepper)
    requires !EndsTransaction(script) && IsStepper(step, Statements(name, script), troubles)
    ensures var end := Iterate(step, Begun(s), |script| + 4);
            && (!end.threw <==> AllFine(script, troubles))
            && end.conn.committed == (if CommitTaken(script, troubles) then Full(s, name, script) else s)
  {
    var n := |script|;
    var p := Iterate(step, Begun(s), n + 3);
    PlainThrows(s, name, script, troubles, step, n + 4);
    assert !p.threw <==> forall j :: 0 <= j < n + 3 ==> troubles(j) == Fine by {
      PlainThrows(s, name, script, troubles, step, n + 3);
    }
    assert PlainPoint(s, name, script, n + 3, p) by {
      PlainPoints(s, name, script, troubles, step, n + 3);
    }
    PlainLast(s, name, script, p, troubles(n + 3));
    NextPoint(step, Statements(name, script), troubles, Begun(s), n + 3);
  }

  ghost predicate PlainScripts(names: seq<string>, scripts: Scripts) {
    forall k :: 0 <= k < |names| ==> !EndsTransaction(scripts(names[k]))
  }

  lemma PrefixMember(names: seq<string>, k: nat, i: nat)
    requires Distinct(names) && k <= |names| && i < |names|
    ensures names[i] in names[..k] <==> i < k
  {
    if i < k {
      assert names[..k][i] == names[i];
    }
  }

  /** The length of the recorded prefix a run leaves that failed at file `f`: the commit may have been taken. */
  function LeftAt(names: seq<string>, scripts: Scripts, troubles: Troubles, f: nat): nat
    requires f < |names|
  {
    if CommitTaken(scripts(names[f]), troubles(f)) then f + 1 else f
  }

  /** What a run over the first `n` files makes of the recorded prefix of length `k`. */
  ghost predicate Grown(names: seq<string>, scripts: Scripts, troubles: Troubles, k: nat, n: nat, p: Progress)
    requires k <= |names| && n <= |names|
  {
    match p.failed
    case Some(f) =>
      && k <= f < n && !AllFine(scripts(names[f]), troubles(f))
      && (forall i :: k <= i < f ==> AllFine(scripts(names[i]), troubles(i)))
      && p.schema == PrefixOf(names, scripts, LeftAt(names, scripts, troubles, f))
      && p.skipped == names[..k] && p.executed == names[k..f]
    case None =>
      && (forall i :: k <= i < n ==> AllFine(scripts(names[i]), troubles(i)))
      && p.schema == PrefixOf(names, scripts, if n <= k then k else n)
      && p.skipped == names[..if n <= k then n else k]
      && p.executed == if n <= k then [] else names[k..n]
  }

  /**
   * A recorded prefix of the sorted files stays one. The files before it are skipped; the ones after are executed up
   * to the first with trouble, where the run stops with everything before it recorded.
   */
  lemma {:induction false} PrefixGrows(names: seq<string>, scripts: Scripts, troubles: Troubles, k: nat, n: nat)
    requires Distinct(names) && k <= |names| && n <= |names| && PlainScripts(names, scripts)
    ensures Grown(names, scripts, troubles, k, n, Process(PrefixOf(names, scripts, k), names, scripts, troubles, n))
    decreases n
  {
    hide Advance, PlainAdvance, AllChanges;
    if n == 0 {
      assert names[k..k] == [] == names[..0];
    } else {
      hide Grown;
      PrefixGrows(names, scripts, troubles, k, n - 1);
      var p := Process(PrefixOf(names, scripts, k), names, scripts, troubles, n - 1);
      AdvanceIsPlain(p, names, scripts, troubles, n - 1);
      GrownStep(names, scripts, troubles, k, n, p);
    }
  }

  lemma PrefixFull(names: seq<string>, scripts: Scripts, i: nat)
    requires i < |names|
    ensures Full(PrefixOf(names, scripts, i), names[i], scripts(names[i])) == PrefixOf(names, scripts, i + 1)
  {
    assert names[..i + 1] == names[..i] + [names[i]];
    assert names[..i + 1][..i] == names[..i];
  }

  /** File `i` of a run, when its script does not end the transaction. */
  function PlainAdvance(p: Progress, names: seq<string>, scripts: Scripts, troubles: Troubles, i: nat): Progress
    requires i < |names|
  {
    var name, script := names[i], scripts(names[i]);
    if p.failed.Some? then p
    else if name in p.schema.recorded then p.(skipped := p.skipped + [name])
    else if AllFine(script, troubles(i)) then
      p.(schema := Full(p.schema, name, script), executed := p.executed + [name])
    else
      p.(schema := if CommitTaken(script, troubles(i)) then Full(p.schema, name, script) else p.schema, failed := Some(i))
  }

  lemma AdvanceIsPlain(p: Progress, names: seq<string>, scripts: Scripts, troubles: Troubles, i: nat)
    requires i < |names| && !EndsTransaction(scripts(names[i]))
    ensures Advance(p, names, scripts, troubles, i) == PlainAdvance(p, names, scripts, troubles, i)
  {
    PlainFile(p.schema, names[i], scripts(names[i]), troubles(i));
  }

  lemma GrownStep(names: seq<string>, scripts: Scripts, troubles: Troubles, k: nat, n: nat, p: Progress)
    requires Distinct(names) && k <= |names| && 1 <= n <= |names|
    requires Grown(names, scripts, troubles, k, n - 1, p)
    ensures Grown(names, scripts, troubles, k, n, PlainAdvance(p, names, scripts, troubles, n - 1))
  {
    if p.failed.Some? {
      hide AllFine, PrefixOf;
    } else {
      hide Grown;
      if n <= k {
        GrownSkips(names, scripts, troubles, k, n - 1, p);
      } else {
        GrownBeyond(names, scripts, troubles, k, n - 1, p);
      }
    }
  }

  lemma GrownSkips(names: seq<string>, scripts: Scripts, troubles: Troubles, k: nat, i: nat, p: Progress)
    requires Distinct(names) && i < k <= |names|
    requires Grown(names, scripts, troubles, k, i, p) && p.failed.None?
    ensures Grown(names, scripts, troubles, k, i + 1, PlainAdvance(p, names, scripts, troubles, i))
  {
    hide AllFine, AllChanges;
    assert names[i] in p.schema.recorded by {
      assert names[..k][i] == names[i];
    }
    assert names[..i + 1] == names[..i] + [names[i]];
  }

  lemma GrownBeyond(names: seq<string>, scripts: Scripts, troubles: Troubles, k: nat, i: nat, p: Progress)
    requires Distinct(names) && k <= i < |names|
    requires Grown(names, scripts, troubles, k, i, p) && p.failed.None?
    ensures Grown(names, scripts, troubles, k, i + 1, PlainAdvance(p, names, scripts, troubles, i))
  {
    PrefixMember(names, i, i);
    assert p.schema == PrefixOf(names, scripts, i);
    PrefixFull(names, scripts, i);
    assert names[k..i + 1] == names[k..i] + [names[i]];
    assert p.skipped == names[..k] && p.executed == names[k..i];
  }

  /**
   * A failed run resumes where it stopped: the next run skips exactly the files recorded, which are those before the
   * failing one, and that one too when its commit had been taken; it completes exactly when the rest has no trouble,
   * and then leaves every file recorded.
   */
  lemma FailedRunResumes(names: seq<string>, scripts: Scripts, k: nat, first: Troubles, second: Troubles)
    requires Distinct(names) && k <= |names| && PlainScripts(names, scripts)
    requires Process(PrefixOf(names, scripts, k), names, scripts, first, |names|).failed.Some?
    ensures var p := Process(PrefixOf(names, scripts, k), names, scripts, first, |names|);
            p.failed.value < |names| &&
            var g := LeftAt(names, scripts, first, p.failed.value);
            && p.schema == PrefixOf(names, scripts, g)
            && var q := Process(p.schema, names, scripts, second, |names|);
               && q.skipped == names[..g]
               && (q.failed.Some? ==> q.failed.value >= g)
               && (q.failed.None? <==> forall i :: g <= i < |names| ==> AllFine(scripts(names[i]), second(i)))
               && (q.failed.None? ==> q.executed == names[g..] && q.schema == PrefixOf(names, scripts, |names|))
  {
    hide Process, PrefixOf, AllFine, CommitTaken;
    PrefixGrows(names, scripts, first, k, |names|);
    var p := Process(PrefixOf(names, scripts, k), names, scripts, first, |names|);
    var g := LeftAt(names, scripts, first, p.failed.value);
    PrefixGrows(names, scripts, second, g, |names|);
    assert names[..|names|] == names;
  }

  // ── A run after a success ──────────────────────────────────────────────────

  lemma {:induction false} RecordedAfter(s: Schema, names: seq<string>, scripts: Scripts, troubles: Troubles, n: nat)
    requires n <= |names| && Process(s, names, scripts, troubles, n).failed.None?
    ensures forall i :: 0 <= i < n ==> names[i] in Process(s, names, scripts, troubles, n).schema.recorded
  {
    if n > 0 {
      RecordedAfter(s, names, scripts, troubles, n - 1);
      var p := Process(s, names, scripts, troubles, n - 1);
      FileKeepsRecorded(p.schema, names[n - 1], scripts(names[n - 1]), troubles(n - 1));
    }
  }

  lemma {:induction false} AllSkipped(s: Schema, names: seq<string>, scripts: Scripts, troubles: Troubles, n: nat)
    requires n <= |names| && forall i :: 0 <= i < n ==> names[i] in s.recorded
    ensures Process(s, names, scripts, troubles, n) == Progress(s, [], names[..n], None)
  {
    if n > 0 {
      AllSkipped(s, names, scripts, troubles, n - 1);
      assert names[..n] == names[..n - 1] + [names[n - 1]];
    }
  }

  /** A run after a success, from any schema, with any scripts and any trouble, executes nothing and skips all. */
  lemma RunAfterSuccessIsIdle(s: Schema, names: seq<string>, scripts: Scripts, first: Troubles, second: Troubles)
    requires Process(s, names, scripts, first, |names|).failed.None?
    ensures var done := Process(s, names, scripts, first, |names|).schema;
            Process(done, names, scripts, second, |names|) == Progress(done, [], names, None)
  {
    RecordedAfter(s, names, scripts, first, |names|);
    AllSkipped(Process(s, names, scripts, first, |names|).schema, names, scripts, second, |names|);
    assert names[..|names|] == names;
  }
}
