/** Running tenant migrations (src/database/tenant-migration-runner.service.ts). */
module TenantMigrations {
  import opened Wrappers

  /**
   * A command of a migration's `up`: a change of the schema, or the end of the runner's transaction, by a call of the
   * query runner or by a statement of its own.
   */
  datatype Command = Change(what: string) | End(commit: bool, viaRunner: bool)

  type Script = seq<Command>

  /** The statements of one file: begin, set the path and load the class, the script, record the name, commit. */
  datatype Statement = Start | Load | Run(command: Command) | Record(name: string) | Finish

  /** How a statement goes: fine, or an error before or after it took effect. */
  datatype Trouble = Fine | Before | After

  /** A tenant schema: the changes it holds and the names its `migrations` table holds, in order. */
  datatype Schema = Schema(changes: seq<string>, recorded: seq<string>)

  /** The server's committed and working state, and the flag by which the query runner knows of a transaction. */
  datatype Conn = Conn(committed: Schema, working: Option<Schema>, active: bool)

  /** The pooled connection: its `search_path` and whether it is back in the pool. */
  datatype Connection = Connection(searchPath: string, released: bool)

  datatype RunResult = RunResult(executed: seq<string>, skipped: seq<string>, errors: seq<string>)

  datatype RunError = BadName | Setup | Migration(file: nat)

  datatype Summary = Summary(total: nat, succeeded: nat, failed: nat)

  // ── Names ──────────────────────────────────────────────────────────────────

  /** `file.replace(/\.(ts|js)$/, '')`. */
  function NameOf(file: string): string {
    var n := |file| - 3;
    if n >= 0 && (file[n..] == ".ts" || file[n..] == ".js") then file[..n] else file
  }

  function NamesOf(files: seq<string>): (names: seq<string>)
    ensures |names| == |files|
    ensures forall i :: 0 <= i < |names| ==> names[i] == NameOf(files[i])
  {
    seq(|files|, i requires 0 <= i < |files| => NameOf(files[i]))
  }

  ghost predicate Distinct(s: seq<string>) {
    forall i, j :: 0 <= i < j < |s| ==> s[i] != s[j]
  }

  /** One directory listing holds files of one suffix, so distinct files have distinct names. */
  lemma NamesDistinct(files: seq<string>, suffix: string)
    requires suffix == ".ts" || suffix == ".js"
    requires Distinct(files) && forall i :: 0 <= i < |files| ==> |files[i]| >= 3 && files[i][|files[i]| - 3..] == suffix
    ensures Distinct(NamesOf(files))
  {
    forall i, j | 0 <= i < j < |files|
      ensures NameOf(files[i]) != NameOf(files[j])
    {
      assert files[i] == files[i][..|files[i]| - 3] + suffix;
      assert files[j] == files[j][..|files[j]| - 3] + suffix;
    }
  }

  predicate NameChar(c: char) {
    'a' <= c <= 'z' || '0' <= c <= '9'
  }

  const PREFIX := "tenant_"

  /** `/^tenant_[a-z0-9_]+_[a-z0-9]+$/` or the public schema. */
  predicate ValidSchemaName(name: string) {
    name == "public"
    || (|name| > 7 && name[..7] == PREFIX
        && (forall i :: 7 <= i < |name| ==> NameChar(name[i]) || name[i] == '_')
        && (exists k :: 8 <= k < |name| - 1 && name[k] == '_' && forall i :: k < i < |name| ==> NameChar(name[i])))
  }

  ghost predicate Made(s: string, more: set<char>) {
    s != "" && forall i :: 0 <= i < |s| ==> 'a' <= s[i] <= 'z' || '0' <= s[i] <= '9' || s[i] in more
  }

  lemma MadeName(name: string, a: string, b: string)
    requires name == "tenant_" + a + "_" + b && Made(a, {'_'}) && Made(b, {})
    ensures ValidSchemaName(name)
  {
    var k := 7 + |a|;
    assert |"tenant_"| == 7 && name == "tenant_" + (a + "_" + b);
    assert name[..7] == "tenant_" && name[k] == '_';
    assert forall i :: 7 <= i < k ==> name[i] == a[i - 7];
    assert forall i :: k < i < |name| ==> name[i] == b[i - k - 1];
    assert forall i :: k < i < |name| ==> NameChar(name[i]);
  }

  lemma NameParts(name: string) returns (a: string, b: string)
    requires ValidSchemaName(name) && name != "public"
    ensures name == "tenant_" + a + "_" + b && Made(a, {'_'}) && Made(b, {})
  {
    var k :| 8 <= k < |name| - 1 && name[k] == '_' && forall i :: k < i < |name| ==> NameChar(name[i]);
    a, b := name[7..k], name[k + 1..];
    assert name == name[..7] + name[7..k] + [name[k]] + name[k + 1..];
    assert forall i :: 0 <= i < |a| ==> a[i] == name[i + 7];
    assert forall i :: 0 <= i < |b| ==> b[i] == name[i + k + 1];
  }

  /**
   * The names that are run: the public one, and those made of the prefix, letters, digits or underscores, an underscore,
   * and letters or digits.
   */
  lemma SchemaNameExactly(name: string)
    ensures ValidSchemaName(name) <==>
            name == "public"
            || exists a, b :: name == "tenant_" + a + "_" + b && Made(a, {'_'}) && Made(b, {})
  {
    if name != "public" && ValidSchemaName(name) {
      var a, b := NameParts(name);
    }
    hide ValidSchemaName, Made;
    if a, b :| name == "tenant_" + a + "_" + b && Made(a, {'_'}) && Made(b, {}) {
      MadeName(name, a, b);
    }
    if name == "public" {
      PublicIsRun();
    }
  }

  lemma PublicIsRun()
    ensures ValidSchemaName("public")
  {
  }

  // ── Statements on a connection ─────────────────────────────────────────────

  function Current(c: Conn): Schema {
    if c.working.Some? then c.working.value else c.committed
  }

  /** Outside a transaction a write is committed at once. */
  function Write(c: Conn, s: Schema): Conn {
    if c.working.Some? then c.(working := Some(s)) else c.(committed := s)
  }

  /** COMMIT or ROLLBACK; without an open transaction the server only warns. */
  function EndTransaction(c: Conn, commit: bool, viaRunner: bool): Conn {
    Conn(if commit then Current(c) else c.committed, None, c.active && !viaRunner)
  }

  /** The effect of a statement; None when the query runner throws because it knows of no transaction. */
  function Take(c: Conn, s: Statement): Option<Conn> {
    match s
    case Start => Some(Conn(c.committed, Some(c.committed), true))
    case Load => Some(c)
    case Run(Change(what)) => Some(Write(c, Current(c).(changes := Current(c).changes + [what])))
    case Run(End(commit, viaRunner)) =>
      if viaRunner && !c.active then None else Some(EndTransaction(c, commit, viaRunner))
    case Record(name) => Some(Write(c, Current(c).(recorded := Current(c).recorded + [name])))
    case Finish => if !c.active then None else Some(EndTransaction(c, true, true))
  }

  function Statements(name: string, script: Script): (r: seq<Statement>)
    ensures |r| == |script| + 4
    ensures r[0] == Start && r[1] == Load && r[|script| + 2] == Record(name) && r[|script| + 3] == Finish
    ensures forall i :: 0 <= i < |script| ==> r[i + 2] == Run(script[i])
  {
    [Start, Load] + seq(|script|, i requires 0 <= i < |script| => Run(script[i])) + [Record(name), Finish]
  }

  /** A point inside a file. */
  datatype Point = Point(conn: Conn, threw: bool)

  /** One more statement; after an error none follows. */
  function Go(p: Point, s: Statement, trouble: Trouble): Point {
    if p.threw then p
    else if trouble == Before then Point(p.conn, true)
    else
      var c := Take(p.conn, s);
      if c.None? then Point(p.conn, true) else Point(c.value, trouble == After)
  }

  /** What statement `j` makes of a point. */
  type Stepper = (Point, nat) -> Point

  function StepperOf(stmts: seq<Statement>, troubles: nat -> Trouble): Stepper {
    (p: Point, j: nat) => if j < |stmts| then Go(p, stmts[j], troubles(j)) else p
  }

  ghost predicate IsStepper(step: Stepper, stmts: seq<Statement>, troubles: nat -> Trouble) {
    forall p: Point, j: nat {:trigger Go(p, stmts[j], troubles(j))} ::
      j < |stmts| ==> step(p, j) == Go(p, stmts[j], troubles(j))
  }

  /** The point after `j` steps. */
  function Iterate(step: Stepper, p: Point, j: nat): Point {
    if j == 0 then p else step(Iterate(step, p, j - 1), j - 1)
  }

  lemma NextPoint(step: Stepper, stmts: seq<Statement>, troubles: nat -> Trouble, p: Point, j: nat)
    requires IsStepper(step, stmts, troubles) && j < |stmts|
    ensures Iterate(step, p, j + 1) == Go(Iterate(step, p, j), stmts[j], troubles(j))
  {
    var q := Iterate(step, p, j);
    assert step(q, j) == Go(q, stmts[j], troubles(j));
  }

  function Idle(s: Schema): Conn {
    Conn(s, None, false)
  }

  /** The point a file begins at. */
  function Begun(s: Schema): Point {
    Point(Idle(s), false)
  }

  /** The point a file ends at. */
  function FileEnd(s: Schema, name: string, script: Script, troubles: nat -> Trouble): Point {
    Iterate(StepperOf(Statements(name, script), troubles), Begun(s), |script| + 4)
  }

  // ── A run as a function ────────────────────────────────────────────────────

  type Scripts = string -> Script

  /** The errors of a run, by file and statement. */
  type Troubles = nat -> nat -> Trouble

  /** After the first `n` files; `failed` is the file that threw. */
  datatype Progress = Progress(schema: Schema, executed: seq<string>, skipped: seq<string>, failed: Option<nat>)

  /** File `i`, if the run is still going. */
  function Advance(p: Progress, names: seq<string>, scripts: Scripts, troubles: Troubles, i: nat): Progress
    requires i < |names|
  {
    if p.failed.Some? then p
    else if names[i] in p.schema.recorded then p.(skipped := p.skipped + [names[i]])
    else
      var end := FileEnd(p.schema, names[i], scripts(names[i]), troubles(i));
      if end.threw then p.(schema := end.conn.committed, failed := Some(i))
      else p.(schema := end.conn.committed, executed := p.executed + [names[i]])
  }

  /** A run over the first `n` names from the schema `s`. */
  function Process(s: Schema, names: seq<string>, scripts: Scripts, troubles: Troubles, n: nat): Progress
    requires n <= |names|
  {
    if n == 0 then Progress(s, [], [], None)
    else Advance(Process(s, names, scripts, troubles, n - 1), names, scripts, troubles, n - 1)
  }

  lemma {:induction false} FailureStands(s: Schema, names: seq<string>, scripts: Scripts, troubles: Troubles, k: nat,
                                         n: nat)
    requires k <= n <= |names| && Process(s, names, scripts, troubles, k).failed.Some?
    ensures Process(s, names, scripts, troubles, n) == Process(s, names, scripts, troubles, k)
    decreases n
  {
    if k < n {
      FailureStands(s, names, scripts, troubles, k, n - 1);
    }
  }

  /** The schema after a run, if there is one for it that gets past its setup. */
  function AfterRun(s: Schema, schemaName: string, runs: bool, files: seq<string>, scripts: Scripts, troubles: Troubles)
    : Schema
  {
    if runs && ValidSchemaName(schemaName) then Process(s, NamesOf(files), scripts, troubles, |files|).schema else s
  }

  /** The errors of a batch of runs, by schema. */
  type TenantTroubles = string -> nat -> nat -> Trouble

  /** The run of the schema gets past its setup and no file of it throws. */
  predicate Succeeds(schemas: map<string, Schema>, name: string, setupFails: bool, files: seq<string>, scripts: Scripts,
                     troubles: Troubles)
  {
    && name in schemas && ValidSchemaName(name) && !setupFails
    && Process(schemas[name], NamesOf(files), scripts, troubles, |files|).failed.None?
  }

  /** How many of the schemas have a run that succeeds. */
  function Successes(schemas: map<string, Schema>, names: seq<string>, setupFails: string -> bool, files: seq<string>,
                     scripts: Scripts, troubles: TenantTroubles): nat
  {
    if names == [] then 0
    else
      var init, s := names[..|names| - 1], names[|names| - 1];
      Successes(schemas, init, setupFails, files, scripts, troubles)
      + (if Succeeds(schemas, s, setupFails(s), files, scripts, troubles(s)) then 1 else 0)
  }

  class TenantMigrationRunnerService {
    var schemas: map<string, Schema>
    var connection: Connection

    constructor (schemas: map<string, Schema>)
      ensures this.schemas == schemas && connection == Connection("public", true)
    {
      this.schemas := schemas;
      connection := Connection("public", true);
    }

    /** `getAllTenantSchemas` gives the schemas with the prefix; the pattern check is stricter. */
    predicate Runnable(name: string, setupFails: bool)
      reads this
    {
      ValidSchemaName(name) && name in schemas && !setupFails
    }

    /** One file: its statements in order, and the rollback of the `catch` block while the runner knows a transaction. */
    method ExecuteFile(schemaName: string, name: string, script: Script, troubles: nat -> Trouble) returns (ok: bool)
      requires schemaName in schemas
      modifies this`schemas
      ensures var end := FileEnd(old(schemas)[schemaName], name, script, troubles);
              ok == !end.threw && schemas == old(schemas)[schemaName := end.conn.committed]
    {
      var stmts := Statements(name, script);
      var conn := Idle(schemas[schemaName]);
      ghost var start, step := Point(conn, false), StepperOf(stmts, troubles);
      ok := true;
      for j := 0 to |stmts|
        invariant Iterate(step, start, j) == Point(conn, !ok)
        invariant schemas == old(schemas)[schemaName := conn.committed]
      {
        if ok {
          if troubles(j) == Before {
            ok := false;
          } else {
            var next := Take(conn, stmts[j]);
            if next.None? {
              ok := false;
            } else {
              conn := next.value;
              schemas := schemas[schemaName := conn.committed];
              ok := troubles(j) != After;
            }
          }
        }
      }
      if !ok && conn.active {
        conn := EndTransaction(conn, false, true);
      }
    }

    /**
     * `runMigrations`. `setupFails`: the search path, the `migrations` table or the read of it fails. `resetFails`: the
     * final reset of the search path fails, which is swallowed.
     */
    method RunMigrations(schemaName: string, files: seq<string>, scripts: Scripts, troubles: Troubles, setupFails: bool,
                         resetFails: bool) returns (r: Result<RunResult, RunError>)
      requires connection.released
      modifies this
      ensures connection.released
      ensures !resetFails && ValidSchemaName(schemaName) ==> connection.searchPath == "public"
      ensures if !old(Runnable(schemaName, setupFails))
              then r.Err? && schemas == old(schemas)
              else
                var p := Process(old(schemas)[schemaName], NamesOf(files), scripts, troubles, |files|);
                && schemas == old(schemas)[schemaName := p.schema]
                && r == (if p.failed.Some? then Err(Migration(p.failed.value))
                         else Ok(RunResult(p.executed, p.skipped, [])))
    {
      if !ValidSchemaName(schemaName) {
        return Err(BadName);
      }
      connection := Connection(schemaName, false);
      if setupFails || schemaName !in schemas {
        r := Err(Setup);
      } else {
        r := RunFiles(schemaName, files, scripts, troubles);
      }
      if !resetFails {
        connection := connection.(searchPath := "public");
      }
      connection := connection.(released := true);
    }

    /** The loop inside the `try` block. */
    method RunFiles(schemaName: string, files: seq<string>, scripts: Scripts, troubles: Troubles)
      returns (r: Result<RunResult, RunError>)
      requires schemaName in schemas
      modifies this`schemas
      ensures var p := Process(old(schemas)[schemaName], NamesOf(files), scripts, troubles, |files|);
              && schemas == old(schemas)[schemaName := p.schema]
              && r == (if p.failed.Some? then Err(Migration(p.failed.value)) else Ok(RunResult(p.executed, p.skipped, [])))
    {
      hide FileEnd, NamesOf;
      var names := NamesOf(files);
      var executedNames := set name | name in schemas[schemaName].recorded;
      ghost var before, start, now := schemas, schemas[schemaName], schemas[schemaName];
      var executed, skipped := [], [];
      for i := 0 to |files|
        invariant schemas == before[schemaName := now]
        invariant Process(start, names, scripts, troubles, i) == Progress(now, executed, skipped, None)
        invariant forall name :: name in executedNames <==> name in now.recorded
      {
        var name := names[i];
        if name in executedNames {
          skipped := skipped + [name];
          continue;
        }
        ghost var end := FileEnd(now, name, scripts(name), troubles(i));
        var ok := ExecuteFile(schemaName, name, scripts(name), troubles(i));
        FileKeepsRecorded(now, name, scripts(name), troubles(i));
        now := end.conn.committed;
        assert schemas == before[schemaName := now];
        if !ok {
          FailureStands(start, names, scripts, troubles, i + 1, |files|);
          return Err(Migration(i));
        }
        executed := executed + [name];
        executedNames := executedNames + {name};
      }
      return Ok(RunResult(executed, skipped, []));
    }

    /**
     * `runMigrationsForAllTenants`: every schema gets its own run whatever became of the others, and those counted as
     * succeeded are the ones whose run did.
     */
    method RunMigrationsForAllTenants(names: seq<string>, files: seq<string>, scripts: Scripts, troubles: TenantTroubles,
                                      setupFails: string -> bool, resetFails: string -> bool) returns (summary: Summary)
      requires connection.released && Distinct(names)
      modifies this
      ensures connection.released && schemas.Keys == old(schemas).Keys
      ensures summary.total == |names| == summary.succeeded + summary.failed
      ensures summary.succeeded == Successes(old(schemas), names, setupFails, files, scripts, troubles)
      ensures forall s :: s in old(schemas) ==>
        schemas[s] == AfterRun(old(schemas)[s], s, s in names && !setupFails(s), files, scripts, troubles(s))
    {
      summary := Summary(|names|, 0, 0);
      for i := 0 to |names|
        invariant connection.released && schemas.Keys == old(schemas).Keys
        invariant summary.total == |names| && summary.succeeded + summary.failed == i
        invariant summary.succeeded == Successes(old(schemas), names[..i], setupFails, files, scripts, troubles)
        invariant forall s :: s in old(schemas) ==>
          schemas[s] == AfterRun(old(schemas)[s], s, s in names[..i] && !setupFails(s), files, scripts, troubles(s))
      {
        var s := names[i];
        assert names[..i + 1] == names[..i] + [s] && s !in names[..i];
        assert names[..i + 1][..i] == names[..i];
        var result := RunMigrations(s, files, scripts, troubles(s), setupFails(s), resetFails(s));
        if result.Ok? && |result.value.errors| == 0 {
          summary := summary.(succeeded := summary.succeeded + 1);
        } else {
          summary := summary.(failed := summary.failed + 1);
        }
      }
      assert names[..|names|] == names;
    }
  }

  // ── What a file keeps ──────────────────────────────────────────────────────

  ghost predicate Holds(recorded: seq<string>, more: seq<string>) {
    forall x :: x in recorded ==> x in more
  }

  ghost predicate KeepsRecorded(s: Schema, name: string, script: Script, j: nat, p: Point) {
    && Holds(s.recorded, p.conn.committed.recorded) && Holds(s.recorded, Current(p.conn).recorded)
    && (forall x :: x in p.conn.committed.recorded || x in Current(p.conn).recorded ==> x in s.recorded || x == name)
    && (!p.threw && j > |script| + 2 ==> name in Current(p.conn).recorded)
    && (!p.threw && j == |script| + 4 ==> name in p.conn.committed.recorded)
  }

  lemma RecordedStep(s: Schema, name: string, script: Script, j: nat, p: Point, trouble: Trouble)
    requires j < |script| + 4 && KeepsRecorded(s, name, script, j, p)
    ensures KeepsRecorded(s, name, script, j + 1, Go(p, Statements(name, script)[j], trouble))
  {
    if 2 <= j < |script| + 2 {
      assert Statements(name, script)[j] == Run(script[j - 2]);
    }
  }

  lemma {:induction false} PointKeepsRecorded(s: Schema, name: string, script: Script, troubles: nat -> Trouble,
                                              step: Stepper, j: nat)
    requires j <= |script| + 4 && IsStepper(step, Statements(name, script), troubles)
    ensures KeepsRecorded(s, name, script, j, Iterate(step, Begun(s), j))
  {
    if j > 0 {
      PointKeepsRecorded(s, name, script, troubles, step, j - 1);
      RecordedStep(s, name, script, j - 1, Iterate(step, Begun(s), j - 1), troubles(j - 1));
      NextPoint(step, Statements(name, script), troubles, Begun(s), j - 1);
    }
  }

  /** A file records its own name and no other, and surely does when it does not throw. */
  lemma FileKeepsRecorded(s: Schema, name: string, script: Script, troubles: nat -> Trouble)
    ensures var end := FileEnd(s, name, script, troubles);
            && Holds(s.recorded, end.conn.committed.recorded)
            && (forall x :: x in end.conn.committed.recorded ==> x in s.recorded || x == name)
            && (!end.threw ==> name in end.conn.committed.recorded)
  {
    PointKeepsRecorded(s, name, script, troubles, StepperOf(Statements(name, script), troubles), |script| + 4);
  }
}
