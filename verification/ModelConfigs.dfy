/** Model overrides per provider (src/chat/model-config.service.ts). */
module ModelConfigs {
  import opened Wrappers
  import opened VersionLedger

  datatype ModelConfig = ModelConfig(id: nat, modelName: string, createdAt: int, isActive: bool)

  /** One provider's rows in the order of their creation, with distinct ids and creation times. */
  ghost predicate Ordered(rows: seq<ModelConfig>) {
    forall i, j :: 0 <= i < j < |rows| ==> rows[i].createdAt < rows[j].createdAt && rows[i].id != rows[j].id
  }

  function FlagsOf(rows: seq<ModelConfig>): (fs: Flags)
    ensures |fs| == |rows|
    ensures forall i :: 0 <= i < |fs| ==> fs[i] == rows[i].isActive
  {
    seq(|rows|, i requires 0 <= i < |rows| => rows[i].isActive)
  }

  // ── The statements ─────────────────────────────────────────────────────────

  /** Some active row: `LIMIT 1` without an order. */
  function AnActive(rows: seq<ModelConfig>): (r: Option<ModelConfig>)
    ensures r.Some? ==> r.value in rows && r.value.isActive
    ensures r.None? ==> forall c :: c in rows ==> !c.isActive
  {
    if rows == [] then None
    else
      assert rows == [rows[0]] + rows[1..];
      if rows[0].isActive then Some(rows[0]) else AnActive(rows[1..])
  }

  /** The inactive row other than `current` that was created last. */
  function LatestInactive(rows: seq<ModelConfig>, current: Option<ModelConfig>): (r: Option<ModelConfig>)
    ensures r.Some? ==> r.value in rows && Candidate(r.value, current)
    ensures r.Some? ==> forall c :: c in rows && Candidate(c, current) ==> c.createdAt <= r.value.createdAt
    ensures r.None? ==> forall c :: c in rows ==> !Candidate(c, current)
  {
    if rows == [] then None
    else
      var r, c := LatestInactive(rows[..|rows| - 1], current), rows[|rows| - 1];
      assert rows == rows[..|rows| - 1] + [c];
      if Candidate(c, current) && (r.None? || c.createdAt > r.value.createdAt) then Some(c) else r
  }

  predicate Candidate(c: ModelConfig, current: Option<ModelConfig>) {
    !c.isActive && (current.Some? ==> c.id != current.value.id)
  }

  /** `UPDATE … SET is_active = flag WHERE id = …`. */
  function SetActive(rows: seq<ModelConfig>, id: nat, flag: bool): (r: seq<ModelConfig>)
    ensures |r| == |rows|
    ensures forall i :: 0 <= i < |r| ==> r[i] == if rows[i].id == id then rows[i].(isActive := flag) else rows[i]
  {
    seq(|rows|, i requires 0 <= i < |rows| => if rows[i].id == id then rows[i].(isActive := flag) else rows[i])
  }

  function DeactivateAll(rows: seq<ModelConfig>): (r: seq<ModelConfig>)
    ensures |r| == |rows|
    ensures forall i :: 0 <= i < |r| ==> r[i] == rows[i].(isActive := false)
  {
    seq(|rows|, i requires 0 <= i < |rows| => rows[i].(isActive := false))
  }

  function RolledBack(rows: seq<ModelConfig>): Option<seq<ModelConfig>> {
    var current := AnActive(rows);
    var previous := LatestInactive(rows, current);
    if previous.None? then None
    else
      var cleared := if current.Some? then SetActive(rows, current.value.id, false) else rows;
      Some(SetActive(cleared, previous.value.id, true))
  }

  class ModelConfigService {
    var rows: seq<ModelConfig>

    constructor ()
      ensures rows == []
    {
      rows := [];
    }

    /** `setActiveModel`; the server gives the new row its id and the time of its transaction. */
    method SetActiveModel(modelName: string, id: nat, now: int) returns (r: ModelConfig)
      modifies this
      ensures r == ModelConfig(id, modelName, now, true)
      ensures rows == DeactivateAll(old(rows)) + [r]
      ensures forall i :: 0 <= i < |rows| ==> (rows[i].isActive <==> i == |rows| - 1)
      ensures forall i :: 0 <= i < |old(rows)| ==> rows[i].(isActive := old(rows)[i].isActive) == old(rows)[i]
    {
      rows := DeactivateAll(rows);
      r := ModelConfig(id, modelName, now, true);
      rows := rows + [r];
    }

    /** `rollback`: None is the not-found error. */
    method RollBack() returns (r: Option<ModelConfig>)
      modifies this
      ensures var after := RolledBack(old(rows));
              && (r.Some? <==> after.Some?)
              && rows == (if after.Some? then after.value else old(rows))
              && (r.Some? ==> r.value == LatestInactive(old(rows), AnActive(old(rows))).value.(isActive := true))
    {
      var current := AnActive(rows);
      var previous := LatestInactive(rows, current);
      if previous.None? {
        return None;
      }
      if current.Some? {
        rows := SetActive(rows, current.value.id, false);
      }
      rows := SetActive(rows, previous.value.id, true);
      return Some(previous.value.(isActive := true));
    }
  }

  // ── Refinement ─────────────────────────────────────────────────────────────

  /** Setting a model is the machine's publish. */
  lemma SetActiveRefines(rows: seq<ModelConfig>, c: ModelConfig)
    requires Ordered(rows) && c.isActive
    requires forall i :: 0 <= i < |rows| ==> rows[i].createdAt < c.createdAt && rows[i].id != c.id
    ensures var r := DeactivateAll(rows) + [c];
            Ordered(r) && Some(FlagsOf(r)) == After(FlagsOf(rows), Publish)
  {
    assert FlagsOf(DeactivateAll(rows) + [c]) == Only(|rows| + 1, |rows|);
  }

  lemma LatestInactiveIsLast(rows: seq<ModelConfig>)
    requires Ordered(rows)
    ensures var p, q := LatestInactive(rows, AnActive(rows)), LastInactive(FlagsOf(rows));
            && (p.Some? <==> q.Some?) && (p.Some? ==> p.value == rows[q.value])
  {
    var current := AnActive(rows);
    var p, q := LatestInactive(rows, current), LastInactive(FlagsOf(rows));
    forall i | 0 <= i < |rows| && !rows[i].isActive
      ensures Candidate(rows[i], current)
    {
      if current.Some? {
        var k :| 0 <= k < |rows| && rows[k] == current.value;
        assert k != i;
      }
    }
    if q.Some? {
      assert rows[q.value] in rows;
      var i :| 0 <= i < |rows| && rows[i] == p.value;
      assert i <= q.value;
    }
  }

  /** At most one row is active. */
  ghost predicate AtMostOne(fs: Flags) {
    forall i, j :: 0 <= i < j < |fs| ==> !(fs[i] && fs[j])
  }

  /**
   * Rolling back is the machine's rollback, though it clears only the row it took for the active one: that is enough
   * because at most one is.
   */
  lemma RollbackRefines(rows: seq<ModelConfig>)
    requires Ordered(rows) && AtMostOne(FlagsOf(rows))
    ensures var r := RolledBack(rows);
            && (r.None? <==> After(FlagsOf(rows), Rollback).None?)
            && (r.Some? ==> Ordered(r.value) && Some(FlagsOf(r.value)) == After(FlagsOf(rows), Rollback))
  {
    LatestInactiveIsLast(rows);
    var q := LastInactive(FlagsOf(rows));
    if q.Some? {
      ClearedFlags(rows, q.value);
    }
  }

  lemma ClearedFlags(rows: seq<ModelConfig>, q: nat)
    requires Ordered(rows) && AtMostOne(FlagsOf(rows)) && q < |rows| && !rows[q].isActive
    ensures var current := AnActive(rows);
            var cleared := if current.Some? then SetActive(rows, current.value.id, false) else rows;
            var r := SetActive(cleared, rows[q].id, true);
            Ordered(r) && FlagsOf(r) == Only(|rows|, q)
  {
    var current := AnActive(rows);
    var cleared := if current.Some? then SetActive(rows, current.value.id, false) else rows;
    forall i | 0 <= i < |rows|
      ensures !cleared[i].isActive && cleared[i].id == rows[i].id && cleared[i].createdAt == rows[i].createdAt
    {
      assert rows[i] in rows;
      if current.Some? {
        var k :| 0 <= k < |rows| && rows[k] == current.value;
        assert FlagsOf(rows)[k];
        if i != k {
          assert !(FlagsOf(rows)[if i < k then i else k] && FlagsOf(rows)[if i < k then k else i]);
        }
      }
    }
    var r := SetActive(cleared, rows[q].id, true);
    forall i | 0 <= i < |rows|
      ensures r[i].isActive == (i == q)
    {
      assert i < q ==> rows[i].id != rows[q].id;
      assert q < i ==> rows[q].id != rows[i].id;
    }
  }

  // ── Runs ───────────────────────────────────────────────────────────────────

  datatype Op = Set(config: ModelConfig) | RollbackOp

  function AfterOps(ops: seq<Op>): seq<ModelConfig> {
    if ops == [] then []
    else
      var before := AfterOps(ops[..|ops| - 1]);
      match ops[|ops| - 1]
      case Set(c) => DeactivateAll(before) + [c]
      case RollbackOp => if RolledBack(before).Some? then RolledBack(before).value else before
  }

  /** Each new row is active, created after those before it and with an id of its own. */
  ghost predicate Fresh(ops: seq<Op>) {
    ops != [] ==>
      && Fresh(ops[..|ops| - 1])
      && (ops[|ops| - 1].Set? ==>
            var before, c := AfterOps(ops[..|ops| - 1]), ops[|ops| - 1].config;
            c.isActive && forall i :: 0 <= i < |before| ==> before[i].createdAt < c.createdAt && before[i].id != c.id)
  }

  function StepsOf(ops: seq<Op>): seq<Step> {
    if ops == [] then []
    else StepsOf(ops[..|ops| - 1]) + [if ops[|ops| - 1].Set? then Publish else Rollback]
  }

  lemma LedgerHasOne(fs: Flags)
    requires Ledger(fs)
    ensures AtMostOne(fs)
  {
  }

  /** Every run of sets and rollbacks from no rows is a run of the machine, so at most one model is ever active. */
  lemma {:induction false} RunRefinesLedger(ops: seq<Op>)
    requires Fresh(ops)
    ensures Ordered(AfterOps(ops)) && FlagsOf(AfterOps(ops)) == Run([], StepsOf(ops))
    ensures Ledger(FlagsOf(AfterOps(ops))) && AtMostOne(FlagsOf(AfterOps(ops)))
  {
    RunKeepsLedger([], StepsOf(ops));
    if ops != [] {
      var prior := ops[..|ops| - 1];
      RunRefinesLedger(prior);
      assert StepsOf(ops)[..|prior|] == StepsOf(prior) by {
        StepsLength(prior);
      }
      StepsLength(ops);
      match ops[|ops| - 1]
      case Set(c) => SetActiveRefines(AfterOps(prior), c);
      case RollbackOp => RollbackRefines(AfterOps(prior));
    }
    LedgerHasOne(Run([], StepsOf(ops)));
  }

  lemma {:induction false} StepsLength(ops: seq<Op>)
    ensures |StepsOf(ops)| == |ops|
  {
    if ops != [] {
      StepsLength(ops[..|ops| - 1]);
    }
  }
}
