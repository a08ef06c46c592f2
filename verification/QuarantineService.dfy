/** Retrying quarantined records (src/etl/services/quarantine.service.ts, src/etl/services/etl.service.ts). */
module QuarantineService {
  import opened Wrappers
  import opened EtlTransform
  import opened EtlService

  datatype RetryError = NotFound | EtlFailed(error: EtlError) | FailedAgain

  /** The rows of `quarantine_records` with one of the ids, in table order. */
  function Found(records: seq<Stored>, ids: set<nat>): seq<Stored> {
    if records == [] then []
    else
      var n := |records| - 1;
      Found(records[..n], ids) + (if records[n].id in ids then [records[n]] else [])
  }

  /** The rows a `DELETE` of the ids leaves. */
  function Without(records: seq<Stored>, ids: set<nat>): seq<Stored> {
    if records == [] then []
    else
      var n := |records| - 1;
      Without(records[..n], ids) + (if records[n].id in ids then [] else [records[n]])
  }

  function Delete(s: Store, ids: set<nat>): Store {
    s.(quarantine := Without(s.quarantine, ids))
  }

  lemma {:induction false} WithoutHas(records: seq<Stored>, ids: set<nat>, r: Stored)
    ensures r in Without(records, ids) <==> r in records && r.id !in ids
  {
    if records != [] {
      var n := |records| - 1;
      WithoutHas(records[..n], ids, r);
      assert records == records[..n] + [records[n]];
    }
  }

  /** Reading and deleting pick record by record and keep the order. */
  lemma PickedInOrder(a: seq<Stored>, b: seq<Stored>, ids: set<nat>)
    ensures Found(a + b, ids) == Found(a, ids) + Found(b, ids)
    ensures Without(a + b, ids) == Without(a, ids) + Without(b, ids)
  {
    hide Found, Without;
    FoundInOrder(a, b, ids);
    WithoutInOrder(a, b, ids);
  }

  lemma {:induction false} FoundInOrder(a: seq<Stored>, b: seq<Stored>, ids: set<nat>)
    ensures Found(a + b, ids) == Found(a, ids) + Found(b, ids)
    decreases |b|
  {
    if b == [] {
      assert a + b == a;
    } else {
      FoundInOrder(a, b[..|b| - 1], ids);
      assert (a + b)[..|a + b| - 1] == a + b[..|b| - 1];
    }
  }

  lemma {:induction false} WithoutInOrder(a: seq<Stored>, b: seq<Stored>, ids: set<nat>)
    ensures Without(a + b, ids) == Without(a, ids) + Without(b, ids)
    decreases |b|
  {
    if b == [] {
      assert a + b == a;
    } else {
      WithoutInOrder(a, b[..|b| - 1], ids);
      assert (a + b)[..|a + b| - 1] == a + b[..|b| - 1];
    }
  }

  lemma PickedOne(r: Stored, ids: set<nat>)
    ensures Found([r], ids) == if r.id in ids then [r] else []
    ensures Without([r], ids) == if r.id in ids then [] else [r]
  {
    assert [r][..0] == [];
  }

  function IdsOf(records: seq<Stored>): set<nat> {
    set r | r in records :: r.id
  }

  // ── Groups ─────────────────────────────────────────────────────────────────

  /** The records of one source, in order. */
  function OfSource(records: seq<Stored>, source: string): seq<Stored> {
    if records == [] then []
    else
      var n := |records| - 1;
      OfSource(records[..n], source) + (if records[n].record.sourceType == source then [records[n]] else [])
  }

  /** The sources in the order of their first record. */
  function Sources(records: seq<Stored>): seq<string> {
    if records == [] then []
    else
      var init, s := Sources(records[..|records| - 1]), records[|records| - 1].record.sourceType;
      if s in init then init else init + [s]
  }

  lemma {:induction false} OfSourceHas(records: seq<Stored>, source: string, r: Stored)
    ensures r in OfSource(records, source) <==> r in records && r.record.sourceType == source
  {
    if records != [] {
      var n := |records| - 1;
      OfSourceHas(records[..n], source, r);
      assert records == records[..n] + [records[n]];
    }
  }

  /** A group keeps the order of its records. */
  lemma {:induction false} GroupInOrder(a: seq<Stored>, b: seq<Stored>, source: string)
    ensures OfSource(a + b, source) == OfSource(a, source) + OfSource(b, source)
    decreases |b|
  {
    if b == [] {
      assert a + b == a;
    } else {
      GroupInOrder(a, b[..|b| - 1], source);
      assert (a + b)[..|a + b| - 1] == a + b[..|b| - 1];
    }
  }

  lemma GroupOfOne(r: Stored, source: string)
    ensures OfSource([r], source) == if r.record.sourceType == source then [r] else []
  {
    assert [r][..0] == [];
  }

  /** The groups come in the order of their first records. */
  lemma {:induction false} SourcesInOrder(records: seq<Stored>, i: nat, j: nat) returns (p: nat)
    requires i < j < |Sources(records)|
    ensures p < |records| && records[p].record.sourceType == Sources(records)[i]
    ensures forall q :: 0 <= q < p ==> records[q].record.sourceType != Sources(records)[j]
  {
    var n := |records| - 1;
    var init := records[..n];
    if j < |Sources(init)| {
      p := SourcesInOrder(init, i, j);
    } else {
      SourcesHas(init, Sources(records)[i]);
      SourcesHas(init, Sources(records)[j]);
      assert Sources(init)[i] in Sources(init);
      var r :| r in init && r.record.sourceType == Sources(records)[i];
      p :| 0 <= p < n && init[p] == r;
      forall q | 0 <= q < p
        ensures records[q].record.sourceType != Sources(records)[j]
      {
        assert init[q] in init;
      }
    }
  }

  lemma {:induction false} SourcesHas(records: seq<Stored>, source: string)
    ensures source in Sources(records) <==> exists r :: r in records && r.record.sourceType == source
    ensures forall i, j :: 0 <= i < j < |Sources(records)| ==> Sources(records)[i] != Sources(records)[j]
  {
    if records != [] {
      var n := |records| - 1;
      SourcesHas(records[..n], source);
      assert records == records[..n] + [records[n]];
      if source in Sources(records[..n]) {
        var r :| r in records[..n] && r.record.sourceType == source;
        assert r in records;
      }
      assert records[n] in records;
    }
  }

  /** Every record is in the group of exactly one of the sources. */
  lemma GroupsPartition(records: seq<Stored>, r: Stored)
    requires r in records
    ensures r.record.sourceType in Sources(records)
    ensures forall s :: s in Sources(records) ==> (r in OfSource(records, s) <==> s == r.record.sourceType)
  {
    SourcesHas(records, r.record.sourceType);
    forall s | s in Sources(records)
      ensures r in OfSource(records, s) <==> s == r.record.sourceType
    {
      OfSourceHas(records, s, r);
    }
  }

  function RawRows(group: seq<Stored>): (rows: seq<Raw>)
    ensures |rows| == |group|
    ensures forall i :: 0 <= i < |rows| ==> rows[i] == group[i].record.rawData
  {
    seq(|group|, i requires 0 <= i < |group| => group[i].record.rawData)
  }

  // ── What the server answers ────────────────────────────────────────────────

  /** The transformer's environment and the server's failures, attempt by attempt, in one ETL run. */
  datatype Server = Server(envs: nat -> Env, faults: nat -> bool)

  /** The tables and the result after one ETL run with its retries. */
  function RunEtl(s: Store, rows: seq<Raw>, source: string, server: Server): Option<(Store, SyncResult)> {
    var first := FirstGood(rows, source, server.envs, server.faults);
    if first.None? then None
    else Some((Applied(s, rows, source, server.envs(first.value)), ResultOf(rows, source, server.envs(first.value))))
  }

  /** One group of a batch retry: the ETL run, then the delete if every row of the group was synced. */
  function RunGroup(s: Store, group: seq<Stored>, source: string, server: Server): Option<(Store, SyncResult)> {
    var run := RunEtl(s, RawRows(group), source, server);
    if run.None? then None
    else if run.value.1.synced == |group| then Some((Delete(run.value.0, IdsOf(group)), run.value.1))
    else run
  }

  /**
   * A group's records are deleted exactly when the transformer accepts every one of its rows. Otherwise all of them
   * stay, also those whose rows were synced, and every rejected row gets a second record, no more.
   */
  lemma GroupDeletedExactly(s: Store, group: seq<Stored>, source: string, server: Server)
    requires RunGroup(s, group, source, server).Some?
    ensures var env := server.envs(FirstGood(RawRows(group), source, server.envs, server.faults).value);
            var after := RunGroup(s, group, source, server).value.0;
            if AllAccepted(RawRows(group), env)
            then forall r :: r in after.quarantine <==> r in s.quarantine && r.id !in IdsOf(group)
            else s.quarantine <= after.quarantine
                 && |after.quarantine| == |s.quarantine| + Rejected(RawRows(group), env)
  {
    var rows := RawRows(group);
    var env := server.envs(FirstGood(rows, source, server.envs, server.faults).value);
    AcceptedMeansNoRecords(rows, source, env);
    RecordsOfRejected(rows, source, env);
    var applied := Applied(s, rows, source, env);
    forall r
      ensures r in Without(applied.quarantine, IdsOf(group)) <==> r in applied.quarantine && r.id !in IdsOf(group)
    {
      WithoutHas(applied.quarantine, IdsOf(group), r);
    }
  }

  ghost predicate AllAccepted(rows: seq<Raw>, env: Env) {
    forall i :: 0 <= i < |rows| ==> Accepts(rows[i], i, env)
  }

  lemma AcceptedMeansNoRecords(rows: seq<Raw>, source: string, env: Env)
    ensures |ValidOf(rows, source, env)| == |rows| <==> AllAccepted(rows, env)
    ensures QuarantineOf(rows, source, env) == [] <==> AllAccepted(rows, env)
  {
    var os := Outcomes(rows, CallbackOf(source, env));
    if rows != [] {
      PartitionAt(os, |rows|, 0);
    }
    forall i | 0 <= i < |rows|
      ensures os[i].Ok? <==> Accepts(rows[i], i, env)
    {
      OutcomeMeans(rows[i], i, source, env);
    }
    AllOkMeansNoRecords(os, |os|);
  }

  lemma {:induction false} AllOkMeansNoRecords(os: seq<Result<Invoice, Record>>, count: nat)
    requires count <= |os|
    ensures Records(os, count) == [] <==> forall i :: 0 <= i < count ==> os[i].Ok?
  {
    if count > 0 {
      AllOkMeansNoRecords(os, count - 1);
    }
  }

  /** What the loop body does to the tables for group `g`, and how many rows it synced; None if the ETL run fails. */
  type GroupStep = (Store, nat) -> Option<(Store, nat)>

  function GroupAt(s: Store, records: seq<Stored>, source: string, server: Server): Option<(Store, nat)> {
    var run := RunGroup(s, OfSource(records, source), source, server);
    if run.None? then None else Some((run.value.0, run.value.1.synced))
  }

  function StepOf(records: seq<Stored>, servers: nat -> Server): GroupStep {
    (s: Store, g: nat) => if g >= |Sources(records)| then None else GroupAt(s, records, Sources(records)[g], servers(g))
  }

  ghost predicate IsStep(step: GroupStep, records: seq<Stored>, servers: nat -> Server) {
    forall s: Store, g: nat {:trigger GroupAt(s, records, Sources(records)[g], servers(g))} ::
      g < |Sources(records)| ==> step(s, g) == GroupAt(s, records, Sources(records)[g], servers(g))
  }

  datatype Progress = Progress(store: Store, succeeded: nat, failed: bool)

  /** After the first `n` groups; a failed ETL run ends the batch where it stands. */
  function RunGroups(s: Store, step: GroupStep, n: nat): Progress {
    if n == 0 then Progress(s, 0, false)
    else
      var p := RunGroups(s, step, n - 1);
      if p.failed then p
      else
        var run := step(p.store, n - 1);
        if run.None? then p.(failed := true) else Progress(run.value.0, p.succeeded + run.value.1, false)
  }

  lemma {:induction false} FailureEndsBatch(s: Store, step: GroupStep, k: nat, n: nat)
    requires k <= n && RunGroups(s, step, k).failed
    ensures RunGroups(s, step, n) == RunGroups(s, step, k)
    decreases n
  {
    if k < n {
      FailureEndsBatch(s, step, k, n - 1);
    }
  }

  class QuarantineService {
    const etl: EtlService

    constructor (etl: EtlService)
      ensures this.etl == etl
    {
      this.etl := etl;
    }

    method RunInvoiceEtl(rows: seq<Raw>, source: string, server: Server) returns (r: Result<SyncResult, EtlError>)
      modifies etl
      ensures var run := RunEtl(old(etl.store), rows, source, server);
              && (r.Ok? <==> run.Some?)
              && etl.store == (if run.Some? then run.value.0 else old(etl.store))
              && (r.Ok? ==> r.value == run.value.1)
    {
      r := etl.ExecuteBatchWithRetry(rows, source, server.envs, server.faults);
    }

    /**
     * `retryRecord`: unless the ETL run itself fails, the old record is deleted whether the corrected row was synced or
     * quarantined anew; the caller is told which.
     */
    method RetryRecord(recordId: nat, fixedData: Raw, server: Server) returns (r: Result<(), RetryError>)
      modifies etl
      ensures var found := Found(old(etl.store).quarantine, {recordId});
              if found == [] then r == Err(NotFound) && etl.store == old(etl.store)
              else
                var run := RunEtl(old(etl.store), [fixedData], found[0].record.sourceType, server);
                if run.None? then r.Err? && r.error.EtlFailed? && etl.store == old(etl.store)
                else etl.store == Delete(run.value.0, {recordId})
                     && r == (if run.value.1.synced > 0 then Ok(()) else Err(FailedAgain))
    {
      var found := Found(etl.store.quarantine, {recordId});
      if |found| == 0 {
        return Err(NotFound);
      }
      var result := RunInvoiceEtl([fixedData], found[0].record.sourceType, server);
      if result.Err? {
        return Err(EtlFailed(result.error));
      }
      if result.value.synced > 0 {
        etl.store := Delete(etl.store, {recordId});
        return Ok(());
      } else {
        etl.store := Delete(etl.store, {recordId});
        return Err(FailedAgain);
      }
    }

    /** `retryQuarantineRecord` of the ETL service, for an invoice record: the old record goes only if nothing was quarantined. */
    method RetryQuarantineRecord(recordId: nat, fixedData: Raw, server: Server) returns (r: Result<(), RetryError>)
      modifies etl
      ensures var found := Found(old(etl.store).quarantine, {recordId});
              if found == [] then r == Err(NotFound) && etl.store == old(etl.store)
              else
                var run := RunEtl(old(etl.store), [fixedData], found[0].record.sourceType, server);
                if run.None? then r.Err? && r.error.EtlFailed? && etl.store == old(etl.store)
                else if run.value.1.quarantined > 0 then r == Err(FailedAgain) && etl.store == run.value.0
                else r == Ok(()) && etl.store == Delete(run.value.0, {recordId})
    {
      var found := Found(etl.store.quarantine, {recordId});
      if |found| == 0 {
        return Err(NotFound);
      }
      var result := RunInvoiceEtl([fixedData], found[0].record.sourceType, server);
      if result.Err? {
        return Err(EtlFailed(result.error));
      }
      if result.value.quarantined > 0 {
        return Err(FailedAgain);
      }
      etl.store := Delete(etl.store, {recordId});
      return Ok(());
    }

    /** One round of the loop of `retryBatch`. */
    method RetryGroup(records: seq<Stored>, g: nat, servers: nat -> Server, ghost step: GroupStep)
      returns (r: Result<nat, EtlError>)
      requires g < |Sources(records)| && IsStep(step, records, servers)
      modifies etl
      ensures var run := step(old(etl.store), g);
              && (r.Ok? <==> run.Some?)
              && (if run.Some? then etl.store == run.value.0 && r.value == run.value.1 else etl.store == old(etl.store))
    {
      var source := Sources(records)[g];
      var group := OfSource(records, source);
      ghost var run := GroupAt(etl.store, records, Sources(records)[g], servers(g));
      var result := RunInvoiceEtl(RawRows(group), source, servers(g));
      if result.Err? {
        return Err(result.error);
      }
      if result.value.synced == |group| {
        etl.store := Delete(etl.store, IdsOf(group));
      }
      return Ok(result.value.synced);
    }

    method RetryGroups(records: seq<Stored>, servers: nat -> Server, ghost step: GroupStep)
      returns (r: Result<nat, EtlError>)
      requires IsStep(step, records, servers)
      modifies etl
      ensures var p := RunGroups(old(etl.store), step, |Sources(records)|);
              etl.store == p.store && (r.Ok? <==> !p.failed) && (r.Ok? ==> r.value == p.succeeded)
    {
      ghost var start := etl.store;
      var groups, succeeded := |Sources(records)|, 0;
      for g := 0 to groups
        invariant RunGroups(start, step, g) == Progress(etl.store, succeeded, false)
      {
        var result := RetryGroup(records, g, servers, step);
        if result.Err? {
          FailureEndsBatch(start, step, g + 1, groups);
          return Err(result.error);
        }
        succeeded := succeeded + result.value;
      }
      return Ok(succeeded);
    }

    /** `retryBatch`: the groups one after the other, until one ETL run fails. */
    method RetryBatch(ids: set<nat>, servers: nat -> Server) returns (r: Result<(nat, nat), RetryError>)
      modifies etl
      ensures var records := Found(old(etl.store).quarantine, ids);
              var p := RunGroups(old(etl.store), StepOf(records, servers), |Sources(records)|);
              && etl.store == p.store
              && (r.Ok? <==> !p.failed)
              && (r.Ok? ==> r.value == (|records|, p.succeeded))
    {
      var records := Found(etl.store.quarantine, ids);
      var result := RetryGroups(records, servers, StepOf(records, servers));
      if result.Err? {
        return Err(EtlFailed(result.error));
      }
      return Ok((|records|, result.value));
    }
  }
}
