/**
 * Ingests, single retries and batch retries of one tenant, interleaved in any order and stopping anywhere
 * (src/etl/services/quarantine.service.ts, src/etl/services/etl.service.ts).
 */
module QuarantineLineage {
  import opened Wrappers
  import BulkUpsert
  import opened EtlTransform
  import opened EtlService
  import opened QuarantineService

  /** When a retry deletes the records it read: `retryRecord`, `retryBatch`, `retryQuarantineRecord`. */
  datatype Policy = Always | IfAllSynced | IfNoneQuarantined

  /** One ETL run of a retry: the records it read, and a row for each of them. */
  datatype Group = Group(records: seq<Stored>, rows: seq<Raw>, policy: Policy)

  /** A running retry: the groups still to do, and the ids its committed ETL run entitles it to delete. */
  datatype Job = Job(todo: seq<Group>, doomed: set<nat>)

  /**
   * The tables and the running retries, and beside them: the row each record descends from, the external id each row
   * was synced under, and the texts submitted for each row, by its ingest and by later retries. Rows are numbered in
   * the order of their ingest.
   */
  datatype World = World(
    store: Store, jobs: map<nat, Job>, ingested: nat, originOf: map<nat, nat>, synced: map<nat, string>,
    submitted: map<nat, set<Raw>>)

  /** A batch runs some row transformer, `CallbackOf(source, env)` for the source and environment of that run. */
  datatype Step =
    | Ingest(data: seq<Raw>, callback: Callback)
    | Begin(job: nat, groups: seq<Group>)
    | Commit(job: nat, callback: Callback)
    | DeleteRecords(job: nat)

  predicate Deletes(policy: Policy, valid: nat, quarantined: nat, size: nat) {
    match policy
    case Always => true
    case IfAllSynced => valid == size
    case IfNoneQuarantined => quarantined == 0
  }

  // ── Lineage through one batch ──────────────────────────────────────────────

  type Outcome = Result<Invoice, Record>

  function SyncedAfter(synced: map<nat, string>, os: seq<Outcome>, origins: seq<nat>, count: nat): map<nat, string>
    requires count <= |os| == |origins|
  {
    if count == 0 then synced
    else
      var m := SyncedAfter(synced, os, origins, count - 1);
      if os[count - 1].Ok? then m[origins[count - 1] := os[count - 1].value.externalId] else m
  }

  /** The records of the batch get consecutive ids from `firstId` on. */
  function OriginsAfter(originOf: map<nat, nat>, os: seq<Outcome>, origins: seq<nat>, firstId: nat, count: nat)
    : map<nat, nat>
    requires count <= |os| == |origins|
  {
    if count == 0 then originOf
    else
      var m := OriginsAfter(originOf, os, origins, firstId, count - 1);
      if os[count - 1].Err? then m[firstId + |Records(os, count - 1)| := origins[count - 1]] else m
  }

  /** A committed batch with the outcomes `os` of its rows, row `k` descending from `origins[k]`. */
  function AfterBatch(w: World, os: seq<Outcome>, origins: seq<nat>): World
    requires |origins| == |os|
  {
    w.(store := Apply(w.store, Invoices(os, |os|), Records(os, |os|)),
       synced := SyncedAfter(w.synced, os, origins, |os|),
       originOf := OriginsAfter(w.originOf, os, origins, w.store.nextId, |os|))
  }

  /** What was submitted for each row, once the batch submitted `rows[k]` for `origins[k]`. */
  function SubmittedAfter(submitted: map<nat, set<Raw>>, rows: seq<Raw>, origins: seq<nat>, count: nat)
    : map<nat, set<Raw>>
    requires count <= |rows| == |origins|
  {
    if count == 0 then submitted
    else
      var m, o := SubmittedAfter(submitted, rows, origins, count - 1), origins[count - 1];
      m[o := (if o in m then m[o] else {}) + {rows[count - 1]}]
  }

  /** A rejected row is kept as it was submitted. */
  predicate Verbatim(os: seq<Outcome>, rows: seq<Raw>) {
    |os| == |rows| && forall k :: 0 <= k < |os| && os[k].Err? ==> os[k].error.rawData == rows[k]
  }

  predicate Accepted(os: seq<Outcome>) {
    Commits(Invoices(os, |os|), Records(os, |os|))
  }

  // ── The protocol ───────────────────────────────────────────────────────────

  /** The origins of the records of a group; row `k` descends from the record it was read from or corrects. */
  function OriginsOf(w: World, records: seq<Stored>): (r: seq<nat>)
    ensures |r| == |records|
  {
    seq(|records|, k requires 0 <= k < |records| =>
      if records[k].id in w.originOf then w.originOf[records[k].id] else 0)
  }

  function Fresh(first: nat, n: nat): (r: seq<nat>)
    ensures |r| == n
  {
    seq(n, k requires 0 <= k < n => first + k)
  }

  /** A retry reads records that are in the table, each group with one row for each of its records. */
  predicate MayBegin(w: World, job: nat, groups: seq<Group>) {
    && job !in w.jobs
    && forall g :: 0 <= g < |groups| ==>
         |groups[g].rows| == |groups[g].records| && forall r :: r in groups[g].records ==> r in w.store.quarantine
  }

  predicate MayCommit(w: World, job: nat, callback: Callback) {
    && job in w.jobs && w.jobs[job].todo != []
    && |w.jobs[job].todo[0].rows| == |w.jobs[job].todo[0].records|
    && var g := w.jobs[job].todo[0];
       Accepted(Outcomes(g.rows, callback)) && Verbatim(Outcomes(g.rows, callback), g.rows)
  }

  /** A step that is not enabled does not happen: a refused or failed batch is rolled back and ends its retry. */
  predicate Enabled(w: World, step: Step) {
    match step
    case Ingest(data, callback) => Accepted(Outcomes(data, callback)) && Verbatim(Outcomes(data, callback), data)
    case Begin(job, groups) => MayBegin(w, job, groups)
    case Commit(job, callback) => MayCommit(w, job, callback)
    case DeleteRecords(job) => job in w.jobs
  }

  /** The tables and the job after its next group's ETL run committed. */
  function AfterCommit(w: World, job: nat, os: seq<Outcome>): World
    requires job in w.jobs && w.jobs[job].todo != [] && |os| == |w.jobs[job].todo[0].records|
  {
    var j := w.jobs[job];
    var g := j.todo[0];
    var deletes := Deletes(g.policy, |Invoices(os, |os|)|, |Records(os, |os|)|, |os|);
    AfterBatch(w, os, OriginsOf(w, g.records)).(
      jobs := w.jobs[job := Job(j.todo[1..], if deletes then IdsOf(g.records) else {})])
  }

  /** The tables after an ingest committed; its rows get the next numbers. */
  function AfterIngest(w: World, os: seq<Outcome>): World {
    AfterBatch(w, os, Fresh(w.ingested, |os|)).(ingested := w.ingested + |os|)
  }

  function Next(w: World, step: Step): World
    requires Enabled(w, step)
  {
    match step
    case Ingest(data, callback) =>
      AfterIngest(w, Outcomes(data, callback)).(
        submitted := SubmittedAfter(w.submitted, data, Fresh(w.ingested, |data|), |data|))
    case Begin(job, groups) => w.(jobs := w.jobs[job := Job(groups, {})])
    case Commit(job, callback) =>
      var g := w.jobs[job].todo[0];
      AfterCommit(w, job, Outcomes(g.rows, callback)).(
        submitted := SubmittedAfter(w.submitted, g.rows, OriginsOf(w, g.records), |g.rows|))
    case DeleteRecords(job) =>
      w.(store := Delete(w.store, w.jobs[job].doomed), jobs := w.jobs[job := w.jobs[job].(doomed := {})])
  }

  ghost predicate Run(ws: seq<World>, steps: seq<Step>) {
    |ws| == |steps| + 1
    && (steps == [] || (
          && Run(ws[..|steps|], steps[..|steps| - 1])
          && Enabled(ws[|steps| - 1], steps[|steps| - 1])
          && ws[|steps|] == Next(ws[|steps| - 1], steps[|steps| - 1])))
  }

  /** No retry is about to delete the record. */
  ghost predicate Safe(w: World, id: nat) {
    forall j :: j in w.jobs ==> id !in w.jobs[j].doomed
  }

  ghost predicate InQuarantine(w: World, origin: nat) {
    exists r :: r in w.store.quarantine && r.id in w.originOf && w.originOf[r.id] == origin && Safe(w, r.id)
  }

  ghost predicate IsSynced(w: World, origin: nat) {
    origin in w.synced && w.synced[origin] in w.store.invoices
  }

  ghost predicate Tracked(w: World, origin: nat) {
    IsSynced(w, origin) || InQuarantine(w, origin)
  }

  ghost predicate IdsKnown(w: World) {
    && (forall r :: r in w.store.quarantine ==> r.id < w.store.nextId && r.id in w.originOf)
    && (forall id :: id in w.originOf ==> id < w.store.nextId)
    && (forall j, g, r :: j in w.jobs && 0 <= g < |w.jobs[j].todo| && r in w.jobs[j].todo[g].records ==>
          r.id < w.store.nextId && r.id in w.originOf)
    && (forall j, id :: j in w.jobs && id in w.jobs[j].doomed ==> id < w.store.nextId)
  }

  ghost predicate KeysSynced(w: World) {
    forall o :: o in w.synced ==> w.synced[o] in w.store.invoices
  }

  ghost predicate HasNewRecord(w: World, firstId: nat, origin: nat) {
    exists r :: r in w.store.quarantine && r.id >= firstId && r.id in w.originOf && w.originOf[r.id] == origin
  }

  ghost predicate Inv(w: World) {
    && IdsKnown(w)
    && KeysSynced(w)
    && (forall o :: 0 <= o < w.ingested ==> Tracked(w, o))
  }

  // ── Preservation ───────────────────────────────────────────────────────────

  ghost predicate FromBatch(os: seq<Outcome>, count: nat, key: string)
    requires count <= |os|
  {
    exists k :: 0 <= k < count && os[k].Ok? && key == os[k].value.externalId
  }

  lemma {:induction false} SyncedAfterKeeps(synced: map<nat, string>, os: seq<Outcome>, origins: seq<nat>, count: nat)
    requires count <= |os| == |origins|
    ensures var m := SyncedAfter(synced, os, origins, count);
            && (forall o :: o in synced ==> o in m)
            && (forall k :: 0 <= k < count && os[k].Ok? ==> origins[k] in m)
  {
    if count > 0 {
      SyncedAfterKeeps(synced, os, origins, count - 1);
    }
  }

  /** Every id a row is synced under was so before or comes from the batch. */
  lemma {:induction false} SyncedAfterFrom(synced: map<nat, string>, os: seq<Outcome>, origins: seq<nat>, count: nat,
                                           o: nat)
    requires count <= |os| == |origins| && o in SyncedAfter(synced, os, origins, count)
    ensures var id := SyncedAfter(synced, os, origins, count)[o];
            (o in synced && id == synced[o]) || FromBatch(os, count, id)
  {
    if count > 0 {
      if os[count - 1].Ok? && o == origins[count - 1] {
        assert FromBatch(os, count, os[count - 1].value.externalId);
      } else {
        SyncedAfterFrom(synced, os, origins, count - 1, o);
        var id := SyncedAfter(synced, os, origins, count)[o];
        if FromBatch(os, count - 1, id) {
          var k :| 0 <= k < count - 1 && os[k].Ok? && id == os[k].value.externalId;
        }
      }
    }
  }

  lemma {:induction false} OriginsAfterKeeps(originOf: map<nat, nat>, os: seq<Outcome>, origins: seq<nat>, firstId: nat,
                                             count: nat)
    requires count <= |os| == |origins|
    requires forall id :: id in originOf ==> id < firstId
    ensures var m := OriginsAfter(originOf, os, origins, firstId, count);
            && (forall id :: id in originOf ==> id in m && m[id] == originOf[id])
            && (forall id :: id in m <==> id in originOf || firstId <= id < firstId + |Records(os, count)|)
  {
    if count > 0 {
      OriginsAfterKeeps(originOf, os, origins, firstId, count - 1);
    }
  }

  /** A rejected row's new record descends from the row's origin. */
  lemma {:induction false} OriginsAfterAt(originOf: map<nat, nat>, os: seq<Outcome>, origins: seq<nat>, firstId: nat,
                                          count: nat, k: nat)
    requires k < count <= |os| == |origins| && os[k].Err?
    requires forall id :: id in originOf ==> id < firstId
    ensures var m, at := OriginsAfter(originOf, os, origins, firstId, count), |Records(os, k)|;
            && at < |Records(os, count)| && firstId + at in m && m[firstId + at] == origins[k]
    decreases count
  {
    OriginsAfterKeeps(originOf, os, origins, firstId, count - 1);
    if k < count - 1 {
      OriginsAfterAt(originOf, os, origins, firstId, count - 1, k);
    }
  }

  lemma UpsertedKeys(s: Store, s': Store, os: seq<Outcome>)
    requires KeysKept(s, s', Invoices(os, |os|))
    ensures forall key :: FromBatch(os, |os|, key) ==> key in s'.invoices
  {
    forall key | FromBatch(os, |os|, key)
      ensures key in s'.invoices
    {
      var k :| 0 <= k < |os| && os[k].Ok? && key == os[k].value.externalId;
      assert os[k] == Ok(os[k].value);
      InvoicesAre(os, |os|, os[k].value);
    }
  }

  /** What a committed batch keeps: known ids, synced keys, and safe records stay safe. */
  lemma BatchKeeps(w: World, os: seq<Outcome>, origins: seq<nat>)
    requires |origins| == |os| && Accepted(os) && IdsKnown(w) && KeysSynced(w)
    ensures var w' := AfterBatch(w, os, origins);
            && IdsKnown(w') && KeysSynced(w')
            && (forall o :: IsSynced(w, o) ==> IsSynced(w', o))
            && (forall o :: InQuarantine(w, o) ==> InQuarantine(w', o))
  {
    var w' := AfterBatch(w, os, origins);
    SyncedAfterKeeps(w.synced, os, origins, |os|);
    forall o | o in w'.synced
      ensures (o in w.synced && w'.synced[o] == w.synced[o]) || FromBatch(os, |os|, w'.synced[o])
    {
      SyncedAfterFrom(w.synced, os, origins, |os|, o);
    }
    OriginsAfterKeeps(w.originOf, os, origins, w.store.nextId, |os|);
    AppliedKeys(w.store, Invoices(os, |os|), Records(os, |os|));
    BatchKeepsKeys(w, w', os);
    forall o | InQuarantine(w, o)
      ensures InQuarantine(w', o)
    {
      var r :| r in w.store.quarantine && r.id in w.originOf && w.originOf[r.id] == o && Safe(w, r.id);
      assert r in w'.store.quarantine && Safe(w', r.id);
    }
  }

  lemma BatchKeepsKeys(w: World, w': World, os: seq<Outcome>)
    requires KeysSynced(w) && KeysKept(w.store, w'.store, Invoices(os, |os|))
    requires forall o :: o in w.synced ==> o in w'.synced
    requires forall o :: o in w'.synced ==>
               (o in w.synced && w'.synced[o] == w.synced[o]) || FromBatch(os, |os|, w'.synced[o])
    ensures KeysSynced(w')
    ensures forall o :: IsSynced(w, o) ==> IsSynced(w', o)
  {
    UpsertedKeys(w.store, w'.store, os);
  }

  /** Every row of a committed batch is tracked by what the batch itself wrote. */
  lemma BatchTracks(w: World, os: seq<Outcome>, origins: seq<nat>, k: nat)
    requires |origins| == |os| && k < |os| && Accepted(os) && IdsKnown(w) && KeysSynced(w)
    ensures var w' := AfterBatch(w, os, origins);
            IsSynced(w', origins[k]) || HasNewRecord(w', w.store.nextId, origins[k])
  {
    var w' := AfterBatch(w, os, origins);
    if os[k].Ok? {
      BatchKeeps(w, os, origins);
      SyncedAfterKeeps(w.synced, os, origins, |os|);
      assert origins[k] in w'.synced;
    } else {
      OriginsAfterAt(w.originOf, os, origins, w.store.nextId, |os|, k);
      RecordIsAdded(w, w', Records(os, |os|), |Records(os, k)|, origins[k]);
    }
  }

  lemma RecordIsAdded(w: World, w': World, records: seq<Record>, at: nat, origin: nat)
    requires at < |records| && w'.store.quarantine == w.store.quarantine + Stamp(records, w.store.nextId)
    requires w.store.nextId + at in w'.originOf && w'.originOf[w.store.nextId + at] == origin
    ensures HasNewRecord(w', w.store.nextId, origin)
  {
    var added := Stamp(records, w.store.nextId);
    assert added[at] in w'.store.quarantine && added[at].id == w.store.nextId + at;
  }

  lemma NewRecordIsSafe(w: World, w': World, firstId: nat, o: nat)
    requires HasNewRecord(w', firstId, o)
    requires forall j, id :: j in w'.jobs && id in w'.jobs[j].doomed ==> id < firstId
    ensures InQuarantine(w', o)
  {
    var r :| r in w'.store.quarantine && r.id >= firstId && r.id in w'.originOf && w'.originOf[r.id] == o;
    assert Safe(w', r.id);
  }

  lemma IngestPreserves(w: World, data: seq<Raw>, callback: Callback)
    requires Inv(w) && Enabled(w, Ingest(data, callback))
    ensures Inv(Next(w, Ingest(data, callback)))
  {
    IngestKeeps(w, Outcomes(data, callback));
    InvIgnoresTexts(AfterIngest(w, Outcomes(data, callback)), Next(w, Ingest(data, callback)));
  }

  lemma InvIgnoresTexts(w: World, w': World)
    requires Inv(w) && w' == w.(submitted := w'.submitted)
    ensures Inv(w')
  {
    forall o | 0 <= o < w'.ingested
      ensures Tracked(w', o)
    {
      assert Tracked(w, o);
      TrackedSame(w, w', o);
    }
  }

  lemma IngestKeeps(w: World, os: seq<Outcome>)
    requires Inv(w) && Accepted(os)
    ensures Inv(AfterIngest(w, os))
  {
    var origins := Fresh(w.ingested, |os|);
    var mid := AfterBatch(w, os, origins);
    var w' := AfterIngest(w, os);
    BatchKeeps(w, os, origins);
    forall o | 0 <= o < w'.ingested
      ensures Tracked(w', o)
    {
      if o < w.ingested {
        assert Tracked(w, o);
        assert Tracked(mid, o);
      } else {
        BatchTracks(w, os, origins, o - w.ingested);
        if !IsSynced(mid, o) {
          NewRecordIsSafe(w, mid, w.store.nextId, o);
        }
      }
      TrackedSame(mid, w', o);
    }
  }

  lemma TrackedSame(w: World, w': World, o: nat)
    requires w'.store == w.store && w'.originOf == w.originOf && w'.synced == w.synced && w'.jobs == w.jobs
    requires Tracked(w, o)
    ensures Tracked(w', o)
  {
    if !IsSynced(w, o) {
      var r :| r in w.store.quarantine && r.id in w.originOf && w.originOf[r.id] == o && Safe(w, r.id);
      assert Safe(w', r.id);
    }
  }

  lemma BeginPreserves(w: World, job: nat, groups: seq<Group>)
    requires Inv(w) && Enabled(w, Begin(job, groups))
    ensures Inv(Next(w, Begin(job, groups)))
  {
    var w' := Next(w, Begin(job, groups));
    forall o | 0 <= o < w'.ingested
      ensures Tracked(w', o)
    {
      assert Tracked(w, o);
      if !IsSynced(w, o) {
        var r :| r in w.store.quarantine && r.id in w.originOf && w.originOf[r.id] == o && Safe(w, r.id);
        assert Safe(w', r.id);
      }
    }
  }

  lemma CommitPreserves(w: World, job: nat, callback: Callback)
    requires Inv(w) && Enabled(w, Commit(job, callback))
    ensures Inv(Next(w, Commit(job, callback)))
  {
    var os := Outcomes(w.jobs[job].todo[0].rows, callback);
    CommitKeeps(w, job, os);
    InvIgnoresTexts(AfterCommit(w, job, os), Next(w, Commit(job, callback)));
  }

  lemma CommitKeeps(w: World, job: nat, os: seq<Outcome>)
    requires Inv(w) && Accepted(os)
    requires job in w.jobs && w.jobs[job].todo != [] && |os| == |w.jobs[job].todo[0].records|
    ensures Inv(AfterCommit(w, job, os))
  {
    var g := w.jobs[job].todo[0];
    var origins := OriginsOf(w, g.records);
    var mid, w' := AfterBatch(w, os, origins), AfterCommit(w, job, os);
    BatchKeeps(w, os, origins);
    CommitIds(w, mid, w', job);
    forall o | 0 <= o < w'.ingested
      ensures Tracked(w', o)
    {
      assert Tracked(w, o);
      if IsSynced(w, o) {
        assert IsSynced(mid, o);
      } else {
        var r :| r in w.store.quarantine && r.id in w.originOf && w.originOf[r.id] == o && Safe(w, r.id);
        CommitTracks(w, job, os, o, r);
      }
    }
  }

  lemma CommitIds(w: World, mid: World, w': World, job: nat)
    requires IdsKnown(w) && IdsKnown(mid) && mid.jobs == w.jobs && w.store.nextId <= mid.store.nextId
    requires job in w.jobs && w.jobs[job].todo != [] && job in w'.jobs
    requires w'.store == mid.store && w'.originOf == mid.originOf && w'.jobs == w.jobs[job := w'.jobs[job]]
    requires w'.jobs[job].todo == w.jobs[job].todo[1..]
    requires w'.jobs[job].doomed <= IdsOf(w.jobs[job].todo[0].records)
    ensures IdsKnown(w')
    ensures forall j, id :: j in w'.jobs && id in w'.jobs[j].doomed ==> id < w.store.nextId
  {
    assert w.jobs[job].todo[0].records == mid.jobs[job].todo[0].records;
  }

  /** The record that kept a row tracked may be doomed by the commit, but then the batch itself tracks the row. */
  lemma CommitTracks(w: World, job: nat, os: seq<Outcome>, o: nat, r: Stored)
    requires Inv(w) && Accepted(os)
    requires job in w.jobs && w.jobs[job].todo != [] && |os| == |w.jobs[job].todo[0].records|
    requires r in w.store.quarantine && r.id in w.originOf && w.originOf[r.id] == o && Safe(w, r.id)
    ensures Tracked(AfterCommit(w, job, os), o)
  {
    var g := w.jobs[job].todo[0];
    var origins := OriginsOf(w, g.records);
    var mid, w' := AfterBatch(w, os, origins), AfterCommit(w, job, os);
    BatchKeeps(w, os, origins);
    CommitIds(w, mid, w', job);
    if r.id in IdsOf(g.records) {
      var q :| q in g.records && q.id == r.id;
      var k :| 0 <= k < |g.records| && g.records[k] == q;
      assert origins[k] == o;
      BatchTracks(w, os, origins, k);
      if IsSynced(mid, o) {
        assert IsSynced(w', o);
      } else {
        assert HasNewRecord(mid, w.store.nextId, o);
        assert HasNewRecord(w', w.store.nextId, o);
        NewRecordIsSafe(w, w', w.store.nextId, o);
      }
    } else {
      OriginsAfterKeeps(w.originOf, os, origins, w.store.nextId, |os|);
      assert Safe(w', r.id);
      assert r in w'.store.quarantine;
    }
  }

  lemma DeletePreserves(w: World, job: nat)
    requires Inv(w) && Enabled(w, DeleteRecords(job))
    ensures Inv(Next(w, DeleteRecords(job)))
  {
    var w' := Next(w, DeleteRecords(job));
    forall r
      ensures r in w'.store.quarantine <==> r in w.store.quarantine && r.id !in w.jobs[job].doomed
    {
      WithoutHas(w.store.quarantine, w.jobs[job].doomed, r);
    }
    forall o | 0 <= o < w'.ingested
      ensures Tracked(w', o)
    {
      assert Tracked(w, o);
      if !IsSynced(w, o) {
        var r :| r in w.store.quarantine && r.id in w.originOf && w.originOf[r.id] == o && Safe(w, r.id);
        assert Safe(w', r.id);
      }
    }
  }

  lemma StepPreserves(w: World, step: Step)
    requires Inv(w) && Enabled(w, step)
    ensures Inv(Next(w, step))
  {
    match step
    case Ingest(data, callback) => IngestPreserves(w, data, callback);
    case Begin(job, groups) => BeginPreserves(w, job, groups);
    case Commit(job, callback) => CommitPreserves(w, job, callback);
    case DeleteRecords(job) => DeletePreserves(w, job);
  }

  // ── The texts of the records ───────────────────────────────────────────────

  ghost predicate Knows(w: World, r: Stored) {
    && r.id in w.originOf && w.originOf[r.id] in w.submitted
    && r.record.rawData in w.submitted[w.originOf[r.id]]
  }

  ghost predicate TextsKnown(w: World) {
    forall r :: r in w.store.quarantine ==> Knows(w, r)
  }

  lemma {:induction false} SubmittedGrows(submitted: map<nat, set<Raw>>, rows: seq<Raw>, origins: seq<nat>, count: nat)
    requires count <= |rows| == |origins|
    ensures var m := SubmittedAfter(submitted, rows, origins, count);
            && (forall o :: o in submitted ==> o in m && submitted[o] <= m[o])
            && (forall k :: 0 <= k < count ==> origins[k] in m && rows[k] in m[origins[k]])
  {
    if count > 0 {
      SubmittedGrows(submitted, rows, origins, count - 1);
    }
  }

  /** The row a record of the batch was made from. */
  lemma {:induction false} RowOfRecord(os: seq<Outcome>, count: nat, i: nat) returns (k: nat)
    requires count <= |os| && i < |Records(os, count)|
    ensures k < count && os[k].Err? && |Records(os, k)| == i && Records(os, count)[i] == os[k].error
  {
    if i < |Records(os, count - 1)| {
      k := RowOfRecord(os, count - 1, i);
    } else {
      k := count - 1;
    }
  }

  lemma NewRecordKnown(w: World, os: seq<Outcome>, origins: seq<nat>, rows: seq<Raw>, i: nat)
    requires |origins| == |os| == |rows| && IdsKnown(w) && Verbatim(os, rows) && i < |Records(os, |os|)|
    ensures var m := OriginsAfter(w.originOf, os, origins, w.store.nextId, |os|);
            var texts := SubmittedAfter(w.submitted, rows, origins, |rows|);
            var id := w.store.nextId + i;
            id in m && m[id] in texts && Records(os, |os|)[i].rawData in texts[m[id]]
  {
    var k := RowOfRecord(os, |os|, i);
    OriginsAfterAt(w.originOf, os, origins, w.store.nextId, |os|, k);
    SubmittedGrows(w.submitted, rows, origins, |rows|);
  }

  ghost predicate KnownText(originOf: map<nat, nat>, submitted: map<nat, set<Raw>>, id: nat, raw: Raw) {
    id in originOf && originOf[id] in submitted && raw in submitted[originOf[id]]
  }

  lemma AddedTextsKnown(w: World, w': World, records: seq<Record>)
    requires TextsKnown(w) && w'.store.quarantine == w.store.quarantine + Stamp(records, w.store.nextId)
    requires forall id :: id in w.originOf ==> id in w'.originOf && w'.originOf[id] == w.originOf[id]
    requires forall o :: o in w.submitted ==> o in w'.submitted && w.submitted[o] <= w'.submitted[o]
    requires forall i :: 0 <= i < |records| ==>
               KnownText(w'.originOf, w'.submitted, w.store.nextId + i, records[i].rawData)
    ensures TextsKnown(w')
  {
    var added := Stamp(records, w.store.nextId);
    forall r | r in w'.store.quarantine
      ensures Knows(w', r)
    {
      if r in w.store.quarantine {
        assert Knows(w, r);
      } else {
        var i :| 0 <= i < |added| && added[i] == r;
        assert KnownText(w'.originOf, w'.submitted, w.store.nextId + i, records[i].rawData);
      }
    }
  }

  lemma OldOriginsStay(originOf: map<nat, nat>, os: seq<Outcome>, origins: seq<nat>, firstId: nat)
    requires |origins| == |os| && forall id :: id in originOf ==> id < firstId
    ensures var m := OriginsAfter(originOf, os, origins, firstId, |os|);
            forall id :: id in originOf ==> id in m && m[id] == originOf[id]
  {
    OriginsAfterKeeps(originOf, os, origins, firstId, |os|);
  }

  /** A committed batch keeps the texts of the old records known and knows those of the new ones. */
  lemma BatchKeepsTexts(w: World, os: seq<Outcome>, origins: seq<nat>, rows: seq<Raw>, w': World)
    requires |origins| == |os| == |rows| && IdsKnown(w) && TextsKnown(w) && Verbatim(os, rows)
    requires w'.store.quarantine == w.store.quarantine + Stamp(Records(os, |os|), w.store.nextId)
    requires w'.originOf == OriginsAfter(w.originOf, os, origins, w.store.nextId, |os|)
    requires w'.submitted == SubmittedAfter(w.submitted, rows, origins, |rows|)
    ensures TextsKnown(w')
  {
    var records := Records(os, |os|);
    OldOriginsStay(w.originOf, os, origins, w.store.nextId);
    SubmittedGrows(w.submitted, rows, origins, |rows|);
    forall i | 0 <= i < |records|
      ensures KnownText(w'.originOf, w'.submitted, w.store.nextId + i, records[i].rawData)
    {
      NewRecordKnown(w, os, origins, rows, i);
    }
    AddedTextsKnown(w, w', records);
  }

  lemma StepKeepsTexts(w: World, step: Step)
    requires Inv(w) && TextsKnown(w) && Enabled(w, step)
    ensures TextsKnown(Next(w, step))
  {
    match step
    case Ingest(data, callback) =>
      BatchKeepsTexts(w, Outcomes(data, callback), Fresh(w.ingested, |data|), data, Next(w, step));
    case Begin(job, groups) =>
      TextsSame(w, Next(w, step));
    case Commit(job, callback) =>
      var g := w.jobs[job].todo[0];
      BatchKeepsTexts(w, Outcomes(g.rows, callback), OriginsOf(w, g.records), g.rows, Next(w, step));
    case DeleteRecords(job) =>
      forall r
        ensures r in Without(w.store.quarantine, w.jobs[job].doomed) ==> r in w.store.quarantine
      {
        WithoutHas(w.store.quarantine, w.jobs[job].doomed, r);
      }
      TextsSame(w, Next(w, step));
  }

  lemma TextsSame(w: World, w': World)
    requires TextsKnown(w) && w'.originOf == w.originOf && w'.submitted == w.submitted
    requires forall r :: r in w'.store.quarantine ==> r in w.store.quarantine
    ensures TextsKnown(w')
  {
    forall r | r in w'.store.quarantine
      ensures Knows(w', r)
    {
      assert Knows(w, r);
    }
  }

  ghost predicate Initial(w: World) {
    w.store.quarantine == [] && w.jobs == map[] && w.ingested == 0 && w.originOf == map[] && w.synced == map[]
    && w.submitted == map[]
  }

  /**
   * No row is lost: after any run, from any invoices and an empty quarantine, every row of every committed ingest is
   * in the invoice table under the id it was synced by, or has a quarantine record that no retry is about to delete.
   * Every quarantine record holds, verbatim, a text submitted for the row it descends from: the ingested one or a
   * correction of it.
   */
  lemma {:induction false} NoRowIsLost(ws: seq<World>, steps: seq<Step>)
    requires Run(ws, steps) && Initial(ws[0])
    ensures Inv(ws[|steps|])
    ensures forall o :: 0 <= o < ws[|steps|].ingested ==> Tracked(ws[|steps|], o)
    ensures TextsKnown(ws[|steps|])
    decreases |steps|
  {
    if steps != [] {
      NoRowIsLost(ws[..|steps|], steps[..|steps| - 1]);
      StepPreserves(ws[|steps| - 1], steps[|steps| - 1]);
      StepKeepsTexts(ws[|steps| - 1], steps[|steps| - 1]);
    }
  }

  // ── The service's retries are runs of the protocol ─────────────────────────

  lemma {:induction false} WithoutNone(records: seq<Stored>)
    ensures Without(records, {}) == records
  {
    if records != [] {
      WithoutNone(records[..|records| - 1]);
      assert records == records[..|records| - 1] + [records[|records| - 1]];
    }
  }

  /** The outcomes of the ETL run that succeeds. */
  function RunOutcomes(rows: seq<Raw>, source: string, server: Server): (os: seq<Outcome>)
    requires FirstGood(rows, source, server.envs, server.faults).Some?
    ensures |os| == |rows|
  {
    Outcomes(rows, RunCallback(rows, source, server))
  }

  /** The transformer of the ETL run that succeeds. */
  function RunCallback(rows: seq<Raw>, source: string, server: Server): Callback
    requires FirstGood(rows, source, server.envs, server.faults).Some?
  {
    CallbackOf(source, server.envs(FirstGood(rows, source, server.envs, server.faults).value))
  }

  /** A successful ETL run is an accepted batch of the transformer's outcomes. */
  lemma EtlRunIsBatch(s: Store, rows: seq<Raw>, source: string, server: Server)
    requires RunEtl(s, rows, source, server).Some?
    ensures var os := RunOutcomes(rows, source, server);
            && Accepted(os) && Verbatim(os, rows)
            && RunEtl(s, rows, source, server) ==
               Some((Apply(s, Invoices(os, |os|), Records(os, |os|)),
                     SyncResult(|os|, |Invoices(os, |os|)|, |Records(os, |os|)|)))
  {
    var env := server.envs(FirstGood(rows, source, server.envs, server.faults).value);
    forall k | 0 <= k < |rows|
      ensures var o := EtlTransform.Outcome(rows[k], k, source, env); o.Err? ==> o.error.rawData == rows[k]
    {
      OutcomeMeans(rows[k], k, source, env);
    }
  }

  /** The store after a batch and the delete its policy allows. */
  function Retried(s: Store, g: Group, os: seq<Outcome>): Store {
    var store := Apply(s, Invoices(os, |os|), Records(os, |os|));
    if Deletes(g.policy, |Invoices(os, |os|)|, |Records(os, |os|)|, |os|) then Delete(store, IdsOf(g.records)) else store
  }

  /**
   * An uninterrupted retry of one group is a commit step and a delete step: the batch, and then the delete of the
   * group's records where its policy allows.
   */
  lemma RetryIsCommitThenDelete(w: World, job: nat, callback: Callback)
    requires Enabled(w, Commit(job, callback))
    ensures var g := w.jobs[job].todo[0];
            var w1 := Next(w, Commit(job, callback));
            Enabled(w1, DeleteRecords(job))
            && Next(w1, DeleteRecords(job)).store == Retried(w.store, g, Outcomes(g.rows, callback))
  {
    var os := Outcomes(w.jobs[job].todo[0].rows, callback);
    WithoutNone(Apply(w.store, Invoices(os, |os|), Records(os, |os|)).quarantine);
  }

  /** The first group of the job is this one. */
  predicate Pending(w: World, job: nat, g: Group) {
    job in w.jobs && w.jobs[job].todo != [] && w.jobs[job].todo[0] == g && |g.rows| == |g.records|
  }

  /** The two steps of the protocol reach the store. */
  ghost predicate TwoSteps(w: World, job: nat, callback: Callback, store: Store) {
    && Enabled(w, Commit(job, callback))
    && Enabled(Next(w, Commit(job, callback)), DeleteRecords(job))
    && Next(Next(w, Commit(job, callback)), DeleteRecords(job)).store == store
  }

  lemma BatchIsTwoSteps(w: World, job: nat, g: Group, callback: Callback)
    requires Pending(w, job, g)
    requires Accepted(Outcomes(g.rows, callback)) && Verbatim(Outcomes(g.rows, callback), g.rows)
    ensures TwoSteps(w, job, callback, Retried(w.store, g, Outcomes(g.rows, callback)))
  {
    RetryIsCommitThenDelete(w, job, callback);
  }

  /** One round of `retryBatch` is a commit step and a delete step. */
  lemma RunGroupIsTwoSteps(w: World, job: nat, group: seq<Stored>, source: string, server: Server)
    requires Pending(w, job, Group(group, RawRows(group), IfAllSynced))
    requires RunGroup(w.store, group, source, server).Some?
    ensures TwoSteps(w, job, RunCallback(RawRows(group), source, server), RunGroup(w.store, group, source, server).value.0)
  {
    var g := Group(group, RawRows(group), IfAllSynced);
    EtlRunIsBatch(w.store, g.rows, source, server);
    BatchIsTwoSteps(w, job, g, RunCallback(g.rows, source, server));
  }

  /** A corrected row with its record. */
  function Correction(record: Stored, fixedData: Raw, policy: Policy): Group {
    Group([record], [fixedData], policy)
  }

  /** What a single retry leaves, from the result of its ETL run. */
  function AfterCorrection(run: (Store, SyncResult), record: Stored, policy: Policy): Store
    requires !policy.IfAllSynced?
  {
    if policy.IfNoneQuarantined? && run.1.quarantined > 0 then run.0 else Delete(run.0, {record.id})
  }

  lemma RetriedCorrection(s: Store, record: Stored, fixedData: Raw, policy: Policy, os: seq<Outcome>)
    requires !policy.IfAllSynced? && |os| == 1
    ensures var run := (Apply(s, Invoices(os, |os|), Records(os, |os|)),
                        SyncResult(|os|, |Invoices(os, |os|)|, |Records(os, |os|)|));
            Retried(s, Correction(record, fixedData, policy), os) == AfterCorrection(run, record, policy)
  {
    assert IdsOf([record]) == {record.id};
  }

  /**
   * `retryRecord` and `retryQuarantineRecord`, once their ETL run succeeded, are a commit step and a delete step; the
   * latter's delete step does nothing when the corrected row was quarantined again.
   */
  lemma SingleRetryIsTwoSteps(w: World, job: nat, record: Stored, fixedData: Raw, policy: Policy, server: Server)
    requires !policy.IfAllSynced? && Pending(w, job, Correction(record, fixedData, policy))
    requires RunEtl(w.store, [fixedData], record.record.sourceType, server).Some?
    ensures var run := RunEtl(w.store, [fixedData], record.record.sourceType, server).value;
            TwoSteps(w, job, RunCallback([fixedData], record.record.sourceType, server),
                     AfterCorrection(run, record, policy))
  {
    var g, source := Correction(record, fixedData, policy), record.record.sourceType;
    EtlRunIsBatch(w.store, g.rows, source, server);
    RetriedCorrection(w.store, record, fixedData, policy, RunOutcomes(g.rows, source, server));
    BatchIsTwoSteps(w, job, g, RunCallback(g.rows, source, server));
  }
}
