/** The sliding-window Lua script, in both its copies (src/chat/guardrails/rate-limiter.service.ts, src/common/shared/redis.ts). */
module SlidingWindow {
  import opened Wrappers
  import opened Instants

  /** A sorted set: each member with its score, an instant in milliseconds. */
  type SortedSet = map<string, int>

  datatype Request = Request(now: int, member: string)

  /** `ZREMRANGEBYSCORE key -inf cutoff`. */
  function RemoveUpTo(s: SortedSet, cutoff: int): SortedSet {
    map m | m in s && s[m] > cutoff :: s[m]
  }

  /** `ZCARD key` after the removal, compared with the limit. */
  predicate Admits(s: SortedSet, now: int, window: int, limit: int) {
    |RemoveUpTo(s, now - window)| < limit
  }

  /** The script on a set that never expires. */
  function Script(s: SortedSet, r: Request, window: int, limit: int): (SortedSet, bool) {
    var live := RemoveUpTo(s, r.now - window);
    if Admits(s, r.now, window, limit) then (live[r.member := r.now], true) else (live, false)
  }

  /** `math.ceil(window / 1000)`, in milliseconds. */
  function ExpirySpan(window: int): int {
    (window + 999) / 1000 * 1000
  }

  /** The least whole number of seconds that is no less than the window. */
  lemma ExpirySpanIs(window: int)
    ensures ExpirySpan(window) % 1000 == 0 && window <= ExpirySpan(window) < window + 1000
  {
  }

  /** A key with its EXPIRE deadline. */
  datatype Key = Key(entries: SortedSet, deadline: Option<int>)

  /** What a command at instant `now` finds under the key. */
  function Present(k: Key, now: int): SortedSet {
    if k.deadline.Some? && k.deadline.value <= now then map[] else k.entries
  }

  /** The script as Redis runs it: an emptied key loses its deadline, an admission sets it anew. */
  function ExpiringScript(k: Key, r: Request, window: int, limit: int): (Key, bool) {
    var (s, admitted) := Script(Present(k, r.now), r, window, limit);
    if admitted then (Key(s, Some(r.now + ExpirySpan(window))), true)
    else (Key(s, if s == map[] then None else k.deadline), false)
  }

  class SlidingWindowLimiter {
    var key: Key

    constructor ()
      ensures key == Key(map[], None)
    {
      key := Key(map[], None);
    }

    /** One evaluation of the script: 1 admits, 0 refuses. */
    method Eval(now: int, window: int, limit: int, member: string) returns (result: int)
      modifies this
      ensures (key, result == 1) == ExpiringScript(old(key), Request(now, member), window, limit)
      ensures result == 0 || result == 1
    {
      if key.deadline.Some? && key.deadline.value <= now {
        key := Key(map[], None);
      }
      var kept := RemoveUpTo(key.entries, now - window);
      key := Key(kept, if kept == map[] then None else key.deadline);
      var count := |key.entries|;
      if count < limit {
        key := key.(entries := key.entries[member := now]);
        key := key.(deadline := Some(now + ExpirySpan(window)));
        return 1;
      }
      return 0;
    }
  }

  // ── Whole runs ─────────────────────────────────────────────────────────────

  /** The set, the instants admitted so far and the decisions, after a run on the never-expiring set. */
  datatype Trace = Trace(entries: SortedSet, admitted: seq<int>, decisions: seq<bool>)

  function Serve(t: Trace, r: Request, window: int, limit: int): Trace {
    var (s, ok) := Script(t.entries, r, window, limit);
    Trace(s, if ok then t.admitted + [r.now] else t.admitted, t.decisions + [ok])
  }

  function Run(rs: seq<Request>, window: int, limit: int): (t: Trace)
    ensures |t.decisions| == |rs|
  {
    if rs == [] then Trace(map[], [], [])
    else Serve(Run(rs[..|rs| - 1], window, limit), rs[|rs| - 1], window, limit)
  }

  ghost predicate Ordered(rs: seq<Request>) {
    forall i, j :: 0 <= i < j < |rs| ==> rs[i].now <= rs[j].now
  }

  /** The request is refused, or its member is not in the live set. */
  ghost predicate FreshIn(s: SortedSet, r: Request, window: int, limit: int) {
    Admits(s, r.now, window, limit) ==> r.member !in RemoveUpTo(s, r.now - window)
  }

  /** No request is admitted under a member that is in the live set. */
  ghost predicate Fresh(rs: seq<Request>, window: int, limit: int) {
    rs != [] ==>
      var init, r := rs[..|rs| - 1], rs[|rs| - 1];
      Fresh(init, window, limit) && FreshIn(Run(init, window, limit).entries, r, window, limit)
  }

  lemma AddSize(s: SortedSet, m: string, score: int, cutoff: int)
    requires m !in s
    ensures |RemoveUpTo(s[m := score], cutoff)| == |RemoveUpTo(s, cutoff)| + (if score > cutoff then 1 else 0)
  {
    var a, b := RemoveUpTo(s, cutoff), RemoveUpTo(s[m := score], cutoff);
    if score > cutoff {
      assert b == a[m := score];
    } else {
      assert b == a;
    }
  }

  lemma RemoveTwice(s: SortedSet, cutoff: int, later: int)
    requires cutoff <= later
    ensures RemoveUpTo(RemoveUpTo(s, cutoff), later) == RemoveUpTo(s, later)
  {
  }

  /** From the last cutoff on, the live set counts exactly the admissions. */
  ghost predicate SetCountsAdmissions(t: Trace, last: int, window: int) {
    && (forall i :: 0 <= i < |t.admitted| ==> t.admitted[i] <= last)
    && (forall cutoff :: cutoff >= last - window ==>
          |RemoveUpTo(t.entries, cutoff)| == CountIn(t.admitted, cutoff, last))
  }

  ghost predicate Sound(t: Trace, last: int, window: int, limit: int) {
    SetCountsAdmissions(t, last, window) && Spaced(t.admitted, window, limit)
  }

  lemma LiveCount(t: Trace, last: int, now: int, window: int)
    requires SetCountsAdmissions(t, last, window) && last <= now
    ensures |RemoveUpTo(t.entries, now - window)| == CountIn(t.admitted, now - window, now)
  {
    CountUpTo(t.admitted, now - window, last, now);
  }

  lemma ServeKeepsCount(t: Trace, last: int, r: Request, window: int, limit: int)
    requires SetCountsAdmissions(t, last, window) && last <= r.now && FreshIn(t.entries, r, window, limit)
    ensures SetCountsAdmissions(Serve(t, r, window, limit), r.now, window)
  {
    var after := Serve(t, r, window, limit);
    var live := RemoveUpTo(t.entries, r.now - window);
    forall cutoff | cutoff >= r.now - window
      ensures |RemoveUpTo(after.entries, cutoff)| == CountIn(after.admitted, cutoff, r.now)
    {
      RemoveTwice(t.entries, r.now - window, cutoff);
      CountUpTo(t.admitted, cutoff, last, r.now);
      if Admits(t.entries, r.now, window, limit) {
        AddSize(live, r.member, r.now, cutoff);
        CountAppend(t.admitted, r.now, cutoff, r.now);
      }
    }
  }

  lemma ServeKeepsSound(t: Trace, last: int, r: Request, window: int, limit: int)
    requires Sound(t, last, window, limit) && last <= r.now && FreshIn(t.entries, r, window, limit)
    ensures Sound(Serve(t, r, window, limit), r.now, window, limit)
  {
    var after := Serve(t, r, window, limit);
    ServeKeepsCount(t, last, r, window, limit);
    LiveCount(t, last, r.now, window);
    if Admits(t.entries, r.now, window, limit) {
      assert after.admitted[..|after.admitted| - 1] == t.admitted;
    }
  }

  /** The last instant of a run, or `now` when there is none. */
  function LastInstant(rs: seq<Request>, now: int): int {
    if rs == [] then now else rs[|rs| - 1].now
  }

  lemma {:induction false} RunIsSound(rs: seq<Request>, window: int, limit: int, now: int)
    requires Ordered(rs) && Fresh(rs, window, limit)
    ensures Sound(Run(rs, window, limit), LastInstant(rs, now), window, limit)
  {
    if rs != [] {
      var init, r := rs[..|rs| - 1], rs[|rs| - 1];
      RunIsSound(init, window, limit, r.now);
      ServeKeepsSound(Run(init, window, limit), LastInstant(init, r.now), r, window, limit);
    }
  }

  /** Safety: over every run, a half-open window of length W holds at most `limit` admissions. */
  lemma WindowBound(rs: seq<Request>, window: int, limit: int, lo: int, hi: int)
    requires Ordered(rs) && Fresh(rs, window, limit)
    requires hi - lo <= window
    ensures CountIn(Run(rs, window, limit).admitted, lo, hi) <= NonNegative(limit)
  {
    RunIsSound(rs, window, limit, 0);
    SpacedBound(Run(rs, window, limit).admitted, window, limit, lo, hi);
  }

  /**
   * After any run, the script admits exactly when fewer than `limit` admissions lie in the window ending at the
   * request, and refuses only when exactly `limit` do.
   */
  lemma DecidesByCount(rs: seq<Request>, now: int, window: int, limit: int)
    requires Ordered(rs) && Fresh(rs, window, limit) && LastInstant(rs, now) <= now
    ensures var before := Run(rs, window, limit);
            var count := CountIn(before.admitted, now - window, now);
            && (Admits(before.entries, now, window, limit) <==> count < limit)
            && (!Admits(before.entries, now, window, limit) ==> count == NonNegative(limit))
  {
    RunIsSound(rs, window, limit, now);
    SoundDecides(Run(rs, window, limit), LastInstant(rs, now), now, window, limit);
  }

  lemma SoundDecides(t: Trace, last: int, now: int, window: int, limit: int)
    requires Sound(t, last, window, limit) && last <= now
    ensures var count := CountIn(t.admitted, now - window, now);
            && (Admits(t.entries, now, window, limit) <==> count < limit)
            && (!Admits(t.entries, now, window, limit) ==> count == NonNegative(limit))
  {
    LiveCount(t, last, now, window);
    SpacedBound(t.admitted, window, limit, now - window, now);
  }

  // ── Repeated members ───────────────────────────────────────────────────────

  /** An admission under a live member leaves a live set one short of the admissions. */
  lemma ServeCounts(t: Trace, last: int, r: Request, window: int, limit: int)
    requires SetCountsAdmissions(t, last, window) && last <= r.now && window > 0
    requires !FreshIn(t.entries, r, window, limit)
    ensures var after := Serve(t, r, window, limit);
            |RemoveUpTo(after.entries, r.now - window)| == |RemoveUpTo(t.entries, r.now - window)|
              == CountIn(after.admitted, r.now - window, r.now) - 1
  {
    var cutoff := r.now - window;
    var live := RemoveUpTo(t.entries, cutoff);
    LiveCount(t, last, r.now, window);
    CountAppend(t.admitted, r.now, cutoff, r.now);
    assert RemoveUpTo(live[r.member := r.now], cutoff) == live[r.member := r.now];
    assert live[r.member := r.now].Keys == live.Keys;
    SizeOfKeys(live, live[r.member := r.now]);
  }

  lemma SizeOfKeys(a: SortedSet, b: SortedSet)
    requires a.Keys == b.Keys
    ensures |a| == |b|
  {
    assert |a| == |a.Keys| && |b| == |b.Keys|;
  }

  /** At every instant of the run the live set counts exactly the admissions. */
  ghost predicate AlwaysCounts(rs: seq<Request>, window: int, limit: int) {
    rs != [] ==>
      && AlwaysCounts(rs[..|rs| - 1], window, limit)
      && SetCountsAdmissions(Run(rs, window, limit), rs[|rs| - 1].now, window)
  }

  /** The live set counts the admissions all along a run if and only if none is made under a live member. */
  lemma {:induction false} CountsExactly(rs: seq<Request>, window: int, limit: int)
    requires Ordered(rs) && window > 0
    ensures AlwaysCounts(rs, window, limit) <==> Fresh(rs, window, limit)
  {
    if rs != [] {
      var init, r := rs[..|rs| - 1], rs[|rs| - 1];
      CountsExactly(init, window, limit);
      if Fresh(init, window, limit) {
        var t, last := Run(init, window, limit), LastInstant(init, r.now);
        RunIsSound(init, window, limit, r.now);
        if FreshIn(t.entries, r, window, limit) {
          ServeKeepsCount(t, last, r, window, limit);
        } else {
          ServeCounts(t, last, r, window, limit);
        }
      }
    }
  }

  lemma RunAppend(rs: seq<Request>, r: Request, window: int, limit: int)
    ensures Run(rs + [r], window, limit) == Serve(Run(rs, window, limit), r, window, limit)
  {
    assert (rs + [r])[..|rs|] == rs;
  }

  /** Some member is not in the set. */
  lemma {:induction false} NewMember(names: set<string>) returns (m: string)
    ensures m !in names
  {
    var n := LongerThanAll(names);
    m := seq(n, i => 'a');
  }

  lemma {:induction false} LongerThanAll(names: set<string>) returns (n: nat)
    ensures forall x :: x in names ==> |x| < n
    decreases |names|
  {
    if names == {} {
      n := 0;
    } else {
      var x :| x in names;
      n := LongerThanAll(names - {x});
      n := if |x| < n then n else |x| + 1;
    }
  }

  /** A new member is admitted while the set is below the limit, and counts in both. */
  lemma ServeNew(t: Trace, now: int, m: string, window: int, limit: int)
    requires m !in t.entries && window > 0 && |RemoveUpTo(t.entries, now - window)| < limit
    ensures var after := Serve(t, Request(now, m), window, limit);
            && |RemoveUpTo(after.entries, now - window)| == |RemoveUpTo(t.entries, now - window)| + 1
            && CountIn(after.admitted, now - window, now) == CountIn(t.admitted, now - window, now) + 1
  {
    var cutoff := now - window;
    RemoveTwice(t.entries, cutoff, cutoff);
    AddSize(RemoveUpTo(t.entries, cutoff), m, now, cutoff);
    CountAppend(t.admitted, now, cutoff, now);
  }

  /** New members fill a live set that is one short of the admissions, up to one admission beyond the limit. */
  lemma {:induction false} FillUp(rs: seq<Request>, now: int, window: int, limit: int) returns (more: seq<Request>)
    requires window > 0
    requires var t := Run(rs, window, limit);
             && |RemoveUpTo(t.entries, now - window)| <= limit
             && |RemoveUpTo(t.entries, now - window)| == CountIn(t.admitted, now - window, now) - 1
    ensures forall i :: 0 <= i < |more| ==> more[i].now == now
    ensures CountIn(Run(rs + more, window, limit).admitted, now - window, now) == limit + 1
    decreases limit - |RemoveUpTo(Run(rs, window, limit).entries, now - window)|
  {
    hide Run, Serve, CountIn, RemoveUpTo;
    var t := Run(rs, window, limit);
    if |RemoveUpTo(t.entries, now - window)| == limit {
      more := [];
      assert rs + [] == rs;
    } else {
      var m := NewMember(t.entries.Keys);
      var r := Request(now, m);
      ServeNew(t, now, m, window, limit);
      RunAppend(rs, r, window, limit);
      var rest := FillUp(rs + [r], now, window, limit);
      more := [r] + rest;
      assert rs + more == (rs + [r]) + rest;
    }
  }

  /**
   * Freshness is needed, for every limit and window: an admission under a live member lets requests of the same
   * instant pass until the window holds one admission more than the limit.
   */
  lemma RepeatedMemberOverAdmits(rs: seq<Request>, r: Request, window: int, limit: int) returns (more: seq<Request>)
    requires Ordered(rs + [r]) && Fresh(rs, window, limit) && window > 0
    requires !FreshIn(Run(rs, window, limit).entries, r, window, limit)
    ensures Ordered(rs + [r] + more)
    ensures CountIn(Run(rs + [r] + more, window, limit).admitted, r.now - window, r.now) == limit + 1
  {
    hide Serve, CountIn, Fresh;
    assert forall i :: 0 <= i < |rs| ==> (rs + [r])[i] == rs[i] && rs[i].now <= (rs + [r])[|rs|].now;
    RunIsSound(rs, window, limit, r.now);
    ServeCounts(Run(rs, window, limit), LastInstant(rs, r.now), r, window, limit);
    RunAppend(rs, r, window, limit);
    more := FillUp(rs + [r], r.now, window, limit);
  }

  // ── Expiry of the key is invisible ─────────────────────────────────────────

  function ExpiringRun(rs: seq<Request>, window: int, limit: int): (Key, seq<bool>) {
    if rs == [] then (Key(map[], None), [])
    else
      var (k, ds) := ExpiringRun(rs[..|rs| - 1], window, limit);
      var (k', ok) := ExpiringScript(k, rs[|rs| - 1], window, limit);
      (k', ds + [ok])
  }

  /** Before its deadline the key holds the never-expiring set; from the deadline on that set has nothing live. */
  ghost predicate SameWhileLive(k: Key, s: SortedSet, last: int, window: int) {
    && k.entries == s
    && (forall m :: m in s ==> s[m] <= last)
    && (s != map[] ==> k.deadline.Some?)
    && (forall m :: m in s ==> s[m] + window <= k.deadline.value)
  }

  lemma ExpiringStepAgrees(k: Key, s: SortedSet, last: int, r: Request, window: int, limit: int)
    requires SameWhileLive(k, s, last, window) && last <= r.now && window > 0
    ensures var (k', ok) := ExpiringScript(k, r, window, limit);
            var (s', ok') := Script(s, r, window, limit);
            ok == ok' && SameWhileLive(k', s', r.now, window)
  {
    var live := RemoveUpTo(s, r.now - window);
    assert RemoveUpTo(Present(k, r.now), r.now - window) == live;
    assert ExpirySpan(window) >= window;
  }

  lemma {:induction false} ExpiryKeepsState(rs: seq<Request>, window: int, limit: int, last: int)
    requires Ordered(rs) && window > 0
    requires rs == [] || last == rs[|rs| - 1].now
    ensures var (k, ds) := ExpiringRun(rs, window, limit);
            var t := Run(rs, window, limit);
            SameWhileLive(k, t.entries, last, window) && ds == t.decisions
  {
    if rs != [] {
      var init, r := rs[..|rs| - 1], rs[|rs| - 1];
      var earlier := if init == [] then r.now else init[|init| - 1].now;
      ExpiryKeepsState(init, window, limit, earlier);
      ExpiringStepAgrees(ExpiringRun(init, window, limit).0, Run(init, window, limit).entries, earlier, r, window, limit);
    }
  }

  /** A limiter whose key vanishes at its deadline makes exactly the decisions of one that never expires. */
  lemma ExpiryInvisible(rs: seq<Request>, window: int, limit: int)
    requires Ordered(rs) && window > 0
    ensures ExpiringRun(rs, window, limit).1 == Run(rs, window, limit).decisions
  {
    if rs != [] {
      ExpiryKeepsState(rs, window, limit, rs[|rs| - 1].now);
    }
  }
}
