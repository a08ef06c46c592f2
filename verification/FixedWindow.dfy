/** The two fixed-window limiters (src/common/guards/production-rate-limit.guard.ts, src/common/guards/tenant-rate-limit.guard.ts). */
module FixedWindow {
  import opened Wrappers
  import opened Instants

  // ── The in-memory limiter, whose window starts lazily with a request ───────

  datatype Record = Record(count: nat, resetAt: int)

  /** One request against the record of its key; `window` in milliseconds. */
  function Hit(record: Option<Record>, now: int, window: int): Record {
    if record.None? || now > record.value.resetAt then Record(1, now + window)
    else Record(record.value.count + 1, record.value.resetAt)
  }

  class ProductionRateLimitGuard {
    var memoryStore: map<string, Record>

    constructor ()
      ensures memoryStore == map[]
    {
      memoryStore := map[];
    }

    function Lookup(key: string): Option<Record>
      reads this
    {
      if key in memoryStore then Some(memoryStore[key]) else None
    }

    /** `checkMemory`: other keys keep their records. */
    method CheckMemory(key: string, requests: int, windowSeconds: int, now: int)
      returns (allowed: bool, remaining: int, resetAt: int)
      modifies this
      ensures var record := Hit(old(Lookup(key)), now, windowSeconds * 1000);
              && memoryStore == old(memoryStore)[key := record]
              && allowed == (record.count <= requests)
              && remaining == (if allowed then requests - record.count else 0)
              && resetAt == record.resetAt
    {
      if key !in memoryStore || now > memoryStore[key].resetAt {
        memoryStore := memoryStore[key := Record(0, now + windowSeconds * 1000)];
      }
      var record := memoryStore[key];
      record := record.(count := record.count + 1);
      memoryStore := memoryStore[key := record];
      allowed := record.count <= requests;
      remaining := if requests - record.count < 0 then 0 else requests - record.count;
      resetAt := record.resetAt;
    }
  }

  /** The record of one key and the instants admitted under it. */
  datatype Lazy = Lazy(record: Option<Record>, admitted: seq<int>)

  function ServeLazy(t: Lazy, now: int, window: int, limit: int): Lazy {
    var record := Hit(t.record, now, window);
    Lazy(Some(record), if record.count <= limit then t.admitted + [now] else t.admitted)
  }

  function RunLazy(times: seq<int>, window: int, limit: int): Lazy {
    if times == [] then Lazy(None, [])
    else ServeLazy(RunLazy(times[..|times| - 1], window, limit), times[|times| - 1], window, limit)
  }

  ghost predicate Ordered(times: seq<int>) {
    forall i, j :: 0 <= i < j < |times| ==> times[i] <= times[j]
  }

  function Start(record: Record, window: int): int {
    record.resetAt - window
  }

  /**
   * The current window starts with an admission and holds at most `limit`; of the window length before it,
   * at most `limit - 1` admissions remain, since the admission that opened the previous window is older.
   */
  ghost predicate WindowCounts(record: Record, admitted: seq<int>, last: int, window: int, limit: int) {
    var start := Start(record, window);
    && record.count >= 1 && start <= last <= record.resetAt
    && CountIn(admitted, start - 1, last) <= Min(record.count, limit)
    && CountIn(admitted, start, last) <= Min(record.count, limit) - 1
    && CountIn(admitted, start - window - 1, start - 1) <= limit - 1
  }

  ghost predicate LazySound(t: Lazy, last: int, window: int, limit: int) {
    && (forall i :: 0 <= i < |t.admitted| ==> t.admitted[i] <= last)
    && Spaced(t.admitted, window + 1, 2 * limit - 1)
    && (t.record.None? ==> t.admitted == [])
    && (t.record.Some? ==> WindowCounts(t.record.value, t.admitted, last, window, limit))
  }

  function Min(a: int, b: int): int {
    if a < b then a else b
  }

  lemma {:induction false} NoneAfter(times: seq<int>, lo: int, hi: int)
    requires forall i :: 0 <= i < |times| ==> times[i] <= lo
    ensures CountIn(times, lo, hi) == 0
  {
    if times != [] {
      NoneAfter(times[..|times| - 1], lo, hi);
    }
  }

  lemma SpacedAppend(times: seq<int>, t: int, window: int, limit: int)
    requires Spaced(times, window, limit) && forall i :: 0 <= i < |times| ==> times[i] <= t
    requires CountIn(times, t - window, t) < limit
    ensures Spaced(times + [t], window, limit)
  {
    assert (times + [t])[..|times|] == times;
  }

  /** The admissions a new window still sees behind it all follow the opening of the previous window. */
  lemma CountsOpen(t: Lazy, last: int, now: int, window: int, limit: int)
    requires LazySound(t, last, window, limit) && last <= now && limit >= 1 && window >= 0
    requires t.record.None? || now > t.record.value.resetAt
    ensures forall i :: 0 <= i < |t.admitted| ==> t.admitted[i] < now
    ensures CountIn(t.admitted, now - window - 1, now - 1) <= limit - 1
    ensures CountIn(t.admitted, now - window - 1, now) <= limit - 1
  {
    if t.record.Some? {
      CountMonotone(t.admitted, now - window - 1, now - 1, Start(t.record.value, window), last);
    }
    NoneAfter(t.admitted, now - 1, now);
    CountSplit(t.admitted, now - window - 1, now - 1, now);
  }

  lemma FreshCounts(admitted: seq<int>, now: int, window: int, limit: int)
    requires limit >= 1 && window >= 0
    requires forall i :: 0 <= i < |admitted| ==> admitted[i] < now
    requires CountIn(admitted, now - window - 1, now - 1) <= limit - 1
    ensures WindowCounts(Record(1, now + window), admitted + [now], now, window, limit)
  {
    NoneAfter(admitted, now - 1, now);
    NoneAfter(admitted, now, now);
    CountAppend(admitted, now, now - 1, now);
    CountAppend(admitted, now, now, now);
    CountAppend(admitted, now, now - window - 1, now - 1);
  }

  lemma LazyOpens(t: Lazy, last: int, now: int, window: int, limit: int)
    requires LazySound(t, last, window, limit) && last <= now && limit >= 1 && window >= 0
    requires t.record.None? || now > t.record.value.resetAt
    ensures LazySound(ServeLazy(t, now, window, limit), now, window, limit)
  {
    CountsOpen(t, last, now, window, limit);
    FreshCounts(t.admitted, now, window, limit);
    SpacedAppend(t.admitted, now, window + 1, 2 * limit - 1);
    assert ServeLazy(t, now, window, limit) == Lazy(Some(Record(1, now + window)), t.admitted + [now]);
  }

  lemma CountsAdvance(record: Record, admitted: seq<int>, last: int, now: int, window: int, limit: int)
    requires WindowCounts(record, admitted, last, window, limit) && last <= now <= record.resetAt
    requires forall i :: 0 <= i < |admitted| ==> admitted[i] <= last
    ensures var next := Record(record.count + 1, record.resetAt);
            WindowCounts(next, if next.count <= limit then admitted + [now] else admitted, now, window, limit)
  {
    hide CountIn;
    var start := Start(record, window);
    CountUpTo(admitted, start - 1, last, now);
    CountUpTo(admitted, start, last, now);
    CountAppend(admitted, now, start - 1, now);
    CountAppend(admitted, now, start, now);
    CountAppend(admitted, now, start - window - 1, start - 1);
  }

  lemma CountsAllow(record: Record, admitted: seq<int>, last: int, now: int, window: int, limit: int)
    requires WindowCounts(record, admitted, last, window, limit) && last <= now <= record.resetAt
    requires forall i :: 0 <= i < |admitted| ==> admitted[i] <= last
    requires record.count + 1 <= limit
    ensures CountIn(admitted, now - window - 1, now) < 2 * limit - 1
  {
    var start := Start(record, window);
    CountUpTo(admitted, start - 1, last, now);
    CountSplit(admitted, start - window - 1, start - 1, now);
    CountMonotone(admitted, now - window - 1, now, start - window - 1, now);
  }

  lemma LazyContinues(t: Lazy, last: int, now: int, window: int, limit: int)
    requires LazySound(t, last, window, limit) && last <= now && limit >= 1 && window >= 0
    requires t.record.Some? && now <= t.record.value.resetAt
    ensures LazySound(ServeLazy(t, now, window, limit), now, window, limit)
  {
    hide CountIn, Spaced;
    CountsAdvance(t.record.value, t.admitted, last, now, window, limit);
    if t.record.value.count + 1 <= limit {
      CountsAllow(t.record.value, t.admitted, last, now, window, limit);
      SpacedAppend(t.admitted, now, window + 1, 2 * limit - 1);
    }
  }

  function LastOf(times: seq<int>, now: int): int {
    if times == [] then now else times[|times| - 1]
  }

  lemma {:induction false} LazyRunSound(times: seq<int>, window: int, limit: int, now: int)
    requires Ordered(times) && limit >= 1 && window >= 0
    ensures LazySound(RunLazy(times, window, limit), LastOf(times, now), window, limit)
  {
    if times != [] {
      var init, t := times[..|times| - 1], times[|times| - 1];
      LazyRunSound(init, window, limit, t);
      var before := RunLazy(init, window, limit);
      if before.record.None? || t > before.record.value.resetAt {
        LazyOpens(before, LastOf(init, t), t, window, limit);
      } else {
        LazyContinues(before, LastOf(init, t), t, window, limit);
      }
    }
  }

  /** Over every run, a closed interval of one window length holds fewer than twice the limit of admissions. */
  lemma LazyIntervalBound(times: seq<int>, window: int, limit: int, from: int)
    requires Ordered(times) && limit >= 1 && window >= 0
    ensures CountIn(RunLazy(times, window, limit).admitted, from - 1, from + window) <= 2 * limit - 1
  {
    LazyRunSound(times, window, limit, 0);
    SpacedBound(RunLazy(times, window, limit).admitted, window + 1, 2 * limit - 1, from - 1, from + window);
  }

  /** Every window holds at most `limit` admissions: those of the record last opened. */
  lemma LazyWindowBound(times: seq<int>, window: int, limit: int)
    requires Ordered(times) && limit >= 1 && window >= 0 && times != []
    ensures var t, last := RunLazy(times, window, limit), times[|times| - 1];
            && t.record.Some? && last <= t.record.value.resetAt
            && CountIn(t.admitted, Start(t.record.value, window) - 1, last) <= limit
  {
    LazyRunSound(times, window, limit, 0);
    assert RunLazy(times, window, limit).record.Some?;
  }

  /** `n` requests of one instant. */
  function Repeat(t: int, n: nat): (r: seq<int>)
    ensures |r| == n && forall i :: 0 <= i < n ==> r[i] == t
  {
    if n == 0 then [] else Repeat(t, n - 1) + [t]
  }

  lemma LazyAppend(times: seq<int>, t: int, window: int, limit: int)
    ensures RunLazy(times + [t], window, limit) == ServeLazy(RunLazy(times, window, limit), t, window, limit)
  {
    assert (times + [t])[..|times|] == times;
  }

  /** Within the window and the limit every one of them is admitted. */
  lemma {:induction false} LazyRepeats(times: seq<int>, t: int, n: nat, window: int, limit: int, lo: int, hi: int)
    requires var s := RunLazy(times, window, limit);
             s.record.Some? && t <= s.record.value.resetAt && s.record.value.count + n <= limit
    ensures var s, after := RunLazy(times, window, limit), RunLazy(times + Repeat(t, n), window, limit);
            && after.record == Some(s.record.value.(count := s.record.value.count + n))
            && CountIn(after.admitted, lo, hi) == CountIn(s.admitted, lo, hi) + (if lo < t <= hi then n else 0)
  {
    hide RunLazy, CountIn;
    if n == 0 {
      assert times + Repeat(t, 0) == times;
    } else {
      LazyRepeats(times, t, n - 1, window, limit, lo, hi);
      var before := times + Repeat(t, n - 1);
      assert times + Repeat(t, n) == before + [t];
      LazyAppend(before, t, window, limit);
      CountAppend(RunLazy(before, window, limit).admitted, t, lo, hi);
    }
  }

  lemma LazyOpening(window: int, limit: int)
    requires window >= 1 && limit >= 1
    ensures RunLazy([0], window, limit) == Lazy(Some(Record(1, window)), [0])
    ensures CountIn([0], 0, window + 1) == 0
  {
    assert [0][..0] == [];
    LazyAppend([], 0, window, limit);
    assert [] + [0] == [0];
  }

  /** Beyond its deadline a record gives way to a new one. */
  lemma LazyReopens(times: seq<int>, t: int, window: int, limit: int, lo: int, hi: int)
    requires limit >= 1 && lo < t <= hi
    requires var s := RunLazy(times, window, limit); s.record.Some? && t > s.record.value.resetAt
    ensures var s, after := RunLazy(times, window, limit), RunLazy(times + [t], window, limit);
            && after.record == Some(Record(1, t + window))
            && CountIn(after.admitted, lo, hi) == CountIn(s.admitted, lo, hi) + 1
  {
    hide RunLazy, CountIn;
    LazyAppend(times, t, window, limit);
    CountAppend(RunLazy(times, window, limit).admitted, t, lo, hi);
  }

  /** The interval bound is reached for every limit: one request opens the window, the others come at both its ends. */
  lemma LazyBoundTight(window: int, limit: int) returns (times: seq<int>)
    requires window >= 1 && limit >= 1
    ensures Ordered(times) && CountIn(RunLazy(times, window, limit).admitted, 0, window + 1) == 2 * limit - 1
  {
    hide RunLazy, CountIn, Repeat;
    var first := [0] + Repeat(window, limit - 1);
    LazyOpening(window, limit);
    LazyRepeats([0], window, limit - 1, window, limit, 0, window + 1);
    LazyReopens(first, window + 1, window, limit, 0, window + 1);
    LazyRepeats(first + [window + 1], window + 1, limit - 1, window, limit, 0, window + 1);
    times := first + [window + 1] + Repeat(window + 1, limit - 1);
  }

  // ── The minute-aligned counter in Redis ────────────────────────────────────

  const MINUTE := 60_000

  /** A counter key with its EXPIRE deadline, if one was set. */
  datatype Counter = Counter(count: nat, deadline: Option<int>)

  function LimitOf(plan: string): int {
    if plan == "standard" then 120 else if plan == "enterprise" then 300 else 60
  }

  predicate Alive(c: Counter, now: int) {
    c.deadline.None? || now < c.deadline.value
  }

  /** `INCR`, and `EXPIRE key 60` when the result is 1. */
  function Increment(c: Option<Counter>, now: int): Counter {
    if c.Some? && Alive(c.value, now) then
      var count := c.value.count + 1;
      Counter(count, if count == 1 then Some(now + MINUTE) else c.value.deadline)
    else Counter(1, Some(now + MINUTE))
  }

  class TenantRateLimitGuard {
    var counters: map<(string, int), Counter>

    constructor ()
      ensures counters == map[]
    {
      counters := map[];
    }

    function Lookup(key: (string, int)): Option<Counter>
      reads this
    {
      if key in counters then Some(counters[key]) else None
    }

    /** The counting part of `canActivate`: the current minute's counter, compared with the plan's limit. */
    method CanActivate(tenant: string, plan: string, now: int) returns (allowed: bool)
      modifies this
      ensures var key := (tenant, now / 60_000);
              && counters == old(counters)[key := Increment(old(Lookup(key)), now)]
              && (plan == "enterprise" ==> (allowed <==> counters[key].count <= 300))
              && (plan == "standard" ==> (allowed <==> counters[key].count <= 120))
              && (plan != "enterprise" && plan != "standard" ==> (allowed <==> counters[key].count <= 60))
    {
      var key := (tenant, now / MINUTE);
      var found := Lookup(key);
      if found.Some? && !Alive(found.value, now) {
        found := None;
      }
      var current := if found.Some? then found.value.count + 1 else 1;
      counters := counters[key := Counter(current, if found.Some? then found.value.deadline else None)];
      if current == 1 {
        counters := counters[key := Counter(current, Some(now + MINUTE))];
      }
      allowed := current <= LimitOf(plan);
    }
  }

  /** The counters of one tenant by minute, and the instants admitted. */
  datatype Aligned = Aligned(counters: map<int, Counter>, admitted: seq<int>)

  function CounterAt(t: Aligned, minute: int): Option<Counter> {
    if minute in t.counters then Some(t.counters[minute]) else None
  }

  function ServeAligned(t: Aligned, now: int, limit: int): Aligned {
    var c := Increment(CounterAt(t, now / MINUTE), now);
    Aligned(t.counters[now / MINUTE := c], if c.count <= limit then t.admitted + [now] else t.admitted)
  }

  function RunAligned(times: seq<int>, limit: int): Aligned {
    if times == [] then Aligned(map[], [])
    else ServeAligned(RunAligned(times[..|times| - 1], limit), times[|times| - 1], limit)
  }

  /** How many requests of the run fell into a minute. */
  function RequestsIn(times: seq<int>, minute: int): nat {
    if times == [] then 0
    else (if times[|times| - 1] / MINUTE == minute then 1 else 0) + RequestsIn(times[..|times| - 1], minute)
  }

  /**
   * Expiry is invisible: a minute's counter holds every request of that minute, as if it never expired, because
   * its deadline lies beyond the minute; so the counter admits exactly the first `limit` requests of each minute.
   */
  lemma {:induction false} CounterNeverForgets(times: seq<int>, limit: int, minute: int)
    ensures var c := CounterAt(RunAligned(times, limit), minute);
            && (c.None? <==> RequestsIn(times, minute) == 0)
            && (c.Some? ==>
                  c.value.count == RequestsIn(times, minute)
                  && c.value.deadline.Some? && c.value.deadline.value >= (minute + 1) * MINUTE)
  {
    if times != [] {
      CounterNeverForgets(times[..|times| - 1], limit, minute);
    }
  }

  lemma InMinute(t: int, minute: int)
    ensures minute * MINUTE - 1 < t <= (minute + 1) * MINUTE - 1 <==> t / MINUTE == minute
  {
    var q, r := t / MINUTE, t % MINUTE;
    assert t == q * MINUTE + r && 0 <= r < MINUTE;
  }

  lemma {:induction false} AlignedMinuteBound(times: seq<int>, limit: int, minute: int)
    requires limit >= 0
    ensures CountIn(RunAligned(times, limit).admitted, minute * 60_000 - 1, (minute + 1) * 60_000 - 1)
         == (if RequestsIn(times, minute) < limit then RequestsIn(times, minute) else limit)
  {
    if times != [] {
      var init, t := times[..|times| - 1], times[|times| - 1];
      AlignedMinuteBound(init, limit, minute);
      InMinute(t, minute);
      CounterNeverForgets(init, limit, t / MINUTE);
      CountAppend(RunAligned(init, limit).admitted, t, minute * MINUTE - 1, (minute + 1) * MINUTE - 1);
    }
  }

  /** Over every run, a closed interval of one minute holds at most twice the limit of admissions. */
  lemma AlignedIntervalBound(times: seq<int>, limit: int, from: int)
    requires limit >= 0
    ensures CountIn(RunAligned(times, limit).admitted, from - 1, from + 60_000) <= 2 * limit
  {
    var m := from / MINUTE;
    var admitted := RunAligned(times, limit).admitted;
    AlignedMinuteBound(times, limit, m);
    AlignedMinuteBound(times, limit, m + 1);
    CountSplit(admitted, m * MINUTE - 1, (m + 1) * MINUTE - 1, (m + 2) * MINUTE - 1);
    CountMonotone(admitted, from - 1, from + MINUTE, m * MINUTE - 1, (m + 2) * MINUTE - 1);
  }

  lemma AlignedAppend(times: seq<int>, t: int, limit: int)
    ensures RunAligned(times + [t], limit) == ServeAligned(RunAligned(times, limit), t, limit)
    ensures forall minute :: RequestsIn(times + [t], minute)
                          == RequestsIn(times, minute) + (if t / MINUTE == minute then 1 else 0)
  {
    assert (times + [t])[..|times|] == times;
  }

  lemma {:induction false} AlignedRepeats(times: seq<int>, t: int, n: nat, limit: int, lo: int, hi: int)
    requires RequestsIn(times, t / MINUTE) + n <= limit && lo < t <= hi
    ensures forall minute :: RequestsIn(times + Repeat(t, n), minute)
                          == RequestsIn(times, minute) + (if t / MINUTE == minute then n else 0)
    ensures CountIn(RunAligned(times + Repeat(t, n), limit).admitted, lo, hi)
         == CountIn(RunAligned(times, limit).admitted, lo, hi) + n
  {
    hide RunAligned, CountIn, RequestsIn;
    if n == 0 {
      assert times + Repeat(t, 0) == times;
    } else {
      AlignedRepeats(times, t, n - 1, limit, lo, hi);
      var before := times + Repeat(t, n - 1);
      assert times + Repeat(t, n) == before + [t];
      AlignedAppend(before, t, limit);
      CounterNeverForgets(before, limit, t / MINUTE);
      CountAppend(RunAligned(before, limit).admitted, t, lo, hi);
    }
  }

  /** The bound is reached for every limit: all of it in the last millisecond of a minute and again in the next one. */
  lemma AlignedBoundTight(limit: nat) returns (times: seq<int>)
    ensures Ordered(times) && CountIn(RunAligned(times, limit).admitted, 0, 60_000) == 2 * limit
  {
    var first, second := MINUTE - 1, MINUTE;
    assert first / MINUTE == 0 && second / MINUTE == 1;
    times := [] + Repeat(first, limit) + Repeat(second, limit);
    AlignedRepeats([], first, limit, limit, 0, MINUTE);
    AlignedRepeats([] + Repeat(first, limit), second, limit, limit, 0, MINUTE);
  }
}
