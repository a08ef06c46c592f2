/** The increment-then-compensate quota protocol (src/subscription/feature-flag.service.ts). */
module UsageQuota {
  import opened Wrappers

  /** The conflict target of the upsert: (tenant_id, feature, period). */
  datatype UsageKey = UsageKey(tenant: string, feature: string, period: string)

  datatype Flag = Disabled | Unlimited | Limited(limit: int)

  datatype Refusal = NotAvailable | LimitReached

  type Usage = map<UsageKey, int>

  function UsedOf(usage: Usage, key: UsageKey): int {
    if key in usage then usage[key] else 0
  }

  /** `INSERT … ON CONFLICT DO UPDATE SET used = used + 1 RETURNING used`. */
  function Upserted(usage: Usage, key: UsageKey): Usage {
    usage[key := UsedOf(usage, key) + 1]
  }

  /** `UPDATE … SET used = used - 1`: no row, no effect. */
  function Decremented(usage: Usage, key: UsageKey): Usage {
    if key in usage then usage[key := usage[key] - 1] else usage
  }

  class FeatureFlagService {
    var usage: Usage

    constructor ()
      ensures usage == map[]
    {
      usage := map[];
    }

    method UpsertUsage(key: UsageKey) returns (used: int)
      modifies this
      ensures usage == Upserted(old(usage), key)
      ensures used == UsedOf(usage, key) == UsedOf(old(usage), key) + 1
      ensures forall k :: k != key ==> UsedOf(usage, k) == UsedOf(old(usage), k) && (k in usage <==> k in old(usage))
    {
      used := if key in usage then usage[key] + 1 else 1;
      usage := usage[key := used];
    }

    method DecrementUsage(key: UsageKey)
      modifies this
      ensures usage == Decremented(old(usage), key)
    {
      if key in usage {
        usage := usage[key := usage[key] - 1];
      }
    }

    /** `checkAndIncrement` undisturbed by other calls: an atomic test-and-increment. */
    method CheckAndIncrement(key: UsageKey, flag: Flag) returns (r: Result<(), Refusal>)
      modifies this
      ensures var used := UsedOf(old(usage), key);
              match flag
              case Disabled => r == Err(NotAvailable) && usage == old(usage)
              case Unlimited => r == Ok(()) && usage == old(usage)[key := used + 1]
              case Limited(limit) =>
                if used < limit then r == Ok(()) && usage == old(usage)[key := used + 1]
                else r == Err(LimitReached) && usage == old(usage)[key := used]
    {
      if flag.Disabled? {
        return Err(NotAvailable);
      }
      var used := UpsertUsage(key);
      if flag.Unlimited? {
        return Ok(());
      }
      if used > flag.limit {
        DecrementUsage(key);
        return Err(LimitReached);
      }
      return Ok(());
    }
  }

  // ── Every interleaving of calls ────────────────────────────────────────────

  /** Where a limited call stands after its upsert: done, or refused with its decrement still to come. */
  datatype Progress = Admitted | Compensating | Refused

  datatype Call = Call(key: UsageKey, progress: Progress)

  /** The stored counters and the calls made so far; a call that stops for good simply takes no further step. */
  datatype State = State(usage: Usage, calls: seq<Call>)

  datatype Step = Begin(key: UsageKey) | Compensate(call: nat)

  ghost predicate Enabled(s: State, step: Step) {
    step.Compensate? ==> step.call < |s.calls| && s.calls[step.call].progress.Compensating?
  }

  /** One SQL statement of one call, under fixed limits. */
  function Apply(s: State, step: Step, limits: UsageKey -> int): State
    requires Enabled(s, step)
  {
    match step
    case Begin(key) =>
      var usage := Upserted(s.usage, key);
      State(usage, s.calls + [Call(key, if usage[key] > limits(key) then Compensating else Admitted)])
    case Compensate(i) =>
      State(Decremented(s.usage, s.calls[i].key), s.calls[i := s.calls[i].(progress := Refused)])
  }

  function Count(calls: seq<Call>, key: UsageKey, progress: Progress): nat {
    if calls == [] then 0
    else (if calls[|calls| - 1] == Call(key, progress) then 1 else 0) + Count(calls[..|calls| - 1], key, progress)
  }

  function NonNegative(n: int): nat {
    if n < 0 then 0 else n
  }

  /** `used` is admissions plus pending decrements; decrements are pending only once the limit is fully admitted. */
  ghost predicate KeyInvariant(s: State, key: UsageKey, limit: int) {
    var admitted, pending := Count(s.calls, key, Admitted), Count(s.calls, key, Compensating);
    && UsedOf(s.usage, key) == admitted + pending
    && admitted <= NonNegative(limit)
    && (pending > 0 ==> admitted == NonNegative(limit) && key in s.usage)
  }

  ghost predicate Invariant(s: State, limits: UsageKey -> int) {
    forall key :: KeyInvariant(s, key, limits(key))
  }

  lemma CountAppend(calls: seq<Call>, c: Call, key: UsageKey, progress: Progress)
    ensures Count(calls + [c], key, progress) == Count(calls, key, progress) + (if c == Call(key, progress) then 1 else 0)
  {
    assert (calls + [c])[..|calls|] == calls;
  }

  lemma {:induction false} CountUpdate(calls: seq<Call>, i: nat, c: Call, key: UsageKey, progress: Progress)
    requires i < |calls|
    ensures Count(calls[i := c], key, progress) + (if calls[i] == Call(key, progress) then 1 else 0)
         == Count(calls, key, progress) + (if c == Call(key, progress) then 1 else 0)
  {
    var n := |calls| - 1;
    if i == n {
      assert calls[i := c][..n] == calls[..n];
    } else {
      assert calls[i := c][..n] == calls[..n][i := c];
      CountUpdate(calls[..n], i, c, key, progress);
    }
  }

  lemma StepKeepsKey(s: State, step: Step, limits: UsageKey -> int, key: UsageKey)
    requires Invariant(s, limits) && Enabled(s, step)
    ensures KeyInvariant(Apply(s, step, limits), key, limits(key))
  {
    assert KeyInvariant(s, key, limits(key));
    match step {
      case Begin(k) =>
        var c := Apply(s, step, limits).calls[|s.calls|];
        CountAppend(s.calls, c, key, Admitted);
        CountAppend(s.calls, c, key, Compensating);
      case Compensate(i) =>
        var c := s.calls[i].(progress := Refused);
        CountUpdate(s.calls, i, c, key, Admitted);
        CountUpdate(s.calls, i, c, key, Compensating);
    }
  }

  ghost predicate Run(s: State, steps: seq<Step>, limits: UsageKey -> int)
    decreases |steps|
  {
    steps != [] ==> Enabled(s, steps[0]) && Run(Apply(s, steps[0], limits), steps[1..], limits)
  }

  ghost function Final(s: State, steps: seq<Step>, limits: UsageKey -> int): State
    requires Run(s, steps, limits)
    decreases |steps|
  {
    if steps == [] then s else Final(Apply(s, steps[0], limits), steps[1..], limits)
  }

  lemma {:induction false} RunKeepsInvariant(s: State, steps: seq<Step>, limits: UsageKey -> int)
    requires Run(s, steps, limits) && Invariant(s, limits)
    ensures Invariant(Final(s, steps, limits), limits)
    decreases |steps|
  {
    if steps != [] {
      forall key
        ensures KeyInvariant(Apply(s, steps[0], limits), key, limits(key))
      {
        StepKeepsKey(s, steps[0], limits, key);
      }
      RunKeepsInvariant(Apply(s, steps[0], limits), steps[1..], limits);
    }
  }

  /** Safety from zero usage: admissions never pass the limit, and at quiescence `used` is the number of admissions. */
  lemma AdmissionsBounded(steps: seq<Step>, limits: UsageKey -> int, key: UsageKey)
    requires Run(State(map[], []), steps, limits)
    ensures var s := Final(State(map[], []), steps, limits);
            var admitted, pending := Count(s.calls, key, Admitted), Count(s.calls, key, Compensating);
            && admitted <= NonNegative(limits(key))
            && UsedOf(s.usage, key) == admitted + pending
            && (pending == 0 ==> UsedOf(s.usage, key) == admitted)
  {
    RunKeepsInvariant(State(map[], []), steps, limits);
    assert KeyInvariant(Final(State(map[], []), steps, limits), key, limits(key));
  }

  // ── Refinement of an atomic test-and-increment ─────────────────────────────

  /** The verdicts of the calls, in the order of their upserts. */
  function Verdicts(calls: seq<Call>): seq<bool> {
    seq(|calls|, i requires 0 <= i < |calls| => calls[i].progress.Admitted?)
  }

  /** The verdicts of an atomic limiter that admits a call exactly when fewer than the limit were admitted. */
  function AtomicVerdicts(keys: seq<UsageKey>, limits: UsageKey -> int): (r: seq<bool>)
    ensures |r| == |keys|
  {
    if keys == [] then []
    else
      var init, key := keys[..|keys| - 1], keys[|keys| - 1];
      var earlier := AtomicVerdicts(init, limits);
      earlier + [AdmittedOf(init, earlier, key) < limits(key)]
  }

  function AdmittedOf(keys: seq<UsageKey>, verdicts: seq<bool>, key: UsageKey): nat
    requires |keys| == |verdicts|
  {
    if keys == [] then 0
    else
      var n := |keys| - 1;
      (if keys[n] == key && verdicts[n] then 1 else 0) + AdmittedOf(keys[..n], verdicts[..n], key)
  }

  function KeysOf(calls: seq<Call>): seq<UsageKey> {
    seq(|calls|, i requires 0 <= i < |calls| => calls[i].key)
  }

  lemma {:induction false} CountIsAdmittedOf(calls: seq<Call>, key: UsageKey)
    ensures Count(calls, key, Admitted) == AdmittedOf(KeysOf(calls), Verdicts(calls), key)
  {
    if calls != [] {
      var n := |calls| - 1;
      CountIsAdmittedOf(calls[..n], key);
      assert KeysOf(calls)[..n] == KeysOf(calls[..n]) && Verdicts(calls)[..n] == Verdicts(calls[..n]);
    }
  }

  lemma AtomicAppend(keys: seq<UsageKey>, key: UsageKey, limits: UsageKey -> int)
    ensures var earlier := AtomicVerdicts(keys, limits);
            AtomicVerdicts(keys + [key], limits) == earlier + [AdmittedOf(keys, earlier, key) < limits(key)]
  {
    assert (keys + [key])[..|keys|] == keys;
  }

  lemma ViewAppend(calls: seq<Call>, c: Call)
    ensures KeysOf(calls + [c]) == KeysOf(calls) + [c.key]
    ensures Verdicts(calls + [c]) == Verdicts(calls) + [c.progress.Admitted?]
  {
  }

  lemma BeginRefines(calls: seq<Call>, c: Call, limits: UsageKey -> int)
    requires c.progress.Admitted? <==> Count(calls, c.key, Admitted) < limits(c.key)
    requires Verdicts(calls) == AtomicVerdicts(KeysOf(calls), limits)
    ensures Verdicts(calls + [c]) == AtomicVerdicts(KeysOf(calls + [c]), limits)
  {
    CountIsAdmittedOf(calls, c.key);
    AtomicAppend(KeysOf(calls), c.key, limits);
    ViewAppend(calls, c);
  }

  lemma StepRefines(s: State, step: Step, limits: UsageKey -> int)
    requires Invariant(s, limits) && Enabled(s, step)
    requires Verdicts(s.calls) == AtomicVerdicts(KeysOf(s.calls), limits)
    ensures var calls := Apply(s, step, limits).calls; Verdicts(calls) == AtomicVerdicts(KeysOf(calls), limits)
  {
    match step {
      case Begin(key) =>
        assert KeyInvariant(s, key, limits(key));
        BeginRefines(s.calls, Apply(s, step, limits).calls[|s.calls|], limits);
      case Compensate(i) =>
        var calls := Apply(s, step, limits).calls;
        assert KeysOf(calls) == KeysOf(s.calls) && Verdicts(calls) == Verdicts(s.calls);
    }
  }

  /** In every interleaving the calls are admitted and refused exactly as if each were one atomic test-and-increment. */
  lemma {:induction false} RunRefinesAtomic(s: State, steps: seq<Step>, limits: UsageKey -> int)
    requires Run(s, steps, limits) && Invariant(s, limits)
    requires Verdicts(s.calls) == AtomicVerdicts(KeysOf(s.calls), limits)
    ensures var calls := Final(s, steps, limits).calls; Verdicts(calls) == AtomicVerdicts(KeysOf(calls), limits)
    decreases |steps|
  {
    if steps != [] {
      StepRefines(s, steps[0], limits);
      forall key
        ensures KeyInvariant(Apply(s, steps[0], limits), key, limits(key))
      {
        StepKeepsKey(s, steps[0], limits, key);
      }
      RunRefinesAtomic(Apply(s, steps[0], limits), steps[1..], limits);
    }
  }

  /** A call is refused only when its limit was already fully admitted. */
  lemma RefusedOnlyWhenFull(s: State, key: UsageKey, limits: UsageKey -> int)
    requires Invariant(s, limits)
    ensures var after := Apply(s, Begin(key), limits);
            after.calls[|s.calls|].progress.Compensating?
            <==> Count(s.calls, key, Admitted) == NonNegative(limits(key))
  {
    assert KeyInvariant(s, key, limits(key));
  }

  // ── Limits that change ─────────────────────────────────────────────────────

  /** A step and the limits its call has read. */
  datatype Seen = Seen(step: Step, limits: UsageKey -> int)

  /** From zero usage, each step under limits of its own. */
  ghost predicate RunSeeing(seen: seq<Seen>)
    decreases |seen|, 0
  {
    seen != [] ==>
      RunSeeing(seen[..|seen| - 1]) && Enabled(After(seen[..|seen| - 1]), seen[|seen| - 1].step)
  }

  ghost function After(seen: seq<Seen>): State
    requires RunSeeing(seen)
    decreases |seen|, 1
  {
    if seen == [] then State(map[], [])
    else Apply(After(seen[..|seen| - 1]), seen[|seen| - 1].step, seen[|seen| - 1].limits)
  }

  /** `used` is admissions plus pending decrements, whatever the limits were, and admissions stay within the bound. */
  ghost predicate Accounted(s: State, key: UsageKey, bound: int) {
    var admitted, pending := Count(s.calls, key, Admitted), Count(s.calls, key, Compensating);
    && UsedOf(s.usage, key) == admitted + pending && (pending > 0 ==> key in s.usage)
    && admitted <= NonNegative(bound)
  }

  lemma StepKeepsAccount(s: State, step: Step, limits: UsageKey -> int, key: UsageKey, bound: int)
    requires Accounted(s, key, bound) && Enabled(s, step) && limits(key) <= bound
    ensures Accounted(Apply(s, step, limits), key, bound)
  {
    match step {
      case Begin(k) =>
        var c := Apply(s, step, limits).calls[|s.calls|];
        CountAppend(s.calls, c, key, Admitted);
        CountAppend(s.calls, c, key, Compensating);
      case Compensate(i) =>
        var c := s.calls[i].(progress := Refused);
        CountUpdate(s.calls, i, c, key, Admitted);
        CountUpdate(s.calls, i, c, key, Compensating);
    }
  }

  /** Over every run under changing limits `used` is accounted for, and admissions never pass the highest limit seen. */
  lemma {:induction false} RunKeepsAccount(seen: seq<Seen>, key: UsageKey, bound: int)
    requires RunSeeing(seen) && forall i :: 0 <= i < |seen| ==> seen[i].limits(key) <= bound
    ensures Accounted(After(seen), key, bound)
  {
    if seen != [] {
      var init, last := seen[..|seen| - 1], seen[|seen| - 1];
      RunKeepsAccount(init, key, bound);
      StepKeepsAccount(After(init), last.step, last.limits, key, bound);
    }
  }

  /**
   * After every run under changing limits a call is refused exactly when admissions and pending decrements together
   * reach the limit it sees.
   */
  lemma RefusedExactly(seen: seq<Seen>, key: UsageKey, limits: UsageKey -> int)
    requires RunSeeing(seen)
    ensures var s := After(seen);
            var admitted, pending := Count(s.calls, key, Admitted), Count(s.calls, key, Compensating);
            var refused := Apply(s, Begin(key), limits).calls[|s.calls|].progress.Compensating?;
            refused <==> limits(key) <= admitted + pending
  {
    RunKeepsAccount(seen, key, HighestSeen(seen, key));
  }

  function HighestSeen(seen: seq<Seen>, key: UsageKey): (bound: int)
    ensures forall i :: 0 <= i < |seen| ==> seen[i].limits(key) <= bound
  {
    if seen == [] then 0
    else
      var earlier, last := HighestSeen(seen[..|seen| - 1], key), seen[|seen| - 1].limits(key);
      if earlier < last then last else earlier
  }

  lemma SeenAppend(seen: seq<Seen>, next: Seen)
    requires RunSeeing(seen) && Enabled(After(seen), next.step)
    ensures RunSeeing(seen + [next]) && After(seen + [next]) == Apply(After(seen), next.step, next.limits)
  {
    assert (seen + [next])[..|seen|] == seen;
  }

  /** `n` calls under a limit of `limit` and no decrement: one beyond the limit is left pending. */
  lemma {:induction false} Calls(key: UsageKey, limit: nat, n: nat) returns (seen: seq<Seen>)
    requires n <= limit + 1
    ensures RunSeeing(seen)
    ensures Count(After(seen).calls, key, Admitted) == if n <= limit then n else limit
    ensures Count(After(seen).calls, key, Compensating) == if n <= limit then 0 else 1
    ensures UsedOf(After(seen).usage, key) == n
  {
    if n == 0 {
      seen := [];
    } else {
      var init := Calls(key, limit, n - 1);
      var next := Seen(Begin(key), (k: UsageKey) => limit);
      SeenAppend(init, next);
      var s := After(init);
      CountAppend(s.calls, Apply(s, Begin(key), next.limits).calls[|s.calls|], key, Admitted);
      CountAppend(s.calls, Apply(s, Begin(key), next.limits).calls[|s.calls|], key, Compensating);
      seen := init + [next];
    }
  }

  /** A refused call that stopped before its decrement: when the limit is raised by one, the next call is refused too. */
  lemma StoppedCallCostsRaisedLimit(key: UsageKey, limit: nat) returns (seen: seq<Seen>)
    ensures RunSeeing(seen)
    ensures var s, raised := After(seen), (k: UsageKey) => limit + 1;
            && Count(s.calls, key, Admitted) == limit < raised(key)
            && Apply(s, Begin(key), raised).calls[|s.calls|].progress.Compensating?
  {
    seen := Calls(key, limit, limit + 1);
  }
}
