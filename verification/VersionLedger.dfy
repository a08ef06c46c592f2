/**
 * The activation flags of numbered versions, and what publishing and rolling back do to them. Prompt templates and
 * model configurations both refine this machine.
 */
module VersionLedger {
  import opened Wrappers

  /** Flag `i` tells whether version `i + 1` is active. */
  type Flags = seq<bool>

  datatype Step = Publish | Rollback

  function Only(n: nat, at: int): (r: Flags)
    ensures |r| == n
    ensures forall i :: 0 <= i < n ==> r[i] == (i == at)
  {
    seq(n, i requires 0 <= i < n => i == at)
  }

  /** The highest inactive version's index. */
  function LastInactive(fs: Flags): (r: Option<nat>)
    ensures r.Some? ==> r.value < |fs| && !fs[r.value] && forall i :: r.value < i < |fs| ==> fs[i]
    ensures r.None? ==> forall i :: 0 <= i < |fs| ==> fs[i]
  {
    if fs == [] then None
    else if !fs[|fs| - 1] then Some(|fs| - 1)
    else LastInactive(fs[..|fs| - 1])
  }

  /** None is the refusal: nothing inactive to go back to. */
  function After(fs: Flags, step: Step): Option<Flags> {
    match step
    case Publish => Some(Only(|fs| + 1, |fs|))
    case Rollback =>
      var p := LastInactive(fs);
      if p.None? then None else Some(Only(|fs|, p.value))
  }

  /** Only the last two versions can be active, and once there are two exactly one of them is. */
  ghost predicate Ledger(fs: Flags) {
    var n := |fs|;
    && (forall i :: 0 <= i < n - 2 ==> !fs[i])
    && (n >= 2 ==> fs[n - 1] != fs[n - 2])
  }

  lemma StepKeepsLedger(fs: Flags, step: Step)
    requires Ledger(fs)
    ensures After(fs, step).Some? ==> Ledger(After(fs, step).value)
    ensures After(fs, step).None? <==> step == Rollback && (fs == [] || fs == [true])
  {
    if step == Rollback && |fs| >= 2 {
      assert LastInactive(fs) == Some(if fs[|fs| - 1] then |fs| - 2 else |fs| - 1);
    }
  }

  /** With two versions or more, rolling back twice changes nothing, so no number of rollbacks reaches a third one. */
  lemma RollbackIsInvolution(fs: Flags)
    requires Ledger(fs) && |fs| >= 2
    ensures After(fs, Rollback).Some? && After(fs, Rollback).value != fs
    ensures After(After(fs, Rollback).value, Rollback) == Some(fs)
  {
    var n := |fs|;
    StepKeepsLedger(fs, Rollback);
    assert fs == Only(n, if fs[n - 1] then n - 1 else n - 2);
    var back := After(fs, Rollback).value;
    assert back[n - 1] == !fs[n - 1];
  }

  /** A refused step leaves the flags as they are. */
  function Run(fs: Flags, steps: seq<Step>): Flags {
    if steps == [] then fs
    else
      var before, step := Run(fs, steps[..|steps| - 1]), steps[|steps| - 1];
      if After(before, step).Some? then After(before, step).value else before
  }

  function Publishes(steps: seq<Step>): nat {
    if steps == [] then 0 else Publishes(steps[..|steps| - 1]) + (if steps[|steps| - 1].Publish? then 1 else 0)
  }

  /** From no version or a single one, every run keeps the ledger, and only publishing adds versions. */
  lemma {:induction false} RunKeepsLedger(fs: Flags, steps: seq<Step>)
    requires |fs| <= 1
    ensures Ledger(Run(fs, steps)) && |Run(fs, steps)| == |fs| + Publishes(steps)
  {
    if steps != [] {
      RunKeepsLedger(fs, steps[..|steps| - 1]);
      StepKeepsLedger(Run(fs, steps[..|steps| - 1]), steps[|steps| - 1]);
    }
  }

  /** Which version is active depends on the rollbacks since the last publish: the newest after an even number. */
  lemma {:induction false} RollbacksAlternate(fs: Flags, k: nat)
    requires |fs| >= 1
    ensures Run(fs, [Publish] + Rollbacks(k)) == Only(|fs| + 1, if k % 2 == 0 then |fs| else |fs| - 1)
  {
    var steps := [Publish] + Rollbacks(k);
    if k == 0 {
      assert steps == [Publish] && steps[..0] == [];
      assert Run(fs, []) == fs;
    } else {
      RollbacksAlternate(fs, k - 1);
      assert steps[..|steps| - 1] == [Publish] + Rollbacks(k - 1);
      var before := Run(fs, [Publish] + Rollbacks(k - 1));
      assert LastInactive(before) == Some(if k % 2 == 0 then |fs| else |fs| - 1);
    }
  }

  function Rollbacks(k: nat): (r: seq<Step>)
    ensures |r| == k
    ensures forall i :: 0 <= i < k ==> r[i] == Rollback
  {
    seq(k, i requires 0 <= i < k => Rollback)
  }
}
