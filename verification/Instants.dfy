/** Counting the instants (milliseconds) at which requests were admitted. */
module Instants {

  /** How many instants lie after `lo` and up to `hi`. */
  function CountIn(times: seq<int>, lo: int, hi: int): nat {
    if times == [] then 0
    else (if lo < times[|times| - 1] <= hi then 1 else 0) + CountIn(times[..|times| - 1], lo, hi)
  }

  lemma {:induction false} CountMonotone(times: seq<int>, lo: int, hi: int, lo': int, hi': int)
    requires forall i :: 0 <= i < |times| && lo < times[i] <= hi ==> lo' < times[i] <= hi'
    ensures CountIn(times, lo, hi) <= CountIn(times, lo', hi')
  {
    if times != [] {
      CountMonotone(times[..|times| - 1], lo, hi, lo', hi');
    }
  }

  lemma CountAppend(times: seq<int>, t: int, lo: int, hi: int)
    ensures CountIn(times + [t], lo, hi) == CountIn(times, lo, hi) + (if lo < t <= hi then 1 else 0)
  {
    assert (times + [t])[..|times|] == times;
  }

  lemma CountUpTo(times: seq<int>, lo: int, hi: int, hi': int)
    requires hi <= hi' && forall i :: 0 <= i < |times| ==> times[i] <= hi
    ensures CountIn(times, lo, hi) == CountIn(times, lo, hi')
  {
    CountMonotone(times, lo, hi, lo, hi');
    CountMonotone(times, lo, hi', lo, hi);
  }

  lemma {:induction false} CountSplit(times: seq<int>, lo: int, mid: int, hi: int)
    requires lo <= mid <= hi
    ensures CountIn(times, lo, hi) == CountIn(times, lo, mid) + CountIn(times, mid, hi)
  {
    if times != [] {
      CountSplit(times[..|times| - 1], lo, mid, hi);
    }
  }

  /** Each admission found fewer than `limit` earlier ones in the window ending at it. */
  ghost predicate Spaced(times: seq<int>, window: int, limit: int) {
    times != [] ==>
      var init, t := times[..|times| - 1], times[|times| - 1];
      && Spaced(init, window, limit)
      && (forall i :: 0 <= i < |init| ==> init[i] <= t)
      && CountIn(init, t - window, t) < limit
  }

  function NonNegative(n: int): nat {
    if n < 0 then 0 else n
  }

  lemma {:induction false} SpacedBound(times: seq<int>, window: int, limit: int, lo: int, hi: int)
    requires Spaced(times, window, limit) && hi - lo <= window
    ensures CountIn(times, lo, hi) <= NonNegative(limit)
  {
    if times != [] {
      var init, t := times[..|times| - 1], times[|times| - 1];
      SpacedBound(init, window, limit, lo, hi);
      if lo < t <= hi {
        CountMonotone(init, lo, hi, t - window, t);
      }
    }
  }
}
