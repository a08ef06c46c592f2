/** Interquartile fences and unusual payments, over exact numbers (src/anomaly/anomaly.detector.ts). */
module PaymentAnomalies {

  datatype Payment = Payment(id: string, amount: real, hour: real)

  datatype Flag = Flag(id: string, amountFlag: bool, hourFlag: bool, score: real)

  predicate Ascending(s: seq<real>) {
    forall i, j :: 0 <= i <= j < |s| ==> s[i] <= s[j]
  }

  function Insert(s: seq<real>, v: real): seq<real> {
    if s == [] then [v]
    else if v <= s[0] then [v] + s
    else [s[0]] + Insert(s[1..], v)
  }

  /** `[...values].sort((a, b) => a - b)`. */
  function Sort(values: seq<real>): seq<real> {
    if values == [] then [] else Insert(Sort(values[1..]), values[0])
  }

  lemma {:induction false} InsertValues(s: seq<real>, v: real)
    ensures multiset(Insert(s, v)) == multiset(s) + multiset{v}
  {
    if s != [] {
      assert s == [s[0]] + s[1..];
      InsertValues(s[1..], v);
    }
  }

  lemma ConsAscends(low: real, t: seq<real>)
    requires Ascending(t) && (t != [] ==> low <= t[0])
    ensures Ascending([low] + t)
  {
    var r := [low] + t;
    forall i, j | 0 <= i <= j < |r|
      ensures r[i] <= r[j]
    {
      if i == 0 && j > 0 {
        assert t[0] <= t[j - 1];
      }
    }
  }

  lemma {:induction false} InsertAscends(s: seq<real>, v: real)
    requires Ascending(s)
    ensures var r := Insert(s, v);
            Ascending(r) && r != [] && r[0] == (if s != [] && s[0] < v then s[0] else v)
    decreases |s|
  {
    if s != [] {
      if v <= s[0] {
        ConsAscends(v, s);
      } else {
        InsertAscends(s[1..], v);
        ConsAscends(s[0], Insert(s[1..], v));
      }
    }
  }

  /** Sorting yields the ascending arrangement of the values. */
  lemma {:induction false} SortAscends(values: seq<real>)
    ensures Ascending(Sort(values)) && multiset(Sort(values)) == multiset(values)
    ensures |Sort(values)| == |values|
  {
    if values != [] {
      var rest, v := Sort(values[1..]), values[0];
      SortAscends(values[1..]);
      InsertValues(rest, v);
      InsertAscends(rest, v);
      assert values == [v] + values[1..];
      assert |multiset(Sort(values))| == |multiset(values)|;
    }
  }

  lemma TailValues<T>(s: seq<T>)
    requires s != []
    ensures multiset(s[1..]) == multiset(s) - multiset{s[0]}
  {
    assert s == [s[0]] + s[1..];
  }

  lemma SameFirst(s: seq<real>, t: seq<real>)
    requires Ascending(s) && Ascending(t) && multiset(s) == multiset(t) && s != [] && t != []
    ensures s[0] == t[0]
  {
    assert s[0] in multiset(t) && t[0] in multiset(s);
    assert s[0] in t && t[0] in s;
  }

  /** An ascending sequence is determined by its values. */
  lemma {:induction false} AscendingUnique(s: seq<real>, t: seq<real>)
    requires Ascending(s) && Ascending(t) && multiset(s) == multiset(t)
    ensures s == t
    decreases |s|
  {
    assert |s| == |multiset(s)| == |multiset(t)| == |t|;
    if s != [] {
      SameFirst(s, t);
      TailValues(s);
      TailValues(t);
      AscendingUnique(s[1..], t[1..]);
      assert s == [s[0]] + s[1..] && t == [t[0]] + t[1..];
    }
  }

  lemma SortIgnoresOrder(a: seq<real>, b: seq<real>)
    requires multiset(a) == multiset(b)
    ensures Sort(a) == Sort(b)
  {
    SortAscends(a);
    SortAscends(b);
    AscendingUnique(Sort(a), Sort(b));
  }

  datatype Fences = Fences(lower: real, upper: real)

  /** `iqrBounds`: the quartiles at positions floor(n / 4) and floor(3n / 4) of the sorted values. */
  function IqrBounds(values: seq<real>): Fences
    requires |values| >= 1
  {
    SortAscends(values);
    FencesOf(Sort(values))
  }

  function FencesOf(sorted: seq<real>): Fences
    requires |sorted| >= 1
  {
    var q1, q3 := sorted[|sorted| / 4], sorted[|sorted| * 3 / 4];
    var iqr := q3 - q1;
    Fences(q1 - 1.5 * iqr, q3 + 1.5 * iqr)
  }

  lemma FencesOrdered(values: seq<real>)
    requires |values| >= 1
    ensures var n := |values|;
            && |Sort(values)| == n
            && IqrBounds(values).lower <= Sort(values)[n / 4] <= Sort(values)[n * 3 / 4] <= IqrBounds(values).upper
  {
    SortAscends(values);
  }

  function CountAbove(values: seq<real>, x: real): nat {
    if values == [] then 0 else (if values[0] > x then 1 else 0) + CountAbove(values[1..], x)
  }

  function CountBelow(values: seq<real>, x: real): nat {
    if values == [] then 0 else (if values[0] < x then 1 else 0) + CountBelow(values[1..], x)
  }

  lemma {:induction false} InsertCounts(s: seq<real>, v: real, x: real)
    ensures CountAbove(Insert(s, v), x) == CountAbove(s, x) + (if v > x then 1 else 0)
    ensures CountBelow(Insert(s, v), x) == CountBelow(s, x) + (if v < x then 1 else 0)
  {
    if s == [] {
      assert [v][1..] == [];
    } else if v <= s[0] {
      assert ([v] + s)[1..] == s;
    } else {
      InsertCounts(s[1..], v, x);
      assert ([s[0]] + Insert(s[1..], v))[1..] == Insert(s[1..], v);
    }
  }

  lemma {:induction false} SortCounts(values: seq<real>, x: real)
    ensures CountAbove(Sort(values), x) == CountAbove(values, x)
    ensures CountBelow(Sort(values), x) == CountBelow(values, x)
  {
    if values != [] {
      SortCounts(values[1..], x);
      InsertCounts(Sort(values[1..]), values[0], x);
    }
  }

  lemma {:induction false} AscendingCounts(s: seq<real>, k: nat, x: real)
    requires Ascending(s) && k < |s|
    ensures x >= s[k] ==> CountAbove(s, x) <= |s| - 1 - k
    ensures x <= s[k] ==> CountBelow(s, x) <= k
    decreases |s|
  {
    CountsAtMost(s, x);
    if k > 0 {
      AscendingCounts(s[1..], k - 1, x);
    } else if x >= s[0] {
      CountsAtMost(s[1..], x);
    } else {
      NoneBelow(s, x);
    }
    if k == 0 && x <= s[0] {
      NoneBelow(s, x);
    }
  }

  lemma {:induction false} CountsAtMost(s: seq<real>, x: real)
    ensures CountAbove(s, x) <= |s| && CountBelow(s, x) <= |s|
  {
    if s != [] {
      CountsAtMost(s[1..], x);
    }
  }

  lemma {:induction false} NoneBelow(s: seq<real>, x: real)
    requires forall i :: 0 <= i < |s| ==> x <= s[i]
    ensures CountBelow(s, x) == 0
  {
    if s != [] {
      NoneBelow(s[1..], x);
    }
  }

  /** Fewer than a quarter lie above the upper fence and at most a quarter below the lower one. */
  lemma FewOutside(values: seq<real>)
    requires |values| >= 1
    ensures CountAbove(values, IqrBounds(values).upper) <= (|values| + 3) / 4 - 1
    ensures CountBelow(values, IqrBounds(values).lower) <= |values| / 4
  {
    var n, fences := |values|, IqrBounds(values);
    FencesOrdered(values);
    SortAscends(values);
    SortCounts(values, fences.upper);
    SortCounts(values, fences.lower);
    AscendingCounts(Sort(values), n * 3 / 4, fences.upper);
    AscendingCounts(Sort(values), n / 4, fences.lower);
  }

  // ── Unusual payments ───────────────────────────────────────────────────────

  function Amounts(payments: seq<Payment>): (r: seq<real>)
    ensures |r| == |payments|
    ensures forall i :: 0 <= i < |r| ==> r[i] == payments[i].amount
  {
    if payments == [] then [] else [payments[0].amount] + Amounts(payments[1..])
  }

  function Hours(payments: seq<Payment>): (r: seq<real>)
    ensures |r| == |payments|
    ensures forall i :: 0 <= i < |r| ==> r[i] == payments[i].hour
  {
    if payments == [] then [] else [payments[0].hour] + Hours(payments[1..])
  }

  function FlagOf(p: Payment, ceiling: real, window: Fences): Flag {
    var amountFlag, hourFlag := p.amount > ceiling, p.hour < window.lower || p.hour > window.upper;
    var sum := (if amountFlag then 0.5 else 0.0) + (if hourFlag then 0.3 else 0.0);
    Flag(p.id, amountFlag, hourFlag, if sum < 1.0 then sum else 1.0)
  }

  function FlagAll(payments: seq<Payment>, ceiling: real, window: Fences): seq<Flag> {
    if payments == [] then []
    else
      var f := FlagOf(payments[0], ceiling, window);
      (if f.amountFlag || f.hourFlag then [f] else []) + FlagAll(payments[1..], ceiling, window)
  }

  /** `detectUnusualPayments`. */
  function DetectUnusualPayments(payments: seq<Payment>): seq<Flag> {
    if |payments| < 10 then []
    else FlagAll(payments, IqrBounds(Amounts(payments)).upper, IqrBounds(Hours(payments)))
  }

  /** Is the flag that of one of the payments, given the ceiling and the window? */
  ghost predicate Deserves(payments: seq<Payment>, f: Flag, ceiling: real, window: Fences) {
    exists i :: 0 <= i < |payments| && Explains(payments[i], f, ceiling, window)
  }

  /** The flag names the payment and its reasons, and its score tells which of the two reasons hold. */
  predicate Explains(p: Payment, f: Flag, ceiling: real, window: Fences) {
    && f.id == p.id
    && (f.amountFlag <==> p.amount > ceiling)
    && (f.hourFlag <==> !(window.lower <= p.hour <= window.upper))
    && (f.amountFlag || f.hourFlag)
    && f.score == (if !f.hourFlag then 0.5 else if !f.amountFlag then 0.3 else 0.8)
  }

  lemma {:induction false} FlagAllExactly(payments: seq<Payment>, ceiling: real, window: Fences, f: Flag)
    ensures f in FlagAll(payments, ceiling, window) <==> Deserves(payments, f, ceiling, window)
    decreases |payments|
  {
    if payments != [] {
      FlagAllExactly(payments[1..], ceiling, window, f);
      if Deserves(payments[1..], f, ceiling, window) {
        var i :| 0 <= i < |payments[1..]| && Explains(payments[1..][i], f, ceiling, window);
        assert Explains(payments[i + 1], f, ceiling, window);
      }
      if Deserves(payments, f, ceiling, window) && !Explains(payments[0], f, ceiling, window) {
        var i :| 0 <= i < |payments| && Explains(payments[i], f, ceiling, window);
        assert Explains(payments[1..][i - 1], f, ceiling, window);
      }
    }
  }

  /** `a` holds the amounts and `h` the hours of the payments, each in ascending order. */
  ghost predicate Arranged(payments: seq<Payment>, a: seq<real>, h: seq<real>) {
    && Ascending(a) && Ascending(h)
    && multiset(a) == multiset(seq(|payments|, i requires 0 <= i < |payments| => payments[i].amount))
    && multiset(h) == multiset(seq(|payments|, i requires 0 <= i < |payments| => payments[i].hour))
  }

  /**
   * The flag names the payment and its reasons: an amount more than one and a half interquartile ranges above the third
   * quartile, and an hour as far above it or below the first. The score is 0.5 for the amount, 0.3 for the hour and 0.8
   * for both.
   */
  ghost predicate Deserved(p: Payment, f: Flag, a: seq<real>, h: seq<real>)
    requires |a| >= 1 && |h| >= 1
  {
    var a1, a3, h1, h3 := a[|a| / 4], a[|a| * 3 / 4], h[|h| / 4], h[|h| * 3 / 4];
    && f.id == p.id
    && (f.amountFlag <==> p.amount - a3 > 1.5 * (a3 - a1))
    && (f.hourFlag <==> p.hour - h3 > 1.5 * (h3 - h1) || h1 - p.hour > 1.5 * (h3 - h1))
    && (f.amountFlag || f.hourFlag)
    && f.score == (if f.amountFlag && f.hourFlag then 0.8 else if f.amountFlag then 0.5 else 0.3)
  }

  lemma ArrangedSizes(payments: seq<Payment>, a: seq<real>, h: seq<real>)
    requires Arranged(payments, a, h)
    ensures |a| == |payments| == |h| && a == Sort(Amounts(payments)) && h == Sort(Hours(payments))
  {
    var amounts := seq(|payments|, i requires 0 <= i < |payments| => payments[i].amount);
    var hours := seq(|payments|, i requires 0 <= i < |payments| => payments[i].hour);
    assert amounts == Amounts(payments) && hours == Hours(payments);
    SortAscends(amounts);
    SortAscends(hours);
    AscendingUnique(a, Sort(amounts));
    AscendingUnique(h, Sort(hours));
  }

  /**
   * Whatever ascending arrangements of amounts and hours are taken: a flag is raised exactly when there are ten payments
   * or more and one of them deserves it.
   */
  lemma FlaggedExactly(payments: seq<Payment>, f: Flag, a: seq<real>, h: seq<real>)
    requires Arranged(payments, a, h)
    ensures |payments| == |a| == |h|
    ensures f in DetectUnusualPayments(payments) <==>
            |payments| >= 10 && exists i :: 0 <= i < |payments| && Deserved(payments[i], f, a, h)
  {
    ArrangedSizes(payments, a, h);
    if |payments| >= 10 {
      var ceiling, window := IqrBounds(Amounts(payments)).upper, IqrBounds(Hours(payments));
      FlagAllExactly(payments, ceiling, window, f);
      forall i | 0 <= i < |payments|
        ensures Explains(payments[i], f, ceiling, window) <==> Deserved(payments[i], f, a, h)
      {
      }
    }
  }

  function CountAmountFlags(flags: seq<Flag>): nat {
    if flags == [] then 0 else (if flags[0].amountFlag then 1 else 0) + CountAmountFlags(flags[1..])
  }

  lemma {:induction false} FlagAllCounts(payments: seq<Payment>, ceiling: real, window: Fences)
    ensures var flags := FlagAll(payments, ceiling, window);
            && CountAmountFlags(flags) == CountAbove(Amounts(payments), ceiling)
            && |flags| <= CountAbove(Amounts(payments), ceiling)
                          + CountBelow(Hours(payments), window.lower) + CountAbove(Hours(payments), window.upper)
    decreases |payments|
  {
    if payments != [] {
      FlagAllCounts(payments[1..], ceiling, window);
      var f, rest := FlagOf(payments[0], ceiling, window), FlagAll(payments[1..], ceiling, window);
      assert ([f] + rest)[1..] == rest && [] + rest == rest;
      assert Amounts(payments)[1..] == Amounts(payments[1..]) && Hours(payments)[1..] == Hours(payments[1..]);
    }
  }

  lemma FlagBounds(payments: seq<Payment>, amounts: seq<real>, hours: seq<real>)
    requires |payments| >= 1 && amounts == Amounts(payments) && hours == Hours(payments)
    ensures var flags, n := FlagAll(payments, IqrBounds(amounts).upper, IqrBounds(hours)), |payments|;
            CountAmountFlags(flags) <= (n + 3) / 4 - 1 && |flags| <= 3 * (n / 4)
  {
    FewOutside(amounts);
    FewOutside(hours);
    FlagAllCounts(payments, IqrBounds(amounts).upper, IqrBounds(hours));
    CeilingQuarter(|payments|);
  }

  lemma CeilingQuarter(n: nat)
    ensures (n + 3) / 4 - 1 <= n / 4
  {
  }

  /** At most ceil(n / 4) - 1 payments exceed the amount ceiling, and at most 3 floor(n / 4) are flagged at all. */
  lemma FewFlagged(payments: seq<Payment>)
    ensures var flags, n := DetectUnusualPayments(payments), |payments|;
            && (n >= 10 ==> CountAmountFlags(flags) <= (n + 3) / 4 - 1)
            && |flags| <= 3 * (n / 4)
  {
    if |payments| >= 10 {
      FlagBounds(payments, Amounts(payments), Hours(payments));
    }
  }

  // ── Input order does not matter ────────────────────────────────────────────

  function CountIf<T>(s: seq<T>, p: T -> bool): nat {
    if s == [] then 0 else (if p(s[0]) then 1 else 0) + CountIf(s[1..], p)
  }

  lemma {:induction false} CountIfAt<T>(s: seq<T>, i: nat, p: T -> bool)
    requires i < |s|
    ensures CountIf(s, p) == CountIf(s[..i] + s[i + 1..], p) + (if p(s[i]) then 1 else 0)
    decreases |s|
  {
    var rest := s[..i] + s[i + 1..];
    if i == 0 {
      assert rest == s[1..];
    } else {
      CountIfAt(s[1..], i - 1, p);
      assert rest[1..] == s[1..][..i - 1] + s[1..][i..];
    }
  }

  lemma DropAt<T>(b: seq<T>, i: nat)
    requires i < |b|
    ensures multiset(b[..i] + b[i + 1..]) == multiset(b) - multiset{b[i]}
  {
    assert b == b[..i] + [b[i]] + b[i + 1..];
  }

  lemma RemoveOne<T>(a: seq<T>, b: seq<T>) returns (i: nat)
    requires multiset(a) == multiset(b) && a != []
    ensures i < |b| && b[i] == a[0] && multiset(a[1..]) == multiset(b[..i] + b[i + 1..])
  {
    assert a[0] in multiset(b);
    i :| 0 <= i < |b| && b[i] == a[0];
    DropAt(b, i);
    TailValues(a);
  }

  lemma {:induction false} CountIfIgnoresOrder<T>(a: seq<T>, b: seq<T>, p: T -> bool)
    requires multiset(a) == multiset(b)
    ensures CountIf(a, p) == CountIf(b, p)
    decreases |a|
  {
    assert |a| == |multiset(a)| == |multiset(b)| == |b|;
    if a != [] {
      var i := RemoveOne(a, b);
      CountIfIgnoresOrder(a[1..], b[..i] + b[i + 1..], p);
      CountIfAt(b, i, p);
    }
  }

  lemma {:induction false} ColumnCounts(payments: seq<Payment>, x: real)
    ensures multiset(Amounts(payments))[x] == CountIf(payments, (p: Payment) => p.amount == x)
    ensures multiset(Hours(payments))[x] == CountIf(payments, (p: Payment) => p.hour == x)
    decreases |payments|
  {
    if payments != [] {
      ColumnCounts(payments[1..], x);
    }
  }

  lemma AmountsIgnoreOrder(a: seq<Payment>, b: seq<Payment>)
    requires multiset(a) == multiset(b)
    ensures multiset(Amounts(a)) == multiset(Amounts(b))
  {
    forall x: real
      ensures multiset(Amounts(a))[x] == multiset(Amounts(b))[x]
    {
      ColumnCounts(a, x);
      ColumnCounts(b, x);
      CountIfIgnoresOrder(a, b, (p: Payment) => p.amount == x);
    }
  }

  lemma HoursIgnoreOrder(a: seq<Payment>, b: seq<Payment>)
    requires multiset(a) == multiset(b)
    ensures multiset(Hours(a)) == multiset(Hours(b))
  {
    forall x: real
      ensures multiset(Hours(a))[x] == multiset(Hours(b))[x]
    {
      ColumnCounts(a, x);
      ColumnCounts(b, x);
      CountIfIgnoresOrder(a, b, (p: Payment) => p.hour == x);
    }
  }

  predicate Flagged(p: Payment, ceiling: real, window: Fences) {
    FlagOf(p, ceiling, window).amountFlag || FlagOf(p, ceiling, window).hourFlag
  }

  lemma {:induction false} FlagAllCount(payments: seq<Payment>, ceiling: real, window: Fences, f: Flag)
    ensures multiset(FlagAll(payments, ceiling, window))[f]
         == CountIf(payments, (p: Payment) => Flagged(p, ceiling, window) && FlagOf(p, ceiling, window) == f)
    decreases |payments|
  {
    if payments != [] {
      FlagAllCount(payments[1..], ceiling, window, f);
    }
  }

  lemma FlagAllIgnoresOrder(a: seq<Payment>, b: seq<Payment>, ceiling: real, window: Fences)
    requires multiset(a) == multiset(b)
    ensures multiset(FlagAll(a, ceiling, window)) == multiset(FlagAll(b, ceiling, window))
  {
    forall f: Flag
      ensures multiset(FlagAll(a, ceiling, window))[f] == multiset(FlagAll(b, ceiling, window))[f]
    {
      FlagAllCount(a, ceiling, window, f);
      FlagAllCount(b, ceiling, window, f);
      CountIfIgnoresOrder(a, b, (p: Payment) => Flagged(p, ceiling, window) && FlagOf(p, ceiling, window) == f);
    }
  }

  lemma FencesIgnoreOrder(a: seq<Payment>, b: seq<Payment>)
    requires multiset(a) == multiset(b) && |a| == |b| >= 1
    ensures IqrBounds(Amounts(a)) == IqrBounds(Amounts(b)) && IqrBounds(Hours(a)) == IqrBounds(Hours(b))
  {
    AmountsIgnoreOrder(a, b);
    HoursIgnoreOrder(a, b);
    SortIgnoresOrder(Amounts(a), Amounts(b));
    SortIgnoresOrder(Hours(a), Hours(b));
  }

  /** The flagged payments, with their reasons and scores, do not depend on the order of the input. */
  lemma DetectionIgnoresOrder(a: seq<Payment>, b: seq<Payment>)
    requires multiset(a) == multiset(b)
    ensures multiset(DetectUnusualPayments(a)) == multiset(DetectUnusualPayments(b))
  {
    assert |a| == |multiset(a)| == |multiset(b)| == |b|;
    if |a| >= 10 {
      FencesIgnoreOrder(a, b);
      var ceiling, window := IqrBounds(Amounts(a)).upper, IqrBounds(Hours(a));
      FlagAllIgnoresOrder(a, b, ceiling, window);
    }
  }
}
