/**
 * What the forms of a cron field mean: a field as its writer thinks of it, against the text the code validates and
 * matches (src/reports/cron-helper.service.ts).
 */
module CronFields {
  import opened Wrappers
  import opened Strings
  import opened Calendar
  import opened CronHelper

  /** `*`, `a/n` or `*` `/n`, `a-b`, `a,b,…` and `a`. */
  datatype Field =
    | Star
    | StarStep(step: nat)
    | Step(base: nat, step: nat)
    | Range(low: nat, high: nat)
    | List(first: nat, others: seq<nat>)
    | Single(value: nat)

  function Numerals(ns: seq<nat>): (texts: seq<string>)
    ensures |texts| == |ns|
    ensures forall i :: 0 <= i < |texts| ==> texts[i] == Decimal(ns[i])
  {
    seq(|ns|, i requires 0 <= i < |ns| => Decimal(ns[i]))
  }

  function Print(f: Field): string {
    match f
    case Star => "*"
    case StarStep(n) => "*" + ['/'] + Decimal(n)
    case Step(a, n) => Decimal(a) + ['/'] + Decimal(n)
    case Range(a, b) => Decimal(a) + ['-'] + Decimal(b)
    case List(a, ns) => Join(Numerals([a] + ns), ',')
    case Single(a) => Decimal(a)
  }

  /** A list has a second value; one value alone is a single number. */
  predicate WellFormed(f: Field) {
    f.List? ==> f.others != []
  }

  /** The progression from `start` in steps of `n`. */
  ghost predicate Progression(v: int, start: int, n: nat) {
    exists k: nat :: v == start + k * n
  }

  /** The values a field stands for, in a column whose values begin at `min`. */
  ghost predicate Denotes(f: Field, v: int, min: int) {
    match f
    case Star => true
    case StarStep(n) => n >= 1 && Progression(v, min, n)
    case Step(a, n) => n >= 1 && Progression(v, a, n)
    case Range(a, b) => a <= v <= b
    case List(a, ns) => v == a || v in ns
    case Single(a) => v == a || (a == 7 && v == 0)
  }

  /** All numerals within the bounds, steps positive and ranges in order. */
  predicate Sensible(f: Field, b: Bounds) {
    match f
    case Star => true
    case StarStep(n) => n >= 1
    case Step(a, n) => b.min <= a <= b.max && n >= 1
    case Range(l, h) => b.min <= l <= h <= b.max
    case List(a, ns) => b.min <= a <= b.max && forall i :: 0 <= i < |ns| ==> b.min <= ns[i] <= b.max
    case Single(a) => b.min <= a <= b.max
  }

  lemma NumeralText(n: nat)
    ensures var s := Decimal(n);
            ToNumber(s) == Int(n) && s != "*" && '/' !in s && '-' !in s && ',' !in s && '*' !in s
  {
    ToNumberDecimal(n);
    var s := Decimal(n);
    assert forall i :: 0 <= i < |s| ==> IsDigit(s[i]);
  }

  lemma TwoParts(x: string, c: char, y: string)
    requires c !in x && c !in y
    ensures c in x + [c] + y && Split(x + [c] + y, c) == [x, y]
  {
    SplitPrefix(x, c, y);
    SplitPrefix(y, c, "");
    assert (x + [c] + y)[|x|] == c;
  }

  lemma ProgressionByRemainder(v: int, start: int, n: nat)
    requires n >= 1
    ensures Progression(v, start, n) <==> v >= start && (v - start) % n == 0
  {
    if v >= start && (v - start) % n == 0 {
      var k := (v - start) / n;
      assert v - start == n * k;
      QuotientNonNegative(v - start, n, k);
      assert v == start + k * n;
    }
    if k: nat :| v == start + k * n {
      MultipleRemainder(k, n);
    }
  }

  lemma QuotientNonNegative(x: int, n: nat, k: int)
    requires n >= 1 && x >= 0 && x == n * k
    ensures k >= 0
  {
  }

  lemma MultipleRemainder(k: nat, n: nat)
    requires n >= 1
    ensures k * n >= 0 && (k * n) % n == 0
  {
    DivisionUnique(k * n, n, k, 0);
  }

  lemma StepText(base: string, n: nat)
    requires '/' !in base
    ensures var text := base + ['/'] + Decimal(n);
            text != "*" && '/' in text && Split(text, '/') == [base, Decimal(n)]
  {
    NumeralText(n);
    TwoParts(base, '/', Decimal(n));
  }

  lemma RangeText(a: nat, b: nat)
    ensures var text := Decimal(a) + ['-'] + Decimal(b);
            text != "*" && '/' !in text && '-' in text && Split(text, '-') == [Decimal(a), Decimal(b)]
  {
    NumeralText(a);
    NumeralText(b);
    TwoParts(Decimal(a), '-', Decimal(b));
  }

  lemma {:induction false} JoinAvoids(parts: seq<string>, sep: char, c: char)
    requires c != sep && NoneContains(parts, c)
    ensures c !in Join(parts, sep)
  {
    if |parts| > 1 {
      JoinAvoids(parts[1..], sep, c);
    }
  }

  lemma ListText(ns: seq<nat>)
    requires |ns| >= 2
    ensures var text := Join(Numerals(ns), ',');
            text != "*" && '/' !in text && '-' !in text && ',' in text && Split(text, ',') == Numerals(ns)
  {
    var parts := Numerals(ns);
    forall i | 0 <= i < |parts|
      ensures '/' !in parts[i] && '-' !in parts[i] && ',' !in parts[i]
    {
      NumeralText(ns[i]);
    }
    JoinAvoids(parts, ',', '/');
    JoinAvoids(parts, ',', '-');
    SplitJoin(parts, ',');
  }

  lemma ListNumerals(ns: seq<nat>)
    ensures forall i :: 0 <= i < |ns| ==> ToNumber(Numerals(ns)[i]) == Int(ns[i])
  {
    forall i | 0 <= i < |ns|
      ensures ToNumber(Numerals(ns)[i]) == Int(ns[i])
    {
      NumeralText(ns[i]);
    }
  }

  lemma ListMatches(ns: seq<nat>, v: int, min: int)
    requires |ns| >= 2
    ensures Matches(v, Join(Numerals(ns), ','), min) <==> v in ns
  {
    ListText(ns);
    ListNumerals(ns);
    var parts := Numerals(ns);
    if i :| 0 <= i < |ns| && ns[i] == v {
      assert ToNumber(parts[i]) == Int(v);
    }
  }

  lemma ListValid(ns: seq<nat>, b: Bounds)
    requires |ns| >= 2
    ensures ValidField(Join(Numerals(ns), ','), b) <==> forall i :: 0 <= i < |ns| ==> b.min <= ns[i] <= b.max
  {
    ListText(ns);
    ListNumerals(ns);
    var parts := Numerals(ns);
    forall i | 0 <= i < |ns|
      ensures InRange(ToNumber(parts[i]), b) <==> b.min <= ns[i] <= b.max
    {
    }
  }

  lemma ListMeaning(a: nat, others: seq<nat>, v: int, b: Bounds)
    requires others != []
    ensures Matches(v, Print(List(a, others)), b.min) <==> Denotes(List(a, others), v, b.min)
    ensures ValidField(Print(List(a, others)), b) <==> Sensible(List(a, others), b)
  {
    hide Matches, ValidField, Numerals, Join;
    var ns := [a] + others;
    ListMatches(ns, v, b.min);
    ListValid(ns, b);
    assert ns[0] == a && forall i :: 0 <= i < |others| ==> ns[i + 1] == others[i];
  }

  lemma StepMeaning(star: bool, a: nat, n: nat, v: int, b: Bounds)
    ensures var text := (if star then "*" else Decimal(a)) + ['/'] + Decimal(n);
            var start := if star then b.min else a;
            && (n >= 1 ==> (Matches(v, text, b.min) <==> Progression(v, start, n)))
            && (n == 0 ==> !Matches(v, text, b.min))
            && (ValidField(text, b) <==> n >= 1 && (star || b.min <= a <= b.max))
  {
    NumeralText(a);
    NumeralText(n);
    StepText(if star then "*" else Decimal(a), n);
    if n >= 1 {
      ProgressionByRemainder(v, if star then b.min else a, n);
    }
  }

  lemma RangeMeaning(l: nat, h: nat, v: int, b: Bounds)
    ensures Matches(v, Print(Range(l, h)), b.min) <==> Denotes(Range(l, h), v, b.min)
    ensures ValidField(Print(Range(l, h)), b) <==> Sensible(Range(l, h), b)
  {
    RangeText(l, h);
    NumeralText(l);
    NumeralText(h);
  }

  lemma SevenText(a: nat)
    ensures Decimal(a) == "7" <==> a == 7
  {
    if Decimal(a) == "7" {
      NumeralText(a);
      assert DigitsValue("7") == 7;
    }
  }

  lemma SingleMeaning(a: nat, v: int, b: Bounds)
    ensures Matches(v, Decimal(a), b.min) <==> Denotes(Single(a), v, b.min)
    ensures ValidField(Decimal(a), b) <==> Sensible(Single(a), b)
  {
    hide Decimal, ToNumber, Split;
    NumeralText(a);
    SevenText(a);
  }

  /** The printed field matches exactly the values the field stands for. */
  lemma PrintedFieldMatches(f: Field, v: int, b: Bounds)
    requires WellFormed(f)
    ensures Matches(v, Print(f), b.min) <==> Denotes(f, v, b.min)
  {
    match f
    case Star =>
    case StarStep(n) => StepMeaning(true, 0, n, v, b);
    case Step(a, n) => StepMeaning(false, a, n, v, b);
    case Range(l, h) => RangeMeaning(l, h, v, b);
    case List(a, ns) => ListMeaning(a, ns, v, b);
    case Single(a) => SingleMeaning(a, v, b);
  }

  /** Validation accepts the printed field exactly when it is sensible for the column. */
  lemma PrintedFieldValid(f: Field, b: Bounds)
    requires WellFormed(f)
    ensures ValidField(Print(f), b) <==> Sensible(f, b)
  {
    match f
    case Star =>
    case StarStep(n) => StepMeaning(true, 0, n, 0, b);
    case Step(a, n) => StepMeaning(false, a, n, 0, b);
    case Range(l, h) => RangeMeaning(l, h, 0, b);
    case List(a, ns) => ListMeaning(a, ns, 0, b);
    case Single(a) => SingleMeaning(a, 0, b);
  }

  // ── A whole expression ─────────────────────────────────────────────────────

  /** The text of an expression of five fields. */
  function PrintCron(f: seq<Field>): string
    requires |f| == 5
  {
    Join([Print(f[0]), Print(f[1]), Print(f[2]), Print(f[3]), Print(f[4])], ' ')
  }

  ghost predicate AllWellFormed(f: seq<Field>) {
    forall i :: 0 <= i < |f| ==> WellFormed(f[i])
  }

  /** The five fields are sensible as minute, hour, day of month, month and day of week. */
  predicate AllSensible(f: seq<Field>)
    requires |f| == 5
  {
    && Sensible(f[0], Bounds(0, 59)) && Sensible(f[1], Bounds(0, 23)) && Sensible(f[2], Bounds(1, 31))
    && Sensible(f[3], Bounds(1, 12)) && Sensible(f[4], Bounds(0, 7))
  }

  /** Minute, hour, day of month, month and weekday of minute `u` of the UTC calendar are among what the fields denote. */
  ghost predicate Meets(f: seq<Field>, u: int)
    requires |f| == 5
  {
    && Denotes(f[0], u % 60, 0)
    && Denotes(f[1], u % 1440 / 60, 0)
    && Denotes(f[2], Civil(u / 1440).day, 1)
    && Denotes(f[3], Civil(u / 1440).month, 1)
    && Denotes(f[4], (u / 1440 + 4) % 7, 0)
  }

  ghost predicate NoSpace(s: string) {
    forall i :: 0 <= i < |s| ==> !IsSpace(s[i])
  }

  lemma {:induction false} JoinNoSpace(parts: seq<string>)
    requires forall i :: 0 <= i < |parts| ==> NoSpace(parts[i])
    ensures NoSpace(Join(parts, ','))
  {
    if |parts| > 1 {
      JoinNoSpace(parts[1..]);
      assert NoSpace(parts[0]);
      ConcatNoSpace(parts[0] + [','], Join(parts[1..], ','));
    } else if |parts| == 1 {
      assert NoSpace(parts[0]);
    }
  }

  lemma ConcatNoSpace(a: string, b: string)
    requires NoSpace(a) && NoSpace(b)
    ensures NoSpace(a + b)
  {
  }

  lemma NumeralNoSpace(n: nat)
    ensures NoSpace(Decimal(n)) && Decimal(n) != ""
  {
    ToNumberDecimal(n);
  }

  /** A printed field is one word. */
  lemma PrintIsPlain(f: Field)
    requires WellFormed(f)
    ensures PlainWord(Print(f))
  {
    match f
    case Star =>
    case StarStep(n) => NumeralNoSpace(n);
    case Step(a, n) =>
      NumeralNoSpace(a);
      NumeralNoSpace(n);
    case Range(l, h) =>
      NumeralNoSpace(l);
      NumeralNoSpace(h);
    case List(a, ns) =>
      ListIsPlain([a] + ns);
    case Single(a) => NumeralNoSpace(a);
  }

  lemma ListIsPlain(ns: seq<nat>)
    requires |ns| >= 2
    ensures PlainWord(Join(Numerals(ns), ','))
  {
    var parts := Numerals(ns);
    forall i | 0 <= i < |parts|
      ensures NoSpace(parts[i])
    {
      NumeralNoSpace(ns[i]);
    }
    JoinNoSpace(parts);
  }

  /** The text of an expression splits back into its five printed fields. */
  lemma PrintedCronFields(f: seq<Field>)
    requires |f| == 5 && AllWellFormed(f)
    ensures CronFields(PrintCron(f)) == [Print(f[0]), Print(f[1]), Print(f[2]), Print(f[3]), Print(f[4])]
  {
    var words := [Print(f[0]), Print(f[1]), Print(f[2]), Print(f[3]), Print(f[4])];
    forall i | 0 <= i < 5
      ensures PlainWord(words[i])
    {
      PrintIsPlain(f[i]);
    }
    WordsJoin(words);
    TrimEdges(PrintCron(f));
  }

  /** Validation accepts a printed expression exactly when its five fields are sensible for their columns. */
  lemma PrintedCronValid(f: seq<Field>)
    requires |f| == 5 && AllWellFormed(f)
    ensures ValidCron(PrintCron(f)) <==> AllSensible(f)
  {
    hide ValidCron, ValidField, Sensible, Print;
    PrintedCronFields(f);
    CronFaultMeaning(PrintCron(f));
    PrintedFieldValid(f[0], Bounds(0, 59));
    PrintedFieldValid(f[1], Bounds(0, 23));
    PrintedFieldValid(f[2], Bounds(1, 31));
    PrintedFieldValid(f[3], Bounds(1, 12));
    PrintedFieldValid(f[4], Bounds(0, 7));
  }

  lemma PrintedMatchesAt(f: seq<Field>, u: int)
    requires |f| == 5 && AllWellFormed(f)
    ensures MatchesAt([Print(f[0]), Print(f[1]), Print(f[2]), Print(f[3]), Print(f[4])], u) <==> Meets(f, u)
  {
    hide Matches, Denotes, Print, Civil;
    PrintedFieldMatches(f[0], u % 60, Bounds(0, 59));
    PrintedFieldMatches(f[1], u % 1440 / 60, Bounds(0, 23));
    PrintedFieldMatches(f[2], Civil(u / 1440).day, Bounds(1, 31));
    PrintedFieldMatches(f[3], Civil(u / 1440).month, Bounds(1, 12));
    PrintedFieldMatches(f[4], (u / 1440 + 4) % 7, Bounds(0, 7));
  }

  /** The least whole minute after the start that meets the fields, within 366 days. */
  ghost predicate LeastMeeting(f: seq<Field>, after: int, t: int)
    requires |f| == 5
  {
    && t % 60_000 == 0 && after < t
    && t / 60_000 <= after / 60_000 + 366 * 1440 && Meets(f, t / 60_000)
    && forall u :: after < u * 60_000 < t ==> !Meets(f, u)
  }

  /** No minute after the start meets them within 366 days. */
  ghost predicate NoneMeeting(f: seq<Field>, after: int)
    requires |f| == 5
  {
    forall u :: after / 60_000 < u <= after / 60_000 + 366 * 1440 ==> !Meets(f, u)
  }

  /**
   * What the search answers for a printed expression, in terms of what its fields stand for: the least minute that
   * meets all five, or the rejection when there is none.
   */
  lemma PrintedSearchExactly(f: seq<Field>, after: int, t: int)
    requires |f| == 5 && AllWellFormed(f) && AllSensible(f)
    ensures Outcome(PrintCron(f), after, Ok(t)) <==> LeastMeeting(f, after, t)
    ensures Outcome(PrintCron(f), after, Err(NoMatch)) <==> NoneMeeting(f, after)
  {
    hide MatchesAt, Meets, PrintCron, AllSensible, AllWellFormed;
    var cron := PrintCron(f);
    PrintedCronValid(f);
    PrintedCronFields(f);
    forall u: int
      ensures MatchesAt(CronFields(cron), u) <==> Meets(f, u)
    {
      PrintedMatchesAt(f, u);
    }
    OutcomeByMinutes(cron, f, after, t);
  }

  lemma OutcomeByMinutes(cron: string, f: seq<Field>, after: int, t: int)
    requires |f| == 5 && ValidCron(cron) && |CronFields(cron)| == 5
    requires forall u: int :: MatchesAt(CronFields(cron), u) <==> Meets(f, u)
    ensures Outcome(cron, after, Ok(t)) <==> LeastMeeting(f, after, t)
    ensures Outcome(cron, after, Err(NoMatch)) <==> NoneMeeting(f, after)
  {
    hide MatchesAt, Meets;
    CronFaultMeaning(cron);
    var first := FirstMinute(after);
    forall u: int
      ensures after < u * 60_000 <==> first <= u
    {
    }
    if t % 60_000 == 0 {
      var m := t / 60_000;
      assert t == m * 60_000;
      forall u: int
        ensures u * 60_000 < t <==> u < m
      {
      }
    }
  }

  /** The first check a printed field fails. */
  lemma PrintedFieldFault(f: Field, b: Bounds)
    requires WellFormed(f)
    ensures FaultOf(Print(f), b) ==
            match f
            case Star => None
            case StarStep(n) => if n >= 1 then None else Some(BadStep)
            case Step(a, n) => if !(b.min <= a <= b.max) then Some(BadBase) else if n >= 1 then None else Some(BadStep)
            case Range(l, h) => if b.min <= l <= h <= b.max then None else Some(BadRange)
            case List(a, ns) => if Sensible(f, b) then None else Some(BadListValue)
            case Single(a) => if b.min <= a <= b.max then None else Some(BadValue)
  {
    PrintedFieldValid(f, b);
    match f
    case Star =>
    case StarStep(n) => StepFault("*", n, b);
    case Step(a, n) =>
      NumeralText(a);
      StepFault(Decimal(a), n, b);
    case Range(l, h) => RangeText(l, h);
    case List(a, ns) => ListFault([a] + ns, b);
    case Single(a) => NumeralText(a);
  }

  lemma StepFault(base: string, n: nat, b: Bounds)
    requires '/' !in base
    ensures FaultOf(base + ['/'] + Decimal(n), b) ==
            if base != "*" && !InRange(ToNumber(base), b) then Some(BadBase) else if n >= 1 then None else Some(BadStep)
  {
    NumeralText(n);
    StepText(base, n);
  }

  lemma ListFault(ns: seq<nat>, b: Bounds)
    requires |ns| >= 2
    ensures FaultOf(Join(Numerals(ns), ','), b) in {None, Some(BadListValue)}
  {
    ListText(ns);
  }
}
