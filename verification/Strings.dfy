/** The JavaScript string operations the source uses: `split` on one character, `join`, `trim` and `Number`. */
module Strings {

  /** `s.split(c)`: one part more than there are separators. */
  function Split(s: string, c: char): (parts: seq<string>)
    ensures |parts| >= 1
    ensures |parts| >= 2 <==> c in s
  {
    if s == "" then
      [""]
    else
      var rest := Split(s[1..], c);
      if s[0] == c then [""] + rest else [[s[0]] + rest[0]] + rest[1..]
  }

  /** `parts.join(c)`. */
  function Join(parts: seq<string>, c: char): string {
    if parts == [] then ""
    else if |parts| == 1 then parts[0]
    else parts[0] + [c] + Join(parts[1..], c)
  }

  ghost predicate NoneContains(parts: seq<string>, c: char) {
    forall i :: 0 <= i < |parts| ==> c !in parts[i]
  }

  lemma {:induction false} SplitPrefix(p: string, c: char, rest: string)
    requires c !in p
    ensures Split(p + [c] + rest, c) == [p] + Split(rest, c)
    ensures Split(p, c) == [p]
  {
    if p == "" {
      assert p + [c] + rest == [c] + rest;
      assert ([c] + rest)[1..] == rest;
    } else {
      SplitPrefix(p[1..], c, rest);
      assert (p + [c] + rest)[1..] == p[1..] + [c] + rest;
      assert [p[0]] + p[1..] == p;
    }
  }

  /** Splitting undoes joining when no part holds the separator. */
  lemma {:induction false} SplitJoin(parts: seq<string>, c: char)
    requires |parts| >= 1 && NoneContains(parts, c)
    ensures Split(Join(parts, c), c) == parts
  {
    if |parts| == 1 {
      SplitPrefix(parts[0], c, "");
    } else {
      SplitJoin(parts[1..], c);
      SplitPrefix(parts[0], c, Join(parts[1..], c));
    }
  }

  /** The white space `trim()` and `\s` know. */
  predicate IsSpace(c: char) {
    || c in {' ', '\t', '\n', '\r', '\U{B}', '\U{C}', '\U{A0}'}
    || c == '\U{1680}' || '\U{2000}' <= c <= '\U{200A}' || c == '\U{2028}' || c == '\U{2029}'
    || c == '\U{202F}' || c == '\U{205F}' || c == '\U{3000}' || c == '\U{FEFF}'
  }

  /** By code: the WhiteSpace and LineTerminator productions of ECMAScript, sections 12.2 and 12.3. */
  lemma SpaceCodes(c: char)
    ensures IsSpace(c) <==>
            || 9 <= c as int <= 13 || 8192 <= c as int <= 8202
            || c as int in {32, 160, 5760, 8232, 8233, 8239, 8287, 12288, 65279}
  {
  }

  function TrimStart(s: string): (t: string)
    ensures |t| <= |s|
  {
    if s != "" && IsSpace(s[0]) then TrimStart(s[1..]) else s
  }

  function TrimEnd(s: string): string {
    if s != "" && IsSpace(s[|s| - 1]) then TrimEnd(s[..|s| - 1]) else s
  }

  function Trim(s: string): string {
    TrimEnd(TrimStart(s))
  }

  /** No white space at either edge. */
  predicate EdgeFree(s: string) {
    s != "" ==> !IsSpace(s[0]) && !IsSpace(s[|s| - 1])
  }

  lemma {:induction false} TrimStartEdge(s: string)
    ensures var t := TrimStart(s); t != "" ==> !IsSpace(t[0])
  {
    if s != "" && IsSpace(s[0]) {
      TrimStartEdge(s[1..]);
    }
  }

  lemma {:induction false} TrimEndEdge(s: string)
    ensures var t := TrimEnd(s); t <= s && (t != "" ==> !IsSpace(t[|t| - 1]))
  {
    if s != "" && IsSpace(s[|s| - 1]) {
      TrimEndEdge(s[..|s| - 1]);
    }
  }

  /** Trimming leaves blank-free edges, changes nothing when they are so already, and is idempotent. */
  lemma TrimEdges(s: string)
    ensures EdgeFree(Trim(s))
    ensures EdgeFree(s) ==> Trim(s) == s
    ensures Trim(Trim(s)) == Trim(s)
  {
    TrimStartEdge(s);
    TrimEndEdge(TrimStart(s));
  }

  ghost predicate Blank(s: string) {
    forall i :: 0 <= i < |s| ==> IsSpace(s[i])
  }

  lemma {:induction false} TrimStartBlank(a: string, t: string)
    requires Blank(a) && (t != "" ==> !IsSpace(t[0]))
    ensures TrimStart(a + t) == t
    decreases |a|
  {
    if a == "" {
      assert a + t == t;
    } else {
      assert (a + t)[1..] == a[1..] + t;
      TrimStartBlank(a[1..], t);
    }
  }

  lemma {:induction false} TrimEndBlank(t: string, b: string)
    requires Blank(b) && (t != "" ==> !IsSpace(t[|t| - 1]))
    ensures TrimEnd(t + b) == t
    decreases |b|
  {
    if b == "" {
      assert t + b == t;
    } else {
      assert (t + b)[..|t + b| - 1] == t + b[..|b| - 1];
      TrimEndBlank(t, b[..|b| - 1]);
    }
  }

  /** Trimming takes away the white space at both edges and nothing else. */
  lemma TrimExactly(a: string, t: string, b: string)
    requires Blank(a) && Blank(b) && EdgeFree(t)
    ensures Trim(a + t + b) == t
  {
    if t == "" {
      assert a + t + b == a + b + "";
      TrimStartBlank(a + b, "");
    } else {
      assert a + t + b == a + (t + b);
      TrimStartBlank(a, t + b);
      TrimEndBlank(t, b);
    }
  }

  /** `s.split(/\s+/)` for a trimmed `s`: the maximal runs without white space. */
  function Words(s: string): (ws: seq<string>)
    ensures |ws| >= 1
    decreases |s|
  {
    if s == "" then [""]
    else if IsSpace(s[0]) then [""] + Words(TrimStart(s[1..]))
    else
      var rest := Words(s[1..]);
      [[s[0]] + rest[0]] + rest[1..]
  }

  ghost predicate PlainWord(w: string) {
    w != "" && forall i :: 0 <= i < |w| ==> !IsSpace(w[i])
  }

  /** Any run of white space, however long, separates two words. */
  lemma {:induction false} WordsExactly(w: string, gap: string, rest: string)
    requires PlainWord(w) && Blank(gap) && gap != "" && rest != "" && !IsSpace(rest[0])
    ensures Words(w + gap + rest) == [w] + Words(rest) && Words(w) == [w]
    decreases |w|
  {
    assert (w + gap + rest)[1..] == w[1..] + gap + rest;
    assert [w[0]] + w[1..] == w;
    if |w| == 1 {
      assert w[1..] + gap + rest == gap + rest && (gap + rest)[1..] == gap[1..] + rest;
      TrimStartBlank(gap[1..], rest);
      assert w[1..] == "";
    } else {
      WordsExactly(w[1..], gap, rest);
    }
  }

  lemma {:induction false} WordsPrefix(w: string, rest: string)
    requires forall i :: 0 <= i < |w| ==> !IsSpace(w[i])
    requires rest != "" && !IsSpace(rest[0])
    ensures Words(w) == [w]
    ensures Words(w + [' '] + rest) == [w] + Words(rest)
  {
    if w == "" {
      assert w + [' '] + rest == [' '] + rest;
      assert ([' '] + rest)[1..] == rest;
    } else {
      WordsPrefix(w[1..], rest);
      assert (w + [' '] + rest)[1..] == w[1..] + [' '] + rest;
      assert [w[0]] + w[1..] == w;
    }
  }

  /** Joining plain words with single blanks leaves nothing to trim. */
  lemma {:induction false} JoinEdges(ws: seq<string>)
    requires |ws| >= 1 && forall i :: 0 <= i < |ws| ==> PlainWord(ws[i])
    ensures var s := Join(ws, ' '); s != "" && EdgeFree(s)
  {
    assert PlainWord(ws[0]);
    if |ws| > 1 {
      JoinEdges(ws[1..]);
      var s, t := Join(ws, ' '), Join(ws[1..], ' ');
      assert s[|s| - 1] == t[|t| - 1] && s[0] == ws[0][0];
    }
  }

  /** Words joined by single blanks are read back, and joining them leaves nothing to trim. */
  lemma {:induction false} WordsJoin(ws: seq<string>)
    requires |ws| >= 1 && forall i :: 0 <= i < |ws| ==> PlainWord(ws[i])
    ensures var s := Join(ws, ' '); s != "" && EdgeFree(s) && Words(s) == ws
  {
    JoinEdges(ws);
    if |ws| == 1 {
      WordsPrefix(ws[0], "x");
    } else {
      WordsJoin(ws[1..]);
      WordsPrefix(ws[0], Join(ws[1..], ' '));
    }
  }

  /** What `Number(text)` yields. */
  datatype Num = NaN | Int(n: int)

  predicate IsDigit(c: char) {
    '0' <= c <= '9'
  }

  predicate Digits(s: string) {
    s != "" && forall i :: 0 <= i < |s| ==> IsDigit(s[i])
  }

  function DigitsValue(s: string): (n: nat)
    requires s == "" || Digits(s)
  {
    if s == "" then 0
    else
      var init := s[..|s| - 1];
      assert init == "" || Digits(init);
      DigitsValue(init) * 10 + (s[|s| - 1] - '0') as int
  }

  /** `Number(s)`: the empty text is 0, plain digits with an optional minus sign count, anything else is NaN. */
  function ToNumber(s: string): Num {
    if s == "" then Int(0)
    else if Digits(s) then Int(DigitsValue(s))
    else if s[0] == '-' && Digits(s[1..]) then Int(0 - DigitsValue(s[1..]))
    else NaN
  }

  /** The template text of a number. */
  function Decimal(n: nat): string {
    (if n < 10 then "" else Decimal(n / 10)) + [DigitOf(n % 10)]
  }

  function DigitOf(d: nat): (c: char)
    requires d < 10
    ensures IsDigit(c) && (c - '0') as int == d
  {
    '0' + d as char
  }

  lemma DigitsArePlain(s: string)
    requires Digits(s)
    ensures PlainWord(s)
  {
    forall i | 0 <= i < |s|
      ensures !IsSpace(s[i])
    {
      assert IsDigit(s[i]);
    }
  }

  /** Printing a number and reading it back gives the number. */
  lemma {:induction false} ToNumberDecimal(n: nat)
    ensures Digits(Decimal(n)) && ToNumber(Decimal(n)) == Int(n)
    ensures PlainWord(Decimal(n))
  {
    var s := Decimal(n);
    if n >= 10 {
      ToNumberDecimal(n / 10);
      assert s[..|s| - 1] == Decimal(n / 10);
    } else {
      assert s == [DigitOf(n)] && s[..|s| - 1] == "";
      assert DigitsValue(s) == DigitsValue("") * 10 + n;
    }
    DigitsArePlain(s);
  }

  /** Which texts are numbers: the empty one, and digits with or without a minus sign. */
  lemma ToNumberForms(s: string)
    ensures ToNumber(s).Int? <==>
            s == "" || (forall i :: 0 <= i < |s| ==> '0' <= s[i] <= '9')
            || (|s| >= 2 && s[0] == '-' && forall i :: 1 <= i < |s| ==> '0' <= s[i] <= '9')
    ensures ToNumber("") == Int(0)
  {
    if |s| >= 2 && s[0] == '-' {
      assert forall i :: 1 <= i < |s| ==> s[i] == s[1..][i - 1];
      assert forall i :: 0 <= i < |s[1..]| ==> s[1..][i] == s[i + 1];
    }
  }

  /** A minus sign negates, and leading zeros do not count. */
  lemma ToNumberSigned(n: nat)
    ensures ToNumber(['-'] + Decimal(n)) == Int(0 - n) && ToNumber(['0'] + Decimal(n)) == Int(n)
  {
    ToNumberDecimal(n);
    var s, minus, zero := Decimal(n), ['-'] + Decimal(n), ['0'] + Decimal(n);
    assert minus[1..] == s && minus[0] == '-' && !Digits(minus);
    assert Digits(zero);
    LeadingZero(s);
  }

  lemma {:induction false} LeadingZero(s: string)
    requires s == "" || Digits(s)
    ensures Digits(['0'] + s) && DigitsValue(['0'] + s) == DigitsValue(s)
  {
    var t := ['0'] + s;
    if s == "" {
      assert t[..|t| - 1] == "";
    } else {
      var init := s[..|s| - 1];
      assert init == "" || Digits(init);
      LeadingZero(init);
      assert t[..|t| - 1] == ['0'] + init;
    }
  }
}
