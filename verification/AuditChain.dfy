/** The audit-log hash chain and its verifier (src/common/audit/audit-log.service.ts). */
module AuditChain {
  import opened Wrappers
  import opened Strings

  /** A row as the verifier reads it; an absent field is the empty text, metadata is its JSON text. */
  datatype LogRow = LogRow(
    tenantId: string, userId: string, action: string, resourceType: string, resourceId: string,
    ipAddress: string, userAgent: string, metadata: string, timestamp: string,
    previousHash: string, currentHash: string)

  type Hash = string -> string

  /** `'0'.repeat(n)`. */
  function Zeros(n: nat): (s: string)
    ensures |s| == n && forall i :: 0 <= i < n ==> s[i] == '0'
  {
    seq(n, _ => '0')
  }

  const SEED := Zeros(64)

  function Head(row: LogRow): seq<string> {
    [row.tenantId, row.userId, row.action, row.resourceType, row.resourceId, row.ipAddress, row.userAgent]
  }

  /** The text that `calculateHash` hashes. */
  function Content(row: LogRow): string {
    Join(Head(row) + [row.metadata, row.previousHash, row.timestamp], '|')
  }

  /** The hashed text, field after field. */
  lemma ContentIs(row: LogRow)
    ensures Content(row) == row.tenantId + "|" + row.userId + "|" + row.action + "|" + row.resourceType + "|"
                            + row.resourceId + "|" + row.ipAddress + "|" + row.userAgent + "|" + row.metadata + "|"
                            + row.previousHash + "|" + row.timestamp
  {
    var f := Head(row) + [row.metadata, row.previousHash, row.timestamp];
    JoinAppend(f[..9], f[9], '|');
    JoinAppend(f[..8], f[8], '|');
    JoinAppend(f[..7], f[7], '|');
    JoinAppend(f[..6], f[6], '|');
    JoinAppend(f[..5], f[5], '|');
    JoinAppend(f[..4], f[4], '|');
    JoinAppend(f[..3], f[3], '|');
    JoinAppend(f[..2], f[2], '|');
    JoinAppend(f[..1], f[1], '|');
    forall n | 1 <= n < 10
      ensures f[..n + 1] == f[..n] + [f[n]]
    {
    }
    assert f[..10] == f;
  }

  datatype Verdict = Valid | BrokenAt(index: nat)

  /** The hash the next row must name: the seed, or that of the row before. */
  function PreviousOf(logs: seq<LogRow>, i: nat): string
    requires i <= |logs|
  {
    if i == 0 then SEED else logs[i - 1].currentHash
  }

  predicate Sound(logs: seq<LogRow>, i: nat, hash: Hash)
    requires i < |logs|
  {
    logs[i].previousHash == PreviousOf(logs, i) && logs[i].currentHash == hash(Content(logs[i]))
  }

  ghost predicate ValidLog(logs: seq<LogRow>, hash: Hash) {
    forall i :: 0 <= i < |logs| ==> Sound(logs, i, hash)
  }

  /** `verifyChainIntegrity`: valid exactly when every link and every recomputed hash agrees, else the first bad row. */
  method VerifyChainIntegrity(logs: seq<LogRow>, hash: Hash) returns (verdict: Verdict)
    ensures verdict.Valid? <==> ValidLog(logs, hash)
    ensures verdict.BrokenAt? ==>
              verdict.index < |logs| && !Sound(logs, verdict.index, hash)
              && forall k :: 0 <= k < verdict.index ==> Sound(logs, k, hash)
  {
    var previousHash := SEED;
    for i := 0 to |logs|
      invariant previousHash == PreviousOf(logs, i)
      invariant forall k :: 0 <= k < i ==> Sound(logs, k, hash)
    {
      var log := logs[i];
      if log.previousHash != previousHash {
        assert !Sound(logs, i, hash);
        return BrokenAt(i);
      }
      var expected := hash(Content(log));
      if log.currentHash != expected {
        assert !Sound(logs, i, hash);
        return BrokenAt(i);
      }
      previousHash := log.currentHash;
    }
    return Valid;
  }

  /** The first row of a valid log names 64 zeros. */
  lemma FirstLink(logs: seq<LogRow>, hash: Hash)
    requires ValidLog(logs, hash) && logs != []
    ensures |logs[0].previousHash| == 64 && forall i :: 0 <= i < 64 ==> logs[0].previousHash[i] == '0'
  {
    assert Sound(logs, 0, hash);
  }

  // ── What validity guarantees under a collision-free hash ───────────────────

  /** Collision-free, never the seed, and printed without the separator, as hexadecimal digests are. */
  ghost predicate GoodHash(hash: Hash) {
    && (forall s, t :: hash(s) == hash(t) ==> s == t)
    && (forall s :: hash(s) != SEED && '|' !in hash(s))
  }

  /** Timestamps are printed in the ISO form, which has no separator. */
  ghost predicate PlainTimes(logs: seq<LogRow>) {
    forall i :: 0 <= i < |logs| ==> '|' !in logs[i].timestamp
  }

  function FinalHash(logs: seq<LogRow>): string {
    PreviousOf(logs, |logs|)
  }

  lemma LastField(x: string, a: string, y: string, b: string)
    requires '|' !in a && '|' !in b
    requires x + ['|'] + a == y + ['|'] + b
    ensures x == y && a == b
  {
    var s, t := x + ['|'] + a, y + ['|'] + b;
    assert s[|x|] == '|' && t[|y|] == '|';
    assert |x| == |y|;
    assert x == s[..|x|] == y;
    assert a == s[|x| + 1..] == b;
  }

  lemma {:induction false} JoinAppend(parts: seq<string>, last: string, c: char)
    requires |parts| >= 1
    ensures Join(parts + [last], c) == Join(parts, c) + [c] + last
    decreases |parts|
  {
    if |parts| == 1 {
      assert (parts + [last])[1..] == [last];
    } else {
      assert (parts + [last])[1..] == parts[1..] + [last];
      JoinAppend(parts[1..], last, c);
    }
  }

  lemma ContentShape(row: LogRow)
    ensures Content(row) == Join(Head(row) + [row.metadata], '|') + ['|'] + row.previousHash + ['|'] + row.timestamp
  {
    var front := Head(row) + [row.metadata];
    assert Head(row) + [row.metadata, row.previousHash, row.timestamp] == (front + [row.previousHash]) + [row.timestamp];
    JoinAppend(front + [row.previousHash], row.timestamp, '|');
    JoinAppend(front, row.previousHash, '|');
  }

  /** Equal hashed texts have equal previous hashes, although earlier fields may contain the separator. */
  lemma ContentFixesLink(a: LogRow, b: LogRow)
    requires Content(a) == Content(b)
    requires '|' !in a.previousHash && '|' !in b.previousHash && '|' !in a.timestamp && '|' !in b.timestamp
    ensures a.previousHash == b.previousHash && a.timestamp == b.timestamp
    ensures Join(Head(a) + [a.metadata], '|') == Join(Head(b) + [b.metadata], '|')
  {
    ContentShape(a);
    ContentShape(b);
    var x, y := Join(Head(a) + [a.metadata], '|'), Join(Head(b) + [b.metadata], '|');
    LastField(x + ['|'] + a.previousHash, a.timestamp, y + ['|'] + b.previousHash, b.timestamp);
    LastField(x, a.previousHash, y, b.previousHash);
  }

  /** Two valid logs with the same final hash have the same length and the same hashed content, entry by entry. */
  lemma {:induction false} FinalHashFixesLog(a: seq<LogRow>, b: seq<LogRow>, hash: Hash)
    requires GoodHash(hash) && ValidLog(a, hash) && ValidLog(b, hash) && PlainTimes(a) && PlainTimes(b)
    requires FinalHash(a) == FinalHash(b)
    ensures |a| == |b| && forall i :: 0 <= i < |a| ==> Content(a[i]) == Content(b[i])
  {
    if a != [] {
      NonEmptyNotSeed(a, hash);
    }
    if b != [] {
      NonEmptyNotSeed(b, hash);
    }
    if a != [] && b != [] {
      var n, m := |a| - 1, |b| - 1;
      assert Sound(a, n, hash) && Sound(b, m, hash);
      SeedIsPlain();
      LinkIsPlain(a, n, hash);
      LinkIsPlain(b, m, hash);
      ContentFixesLink(a[n], b[m]);
      PrefixValid(a, n, hash);
      PrefixValid(b, m, hash);
      FinalHashFixesLog(a[..n], b[..m], hash);
      assert forall i :: 0 <= i < n ==> a[i] == a[..n][i] && b[i] == b[..m][i];
    }
  }

  lemma NonEmptyNotSeed(logs: seq<LogRow>, hash: Hash)
    requires GoodHash(hash) && ValidLog(logs, hash) && logs != []
    ensures FinalHash(logs) != SEED
  {
    assert Sound(logs, |logs| - 1, hash);
  }

  lemma SeedIsPlain()
    ensures '|' !in SEED
  {
  }

  lemma LinkIsPlain(logs: seq<LogRow>, i: nat, hash: Hash)
    requires GoodHash(hash) && ValidLog(logs, hash) && i < |logs|
    ensures '|' !in logs[i].previousHash
  {
    SeedIsPlain();
    assert Sound(logs, i, hash);
    if i > 0 {
      assert Sound(logs, i - 1, hash);
    }
  }

  lemma PrefixValid(logs: seq<LogRow>, n: nat, hash: Hash)
    requires ValidLog(logs, hash) && n <= |logs|
    ensures ValidLog(logs[..n], hash) && (n < |logs| ==> FinalHash(logs[..n]) == logs[n].previousHash)
  {
    forall i | 0 <= i < n
      ensures Sound(logs[..n], i, hash)
    {
      assert Sound(logs, i, hash);
    }
    if n < |logs| {
      assert Sound(logs, n, hash);
    }
  }

  // ── When the hashed content determines the fields ──────────────────────────

  ghost predicate PlainHead(row: LogRow) {
    NoneContains(Head(row), '|')
  }

  lemma {:induction false} HeadFixed(a: seq<string>, x: string, b: seq<string>, y: string)
    requires |a| == |b| && NoneContains(a, '|') && NoneContains(b, '|')
    requires Join(a + [x], '|') == Join(b + [y], '|')
    ensures a == b && x == y
    decreases |a|
  {
    if a == [] {
      assert a + [x] == [x] && b + [y] == [y];
    } else {
      assert (a + [x])[1..] == a[1..] + [x] && (b + [y])[1..] == b[1..] + [y];
      var r, t := Join(a[1..] + [x], '|'), Join(b[1..] + [y], '|');
      assert a[0] + ['|'] + r == b[0] + ['|'] + t;
      FirstField(a[0], r, b[0], t);
      HeadFixed(a[1..], x, b[1..], y);
      assert a == [a[0]] + a[1..] && b == [b[0]] + b[1..];
    }
  }

  lemma FirstField(a: string, x: string, b: string, y: string)
    requires '|' !in a && '|' !in b
    requires a + ['|'] + x == b + ['|'] + y
    ensures a == b && x == y
  {
    var s, t := a + ['|'] + x, b + ['|'] + y;
    assert s[|a|] == '|' && t[|b|] == '|';
    assert |a| == |b|;
    assert a == s[..|a|] == b;
    assert x == s[|a| + 1..] == y;
  }

  /** When the fields before the metadata hold no separator, two valid logs with the same final hash are the same log. */
  lemma FinalHashFixesFields(a: seq<LogRow>, b: seq<LogRow>, hash: Hash)
    requires GoodHash(hash) && ValidLog(a, hash) && ValidLog(b, hash) && PlainTimes(a) && PlainTimes(b)
    requires forall i :: 0 <= i < |a| ==> PlainHead(a[i])
    requires forall i :: 0 <= i < |b| ==> PlainHead(b[i])
    requires FinalHash(a) == FinalHash(b)
    ensures a == b
  {
    FinalHashFixesLog(a, b, hash);
    forall i | 0 <= i < |a|
      ensures a[i] == b[i]
    {
      assert Content(a[i]) == Content(b[i]);
      LinkIsPlain(a, i, hash);
      LinkIsPlain(b, i, hash);
      ContentFixesLink(a[i], b[i]);
      HeadFixed(Head(a[i]), a[i].metadata, Head(b[i]), b[i].metadata);
      assert Sound(a, i, hash) && Sound(b, i, hash);
      SameHead(a[i], b[i]);
    }
  }

  lemma SameHead(a: LogRow, b: LogRow)
    requires Head(a) == Head(b) && a.metadata == b.metadata && a.timestamp == b.timestamp
    requires a.previousHash == b.previousHash && a.currentHash == b.currentHash
    ensures a == b
  {
    assert Head(a)[0] == Head(b)[0] && Head(a)[1] == Head(b)[1] && Head(a)[2] == Head(b)[2];
    assert Head(a)[3] == Head(b)[3] && Head(a)[4] == Head(b)[4] && Head(a)[5] == Head(b)[5] && Head(a)[6] == Head(b)[6];
  }

  // ── Rows the table can hold ────────────────────────────────────────────────

  predicate HexDigit(c: char) {
    '0' <= c <= '9' || 'a' <= c <= 'f'
  }

  lemma HexDigits(c: char)
    ensures HexDigit(c) <==> c in "0123456789abcdef"
  {
  }

  /** The text of a UUID column. */
  predicate Uuid(s: string) {
    |s| == 36 && forall i :: 0 <= i < |s| ==> if i in {8, 13, 18, 23} then s[i] == '-' else HexDigit(s[i])
  }

  ghost predicate HexGroup(s: string, n: nat) {
    |s| == n && forall i :: 0 <= i < n ==> s[i] in "0123456789abcdef"
  }

  /** Five groups of 8, 4, 4, 4 and 12 hexadecimal digits. */
  lemma UuidExactly(s: string)
    ensures Uuid(s) <==>
            && |s| == 36 && s[8] == s[13] == s[18] == s[23] == '-'
            && HexGroup(s[..8], 8) && HexGroup(s[9..13], 4) && HexGroup(s[14..18], 4) && HexGroup(s[19..23], 4)
            && HexGroup(s[24..], 12)
  {
    forall c: char
      ensures HexDigit(c) <==> c in "0123456789abcdef"
    {
      HexDigits(c);
    }
    hide HexDigit;
    if |s| == 36 && HexGroup(s[..8], 8) && HexGroup(s[9..13], 4) && HexGroup(s[14..18], 4) && HexGroup(s[19..23], 4)
       && HexGroup(s[24..], 12)
    {
      forall i | 0 <= i < 36 && i !in {8, 13, 18, 23}
        ensures s[i] in "0123456789abcdef"
      {
        assert i < 8 ==> s[i] == s[..8][i];
        assert 8 < i < 13 ==> s[i] == s[9..13][i - 9];
        assert 13 < i < 18 ==> s[i] == s[14..18][i - 14];
        assert 18 < i < 23 ==> s[i] == s[19..23][i - 19];
        assert 23 < i ==> s[i] == s[24..][i - 24];
      }
    }
  }

  /** The texts an INET column prints, and those `JSON.stringify` makes of a JSONB column. */
  datatype Columns = Columns(inet: string -> bool, json: string -> bool)

  /** Outside the string literals of a JSON text, inside one, or behind a backslash in one. */
  datatype Lexer = Outside | Inside | Escaped

  function LexChar(c: char, m: Lexer): Option<Lexer> {
    match m
    case Outside => if c == '"' then Some(Inside) else if c == '|' || c == '\\' then None else Some(Outside)
    case Inside => Some(if c == '"' then Outside else if c == '\\' then Escaped else Inside)
    case Escaped => if c == '|' then None else Some(Inside)
  }

  function Lex(s: string, m: Lexer): Option<Lexer> {
    if s == "" then Some(m)
    else
      var next := LexChar(s[0], m);
      if next.None? then None else Lex(s[1..], next.value)
  }

  /** A string literal with any of the escapes of JSON is one. */
  lemma EscapesLex(c: char)
    requires c in "\"\\/bfnrtu"
    ensures Lex(['"', '\\', c, '"'], Outside) == Some(Outside)
  {
    assert ['"', '\\', c, '"'] == ['"'] + ['\\', c, '"'] && ['\\', c, '"'] == ['\\'] + [c, '"'];
    assert [c, '"'] == [c] + ['"'] && ['"'] == ['"'] + [];
    LexCons('"', ['\\', c, '"'], Outside);
    LexCons('\\', [c, '"'], Inside);
    LexCons(c, ['"'], Escaped);
    LexCons('"', [], Inside);
  }

  lemma LexCons(c: char, s: string, m: Lexer)
    ensures Lex([c] + s, m) == if LexChar(c, m).None? then None else Lex(s, LexChar(c, m).value)
  {
    assert ([c] + s)[1..] == s;
  }

  /** Addresses hold no separator, and JSON texts hold it in string literals only. */
  ghost predicate RealColumns(cols: Columns) {
    && (forall s :: cols.inet(s) ==> s != "" && '|' !in s)
    && (forall s :: cols.json(s) ==> Lex(s, Outside) == Some(Outside))
  }

  /** What the verifier can read; an empty text stands for null, and links and times hold no separator. */
  predicate Readable(row: LogRow, cols: Columns) {
    && (row.tenantId == "" || Uuid(row.tenantId)) && (row.userId == "" || Uuid(row.userId))
    && |row.action| <= ACTION_WIDTH && |row.resourceType| <= TYPE_WIDTH
    && (row.resourceId == "" || Uuid(row.resourceId)) && (row.ipAddress == "" || cols.inet(row.ipAddress))
    && cols.json(row.metadata)
    && '|' !in row.previousHash && '|' !in row.timestamp
  }

  const ACTION_WIDTH := 100
  const TYPE_WIDTH := 50

  /** The fields before the two that hold no separator. */
  function Fields(row: LogRow): (fields: seq<string>)
    ensures |fields| == 8
  {
    Head(row) + [row.metadata]
  }

  lemma ContentOfFields(row: LogRow)
    ensures Content(row) == Join(Fields(row), '|') + ['|'] + row.previousHash + ['|'] + row.timestamp
  {
    ContentShape(row);
  }

  /**
   * Two rows the table can hold with one hashed text: a resource id and an address read as parts of the type and the
   * agent.
   */
  lemma SeparatorHidesFields(row: LogRow, kind: string, id: string, ip: string, agent: string, cols: Columns)
    requires Readable(row, cols) && |kind| <= 13 && Uuid(id) && cols.inet(ip)
    ensures var a := row.(resourceType := kind + ['|'] + id, resourceId := "", ipAddress := ip, userAgent := agent);
            var b := row.(resourceType := kind, resourceId := id, ipAddress := "", userAgent := ip + ['|'] + agent);
            Readable(a, cols) && Readable(b, cols) && Fields(a) != Fields(b) && Content(a) == Content(b)
  {
    var a := row.(resourceType := kind + ['|'] + id, resourceId := "", ipAddress := ip, userAgent := agent);
    var b := row.(resourceType := kind, resourceId := id, ipAddress := "", userAgent := ip + ['|'] + agent);
    var front, tail := [row.tenantId, row.userId, row.action], [row.metadata];
    var right := [ip, agent] + tail;
    assert Fields(a) == front + ([kind + ['|'] + id, ""] + right);
    JoinMoved(front, kind, id, "", right);
    var left := front + [kind];
    assert front + ([kind, id + ['|'] + ""] + right) == left + ([id + ['|'] + "", ip] + ([agent] + tail));
    JoinMoved(left, id, "", ip, [agent] + tail);
    var mid := left + [id];
    assert "" + ['|'] + ip == ['|'] + ip;
    assert left + ([id, "" + ['|'] + ip] + ([agent] + tail)) == mid + (["" + ['|'] + ip, agent] + tail);
    JoinMoved(mid, "", ip, agent, tail);
    assert Fields(b) == mid + (["", ip + ['|'] + agent] + tail);
    ContentOfFields(a);
    ContentOfFields(b);
    assert Fields(a)[4] == "" && Fields(b)[4] == id;
  }

  /** The verifier cannot tell them apart: a valid log stays valid when a row is replaced by one of its hashed text. */
  lemma SameTextVerifies(logs: seq<LogRow>, i: nat, row: LogRow, hash: Hash)
    requires ValidLog(logs, hash) && i < |logs| && Content(row) == Content(logs[i])
    requires row.previousHash == logs[i].previousHash && row.currentHash == logs[i].currentHash
    ensures ValidLog(logs[i := row], hash)
  {
    var after := logs[i := row];
    forall k | 0 <= k < |after|
      ensures Sound(after, k, hash)
    {
      assert Sound(logs, k, hash);
    }
  }

  lemma {:induction false} JoinMoved(front: seq<string>, x: string, y: string, z: string, tail: seq<string>)
    ensures Join(front + ([x + ['|'] + y, z] + tail), '|') == Join(front + ([x, y + ['|'] + z] + tail), '|')
    decreases |front|
  {
    var p, q := front + ([x + ['|'] + y, z] + tail), front + ([x, y + ['|'] + z] + tail);
    if front != [] {
      assert p[1..] == front[1..] + ([x + ['|'] + y, z] + tail);
      assert q[1..] == front[1..] + ([x, y + ['|'] + z] + tail);
      JoinMoved(front[1..], x, y, z, tail);
    } else {
      assert p[1..] == [z] + tail && q[1..] == [y + ['|'] + z] + tail;
      assert p[1..][1..] == tail == q[1..][1..];
      var rest := if tail == [] then "" else ['|'] + Join(tail, '|');
      assert Join(p[1..], '|') == z + rest;
      assert Join(q[1..], '|') == y + ['|'] + z + rest;
    }
  }

  // ── The metadata is where its separator says ───────────────────────────────

  lemma {:induction false} LexAppend(s: string, t: string, m: Lexer)
    ensures Lex(s + t, m) == if Lex(s, m).None? then None else Lex(t, Lex(s, m).value)
  {
    if s == "" {
      assert s + t == t;
    } else {
      assert (s + t)[1..] == s[1..] + t;
      var next := LexChar(s[0], m);
      if next.Some? {
        LexAppend(s[1..], t, next.value);
      }
    }
  }

  /** Read from the two sides of a quote at once, a text ends on two sides of a quote. */
  lemma {:induction false} Complement(s: string, m: Lexer, n: Lexer)
    requires !m.Escaped? && !n.Escaped? && m != n && Lex(s, m).Some? && Lex(s, n).Some?
    ensures Lex(s, m) != Lex(s, n)
  {
    if s != "" {
      Complement(s[1..], LexChar(s[0], m).value, LexChar(s[0], n).value);
    }
  }

  /** No JSON text ends in another one behind a separator: that separator would stand in a string literal. */
  lemma NoJsonSuffix(z: string, m: string)
    requires Lex(z + ['|'] + m, Outside) == Some(Outside)
    ensures Lex(m, Outside) != Some(Outside)
  {
    LexAppend(z + ['|'], m, Outside);
    LexAppend(z, ['|'], Outside);
    assert ['|'][1..] == "";
    if Lex(m, Outside) == Some(Outside) {
      assert Lex(z + ['|'], Outside) == Some(Inside);
      Complement(m, Outside, Inside);
    }
  }

  lemma NotLonger(x: string, m: string, y: string, n: string)
    requires Lex(m, Outside) == Some(Outside) && Lex(n, Outside) == Some(Outside)
    requires x + ['|'] + m == y + ['|'] + n
    ensures |m| <= |n|
  {
    if |m| > |n| {
      var s := x + ['|'] + m;
      var z := s[|x| + 1..|y|];
      assert m == s[|x| + 1..];
      assert n == s[|y| + 1..] && s[|y|] == '|';
      assert m == z + ['|'] + n;
      NoJsonSuffix(z, n);
    }
  }

  lemma MetadataFixed(x: string, m: string, y: string, n: string)
    requires Lex(m, Outside) == Some(Outside) && Lex(n, Outside) == Some(Outside)
    requires x + ['|'] + m == y + ['|'] + n
    ensures x == y && m == n
  {
    NotLonger(x, m, y, n);
    NotLonger(y, n, x, m);
    var s := x + ['|'] + m;
    assert x == s[..|x|] && y == s[..|y|];
    assert m == s[|x| + 1..] && n == s[|y| + 1..];
  }

  // ── The other readings of a text ───────────────────────────────────────────

  /** From the action up to the agent. */
  function Front(row: LogRow): string {
    row.action + ['|'] + row.resourceType + ['|'] + row.resourceId + ['|'] + row.ipAddress + ['|'] + row.userAgent
  }

  function Pieces(row: LogRow): seq<string> {
    Split(Front(row), '|')
  }

  /** The pieces can be read with an action of the first `i` of them and a resource id that is piece `j`. */
  predicate Reads(q: seq<string>, i: int, j: int, cols: Columns) {
    && 1 <= i < j < |q| - 2
    && |Join(q[..i], '|')| <= ACTION_WIDTH && |Join(q[i..j], '|')| <= TYPE_WIDTH
    && (q[j] == "" || Uuid(q[j])) && (q[j + 1] == "" || cols.inet(q[j + 1]))
  }

  /** Where the action and the type of the row end. */
  function ActionEnd(row: LogRow): nat {
    |Split(row.action, '|')|
  }

  function TypeEnd(row: LogRow): nat {
    ActionEnd(row) + |Split(row.resourceType, '|')|
  }

  /** The row that reads the pieces so. */
  function ReadAs(row: LogRow, q: seq<string>, i: nat, j: nat): LogRow
    requires i < j < |q| - 2
  {
    row.(action := Join(q[..i], '|'), resourceType := Join(q[i..j], '|'), resourceId := q[j], ipAddress := q[j + 1],
         userAgent := Join(q[j + 2..], '|'))
  }

  /** One more character in front. */
  function Prepend(c: char, parts: seq<string>): seq<string>
    requires |parts| >= 1
  {
    if c == '|' then [""] + parts else [[c] + parts[0]] + parts[1..]
  }

  lemma PrependConcat(c: char, a: seq<string>, b: seq<string>)
    requires |a| >= 1
    ensures Prepend(c, a + b) == Prepend(c, a) + b
  {
    assert (a + b)[0] == a[0] && (a + b)[1..] == a[1..] + b;
  }

  lemma SplitHead(c: char, s: string)
    ensures Split([c] + s, '|') == Prepend(c, Split(s, '|'))
  {
    assert ([c] + s)[1..] == s;
  }

  lemma {:induction false} SplitConcat(x: string, y: string)
    ensures Split(x + ['|'] + y, '|') == Split(x, '|') + Split(y, '|')
  {
    hide Split, Prepend;
    if x == "" {
      assert x + ['|'] + y == ['|'] + y;
      SplitPrefix("", '|', y);
    } else {
      var c, t := x[0], x[1..];
      assert x == [c] + t;
      SplitConcat(t, y);
      SplitHead(c, t);
      SplitHead(c, t + ['|'] + y);
      ConsConcat(c, t, y);
      PrependConcat(c, Split(t, '|'), Split(y, '|'));
    }
  }

  lemma ConsConcat(c: char, t: string, y: string)
    ensures [c] + t + ['|'] + y == [c] + (t + ['|'] + y)
  {
  }

  lemma {:induction false} JoinSplit(s: string)
    ensures Join(Split(s, '|'), '|') == s && NoneContains(Split(s, '|'), '|')
  {
    if s != "" {
      JoinSplit(s[1..]);
      var rest := Split(s[1..], '|');
      if s[0] == '|' {
        assert ([""] + rest)[1..] == rest;
      } else {
        assert ([[s[0]] + rest[0]] + rest[1..])[1..] == rest[1..];
      }
    }
  }

  lemma UuidIsPlain(s: string)
    requires s == "" || Uuid(s)
    ensures '|' !in s
  {
  }

  lemma PiecesOf(row: LogRow, cols: Columns)
    requires Readable(row, cols) && RealColumns(cols)
    ensures Pieces(row) == Split(row.action, '|') + Split(row.resourceType, '|') + [row.resourceId] + [row.ipAddress]
                           + Split(row.userAgent, '|')
    ensures NoneContains(Pieces(row), '|')
  {
    UuidIsPlain(row.resourceId);
    var a := row.action;
    var b := a + ['|'] + row.resourceType;
    var c := b + ['|'] + row.resourceId;
    var d := c + ['|'] + row.ipAddress;
    SplitConcat(a, row.resourceType);
    SplitConcat(b, row.resourceId);
    SplitConcat(c, row.ipAddress);
    SplitConcat(d, row.userAgent);
    SplitPrefix(row.resourceId, '|', "");
    SplitPrefix(row.ipAddress, '|', "");
    JoinSplit(Front(row));
  }

  /** A row is the reading of its own pieces where its action and type end. */
  lemma OwnReading(row: LogRow, cols: Columns)
    requires Readable(row, cols) && RealColumns(cols)
    ensures var q, i, j := Pieces(row), ActionEnd(row), TypeEnd(row);
            Reads(q, i, j, cols) && ReadAs(row, q, i, j) == row
  {
    hide Split, Join, Front, Pieces;
    PiecesOf(row, cols);
    var q, i, j := Pieces(row), ActionEnd(row), TypeEnd(row);
    JoinSplit(row.action);
    JoinSplit(row.resourceType);
    JoinSplit(row.userAgent);
    assert q[..i] == Split(row.action, '|');
    assert q[i..j] == Split(row.resourceType, '|');
    assert q[j + 2..] == Split(row.userAgent, '|');
  }

  lemma {:induction false} SlicePlain(q: seq<string>, lo: nat, hi: nat)
    requires lo < hi <= |q| && NoneContains(q, '|')
    ensures Split(Join(q[lo..hi], '|'), '|') == q[lo..hi]
  {
    SplitJoin(q[lo..hi], '|');
  }

  lemma SlicesJoin(q: seq<string>, i: nat, j: nat)
    requires i < j < |q| - 2
    ensures q[..i] + q[i..j] + [q[j]] + [q[j + 1]] + q[j + 2..] == q
  {
  }

  lemma ReadingIsReadable(row: LogRow, q: seq<string>, i: nat, j: nat, cols: Columns)
    requires Readable(row, cols) && Reads(q, i, j, cols)
    ensures Readable(ReadAs(row, q, i, j), cols)
  {
    hide Join;
  }

  lemma ReadingPieces(other: LogRow, q: seq<string>, i: nat, j: nat, cols: Columns)
    requires Readable(other, cols) && RealColumns(cols) && i < j < |q| - 2
    requires Split(other.action, '|') == q[..i] && Split(other.resourceType, '|') == q[i..j]
    requires other.resourceId == q[j] && other.ipAddress == q[j + 1] && Split(other.userAgent, '|') == q[j + 2..]
    ensures Pieces(other) == q && ActionEnd(other) == i && TypeEnd(other) == j
  {
    hide Split, Readable, RealColumns, Pieces;
    PiecesOf(other, cols);
    SlicesJoin(q, i, j);
  }

  lemma PiecesArePlain(row: LogRow)
    ensures Join(Pieces(row), '|') == Front(row) && NoneContains(Pieces(row), '|')
  {
    JoinSplit(Front(row));
  }

  /** Another reading is another row of the same text that the table can hold. */
  lemma OtherReading(row: LogRow, q: seq<string>, i: nat, j: nat, cols: Columns)
    requires Readable(row, cols) && RealColumns(cols) && q == Pieces(row) && Reads(q, i, j, cols)
    ensures var other := ReadAs(row, q, i, j);
            && Readable(other, cols) && Front(other) == Front(row)
            && ActionEnd(other) == i && TypeEnd(other) == j
  {
    hide Split, Join, Front, Pieces, Readable, RealColumns, ActionEnd, TypeEnd, NoneContains;
    assert i >= 1;
    hide Reads;
    var other := ReadAs(row, q, i, j);
    PiecesArePlain(row);
    PiecesArePlain(other);
    ReadingIsReadable(row, q, i, j, cols);
    SlicePlain(q, 0, i);
    SlicePlain(q, i, j);
    SlicePlain(q, j + 2, |q|);
    Ends(q, i, j);
    ReadingPieces(other, q, i, j, cols);
  }

  lemma Ends(q: seq<string>, i: nat, j: nat)
    requires i < j < |q| - 2
    ensures q[..i] == q[0..i] && q[j + 2..] == q[j + 2..|q|]
  {
  }

  lemma JoinFields(row: LogRow)
    ensures Join(Fields(row), '|') == row.tenantId + ['|'] + (row.userId + ['|'] + (Front(row) + ['|'] + row.metadata))
  {
    var h := Head(row);
    var five := [row.action, row.resourceType, row.resourceId, row.ipAddress, row.userAgent];
    assert Fields(row)[1..] == [row.userId] + five + [row.metadata];
    assert Fields(row)[1..][1..] == five + [row.metadata];
    JoinAppend(five, row.metadata, '|');
    JoinAppend(five[..4], row.userAgent, '|');
    JoinAppend(five[..3], row.ipAddress, '|');
    JoinAppend(five[..2], row.resourceId, '|');
    JoinAppend(five[..1], row.resourceType, '|');
    assert five == five[..4] + [row.userAgent] && five[..4] == five[..3] + [row.ipAddress];
    assert five[..3] == five[..2] + [row.resourceId] && five[..2] == five[..1] + [row.resourceType];
  }

  /** Rows of one text agree in everything but how the text from the action up to the agent is read. */
  lemma SameText(a: LogRow, b: LogRow, cols: Columns)
    requires Readable(a, cols) && Readable(b, cols) && RealColumns(cols) && Content(a) == Content(b)
    ensures a.tenantId == b.tenantId && a.userId == b.userId && a.metadata == b.metadata && Front(a) == Front(b)
    ensures a.previousHash == b.previousHash && a.timestamp == b.timestamp
  {
    ContentFixesLink(a, b);
    JoinFields(a);
    JoinFields(b);
    UuidIsPlain(a.tenantId);
    UuidIsPlain(b.tenantId);
    UuidIsPlain(a.userId);
    UuidIsPlain(b.userId);
    var x, y := Front(a) + ['|'] + a.metadata, Front(b) + ['|'] + b.metadata;
    FirstField(a.tenantId, a.userId + ['|'] + x, b.tenantId, b.userId + ['|'] + y);
    FirstField(a.userId, x, b.userId, y);
    MetadataFixed(Front(a), a.metadata, Front(b), b.metadata);
  }

  /** No other row the table can hold has the same hashed text and other fields. */
  ghost predicate Determined(row: LogRow, cols: Columns) {
    forall other: LogRow :: Readable(other, cols) && Content(other) == Content(row) ==> Fields(other) == Fields(row)
  }

  /** The pieces of the row can be read in one way only. */
  ghost predicate OneReading(row: LogRow, cols: Columns) {
    forall i, j :: Reads(Pieces(row), i, j, cols) ==> i == ActionEnd(row) && j == TypeEnd(row)
  }

  /**
   * The hashed text of a row determines its fields exactly when, between the separators of the text from the action to
   * the agent, an empty piece or a UUID is followed by an empty piece or an address in one place only, with one way to
   * cut what is before it into an action and a type of the widths of their columns. Separators in the metadata are
   * harmless.
   */
  lemma DeterminedExactly(row: LogRow, cols: Columns)
    requires Readable(row, cols) && RealColumns(cols)
    ensures Determined(row, cols) <==> OneReading(row, cols)
  {
    if OneReading(row, cols) {
      forall other: LogRow | Readable(other, cols) && Content(other) == Content(row)
        ensures Fields(other) == Fields(row)
      {
        ReadingFixesFields(row, other, cols);
      }
    }
    if Determined(row, cols) {
      forall i, j | Reads(Pieces(row), i, j, cols)
        ensures i == ActionEnd(row) && j == TypeEnd(row)
      {
        ReadingShows(row, i, j, cols);
      }
    }
  }

  lemma ReadingFixesFields(row: LogRow, other: LogRow, cols: Columns)
    requires Readable(row, cols) && Readable(other, cols) && RealColumns(cols)
    requires OneReading(row, cols) && Content(other) == Content(row)
    ensures Fields(other) == Fields(row)
  {
    hide Reads, Split, Join, Front, Content, Readable;
    SameText(other, row, cols);
    OwnReading(row, cols);
    OwnReading(other, cols);
    assert Pieces(other) == Pieces(row);
  }

  lemma ReadingShows(row: LogRow, i: int, j: int, cols: Columns)
    requires Readable(row, cols) && RealColumns(cols) && Determined(row, cols) && Reads(Pieces(row), i, j, cols)
    ensures i == ActionEnd(row) && j == TypeEnd(row)
  {
    var other := ReadAs(row, Pieces(row), i, j);
    OtherReading(row, Pieces(row), i, j, cols);
    hide Reads, Split, Join, Front, Readable;
    ContentOfFields(row);
    ContentOfFields(other);
    JoinFields(row);
    JoinFields(other);
    assert Content(other) == Content(row);
    assert Fields(other)[2] == Fields(row)[2] && Fields(other)[3] == Fields(row)[3];
  }

  /** So a row is determined when its action, type and agent hold no separator, whatever its metadata holds. */
  lemma PlainRowIsDetermined(row: LogRow, cols: Columns)
    requires Readable(row, cols) && RealColumns(cols)
    requires '|' !in row.action && '|' !in row.resourceType && '|' !in row.userAgent
    ensures Determined(row, cols)
  {
    hide Split, Join, Front, Reads, Readable, Determined;
    PiecesOf(row, cols);
    SplitPrefix(row.action, '|', "");
    SplitPrefix(row.resourceType, '|', "");
    SplitPrefix(row.userAgent, '|', "");
    FivePieces(row, cols);
    DeterminedExactly(row, cols);
  }

  lemma FivePieces(row: LogRow, cols: Columns)
    requires |Pieces(row)| == 5 && ActionEnd(row) == 1 && TypeEnd(row) == 2
    ensures OneReading(row, cols)
  {
    hide Pieces, ActionEnd, TypeEnd, Join;
  }

  /** Two valid logs with one final hash are the same log when the rows of one are determined. */
  lemma FinalHashFixesReadable(a: seq<LogRow>, b: seq<LogRow>, hash: Hash, cols: Columns)
    requires GoodHash(hash) && ValidLog(a, hash) && ValidLog(b, hash)
    requires forall i :: 0 <= i < |a| ==> Readable(a[i], cols) && Determined(a[i], cols)
    requires forall i :: 0 <= i < |b| ==> Readable(b[i], cols)
    requires FinalHash(a) == FinalHash(b)
    ensures a == b
  {
    FinalHashFixesLog(a, b, hash);
    forall i | 0 <= i < |a|
      ensures a[i] == b[i]
    {
      assert Content(a[i]) == Content(b[i]);
      ContentFixesLink(a[i], b[i]);
      assert Fields(b[i]) == Fields(a[i]);
      assert Fields(a[i])[..7] == Head(a[i]) && Fields(b[i])[..7] == Head(b[i]);
      assert Fields(a[i])[7] == Fields(b[i])[7];
      assert Sound(a, i, hash) && Sound(b, i, hash);
      SameHead(a[i], b[i]);
    }
  }

  /** Rewriting the hashed content of one row of a valid log, with both its hashes kept, is reported at that row. */
  lemma TamperedRowIsFirstBroken(logs: seq<LogRow>, i: nat, row: LogRow, hash: Hash)
    requires GoodHash(hash) && ValidLog(logs, hash) && i < |logs|
    requires Content(row) != Content(logs[i]) && row.currentHash == logs[i].currentHash
    ensures var tampered := logs[i := row];
            !Sound(tampered, i, hash) && forall k :: 0 <= k < i ==> Sound(tampered, k, hash)
  {
    var tampered := logs[i := row];
    assert Sound(logs, i, hash);
    forall k | 0 <= k < i
      ensures Sound(tampered, k, hash)
    {
      assert Sound(logs, k, hash);
    }
  }
}
