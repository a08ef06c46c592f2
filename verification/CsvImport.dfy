/** The upload reader `parseCsv` (src/connectors/connectors.controller.ts), and what it recovers of the writer's text. */
module CsvImport {
  import opened Wrappers
  import opened Strings
  import opened CsvExport

  datatype ParseError = MissingHeaderOrRows

  function DropReturn(line: string): string {
    if line != "" && line[|line| - 1] == '\r' then line[..|line| - 1] else line
  }

  /** `csv.split(/\r?\n/)`: a carriage return before a line break belongs to the break. */
  function SplitLines(text: string): (lines: seq<string>)
    ensures |lines| >= 1
  {
    var parts := Split(text, '\n');
    seq(|parts|, i requires 0 <= i < |parts| => if i < |parts| - 1 then DropReturn(parts[i]) else parts[i])
  }

  lemma FirstLine(p: string, rest: string)
    requires '\n' !in p
    ensures SplitLines(p + ['\n'] + rest) == [DropReturn(p)] + SplitLines(rest) && SplitLines(p) == [p]
  {
    hide Split, DropReturn;
    SplitPrefix(p, '\n', rest);
    var lines, later := SplitLines(p + ['\n'] + rest), SplitLines(rest);
    assert |lines| == 1 + |later|;
    assert lines[0] == DropReturn(p);
    forall i | 0 <= i < |later|
      ensures lines[i + 1] == later[i]
    {
      assert Split(p + ['\n'] + rest, '\n')[i + 1] == Split(rest, '\n')[i];
    }
  }

  /** A line ends at a line feed, with or without a carriage return before it; the last one keeps what it ends in. */
  lemma EitherBreakEndsALine(line: string, rest: string)
    requires '\n' !in line && !(line != "" && line[|line| - 1] == '\r')
    ensures SplitLines(line + ['\n'] + rest) == [line] + SplitLines(rest)
    ensures SplitLines(line + ['\r'] + ['\n'] + rest) == [line] + SplitLines(rest)
    ensures SplitLines(line) == [line] && SplitLines(line + ['\r']) == [line + ['\r']]
  {
    hide SplitLines;
    FirstLine(line, rest);
    FirstLine(line + ['\r'], rest);
    assert DropReturn(line) == line && DropReturn(line + ['\r']) == line;
  }

  function NonBlank(lines: seq<string>): seq<string> {
    if lines == [] then []
    else (if Trim(lines[0]) != "" then [lines[0]] else []) + NonBlank(lines[1..])
  }

  /** Blank lines are left out and the others keep their order. */
  lemma {:induction false} NonBlankInOrder(a: seq<string>, b: seq<string>)
    ensures NonBlank(a + b) == NonBlank(a) + NonBlank(b)
    decreases |a|
  {
    if a == [] {
      assert a + b == b;
    } else {
      NonBlankInOrder(a[1..], b);
      assert (a + b)[1..] == a[1..] + b;
    }
  }

  lemma NonBlankOne(line: string)
    ensures NonBlank([line]) == if Trim(line) == "" then [] else [line]
  {
    assert [line][1..] == [];
  }

  function TrimAll(parts: seq<string>): (r: seq<string>)
    ensures |r| == |parts|
  {
    seq(|parts|, i requires 0 <= i < |parts| => Trim(parts[i]))
  }

  function ValueAt(values: seq<string>, i: nat): string {
    if i < |values| then Trim(values[i]) else ""
  }

  /** The object a line becomes: missing values are empty, a repeated header keeps its last value. */
  function RecordOf(header: seq<string>, values: seq<string>): map<string, string> {
    RecordUpTo(header, values, |header|)
  }

  function RecordUpTo(header: seq<string>, values: seq<string>, n: nat): map<string, string>
    requires n <= |header|
  {
    if n == 0 then map[]
    else RecordUpTo(header, values, n - 1)[header[n - 1] := ValueAt(values, n - 1)]
  }

  /** The objects of the data lines. */
  function DataRecords(header: seq<string>, lines: seq<string>): (records: seq<map<string, string>>)
    requires |lines| >= 1
    ensures |records| == |lines| - 1
    ensures forall i :: 0 <= i < |records| ==> records[i] == RecordOf(header, Split(lines[i + 1], ','))
  {
    seq(|lines| - 1, i requires 0 <= i < |lines| - 1 => RecordOf(header, Split(lines[i + 1], ',')))
  }

  /** The header line and the data lines, once blank lines are gone. */
  function ParseLines(lines: seq<string>): Result<seq<map<string, string>>, ParseError> {
    if |lines| < 2 then Err(MissingHeaderOrRows)
    else Ok(DataRecords(TrimAll(Split(lines[0], ',')), lines))
  }

  /** `parseCsv`. */
  function ParseCsv(csv: string): Result<seq<map<string, string>>, ParseError> {
    ParseLines(NonBlank(SplitLines(csv)))
  }

  /** It fails exactly when there are fewer than two lines that are not blank. */
  lemma ParseFailsExactly(csv: string)
    ensures ParseCsv(csv).Err? <==> |NonBlank(SplitLines(csv))| < 2
    ensures ParseCsv(csv).Ok? ==> |ParseCsv(csv).value| == |NonBlank(SplitLines(csv))| - 1
  {
  }

  ghost predicate Distinct(header: seq<string>) {
    forall i, j :: 0 <= i < j < |header| ==> header[i] != header[j]
  }

  /** The record pairs each header with its cell and holds nothing else. */
  ghost predicate Faithful(header: seq<string>, record: map<string, string>, cells: seq<string>)
    requires |header| == |cells|
  {
    && (forall k :: k in record <==> k in header)
    && forall i :: 0 <= i < |header| ==> header[i] in record && record[header[i]] == cells[i]
  }

  lemma {:induction false} RecordKeys(header: seq<string>, values: seq<string>, n: nat, key: string)
    requires n <= |header|
    ensures key in RecordUpTo(header, values, n) <==> exists i :: 0 <= i < n && header[i] == key
  {
    if n > 0 {
      RecordKeys(header, values, n - 1, key);
    }
  }

  lemma {:induction false} RecordAt(header: seq<string>, values: seq<string>, n: nat, i: nat)
    requires Distinct(header) && i < n <= |header|
    ensures header[i] in RecordUpTo(header, values, n)
    ensures RecordUpTo(header, values, n)[header[i]] == ValueAt(values, i)
  {
    if i < n - 1 {
      RecordAt(header, values, n - 1, i);
      assert header[i] != header[n - 1];
    }
  }

  lemma RecordOfMeaning(header: seq<string>, values: seq<string>)
    requires Distinct(header)
    ensures forall k :: k in RecordOf(header, values) <==> k in header
    ensures forall i :: 0 <= i < |header| ==>
              header[i] in RecordOf(header, values) && RecordOf(header, values)[header[i]] == ValueAt(values, i)
  {
    forall k
      ensures k in RecordOf(header, values) <==> k in header
    {
      RecordKeys(header, values, |header|, k);
    }
    forall i | 0 <= i < |header|
      ensures header[i] in RecordOf(header, values) && RecordOf(header, values)[header[i]] == ValueAt(values, i)
    {
      RecordAt(header, values, |header|, i);
    }
  }

  /** The value of a header: the trimmed cell at its place, or empty text when the line is short. */
  lemma RecordValue(header: seq<string>, values: seq<string>, i: nat)
    requires Distinct(header) && i < |header|
    ensures var r := RecordOf(header, values);
            && header[i] in r
            && (i < |values| ==> r[header[i]] == Trim(values[i])) && (i >= |values| ==> r[header[i]] == "")
  {
    RecordOfMeaning(header, values);
  }

  /** A cell a comma-separated line can carry: no comma, no line break, no white space at its edges. */
  predicate Carriable(s: string) {
    ',' !in s && '\n' !in s && EdgeFree(s)
  }

  ghost predicate AllCarriable(cells: seq<string>) {
    forall i :: 0 <= i < |cells| ==> Carriable(cells[i])
  }

  /** A line of such cells has no white space at its edges, no line break, and splits back into the cells. */
  lemma {:induction false} LineShape(cells: seq<string>)
    requires |cells| >= 1 && AllCarriable(cells)
    ensures var line := Join(cells, ',');
            EdgeFree(line) && '\n' !in line && Split(line, ',') == cells && (line == "" <==> cells == [""])
    decreases |cells|
  {
    SplitJoin(cells, ',');
    if |cells| > 1 {
      LineShape(cells[1..]);
      var line, rest := Join(cells, ','), Join(cells[1..], ',');
      assert rest != "" ==> line[|line| - 1] == rest[|rest| - 1];
    } else {
      assert cells == [cells[0]];
    }
  }

  lemma {:induction false} NonBlankKeepsAll(lines: seq<string>)
    requires forall i :: 0 <= i < |lines| ==> Trim(lines[i]) != ""
    ensures NonBlank(lines) == lines
    decreases |lines|
  {
    if lines != [] {
      NonBlankKeepsAll(lines[1..]);
    }
  }

  ghost predicate CleanLines(lines: seq<string>) {
    forall i :: 0 <= i < |lines| ==> '\n' !in lines[i] && EdgeFree(lines[i]) && lines[i] != ""
  }

  /** Lines without line breaks and without white space at the edges are read as they are. */
  lemma LinesReadBack(lines: seq<string>)
    requires |lines| >= 1 && CleanLines(lines)
    ensures NonBlank(SplitLines(Join(lines, '\n'))) == lines
  {
    SplitJoin(lines, '\n');
    forall i | 0 <= i < |lines|
      ensures DropReturn(lines[i]) == lines[i] && Trim(lines[i]) != ""
    {
      TrimEdges(lines[i]);
    }
    assert SplitLines(Join(lines, '\n')) == lines;
    NonBlankKeepsAll(lines);
  }

  function PlainLines(rows: seq<seq<string>>): seq<string> {
    seq(|rows|, i requires 0 <= i < |rows| => Join(rows[i], ','))
  }

  /** The rows of a table, header first, as `parseCsv` accepts them. */
  ghost predicate PlainTable(header: seq<string>, rows: seq<seq<string>>) {
    && |header| >= 1 && Distinct(header) && AllCarriable(header) && header != [""] && |rows| >= 1
    && forall i :: 0 <= i < |rows| ==> |rows[i]| == |header| && AllCarriable(rows[i]) && rows[i] != [""]
  }

  lemma RowReadBack(header: seq<string>, cells: seq<string>)
    requires Distinct(header) && |header| == |cells| >= 1 && AllCarriable(cells)
    ensures Faithful(header, RecordOf(header, Split(Join(cells, ','), ',')), cells)
  {
    LineShape(cells);
    RecordOfMeaning(header, cells);
    forall i | 0 <= i < |cells|
      ensures ValueAt(cells, i) == cells[i]
    {
      TrimEdges(cells[i]);
    }
  }

  lemma HeaderReadBack(header: seq<string>)
    requires |header| >= 1 && AllCarriable(header)
    ensures TrimAll(Split(Join(header, ','), ',')) == header
  {
    LineShape(header);
    forall i | 0 <= i < |header|
      ensures Trim(header[i]) == header[i]
    {
      TrimEdges(header[i]);
    }
  }

  lemma PlainLinesShape(header: seq<string>, rows: seq<seq<string>>)
    requires PlainTable(header, rows)
    ensures CleanLines([Join(header, ',')] + PlainLines(rows))
  {
    LineShape(header);
    forall i | 0 <= i < |rows|
      ensures var line := Join(rows[i], ','); '\n' !in line && EdgeFree(line) && line != ""
    {
      LineShape(rows[i]);
    }
  }

  /** `parseCsv` recovers every record of a table of plain cells. */
  lemma ParseRecovers(header: seq<string>, rows: seq<seq<string>>)
    requires PlainTable(header, rows)
    ensures var parsed := ParseCsv(Join([Join(header, ',')] + PlainLines(rows), '\n'));
            && parsed.Ok? && |parsed.value| == |rows|
            && forall i :: 0 <= i < |rows| ==> Faithful(header, parsed.value[i], rows[i])
  {
    var lines := [Join(header, ',')] + PlainLines(rows);
    PlainLinesShape(header, rows);
    LinesReadBack(lines);
    HeaderReadBack(header);
    forall i | 0 <= i < |rows|
      ensures Faithful(header, RecordOf(header, Split(lines[i + 1], ',')), rows[i])
    {
      RowReadBack(header, rows[i]);
    }
  }

  /** What the writer prints for cells without commas and quotes, `parseCsv` reads back. */
  lemma ExportThenImport(header: seq<string>, rows: seq<seq<string>>)
    requires PlainTable(header, rows)
    requires forall i, j :: 0 <= i < |rows| && 0 <= j < |rows[i]| ==> !NeedsQuotes(rows[i][j])
    ensures var parsed := ParseCsv(Join(Lines(header, rows), '\n'));
            && parsed.Ok? && |parsed.value| == |rows|
            && forall i :: 0 <= i < |rows| ==> Faithful(header, parsed.value[i], rows[i])
  {
    forall i | 0 <= i < |rows|
      ensures EncodeAll(rows[i]) == rows[i]
    {
    }
    assert Lines(header, rows) == [Join(header, ',')] + PlainLines(rows);
    ParseRecovers(header, rows);
  }

  // ── Exactly which cells of a written line are read back ────────────────────

  /** The upload reader undoes the writer on cells without comma, quote or white space at the edges. */
  predicate Importable(s: string) {
    !NeedsQuotes(s) && EdgeFree(s)
  }

  lemma {:induction false} SplitFirst(s: string, c: char, rest: string)
    ensures c !in Split(s, c)[0]
    ensures rest != "" && rest[0] == c ==> Split(s + rest, c)[0] == Split(s, c)[0]
    decreases |s|
  {
    if s == "" {
      assert s + rest == rest;
    } else {
      SplitFirst(s[1..], c, rest);
      assert (s + rest)[1..] == s[1..] + rest;
    }
  }

  lemma {:induction false} TrimSubset(s: string, c: char)
    requires c !in s
    ensures c !in Trim(s)
  {
    TrimStartSubset(s, c);
    TrimEndEdge(TrimStart(s));
  }

  lemma {:induction false} TrimStartSubset(s: string, c: char)
    requires c !in s
    ensures c !in TrimStart(s)
    decreases |s|
  {
    if s != "" && IsSpace(s[0]) {
      TrimStartSubset(s[1..], c);
    }
  }

  lemma {:induction false} EscapeLength(s: string)
    ensures |Escape(s)| >= |s|
    decreases |s|
  {
    if s != "" {
      EscapeLength(s[1..]);
    }
  }

  /** The part read where an unimportable cell was printed differs from the cell. */
  lemma UnimportableDiffers(s: string)
    requires !Importable(s)
    ensures Trim(Split(Encode(s), ',')[0]) != s
  {
    var printed := Encode(s);
    SplitFirst(printed, ',', "");
    if ',' in s {
      TrimSubset(Split(printed, ',')[0], ',');
    } else if '"' in s {
      EscapeNoComma(s);
      SplitPrefix(printed, ',', "");
      EscapeLength(s);
      assert EdgeFree(printed);
      TrimEdges(printed);
    } else {
      SplitPrefix(s, ',', "");
      TrimEdges(s);
    }
  }

  lemma {:induction false} EscapeNoComma(s: string)
    requires ',' !in s
    ensures ',' !in Escape(s)
    decreases |s|
  {
    if s != "" {
      EscapeNoComma(s[1..]);
    }
  }

  lemma ImportableParts(cells: seq<string>)
    requires |cells| >= 1 && forall i :: 0 <= i < |cells| ==> Importable(cells[i])
    ensures Split(Join(EncodeAll(cells), ','), ',') == cells
  {
    assert EncodeAll(cells) == cells;
    SplitJoin(cells, ',');
  }

  lemma UnimportableHead(cells: seq<string>)
    requires |cells| >= 1 && !Importable(cells[0])
    ensures Trim(Split(Join(EncodeAll(cells), ','), ',')[0]) != cells[0]
  {
    UnimportableDiffers(cells[0]);
    if |cells| > 1 {
      JoinEncoded(cells);
      SplitFirst(Encode(cells[0]), ',', [','] + Join(EncodeAll(cells[1..]), ','));
    }
  }

  /** Some part of the line differs from its cell, when some cell is not importable. */
  lemma {:induction false} UnimportablePart(cells: seq<string>, i: nat) returns (k: nat)
    requires i < |cells| && !Importable(cells[i])
    ensures var parts := Split(Join(EncodeAll(cells), ','), ',');
            k < |cells| && k < |parts| && Trim(parts[k]) != cells[k]
    decreases |cells|
  {
    if !Importable(cells[0]) {
      UnimportableHead(cells);
      k := 0;
    } else {
      k := UnimportablePart(cells[1..], i - 1);
      ImportableHead(cells);
      k := k + 1;
    }
  }

  lemma ImportableHead(cells: seq<string>)
    requires |cells| >= 2 && Importable(cells[0])
    ensures Split(Join(EncodeAll(cells), ','), ',') == [cells[0]] + Split(Join(EncodeAll(cells[1..]), ','), ',')
  {
    var rest := Join(EncodeAll(cells[1..]), ',');
    JoinEncoded(cells);
    assert cells[0] + ([','] + rest) == cells[0] + [','] + rest;
    SplitPrefix(cells[0], ',', rest);
  }

  lemma FaithfulExactly(header: seq<string>, values: seq<string>, cells: seq<string>)
    requires Distinct(header) && |header| == |cells|
    ensures Faithful(header, RecordOf(header, values), cells)
            <==> forall i :: 0 <= i < |cells| ==> ValueAt(values, i) == cells[i]
  {
    RecordOfMeaning(header, values);
  }

  /** A printed line is read back as its record exactly when every cell is importable. */
  lemma LineImportedExactly(header: seq<string>, cells: seq<string>)
    requires Distinct(header) && |header| == |cells| >= 1
    ensures Faithful(header, RecordOf(header, Split(Join(EncodeAll(cells), ','), ',')), cells)
            <==> forall i :: 0 <= i < |cells| ==> Importable(cells[i])
  {
    var parts := Split(Join(EncodeAll(cells), ','), ',');
    FaithfulExactly(header, parts, cells);
    if i :| 0 <= i < |cells| && !Importable(cells[i]) {
      var k := UnimportablePart(cells, i);
      assert ValueAt(parts, k) != cells[k];
    } else {
      ImportableParts(cells);
      forall i | 0 <= i < |cells|
        ensures ValueAt(cells, i) == cells[i]
      {
        TrimEdges(cells[i]);
      }
    }
  }

  // ── Exactly which tables are read back ─────────────────────────────────────

  lemma {:induction false} SplitAvoids(s: string, c: char)
    ensures NoneContains(Split(s, c), c)
    decreases |s|
  {
    if s != "" {
      SplitAvoids(s[1..], c);
    }
  }

  lemma {:induction false} SplitWithin(s: string, c: char, d: char)
    requires d !in s
    ensures NoneContains(Split(s, c), d)
    decreases |s|
  {
    if s != "" {
      SplitWithin(s[1..], c, d);
    }
  }

  lemma {:induction false} NonBlankWithin(lines: seq<string>, line: string)
    requires line in NonBlank(lines)
    ensures line in lines
    decreases |lines|
  {
    if !(Trim(lines[0]) != "" && line == lines[0]) {
      NonBlankWithin(lines[1..], line);
    }
  }

  lemma LinesHaveNoBreak(text: string, line: string)
    requires line in NonBlank(SplitLines(text))
    ensures '\n' !in line
  {
    NonBlankWithin(SplitLines(text), line);
    SplitAvoids(text, '\n');
  }

  /** Whatever `parseCsv` puts into a record can be carried by a line. */
  lemma ValuesCarriable(line: string, i: nat)
    requires '\n' !in line
    ensures Carriable(ValueAt(Split(line, ','), i))
  {
    var values := Split(line, ',');
    SplitAvoids(line, ',');
    SplitWithin(line, ',', '\n');
    if i < |values| {
      TrimSubset(values[i], ',');
      TrimSubset(values[i], '\n');
      TrimEdges(values[i]);
    }
  }

  /** The table is read back: a record for every row, each with the row's cells. */
  ghost predicate Recovered(header: seq<string>, rows: seq<seq<string>>) {
    var parsed := ParseCsv(Join(Lines(header, rows), '\n'));
    && parsed.Ok? && |parsed.value| == |rows|
    && forall i :: 0 <= i < |rows| ==> |rows[i]| == |header| && Faithful(header, parsed.value[i], rows[i])
  }

  lemma {:induction false} RecordValues(header: seq<string>, values: seq<string>, n: nat, key: string) returns (i: nat)
    requires n <= |header| && key in RecordUpTo(header, values, n)
    ensures i < n && RecordUpTo(header, values, n)[key] == ValueAt(values, i)
  {
    if key == header[n - 1] {
      i := n - 1;
    } else {
      i := RecordValues(header, values, n - 1, key);
    }
  }

  lemma RecordCarriable(names: seq<string>, line: string, key: string)
    requires '\n' !in line && key in RecordOf(names, Split(line, ','))
    ensures Carriable(RecordOf(names, Split(line, ','))[key])
  {
    var k := RecordValues(names, Split(line, ','), |names|, key);
    ValuesCarriable(line, k);
  }

  lemma RecoveredCarriable(header: seq<string>, rows: seq<seq<string>>, i: nat, j: nat)
    requires Recovered(header, rows) && i < |rows| && j < |header|
    ensures Carriable(rows[i][j])
  {
    var text := Join(Lines(header, rows), '\n');
    var lines := NonBlank(SplitLines(text));
    ParsedRecord(lines, i);
    LinesHaveNoBreak(text, lines[i + 1]);
    RecordCarriable(TrimAll(Split(lines[0], ',')), lines[i + 1], header[j]);
  }

  /** A line of parts without white space at the edges has none either, and is empty only for a single empty part. */
  lemma {:induction false} JoinEdges(parts: seq<string>)
    requires |parts| >= 1 && forall i :: 0 <= i < |parts| ==> EdgeFree(parts[i]) && '\n' !in parts[i]
    ensures var line := Join(parts, ','); EdgeFree(line) && '\n' !in line && (line == "" <==> parts == [""])
    decreases |parts|
  {
    if |parts| > 1 {
      JoinEdges(parts[1..]);
      var line, rest := Join(parts, ','), Join(parts[1..], ',');
      assert rest != "" ==> line[|line| - 1] == rest[|rest| - 1];
    } else {
      assert parts == [parts[0]];
    }
  }

  lemma {:induction false} EscapeKeeps(s: string, c: char)
    requires c !in s && c != '"'
    ensures c !in Escape(s)
    decreases |s|
  {
    if s != "" {
      EscapeKeeps(s[1..], c);
    }
  }

  lemma PrintedLine(cells: seq<string>)
    requires |cells| >= 1 && AllCarriable(cells)
    ensures var line := Join(EncodeAll(cells), ',');
            EdgeFree(line) && '\n' !in line && (line == "" <==> cells == [""])
  {
    var parts := EncodeAll(cells);
    forall i | 0 <= i < |cells|
      ensures EdgeFree(parts[i]) && '\n' !in parts[i] && (parts[i] == "" <==> cells[i] == "")
    {
      if NeedsQuotes(cells[i]) {
        EscapeKeeps(cells[i], '\n');
      }
    }
    JoinEdges(parts);
    assert parts == [""] <==> |parts| == 1 && parts[0] == "";
    assert cells == [""] <==> |cells| == 1 && cells[0] == "";
  }

  /** The lines the writer printed are the lines the reader splits the text into. */
  lemma PrintedLinesSplit(lines: seq<string>)
    requires |lines| >= 1 && forall i :: 0 <= i < |lines| ==> '\n' !in lines[i] && EdgeFree(lines[i])
    ensures SplitLines(Join(lines, '\n')) == lines
  {
    SplitJoin(lines, '\n');
    forall i | 0 <= i < |lines|
      ensures DropReturn(lines[i]) == lines[i]
    {
    }
  }

  lemma {:induction false} NonBlankDrops(lines: seq<string>, i: nat)
    requires i < |lines| && Trim(lines[i]) == ""
    ensures |NonBlank(lines)| < |lines|
    decreases |lines|
  {
    NonBlankAtMost(lines[1..]);
    if i > 0 {
      NonBlankDrops(lines[1..], i - 1);
    }
  }

  lemma {:induction false} NonBlankAtMost(lines: seq<string>)
    ensures |NonBlank(lines)| <= |lines|
    decreases |lines|
  {
    if lines != [] {
      NonBlankAtMost(lines[1..]);
    }
  }

  ghost predicate CarriableTable(header: seq<string>, rows: seq<seq<string>>) {
    && |header| >= 1 && Distinct(header) && AllCarriable(header) && header != [""]
    && forall i :: 0 <= i < |rows| ==> |rows[i]| == |header| && AllCarriable(rows[i])
  }

  lemma PrintedTable(header: seq<string>, rows: seq<seq<string>>)
    requires CarriableTable(header, rows)
    ensures SplitLines(Join(Lines(header, rows), '\n')) == Lines(header, rows)
    ensures var lines := Lines(header, rows);
            lines[0] != "" && forall i :: 0 <= i < |lines| ==> EdgeFree(lines[i])
    ensures forall i :: 0 <= i < |rows| ==> (Lines(header, rows)[i + 1] == "" <==> rows[i] == [""])
  {
    hide SplitLines, Join, EdgeFree;
    var lines := Lines(header, rows);
    LineShape(header);
    forall i | 0 <= i < |rows|
      ensures EdgeFree(lines[i + 1]) && '\n' !in lines[i + 1] && (lines[i + 1] == "" <==> rows[i] == [""])
    {
      PrintedLine(rows[i]);
    }
    forall i | 0 <= i < |lines|
      ensures '\n' !in lines[i] && EdgeFree(lines[i])
    {
      assert i > 0 ==> lines[i] == lines[(i - 1) + 1];
    }
    PrintedLinesSplit(lines);
  }

  /** A row that is a single empty cell is dropped as a blank line, and then a record is missing. */
  lemma EmptyRowIsLost(header: seq<string>, rows: seq<seq<string>>, i: nat)
    requires CarriableTable(header, rows) && i < |rows| && rows[i] == [""]
    ensures !Recovered(header, rows)
  {
    PrintedTable(header, rows);
    NonBlankDrops(Lines(header, rows), i + 1);
  }

  /** The record of a line. */
  lemma ParsedRecord(lines: seq<string>, i: nat)
    requires i + 1 < |lines|
    ensures var parsed := ParseLines(lines);
            parsed.Ok? && i < |parsed.value| &&
            parsed.value[i] == RecordOf(TrimAll(Split(lines[0], ',')), Split(lines[i + 1], ','))
  {
  }

  lemma PrintedTableHasNoBlank(header: seq<string>, rows: seq<seq<string>>)
    requires CarriableTable(header, rows) && forall k :: 0 <= k < |rows| ==> rows[k] != [""]
    ensures NonBlank(SplitLines(Join(Lines(header, rows), '\n'))) == Lines(header, rows)
  {
    var lines := Lines(header, rows);
    PrintedTable(header, rows);
    forall k | 0 <= k < |lines|
      ensures Trim(lines[k]) != ""
    {
      TrimEdges(lines[k]);
      assert k > 0 ==> lines[(k - 1) + 1] != "";
    }
    NonBlankKeepsAll(lines);
  }

  lemma RowsRecovered(header: seq<string>, rows: seq<seq<string>>, i: nat)
    requires CarriableTable(header, rows) && i < |rows| && forall k :: 0 <= k < |rows| ==> rows[k] != [""]
    requires Recovered(header, rows)
    ensures forall j :: 0 <= j < |rows[i]| ==> Importable(rows[i][j])
  {
    var lines := Lines(header, rows);
    PrintedTableHasNoBlank(header, rows);
    HeaderReadBack(header);
    ParsedRecord(lines, i);
    LineImportedExactly(header, rows[i]);
  }

  /** What the upload reader needs of a cell: no comma, quote or line break, and no white space at the edges. */
  ghost predicate TableImportable(rows: seq<seq<string>>) {
    && (forall i, j :: 0 <= i < |rows| && 0 <= j < |rows[i]| ==> Importable(rows[i][j]) && '\n' !in rows[i][j])
    && (forall i :: 0 <= i < |rows| ==> rows[i] != [""])
  }

  /**
   * Reading back the text the writer prints gives a record for every row with exactly its cells if and only if every
   * cell is free of commas, quotes, line breaks and edge blanks, and no row is a single empty cell.
   */
  lemma TableImportedExactly(header: seq<string>, rows: seq<seq<string>>)
    requires |header| >= 1 && Distinct(header) && AllCarriable(header) && header != [""] && |rows| >= 1
    requires forall i :: 0 <= i < |rows| ==> |rows[i]| == |header|
    ensures Recovered(header, rows) <==> TableImportable(rows)
  {
    if TableImportable(rows) {
      ExportThenImport(header, rows);
    }
    if Recovered(header, rows) {
      forall i, j | 0 <= i < |rows| && 0 <= j < |rows[i]|
        ensures Carriable(rows[i][j])
      {
        RecoveredCarriable(header, rows, i, j);
      }
      forall i | 0 <= i < |rows|
        ensures rows[i] != [""]
      {
        if rows[i] == [""] {
          EmptyRowIsLost(header, rows, i);
        }
      }
      forall i | 0 <= i < |rows|
        ensures forall j :: 0 <= j < |rows[i]| ==> Importable(rows[i][j])
      {
        RowsRecovered(header, rows, i);
      }
    }
  }
}
