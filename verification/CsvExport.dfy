/** The CSV writer (src/chat/response-formatter.service.ts) against a reader by the rules of section 2 of RFC 4180. */
module CsvExport {
  import opened Wrappers
  import opened Strings

  /** A query result: the keys of its first row in order, and rows from key to printed value; null values are absent. */
  datatype QueryResult = QueryResult(headers: seq<string>, rows: seq<map<string, string>>)

  function Escape(s: string): string {
    if s == "" then "" else (if s[0] == '"' then ['"', '"'] else [s[0]]) + Escape(s[1..])
  }

  predicate NeedsQuotes(s: string) {
    ',' in s || '"' in s
  }

  /** One printed cell. */
  function Encode(s: string): string {
    if NeedsQuotes(s) then ['"'] + Escape(s) + ['"'] else s
  }

  function CellOf(row: map<string, string>, h: string): string {
    if h in row then row[h] else ""
  }

  function Cells(headers: seq<string>, row: map<string, string>): (cells: seq<string>)
    ensures |cells| == |headers|
  {
    seq(|headers|, i requires 0 <= i < |headers| => CellOf(row, headers[i]))
  }

  function EncodeAll(cells: seq<string>): (r: seq<string>)
    ensures |r| == |cells|
  {
    seq(|cells|, i requires 0 <= i < |cells| => Encode(cells[i]))
  }

  function Lines(headers: seq<string>, records: seq<seq<string>>): (lines: seq<string>)
    ensures |lines| == |records| + 1
  {
    [Join(headers, ',')] + seq(|records|, i requires 0 <= i < |records| => Join(EncodeAll(records[i]), ','))
  }

  function Records(result: QueryResult): (records: seq<seq<string>>)
    ensures |records| == |result.rows|
    ensures forall i :: 0 <= i < |records| ==> |records[i]| == |result.headers|
  {
    seq(|result.rows|, i requires 0 <= i < |result.rows| => Cells(result.headers, result.rows[i]))
  }

  /** `queryResults.find((r) => r.rowCount > 0)`. */
  function FirstNonEmpty(results: seq<QueryResult>): (r: Option<QueryResult>)
    ensures r.Some? ==> r.value in results && r.value.rows != []
    ensures r.Some? ==> exists k ::
      0 <= k < |results| && results[k] == r.value && forall j :: 0 <= j < k ==> results[j].rows == []
    ensures r.None? <==> forall q :: q in results ==> q.rows == []
  {
    if results == [] then None
    else if results[0].rows != [] then Some(results[0])
    else
      var r := FirstNonEmpty(results[1..]);
      assert r.Some? ==> exists k :: 0 <= k < |results| && results[k] == r.value && forall j :: 0 <= j < k ==> results[j].rows == [] by {
        if r.Some? {
          var k :| 0 <= k < |results[1..]| && results[1..][k] == r.value && forall j :: 0 <= j < k ==> results[1..][j].rows == [];
          assert results[k + 1] == r.value;
          assert forall j :: 0 < j < k + 1 ==> results[j] == results[1..][j - 1];
        }
      }
      r
  }

  /** The text of `buildCsvContent`, before URI encoding. */
  function BuildCsv(results: seq<QueryResult>): Option<string> {
    match FirstNonEmpty(results)
    case None => None
    case Some(result) => Some(Join(Lines(result.headers, Records(result)), '\n'))
  }

  // ── The reader of RFC 4180, section 2, with LF as line break ───────────────

  datatype Mode = Start | Plain | Quoted | Closed

  datatype Reader = Reader(records: seq<seq<string>>, fields: seq<string>, field: string, mode: Mode)

  function EndField(r: Reader): Reader {
    Reader(r.records, r.fields + [r.field], "", Start)
  }

  function EndRecord(r: Reader): Reader {
    Reader(r.records + [r.fields + [r.field]], [], "", Start)
  }

  function ReadChar(r: Reader, c: char): Reader {
    if r.mode == Quoted then
      if c == '"' then r.(mode := Closed) else r.(field := r.field + [c])
    else if r.mode == Closed && c == '"' then r.(field := r.field + [c], mode := Quoted)
    else if r.mode == Start && c == '"' then r.(mode := Quoted)
    else if c == ',' then EndField(r)
    else if c == '\n' then EndRecord(r)
    else r.(field := r.field + [c], mode := Plain)
  }

  function ReadAll(r: Reader, s: string): Reader
    decreases |s|
  {
    if s == "" then r else ReadAll(ReadChar(r, s[0]), s[1..])
  }

  /** Nothing of a record has been read. */
  predicate AtRecordStart(r: Reader) {
    r.mode == Start && r.fields == []
  }

  /** The records of a text; the last one may or may not have an ending line break (rule 2). */
  function Read(s: string): seq<seq<string>> {
    var r := ReadAll(Reader([], [], "", Start), s);
    if AtRecordStart(r) then r.records else EndRecord(r).records
  }

  lemma {:induction false} ReadAppend(r: Reader, s: string, t: string)
    ensures ReadAll(r, s + t) == ReadAll(ReadAll(r, s), t)
    decreases |s|
  {
    if s == "" {
      assert s + t == t;
    } else {
      assert (s + t)[1..] == s[1..] + t;
      ReadAppend(ReadChar(r, s[0]), s[1..], t);
    }
  }

  lemma {:induction false} ReadPlain(r: Reader, s: string)
    requires r.mode == Start || r.mode == Plain
    requires ',' !in s && '"' !in s && '\n' !in s
    ensures ReadAll(r, s) == r.(field := r.field + s, mode := if s == "" then r.mode else Plain)
    decreases |s|
  {
    if s == "" {
      assert r.field + s == r.field;
    } else {
      var next := r.(field := r.field + [s[0]], mode := Plain);
      assert ReadChar(r, s[0]) == next;
      ReadPlain(next, s[1..]);
      assert r.field + [s[0]] + s[1..] == r.field + s;
    }
  }

  lemma {:induction false} ReadEscaped(r: Reader, s: string)
    requires r.mode == Quoted
    ensures ReadAll(r, Escape(s)) == r.(field := r.field + s)
    decreases |s|
  {
    if s == "" {
      assert r.field + s == r.field;
    } else {
      var next := r.(field := r.field + [s[0]]);
      var head := if s[0] == '"' then ['"', '"'] else [s[0]];
      assert ReadAll(r, head) == next by {
        assert head[1..] == (if s[0] == '"' then ['"'] else "");
        assert ReadAll(ReadChar(r, head[0]), head[1..]) == next by {
          assert head[1..] != "" ==> head[1..][1..] == "";
        }
      }
      ReadAppend(r, head, Escape(s[1..]));
      ReadEscaped(next, s[1..]);
      assert r.field + [s[0]] + s[1..] == r.field + s;
    }
  }

  /** A cell survives when its line breaks, if any, stand inside quotes. */
  predicate Writable(s: string) {
    '\n' in s ==> NeedsQuotes(s)
  }

  /** Reading on never changes a record that has ended. */
  lemma {:induction false} ReadGrows(r: Reader, s: string)
    ensures r.records <= ReadAll(r, s).records
    decreases |s|
  {
    if s != "" {
      ReadGrows(ReadChar(r, s[0]), s[1..]);
    }
  }

  function FirstLine(s: string): (line: string)
    ensures |line| <= |s| && ('\n' in s ==> |line| < |s|)
  {
    if s == "" || s[0] == '\n' then "" else [s[0]] + FirstLine(s[1..])
  }

  /** A line break outside quotes ends the record right there. */
  lemma {:induction false} ReadBreak(r: Reader, s: string)
    requires (r.mode == Start || r.mode == Plain) && ',' !in s && '"' !in s && '\n' in s
    ensures var after := ReadAll(r, s);
            && (after.mode == Start || after.mode == Plain)
            && |after.records| > |r.records| && r.records <= after.records
            && after.records[|r.records|] == r.fields + [r.field + FirstLine(s)]
    decreases |s|
  {
    var next, rest := ReadChar(r, s[0]), s[1..];
    ReadGrows(next, rest);
    if s[0] == '\n' {
      assert r.field + "" == r.field;
      ReadPlainMode(next, rest);
    } else {
      ReadBreak(next, rest);
      assert r.field + FirstLine(s) == next.field + FirstLine(rest);
    }
  }

  lemma {:induction false} ReadPlainMode(r: Reader, s: string)
    requires (r.mode == Start || r.mode == Plain) && ',' !in s && '"' !in s
    ensures ReadAll(r, s).mode == Start || ReadAll(r, s).mode == Plain
    decreases |s|
  {
    if s != "" {
      ReadPlainMode(ReadChar(r, s[0]), s[1..]);
    }
  }

  /** The reader gets a writable cell back; an unwritable one ends the record with only a part of it. */
  lemma ReadCell(r: Reader, s: string)
    requires r.mode == Start && r.field == ""
    ensures var after := ReadAll(r, Encode(s));
            && after.mode != Quoted && r.records <= after.records
            && (Writable(s) ==> after == r.(field := s, mode := after.mode) && (after.mode == Start <==> s == ""))
            && (!Writable(s) ==> |FirstLine(s)| < |s| && |after.records| > |r.records|)
            && (!Writable(s) ==> after.records[|r.records|] == r.fields + [FirstLine(s)])
  {
    ReadGrows(r, Encode(s));
    if NeedsQuotes(s) {
      ReadAppend(r, ['"'] + Escape(s), ['"']);
      ReadAppend(r, ['"'], Escape(s));
      assert ReadAll(r, ['"']) == r.(mode := Quoted);
      ReadEscaped(r.(mode := Quoted), s);
    } else if '\n' in s {
      ReadBreak(r, s);
      assert "" + FirstLine(s) == FirstLine(s);
    } else {
      ReadPlain(r, s);
    }
  }

  ghost predicate AllWritable(cells: seq<string>) {
    forall i :: 0 <= i < |cells| ==> Writable(cells[i])
  }

  lemma AllWritableSplit(cells: seq<string>)
    requires cells != []
    ensures AllWritable(cells) <==> Writable(cells[0]) && AllWritable(cells[1..])
  {
    assert cells == [cells[0]] + cells[1..];
  }

  lemma JoinEncoded(cells: seq<string>)
    requires |cells| >= 2
    ensures Join(EncodeAll(cells), ',') == Encode(cells[0]) + ([','] + Join(EncodeAll(cells[1..]), ','))
  {
    assert EncodeAll(cells)[1..] == EncodeAll(cells[1..]);
  }

  /**
   * What reading a line of the cells from `r` leaves: the cells, or a first record that is not made of them.
   */
  ghost predicate LineRead(r: Reader, cells: seq<string>, after: Reader) {
    && after.mode != Quoted && r.records <= after.records
    && (AllWritable(cells) ==>
          after.records == r.records && after.fields + [after.field] == r.fields + cells
          && (AtRecordStart(after) <==> r.fields + cells == [""]))
    && (!AllWritable(cells) ==> |after.records| > |r.records| && after.records[|r.records|] != r.fields + cells)
  }

  lemma LineReadOne(r: Reader, cell: string, after: Reader)
    requires after.mode != Quoted && r.records <= after.records
    requires Writable(cell) ==> after == r.(field := cell, mode := after.mode) && (after.mode == Start <==> cell == "")
    requires !Writable(cell) ==> |FirstLine(cell)| < |cell| && |after.records| > |r.records|
    requires !Writable(cell) ==> after.records[|r.records|] == r.fields + [FirstLine(cell)]
    ensures LineRead(r, [cell], after)
  {
    var n := |r.fields|;
    assert (r.fields + [FirstLine(cell)])[n] == FirstLine(cell) && (r.fields + [cell])[n] == cell;
    AllWritableSplit([cell]);
    assert r.fields + [cell] == [""] <==> r.fields == [] && cell == "" by {
      if r.fields + [cell] == [""] {
        assert |r.fields + [cell]| == 1;
      }
    }
  }

  lemma LineReadCons(r: Reader, cells: seq<string>, first: Reader, after: Reader)
    requires |cells| >= 2 && r.records <= first.records
    requires Writable(cells[0]) ==> first == r.(field := cells[0], mode := first.mode)
    requires !Writable(cells[0]) ==> |first.records| > |r.records| && |first.records[|r.records|]| == |r.fields| + 1
    requires LineRead(EndField(first), cells[1..], after)
    ensures LineRead(r, cells, after)
  {
    AllWritableSplit(cells);
    assert first.records <= after.records;
    assert r.fields + [cells[0]] + cells[1..] == r.fields + cells;
    assert |r.fields + cells| >= 2;
  }

  /** A written line is read as its cells when all are writable, and as another record otherwise. */
  lemma {:induction false} ReadLine(r: Reader, cells: seq<string>)
    requires r.mode == Start && r.field == "" && |cells| >= 1
    ensures LineRead(r, cells, ReadAll(r, Join(EncodeAll(cells), ',')))
    decreases |cells|
  {
    ReadCell(r, cells[0]);
    if |cells| == 1 {
      assert cells == [cells[0]];
      LineReadOne(r, cells[0], ReadAll(r, Encode(cells[0])));
    } else {
      var first := ReadAll(r, Encode(cells[0]));
      JoinEncoded(cells);
      var rest := Join(EncodeAll(cells[1..]), ',');
      ReadAppend(r, Encode(cells[0]), [','] + rest);
      assert ([','] + rest)[1..] == rest;
      ReadLine(EndField(first), cells[1..]);
      LineReadCons(r, cells, first, ReadAll(EndField(first), rest));
    }
  }

  ghost predicate TableWritable(records: seq<seq<string>>) {
    forall i :: 0 <= i < |records| ==> AllWritable(records[i])
  }

  lemma TableWritableSplit(records: seq<seq<string>>)
    requires records != []
    ensures TableWritable(records) <==> AllWritable(records[0]) && TableWritable(records[1..])
  {
    assert records == [records[0]] + records[1..];
  }

  function BodyLines(records: seq<seq<string>>): seq<string> {
    seq(|records|, i requires 0 <= i < |records| => Join(EncodeAll(records[i]), ','))
  }

  lemma ReadNextLine(r: Reader, cells: seq<string>)
    requires r.mode != Quoted && |cells| >= 1
    ensures LineRead(EndRecord(r), cells, ReadAll(r, ['\n'] + Join(EncodeAll(cells), ',')))
  {
    var line := Join(EncodeAll(cells), ',');
    assert (['\n'] + line)[1..] == line;
    assert ReadAll(r, ['\n'] + line) == ReadAll(EndRecord(r), line);
    ReadLine(EndRecord(r), cells);
  }

  /** The records that have ended differ from the expected ones. */
  ghost predicate Differs(read: seq<seq<string>>, expected: seq<seq<string>>) {
    exists j :: 0 <= j < |read| && j < |expected| && read[j] != expected[j]
  }

  /** Reading the lines of a table from the end of a line `r` leaves exactly its records, or a different one. */
  ghost predicate BodyRead(r: Reader, records: seq<seq<string>>, after: Reader) {
    var expected := EndRecord(r).records + records;
    && (TableWritable(records) ==>
          after.mode != Quoted && EndRecord(after).records == expected
          && (AtRecordStart(after) <==> if records == [] then AtRecordStart(r) else records[|records| - 1] == [""]))
    && (!TableWritable(records) ==> Differs(after.records, expected))
  }

  lemma BodyReadGood(r: Reader, records: seq<seq<string>>, next: Reader, after: Reader)
    requires records != [] && AllWritable(records[0])
    requires LineRead(EndRecord(r), records[0], next) && BodyRead(next, records[1..], after)
    ensures BodyRead(r, records, after)
  {
    TableWritableSplit(records);
    var before := EndRecord(r).records;
    assert EndRecord(r).fields + records[0] == records[0];
    assert EndRecord(next).records == before + [records[0]];
    assert before + [records[0]] + records[1..] == before + records;
  }

  lemma BodyReadBad(r: Reader, records: seq<seq<string>>, next: Reader, after: Reader)
    requires records != [] && !AllWritable(records[0]) && next.records <= after.records
    requires LineRead(EndRecord(r), records[0], next)
    ensures BodyRead(r, records, after)
  {
    TableWritableSplit(records);
    var before, expected := EndRecord(r).records, EndRecord(r).records + records;
    assert EndRecord(r).fields + records[0] == records[0];
    assert expected[|before|] == records[0];
    assert after.records[|before|] == next.records[|before|] != expected[|before|];
  }

  /** The lines of a table, each after a line break, add exactly their records, or a record that differs. */
  lemma {:induction false} ReadBody(r: Reader, records: seq<seq<string>>)
    requires r.mode != Quoted && forall i :: 0 <= i < |records| ==> |records[i]| >= 1
    ensures BodyRead(r, records, ReadAll(r, BreakBeforeEach(BodyLines(records))))
    decreases |records|
  {
    if records == [] {
      assert EndRecord(r).records + records == EndRecord(r).records;
    } else {
      var lines := BodyLines(records);
      var head, rest := ['\n'] + lines[0], BreakBeforeEach(lines[1..]);
      assert lines[1..] == BodyLines(records[1..]);
      ReadAppend(r, head, rest);
      ReadNextLine(r, records[0]);
      var next := ReadAll(r, head);
      ReadBody(next, records[1..]);
      ReadGrows(next, rest);
      if AllWritable(records[0]) {
        BodyReadGood(r, records, next, ReadAll(next, rest));
      } else {
        BodyReadBad(r, records, next, ReadAll(next, rest));
      }
    }
  }

  function BreakBeforeEach(lines: seq<string>): string {
    if lines == [] then "" else ['\n'] + lines[0] + BreakBeforeEach(lines[1..])
  }

  lemma {:induction false} JoinBreaks(first: string, lines: seq<string>)
    ensures Join([first] + lines, '\n') == first + BreakBeforeEach(lines)
    decreases |lines|
  {
    if lines != [] {
      assert ([first] + lines)[1..] == lines == [lines[0]] + lines[1..];
      JoinBreaks(lines[0], lines[1..]);
    }
  }

  predicate PlainHeader(h: string) {
    !NeedsQuotes(h) && '\n' !in h
  }

  /** The last line is empty, so that its line break could as well be the optional last one. */
  predicate EndsBlank(headers: seq<string>, records: seq<seq<string>>) {
    (if records == [] then headers else records[|records| - 1]) == [""]
  }

  /**
   * Reading what the writer wrote gives back the headers and every cell exactly when no cell holds a line break
   * without also holding a comma or a quote, and the last record is not a single empty cell.
   */
  lemma WriteReadRoundTrip(headers: seq<string>, records: seq<seq<string>>)
    requires |headers| >= 1 && forall i :: 0 <= i < |headers| ==> PlainHeader(headers[i])
    requires forall i :: 0 <= i < |records| ==> |records[i]| == |headers|
    ensures Read(Join(Lines(headers, records), '\n')) == [headers] + records <==>
            TableWritable(records) && !EndsBlank(headers, records)
  {
    var r := Reader([], [], "", Start);
    assert EncodeAll(headers) == headers && AllWritable(headers);
    ReadLine(r, headers);
    var first := ReadAll(r, Join(headers, ','));
    assert r.fields + headers == headers;
    assert Lines(headers, records) == [Join(headers, ',')] + BodyLines(records);
    JoinBreaks(Join(headers, ','), BodyLines(records));
    ReadAppend(r, Join(headers, ','), BreakBeforeEach(BodyLines(records)));
    ReadBody(first, records);
    ReadDecides(headers, records, first, ReadAll(first, BreakBeforeEach(BodyLines(records))));
  }

  lemma ReadDecides(headers: seq<string>, records: seq<seq<string>>, first: Reader, after: Reader)
    requires EndRecord(first).records == [headers] && (AtRecordStart(first) <==> headers == [""])
    requires BodyRead(first, records, after)
    ensures (if AtRecordStart(after) then after.records else EndRecord(after).records) == [headers] + records <==>
            TableWritable(records) && !EndsBlank(headers, records)
  {
    var expected := [headers] + records;
    if !TableWritable(records) {
      var j :| 0 <= j < |after.records| && j < |expected| && after.records[j] != expected[j];
      assert EndRecord(after).records[j] == after.records[j];
    }
  }

  /** The exported text of the first non-empty result reads back as its headers and its cells. */
  lemma ExportReadsBack(results: seq<QueryResult>)
    requires FirstNonEmpty(results).Some?
    requires var headers := FirstNonEmpty(results).value.headers;
             |headers| >= 1 && forall i :: 0 <= i < |headers| ==> PlainHeader(headers[i])
    ensures var result := FirstNonEmpty(results).value;
            BuildCsv(results).Some? &&
            (Read(BuildCsv(results).value) == [result.headers] + Records(result) <==>
             TableWritable(Records(result)) && !EndsBlank(result.headers, Records(result)))
            && |Records(result)| == |result.rows|
            && forall i, j :: 0 <= i < |result.rows| && 0 <= j < |result.headers| ==>
                 |Records(result)[i]| == |result.headers|
                 && (result.headers[j] in result.rows[i] ==>
                       Records(result)[i][j] == result.rows[i][result.headers[j]])
                 && (result.headers[j] !in result.rows[i] ==> Records(result)[i][j] == "")
  {
    var result := FirstNonEmpty(results).value;
    WriteReadRoundTrip(result.headers, Records(result));
  }
}
