/** The transactional batch and its retries (src/etl/services/etl.service.ts), for invoices. */
module EtlService {
  import opened Wrappers
  import Calendar
  import opened Strings
  import opened BulkUpsert
  import opened EtlTransform

  /** A stored quarantine record. */
  datatype Stored = Stored(id: nat, record: Record)

  /** The tenant's tables the ETL writes; `nextId` is the next identity of `quarantine_records`. */
  datatype Store = Store(invoices: Table, quarantine: seq<Stored>, nextId: nat)

  datatype SyncResult = SyncResult(total: nat, synced: nat, quarantined: nat)

  datatype EtlError = Refused | ServerFault

  function DateValue(date: When): Value {
    match date
    case NoDate => Null
    case Date(instant) => Timestamp(instant)
    case InvalidDate => BulkUpsert.InvalidDate
  }

  function StatusValue(status: Status): Value {
    if status.Text? then BulkUpsert.Text(status.name) else Other
  }

  /** The ten parameters of one invoice. */
  function InvoiceCells(inv: Invoice): (c: Cells)
    ensures |c| == |INVOICES.layout.columns| && c[0] == BulkUpsert.Text(inv.externalId)
  {
    [BulkUpsert.Text(inv.externalId), BulkUpsert.Text(inv.customerName), BulkUpsert.Text(inv.invoiceNumber),
     Number(inv.amount), StatusValue(inv.status), BulkUpsert.Text(inv.currency), DateValue(inv.invoiceDate),
     DateValue(inv.dueDate), Flag(true), Json(inv.source)]
  }

  /** The value an invoice has for a column, by the column's name. */
  function ValueOf(inv: Invoice, column: string): Value {
    match column
    case "external_id" => BulkUpsert.Text(inv.externalId)
    case "customer_name" => BulkUpsert.Text(inv.customerName)
    case "invoice_number" => BulkUpsert.Text(inv.invoiceNumber)
    case "amount" => Number(inv.amount)
    case "status" => StatusValue(inv.status)
    case "currency" => BulkUpsert.Text(inv.currency)
    case "invoice_date" => DateValue(inv.invoiceDate)
    case "due_date" => DateValue(inv.dueDate)
    case "is_encrypted" => Flag(true)
    case _ => Json(inv.source)
  }

  /** The parameters stand in the order of the column list of the statement. */
  lemma CellsFollowColumns(inv: Invoice, k: nat)
    requires k < |INVOICES.layout.columns|
    ensures InvoiceCells(inv)[k] == ValueOf(inv, INVOICES.layout.columns[k])
  {
  }

  function CellsOfAll(invoices: seq<Invoice>): (r: seq<Cells>)
    ensures |r| == |invoices| && Keyed(r, INVOICES)
    ensures forall i :: 0 <= i < |r| ==> r[i][0] == BulkUpsert.Text(invoices[i].externalId)
  {
    seq(|invoices|, i requires 0 <= i < |invoices| => InvoiceCells(invoices[i]))
  }

  /** The records with their new identities. */
  function Stamp(records: seq<Record>, firstId: nat): (r: seq<Stored>)
    ensures |r| == |records|
    ensures forall i :: 0 <= i < |r| ==> r[i] == Stored(firstId + i, records[i])
  {
    seq(|records|, i requires 0 <= i < |records| => Stored(firstId + i, records[i]))
  }

  // ── What the columns take ──────────────────────────────────────────────────

  /** Neither a text column nor a JSON column takes the character of code zero. */
  predicate NulFree(s: string) {
    '\0' !in s
  }

  /** A `timestamp` runs from Julian day 0 up to the end of the year 294276. */
  const EARLIEST_TIMESTAMP := -210_866_803_200_000
  const TIMESTAMP_END := 9_224_318_016_000_000

  predicate TimestampFits(instant: int) {
    EARLIEST_TIMESTAMP <= instant < TIMESTAMP_END
  }

  /** Midnight of a date, in milliseconds. */
  function Instant(y: int, m: int, d: int): int
    requires Calendar.ValidDate(Calendar.Date(y, m, d))
  {
    Calendar.DayNumber(Calendar.Date(y, m, d)) * Calendar.DAY_MINUTES * Calendar.MINUTE_MS
  }

  lemma MonthStarts()
    ensures Calendar.DaysBeforeMonth(-4713, 11) == 304 && Calendar.DaysBeforeMonth(294277, 1) == 0
  {
    assert Calendar.DaysBeforeMonth(-4713, 3) == 59;
    assert Calendar.DaysBeforeMonth(-4713, 5) == Calendar.DaysBeforeMonth(-4713, 4) + 30 == 120;
    assert Calendar.DaysBeforeMonth(-4713, 7) == Calendar.DaysBeforeMonth(-4713, 6) + 30 == 181;
    assert Calendar.DaysBeforeMonth(-4713, 9) == Calendar.DaysBeforeMonth(-4713, 8) + 31 == 243;
    assert Calendar.DaysBeforeMonth(-4713, 11) == Calendar.DaysBeforeMonth(-4713, 10) + 31 == 304;
  }

  lemma YearStarts()
    ensures Calendar.DayFromYear(-4713) == -2_440_915 && Calendar.DayFromYear(294277) == 106_762_940
  {
    hide Calendar.DayFromYear;
    Calendar.DayFromYearClosedForm(-4713);
    Calendar.DayFromYearClosedForm(294277);
  }

  /** Julian day 0 is 24 November 4714 BC, the year -4713. */
  lemma TimestampRange()
    ensures EARLIEST_TIMESTAMP == Instant(-4713, 11, 24) && TIMESTAMP_END == Instant(294277, 1, 1)
    ensures forall t :: TimestampFits(t) <==> Instant(-4713, 11, 24) <= t < Instant(294277, 1, 1)
  {
    hide Calendar.DayFromYear, Calendar.DaysBeforeMonth;
    YearStarts();
    MonthStarts();
  }

  predicate StorableValue(v: Value) {
    match v
    case Text(text) => NulFree(text)
    case Json(content) => NulFree(content)
    case Timestamp(instant) => TimestampFits(instant)
    case InvalidDate => false
    case Other => false
    case _ => true
  }

  predicate WhenFits(date: When) {
    !date.InvalidDate? && (date.Date? ==> TimestampFits(date.instant))
  }

  const CURRENCY_WIDTH := 10

  /** The columns of `invoices`: the check on the status and the width of the currency beside the types. */
  predicate StorableCells(cells: Cells) {
    && |cells| == 10
    && (forall k :: 0 <= k < |cells| ==> StorableValue(cells[k]))
    && cells[4].Text? && cells[4].text in CANONICAL
    && cells[5].Text? && |cells[5].text| <= CURRENCY_WIDTH
  }

  /** The same of the invoice itself. */
  predicate StorableInvoice(inv: Invoice) {
    && NulFree(inv.externalId) && NulFree(inv.customerName) && NulFree(inv.invoiceNumber)
    && inv.status.Text? && inv.status.name in CANONICAL
    && NulFree(inv.currency) && |inv.currency| <= CURRENCY_WIDTH
    && WhenFits(inv.invoiceDate) && WhenFits(inv.dueDate)
    && NulFree(inv.source)
  }

  lemma CanonicalIsPlain(name: string)
    requires name in CANONICAL
    ensures NulFree(name)
  {
    assert NulFree("draft") && NulFree("sent") && NulFree("paid") && NulFree("overdue") && NulFree("void");
  }

  lemma StorableCellsMeaning(inv: Invoice)
    ensures StorableCells(InvoiceCells(inv)) <==> StorableInvoice(inv)
  {
    var c := InvoiceCells(inv);
    if StorableInvoice(inv) {
      CanonicalIsPlain(inv.status.name);
    }
    if StorableCells(c) {
      assert StorableValue(c[0]) && StorableValue(c[1]) && StorableValue(c[2]) && StorableValue(c[5]);
      assert StorableValue(c[6]) && StorableValue(c[7]) && StorableValue(c[9]);
    }
  }

  /** A quarantine record is stored as texts and JSON. */
  predicate StorableRecord(r: Record) {
    && NulFree(r.sourceType) && (forall k :: k in r.rawData ==> NulFree(k) && NulFree(r.rawData[k]))
    && (forall e :: e in r.errors ==> NulFree(e))
  }

  predicate AllRecordsStorable(records: seq<Record>) {
    forall i :: 0 <= i < |records| ==> StorableRecord(records[i])
  }

  /** The server runs the bulk upsert. */
  predicate Upsertable(valid: seq<Invoice>) {
    && Fits(|valid|, INVOICES.layout)
    && BulkUpsert.AllStorable(CellsOfAll(valid), StorableCells) && BulkUpsert.Distinct(CellsOfAll(valid))
  }

  /** The server runs the insert of the quarantine records. */
  predicate Insertable(records: seq<Record>) {
    Fits(|records|, QUARANTINE) && AllRecordsStorable(records)
  }

  /** The server runs both statements of a batch. */
  predicate Commits(valid: seq<Invoice>, records: seq<Record>) {
    Upsertable(valid) && Insertable(records)
  }

  /** The tables after a committed batch. */
  function Apply(s: Store, valid: seq<Invoice>, records: seq<Record>): Store {
    Store(UpsertFold(s.invoices, CellsOfAll(valid), INVOICES), s.quarantine + Stamp(records, s.nextId),
          s.nextId + |records|)
  }

  lemma NothingToWrite(s: Store, valid: seq<Invoice>, records: seq<Record>)
    ensures valid == [] ==> Upsertable(valid) && UpsertFold(s.invoices, CellsOfAll(valid), INVOICES) == s.invoices
    ensures records == [] ==> Insertable(records) && s.quarantine + Stamp(records, s.nextId) == s.quarantine
  {
  }

  /**
   * How the table holds a synced invoice: its columns as they are; but of one that was there before, the number, the
   * encryption flag and the key stay the old ones.
   */
  ghost predicate StoredAs(t: Table, inv: Invoice, t': Table) {
    inv.externalId in t' && |t'[inv.externalId]| == 10 &&
    var row := t'[inv.externalId];
    && row[1] == BulkUpsert.Text(inv.customerName) && row[3] == Number(inv.amount)
    && row[4] == StatusValue(inv.status) && row[5] == BulkUpsert.Text(inv.currency)
    && row[6] == DateValue(inv.invoiceDate) && row[7] == DateValue(inv.dueDate) && row[9] == Json(inv.source)
    && (inv.externalId !in t ==>
          row[0] == BulkUpsert.Text(inv.externalId) && row[2] == BulkUpsert.Text(inv.invoiceNumber) && row[8] == Flag(true))
    && (inv.externalId in t && |t[inv.externalId]| == 10 ==>
          var before := t[inv.externalId]; row[0] == before[0] && row[2] == before[2] && row[8] == before[8])
  }

  /** An accepted statement stores every invoice so, and nothing else changes. */
  lemma InvoicesStored(t: Table, valid: seq<Invoice>)
    requires Upsertable(valid)
    ensures var t' := UpsertFold(t, CellsOfAll(valid), INVOICES);
            && (forall i :: 0 <= i < |valid| ==> StoredAs(t, valid[i], t'))
            && forall k :: (forall i :: 0 <= i < |valid| ==> valid[i].externalId != k) ==>
                 (k in t' <==> k in t) && (k in t' ==> t'[k] == t[k])
  {
    hide StoredAs, UpsertFold, StorableCells, InvoiceCells;
    var rows := CellsOfAll(valid);
    var t' := UpsertFold(t, rows, INVOICES);
    HelpersAreValid();
    BulkIsFold(t, rows, INVOICES, StorableCells, t');
    TuplesAreTheRows(rows, INVOICES.layout);
    ExecutedStores(t, rows, valid, t');
  }

  lemma ExecutedStores(t: Table, rows: seq<Cells>, valid: seq<Invoice>, t': Table)
    requires rows == CellsOfAll(valid) && Bindable(Build(rows, INVOICES.layout)) && Tuples(Build(rows, INVOICES.layout)) == rows
    requires Executes(t, Build(rows, INVOICES.layout), INVOICES, StorableCells, t')
    ensures forall i :: 0 <= i < |valid| ==> StoredAs(t, valid[i], t')
    ensures forall k :: (forall i :: 0 <= i < |valid| ==> valid[i].externalId != k) ==>
              (k in t' <==> k in t) && (k in t' ==> t'[k] == t[k])
  {
    hide StoredAs, StorableCells, InvoiceCells, Executes, Build;
    var s := Build(rows, INVOICES.layout);
    forall i | 0 <= i < |valid|
      ensures StoredAs(t, valid[i], t')
    {
      ConflictReplaces(t, s, INVOICES, StorableCells, t', i);
      InvoiceColumns(valid[i], t, t');
    }
    UntouchedKeys(t, s, INVOICES, StorableCells, t');
  }

  lemma InvoiceColumns(inv: Invoice, t: Table, t': Table)
    requires inv.externalId in t' && |t'[inv.externalId]| == 10
    requires inv.externalId !in t ==> t'[inv.externalId] == InvoiceCells(inv)
    requires inv.externalId in t ==>
               forall c :: 0 <= c < 10 ==>
                 t'[inv.externalId][c] == if INVOICES.layout.columns[c] in INVOICES.updated || c >= |t[inv.externalId]|
                                          then InvoiceCells(inv)[c] else t[inv.externalId][c]
    ensures StoredAs(t, inv, t')
  {
    if inv.externalId in t {
      var row, cells := t'[inv.externalId], InvoiceCells(inv);
      assert row[1] == cells[1] && row[3] == cells[3] && row[4] == cells[4] && row[5] == cells[5];
      assert row[6] == cells[6] && row[7] == cells[7] && row[9] == cells[9];
      if |t[inv.externalId]| == 10 {
        var before := t[inv.externalId];
        assert row[0] == before[0] && row[2] == before[2] && row[8] == before[8];
      }
    }
  }

  /** The new records come after the old ones, and every id of the table stays unique and below the next one. */
  lemma AppendedIdsFresh(s: Store, valid: seq<Invoice>, records: seq<Record>)
    requires IdsBelow(s)
    ensures IdsBelow(Apply(s, valid, records)) && s.quarantine <= Apply(s, valid, records).quarantine
    ensures forall i :: 0 <= i < |records| ==> Apply(s, valid, records).quarantine[|s.quarantine| + i].record == records[i]
  {
    var q := Apply(s, valid, records).quarantine;
    forall i, j | 0 <= i < j < |q|
      ensures q[i].id != q[j].id
    {
      assert j >= |s.quarantine| ==> q[j].id == s.nextId + (j - |s.quarantine|);
      assert i >= |s.quarantine| ==> q[i].id == s.nextId + (i - |s.quarantine|);
    }
  }

  ghost predicate IdsBelow(s: Store) {
    && (forall i :: 0 <= i < |s.quarantine| ==> s.quarantine[i].id < s.nextId)
    && (forall i, j :: 0 <= i < j < |s.quarantine| ==> s.quarantine[i].id != s.quarantine[j].id)
  }

  // ── When a batch commits ───────────────────────────────────────────────────

  /** No two accepted rows have the same trimmed external id. */
  ghost predicate AcceptedIdsDistinct(rows: seq<Raw>, env: Env) {
    forall i, j :: 0 <= i < j < |rows| && Accepts(rows[i], i, env) && Accepts(rows[j], j, env) ==>
      IdOf(rows[i]) != IdOf(rows[j])
  }

  ghost predicate OksDistinct(os: seq<Result<Invoice, Record>>, count: nat)
    requires count <= |os|
  {
    forall i, j :: 0 <= i < j < count && os[i].Ok? && os[j].Ok? ==> os[i].value.externalId != os[j].value.externalId
  }

  ghost predicate IdsDistinct(valid: seq<Invoice>) {
    forall i, j :: 0 <= i < j < |valid| ==> valid[i].externalId != valid[j].externalId
  }

  /** The accepted outcomes and the pushed invoices are the same ones. */
  lemma {:induction false} InvoicesAre(os: seq<Result<Invoice, Record>>, count: nat, inv: Invoice)
    requires count <= |os|
    ensures inv in Invoices(os, count) <==> exists i :: 0 <= i < count && os[i] == Ok(inv)
  {
    if count > 0 {
      InvoicesAre(os, count - 1, inv);
    }
  }

  lemma {:induction false} DistinctFromOutcomes(os: seq<Result<Invoice, Record>>, count: nat)
    requires count <= |os|
    ensures IdsDistinct(Invoices(os, count)) <==> OksDistinct(os, count)
  {
    if count > 0 {
      var n := count - 1;
      DistinctFromOutcomes(os, n);
      var before, after := Invoices(os, n), Invoices(os, count);
      assert before == after[..|before|];
      if os[n].Ok? {
        assert after[|before|] == os[n].value;
        forall inv
          ensures inv in before <==> exists i :: 0 <= i < n && os[i] == Ok(inv)
        {
          InvoicesAre(os, n, inv);
        }
        if IdsDistinct(after) {
          forall i | 0 <= i < n && os[i].Ok?
            ensures os[i].value.externalId != os[n].value.externalId
          {
            assert os[i] == Ok(os[i].value);
            assert os[i].value in before;
          }
        }
        if OksDistinct(os, count) {
          forall k | 0 <= k < |before|
            ensures before[k].externalId != os[n].value.externalId
          {
            assert before[k] in before;
          }
        }
      }
    }
  }

  lemma DistinctMeansIds(valid: seq<Invoice>)
    ensures BulkUpsert.Distinct(CellsOfAll(valid)) <==> IdsDistinct(valid)
  {
    var cells := CellsOfAll(valid);
    if IdsDistinct(valid) {
      forall i, j | 0 <= i < j < |cells|
        ensures cells[i][0] != cells[j][0]
      {
        assert valid[i].externalId != valid[j].externalId;
      }
    }
    if BulkUpsert.Distinct(cells) {
      forall i, j | 0 <= i < j < |valid|
        ensures valid[i].externalId != valid[j].externalId
      {
        assert cells[i][0] != cells[j][0];
      }
    }
  }

  lemma StorableMeansInvoices(valid: seq<Invoice>)
    ensures BulkUpsert.AllStorable(CellsOfAll(valid), StorableCells) <==>
            forall i :: 0 <= i < |valid| ==> StorableInvoice(valid[i])
  {
    forall i | 0 <= i < |valid|
      ensures StorableCells(CellsOfAll(valid)[i]) <==> StorableInvoice(valid[i])
    {
      StorableCellsMeaning(valid[i]);
    }
  }

  /** The rejected outcomes and the pushed records are the same ones. */
  lemma {:induction false} RecordsAre(os: seq<Result<Invoice, Record>>, count: nat, r: Record)
    requires count <= |os|
    ensures r in Records(os, count) <==> exists i :: 0 <= i < count && os[i] == Err(r)
  {
    if count > 0 {
      RecordsAre(os, count - 1, r);
    }
  }

  ghost predicate OksStorable(os: seq<Result<Invoice, Record>>) {
    forall i :: 0 <= i < |os| && os[i].Ok? ==> StorableInvoice(os[i].value)
  }

  ghost predicate ErrsStorable(os: seq<Result<Invoice, Record>>) {
    forall i :: 0 <= i < |os| && os[i].Err? ==> StorableRecord(os[i].error)
  }

  lemma InvoicesStorable(os: seq<Result<Invoice, Record>>, valid: seq<Invoice>)
    requires forall inv :: inv in valid <==> exists i :: 0 <= i < |os| && os[i] == Ok(inv)
    ensures (forall i :: 0 <= i < |valid| ==> StorableInvoice(valid[i])) <==> OksStorable(os)
  {
    if OksStorable(os) {
      forall i | 0 <= i < |valid|
        ensures StorableInvoice(valid[i])
      {
        assert valid[i] in valid;
        var k :| 0 <= k < |os| && os[k] == Ok(valid[i]);
      }
    }
    if forall i :: 0 <= i < |valid| ==> StorableInvoice(valid[i]) {
      forall i | 0 <= i < |os| && os[i].Ok?
        ensures StorableInvoice(os[i].value)
      {
        assert os[i] == Ok(os[i].value);
        assert os[i].value in valid;
      }
    }
  }

  lemma RecordsStorable(os: seq<Result<Invoice, Record>>, records: seq<Record>)
    requires forall r :: r in records <==> exists i :: 0 <= i < |os| && os[i] == Err(r)
    ensures AllRecordsStorable(records) <==> ErrsStorable(os)
  {
    if ErrsStorable(os) {
      forall i | 0 <= i < |records|
        ensures StorableRecord(records[i])
      {
        assert records[i] in records;
        var k :| 0 <= k < |os| && os[k] == Err(records[i]);
      }
    }
    if AllRecordsStorable(records) {
      forall i | 0 <= i < |os| && os[i].Err?
        ensures StorableRecord(os[i].error)
      {
        assert os[i] == Err(os[i].error);
        assert os[i].error in records;
      }
    }
  }

  lemma CommitsMeansOutcomes(os: seq<Result<Invoice, Record>>)
    ensures Commits(Invoices(os, |os|), Records(os, |os|)) <==>
            && Fits(|Invoices(os, |os|)|, INVOICES.layout) && Fits(|Records(os, |os|)|, QUARANTINE)
            && OksDistinct(os, |os|) && OksStorable(os) && ErrsStorable(os)
  {
    var valid, records := Invoices(os, |os|), Records(os, |os|);
    DistinctFromOutcomes(os, |os|);
    DistinctMeansIds(valid);
    StorableMeansInvoices(valid);
    forall inv
      ensures inv in valid <==> exists i :: 0 <= i < |os| && os[i] == Ok(inv)
    {
      InvoicesAre(os, |os|, inv);
    }
    InvoicesStorable(os, valid);
    forall r
      ensures r in records <==> exists i :: 0 <= i < |os| && os[i] == Err(r)
    {
      RecordsAre(os, |os|, r);
    }
    RecordsStorable(os, records);
  }

  // ── The condition on the rows ──────────────────────────────────────────────

  /** The cipher prints hexadecimal digits and colons, and its exceptions have plain messages. */
  ghost predicate PlainCipher(env: Env) {
    forall s :: NulFree(if env.encrypt(s).Ok? then env.encrypt(s).value else env.encrypt(s).error)
  }

  /** A date text that is there and not empty must give a date of the column's range. */
  predicate DateFits(value: Option<string>, env: Env) {
    Truthy(value) ==> env.parseDate(value.value).Some? && TimestampFits(env.parseDate(value.value).value)
  }

  /** What the columns ask of an accepted row. */
  predicate RowStorable(row: Raw, source: string, env: Env) {
    var n := Normalize(row);
    && '\0' !in IdOf(row) && '\0' !in source
    && '\0' !in env.upper(n.currency) && |env.upper(n.currency)| <= 10
    && (n.status == "" || Key(n.status) !in {"constructor", "__proto__"})
    && DateFits(n.invoiceDate, env) && DateFits(n.dueDate, env)
  }

  /** What they ask of a rejected one. */
  predicate RawStorable(row: Raw, source: string) {
    '\0' !in source && forall k :: k in row ==> '\0' !in k && '\0' !in row[k]
  }

  ghost predicate RowsStorable(rows: seq<Raw>, source: string, env: Env) {
    && (forall i :: 0 <= i < |rows| && Accepts(rows[i], i, env) ==> RowStorable(rows[i], source, env))
    && (forall i :: 0 <= i < |rows| && !Accepts(rows[i], i, env) ==> RawStorable(rows[i], source))
  }

  lemma AcceptedStorable(row: Raw, i: nat, source: string, env: Env)
    requires PlainCipher(env) && Accepts(row, i, env)
    ensures StorableInvoice(Outcome(row, i, source, env).value) <==> RowStorable(row, source, env)
  {
    hide Key, Trim, Message, TimestampFits;
    OutcomeMeans(row, i, source, env);
    var n := Normalize(row);
    StatusClosed(n.status);
    assert Outcome(row, i, source, env).value == Assemble(n, i, source, env).value;
    hide Normalize, Outcome;
  }

  lemma RejectedStorable(row: Raw, i: nat, source: string, env: Env)
    requires PlainCipher(env) && !Accepts(row, i, env)
    ensures StorableRecord(Outcome(row, i, source, env).error) <==> RawStorable(row, source)
  {
    hide Normalize, Outcome;
    OutcomeMeans(row, i, source, env);
    ErrorsArePlain(row, i, source, env);
  }

  lemma OutcomeStorable(row: Raw, i: nat, source: string, env: Env)
    requires PlainCipher(env)
    ensures var o := Outcome(row, i, source, env);
            && (o.Ok? ==> (StorableInvoice(o.value) <==> RowStorable(row, source, env)))
            && (o.Err? ==> (StorableRecord(o.error) <==> RawStorable(row, source)))
  {
    hide Accepts, Outcome, StorableInvoice, RowStorable, StorableRecord, RawStorable;
    OutcomeMeans(row, i, source, env);
    if Accepts(row, i, env) {
      AcceptedStorable(row, i, source, env);
    } else {
      RejectedStorable(row, i, source, env);
    }
  }

  lemma MessageIsPlain(row: nat, text: string)
    requires NulFree(text)
    ensures NulFree(Message(row, text))
  {
    ToNumberDecimal(row);
    assert NulFree("Row ") && NulFree(": ");
    assert forall k :: 0 <= k < |Decimal(row)| ==> IsDigit(Decimal(row)[k]);
  }

  lemma ValidationIsPlain(n: Normalized, row: nat, env: Env)
    ensures forall e :: e in Validate(n, row, env) ==> NulFree(e)
  {
    hide Message;
    assert NulFree("Missing external_id") && NulFree("Missing customer_name") && NulFree("Invalid amount");
    MessageIsPlain(row, "Missing external_id");
    MessageIsPlain(row, "Missing customer_name");
    MessageIsPlain(row, "Invalid amount");
  }

  lemma CipherMessageIsPlain(row: Raw, i: nat, env: Env)
    requires PlainCipher(env)
    ensures NulFree(CIPHER_FAILED + Thrown(row, i, env))
  {
    hide Normalize, NumberOf;
    assert NulFree(CIPHER_FAILED);
  }

  /** The messages of a record are fixed texts around a number, or one around the message of the cipher. */
  lemma ErrorsArePlain(row: Raw, i: nat, source: string, env: Env)
    requires PlainCipher(env) && !Accepts(row, i, env)
    ensures forall e :: e in Outcome(row, i, source, env).error.errors ==> NulFree(e)
  {
    hide Normalize, Validate, Assemble, Thrown, NulFree;
    OutcomeMeans(row, i, source, env);
    ValidationIsPlain(Normalize(row), i + 1, env);
    CipherMessageIsPlain(row, i, env);
  }

  lemma IdsOfOutcomes(rows: seq<Raw>, source: string, env: Env)
    ensures OksDistinct(Outcomes(rows, CallbackOf(source, env)), |rows|) <==> AcceptedIdsDistinct(rows, env)
  {
    var os := Outcomes(rows, CallbackOf(source, env));
    forall i | 0 <= i < |rows|
      ensures os[i].Ok? <==> Accepts(rows[i], i, env)
      ensures os[i].Ok? ==> os[i].value.externalId == IdOf(rows[i])
    {
      OutcomeMeans(rows[i], i, source, env);
    }
  }

  /** The outcome of a row as the columns see it. */
  ghost predicate Mirrors(o: Result<Invoice, Record>, accepted: bool, fits: bool, rawFits: bool) {
    && (o.Ok? <==> accepted)
    && (o.Ok? ==> (StorableInvoice(o.value) <==> fits))
    && (o.Err? ==> (StorableRecord(o.error) <==> rawFits))
  }

  lemma StorableOutcomes(rows: seq<Raw>, source: string, env: Env)
    requires PlainCipher(env)
    ensures var os := Outcomes(rows, CallbackOf(source, env));
            OksStorable(os) && ErrsStorable(os) <==> RowsStorable(rows, source, env)
  {
    var os := Outcomes(rows, CallbackOf(source, env));
    forall i | 0 <= i < |rows|
      ensures Mirrors(os[i], Accepts(rows[i], i, env), RowStorable(rows[i], source, env), RawStorable(rows[i], source))
    {
      OutcomeMeans(rows[i], i, source, env);
      OutcomeStorable(rows[i], i, source, env);
    }
    SameStorable(rows, source, env, os);
  }

  lemma SameStorable(rows: seq<Raw>, source: string, env: Env, os: seq<Result<Invoice, Record>>)
    requires |os| == |rows|
    requires forall i :: 0 <= i < |rows| ==>
               Mirrors(os[i], Accepts(rows[i], i, env), RowStorable(rows[i], source, env), RawStorable(rows[i], source))
    ensures OksStorable(os) && ErrsStorable(os) <==> RowsStorable(rows, source, env)
  {
    if RowsStorable(rows, source, env) {
      forall i | 0 <= i < |os|
        ensures os[i].Ok? ==> StorableInvoice(os[i].value)
        ensures os[i].Err? ==> StorableRecord(os[i].error)
      {
        assert Mirrors(os[i], Accepts(rows[i], i, env), RowStorable(rows[i], source, env), RawStorable(rows[i], source));
      }
    }
  }

  /** Ten parameters for each accepted row, five for each rejected one. */
  predicate StatementsFit(rows: seq<Raw>, env: Env) {
    10 * AcceptedCount(rows, env) <= 65_535 && 5 * Rejected(rows, env) <= 65_535
  }

  /**
   * A batch can commit exactly when no two of its accepted rows have the same trimmed external id, every accepted row
   * fits its columns (dates of the range of a timestamp, no inherited status, a short currency), no text holds the
   * character of code zero, and at most 6,553 rows are accepted and 13,107 rejected; otherwise every row of the batch
   * fails.
   */
  lemma CommitsExactly(rows: seq<Raw>, source: string, env: Env)
    requires PlainCipher(env)
    ensures Commits(ValidOf(rows, source, env), QuarantineOf(rows, source, env)) <==>
            AcceptedIdsDistinct(rows, env) && RowsStorable(rows, source, env) && StatementsFit(rows, env)
  {
    InvoicesOfAccepted(rows, source, env);
    RecordsOfRejected(rows, source, env);
    CommitsMeansOutcomes(Outcomes(rows, CallbackOf(source, env)));
    IdsOfOutcomes(rows, source, env);
    StorableOutcomes(rows, source, env);
  }

  ghost predicate KeysKept(s: Store, s': Store, valid: seq<Invoice>) {
    && (forall key :: key in s.invoices ==> key in s'.invoices)
    && (forall inv :: inv in valid ==> inv.externalId in s'.invoices)
  }

  /** A committed batch leaves every synced id in the table, and takes none out. */
  lemma AppliedKeys(s: Store, valid: seq<Invoice>, records: seq<Record>)
    requires Commits(valid, records)
    ensures KeysKept(s, Apply(s, valid, records), valid)
  {
    var rows, t := CellsOfAll(valid), Apply(s, valid, records).invoices;
    FoldWritesAll(s.invoices, rows, INVOICES);
    forall inv | inv in valid
      ensures inv.externalId in t
    {
      var i :| 0 <= i < |valid| && valid[i] == inv;
      assert rows[i][0].text in t;
    }
    forall key | key in s.invoices
      ensures key in t
    {
      if HasKey(rows, key) {
        var i :| 0 <= i < |rows| && rows[i] != [] && rows[i][0] == BulkUpsert.Text(key);
        assert rows[i][0].text in t;
      }
    }
  }

  // ── Retries ────────────────────────────────────────────────────────────────

  const MAX_RETRY_ATTEMPTS := 3

  /** Attempt `a` commits: the server does not fail in it and accepts the statements. */
  predicate Good(data: seq<Raw>, source: string, envs: nat -> Env, faults: nat -> bool, a: nat) {
    !faults(a) && Commits(ValidOf(data, source, envs(a)), QuarantineOf(data, source, envs(a)))
  }

  function Attempts(data: seq<Raw>, source: string, envs: nat -> Env, faults: nat -> bool): nat -> bool {
    (a: nat) => Good(data, source, envs, faults, a)
  }

  /** The first of the three attempts, from `a` on, that is good. */
  function FirstFrom(good: nat -> bool, a: nat): (r: Option<nat>)
    ensures r.Some? ==> a <= r.value <= MAX_RETRY_ATTEMPTS && good(r.value) && forall b :: a <= b < r.value ==> !good(b)
    ensures r.None? ==> forall b :: a <= b <= MAX_RETRY_ATTEMPTS ==> !good(b)
    decreases MAX_RETRY_ATTEMPTS + 1 - a
  {
    if a > MAX_RETRY_ATTEMPTS then None
    else if good(a) then Some(a)
    else FirstFrom(good, a + 1)
  }

  /** The attempt that commits, if one does. */
  function FirstGood(data: seq<Raw>, source: string, envs: nat -> Env, faults: nat -> bool): Option<nat> {
    FirstFrom(Attempts(data, source, envs, faults), 1)
  }

  /** The attempt that commits is the first of three at which the server does not fail and takes both statements. */
  lemma FirstGoodExactly(data: seq<Raw>, source: string, envs: nat -> Env, faults: nat -> bool, a: nat)
    ensures FirstGood(data, source, envs, faults) == Some(a) <==>
            && 1 <= a <= 3 && Good(data, source, envs, faults, a)
            && forall b :: 1 <= b < a ==> !Good(data, source, envs, faults, b)
  {
    hide Good, FirstFrom;
    var good := Attempts(data, source, envs, faults);
    assert forall b: nat :: good(b) <==> Good(data, source, envs, faults, b);
    FirstFromIs(good, 1, a);
  }

  lemma FirstFromIs(good: nat -> bool, from: nat, a: nat)
    ensures FirstFrom(good, from) == Some(a) <==> from <= a <= 3 && good(a) && forall b :: from <= b < a ==> !good(b)
    decreases 4 - from
  {
  }

  function Applied(s: Store, data: seq<Raw>, source: string, env: Env): Store {
    Apply(s, ValidOf(data, source, env), QuarantineOf(data, source, env))
  }

  function ResultOf(data: seq<Raw>, source: string, env: Env): SyncResult {
    SyncResult(|data|, |ValidOf(data, source, env)|, |QuarantineOf(data, source, env)|)
  }

  class EtlService {
    var store: Store

    constructor (s: Store)
      ensures store == s
    {
      store := s;
    }

    /** The bulk statement of the synced rows: the server runs it as a whole or refuses it as a whole. */
    method UpsertInvoices(valid: seq<Invoice>) returns (accepted: bool)
      modifies this
      ensures accepted <==> Upsertable(valid)
      ensures store == if accepted then old(store).(invoices := store.invoices) else old(store)
      ensures accepted ==> store.invoices == UpsertFold(old(store).invoices, CellsOfAll(valid), INVOICES)
      ensures accepted ==>
        Executes(old(store).invoices, Build(CellsOfAll(valid), INVOICES.layout), INVOICES, StorableCells, store.invoices)
      ensures accepted ==>
        (forall i :: 0 <= i < |valid| ==> StoredAs(old(store).invoices, valid[i], store.invoices))
        && forall k :: (forall i :: 0 <= i < |valid| ==> valid[i].externalId != k) ==>
             (k in store.invoices <==> k in old(store).invoices)
             && (k in store.invoices ==> store.invoices[k] == old(store).invoices[k])
    {
      var rows := CellsOfAll(valid);
      accepted := Fits(|valid|, INVOICES.layout) && BulkUpsert.AllStorable(rows, StorableCells)
                  && BulkUpsert.Distinct(rows);
      if accepted {
        HelpersAreValid();
        BulkIsFold(store.invoices, rows, INVOICES, StorableCells, UpsertFold(store.invoices, rows, INVOICES));
        InvoicesStored(store.invoices, valid);
        store := store.(invoices := UpsertFold(store.invoices, rows, INVOICES));
      }
    }

    method InsertQuarantine(records: seq<Record>) returns (accepted: bool)
      modifies this
      ensures accepted <==> Insertable(records)
      ensures store == if accepted
                       then Store(old(store).invoices, old(store).quarantine + Stamp(records, old(store).nextId),
                                  old(store).nextId + |records|)
                       else old(store)
    {
      accepted := Insertable(records);
      if accepted {
        store := store.(quarantine := store.quarantine + Stamp(records, store.nextId), nextId := store.nextId + |records|);
      }
    }

    /** The writes of a batch; a refused statement leaves what the one before it wrote, for the rollback to undo. */
    method WriteBatch(valid: seq<Invoice>, quarantine: seq<Record>) returns (accepted: bool)
      modifies this
      ensures accepted <==> Commits(valid, quarantine)
      ensures accepted ==> store == Apply(old(store), valid, quarantine)
    {
      hide Upsertable, Insertable, UpsertFold, CellsOfAll, Stamp, StoredAs, Executes;
      NothingToWrite(store, valid, quarantine);
      accepted := true;
      if |valid| > 0 {
        accepted := UpsertInvoices(valid);
        if !accepted {
          return;
        }
      }
      if |quarantine| > 0 {
        accepted := InsertQuarantine(quarantine);
      }
    }

    /**
     * `executeBatch`: one transaction. `fault` is a failure of the server anywhere in it, the commit included; then,
     * or when a statement is refused, everything is rolled back.
     */
    method ExecuteBatch(data: seq<Raw>, source: string, env: Env, fault: bool) returns (r: Result<SyncResult, EtlError>)
      modifies this
      ensures r.Ok? <==> !fault && Commits(ValidOf(data, source, env), QuarantineOf(data, source, env))
      ensures r.Ok? ==> r.value == ResultOf(data, source, env) && store == Applied(old(store), data, source, env)
      ensures r.Err? ==> store == old(store)
    {
      var before := store;
      var valid, quarantine := TransformInvoices(data, source, env);
      var accepted := WriteBatch(valid, quarantine);
      if !accepted || fault {
        store := before;
        return Err(if accepted then ServerFault else Refused);
      }
      return Ok(SyncResult(|data|, |valid|, |quarantine|));
    }

    /**
     * `executeBatchWithRetry`: the batch is applied exactly once, by the first attempt that commits, or not at all when
     * none of the three does.
     */
    method ExecuteBatchWithRetry(data: seq<Raw>, source: string, envs: nat -> Env, faults: nat -> bool)
      returns (r: Result<SyncResult, EtlError>)
      modifies this
      ensures var first := FirstGood(data, source, envs, faults);
              && (r.Ok? <==> first.Some?)
              && store == (if first.Some? then Applied(old(store), data, source, envs(first.value)) else old(store))
              && (r.Ok? ==> r.value == ResultOf(data, source, envs(first.value)))
    {
      ghost var good := Attempts(data, source, envs, faults);
      var attempt := 1;
      while true
        invariant 1 <= attempt <= MAX_RETRY_ATTEMPTS && store == old(store)
        invariant FirstFrom(good, 1) == FirstFrom(good, attempt)
        decreases MAX_RETRY_ATTEMPTS - attempt
      {
        r := ExecuteBatch(data, source, envs(attempt), faults(attempt));
        if r.Ok? {
          return;
        }
        if attempt == MAX_RETRY_ATTEMPTS {
          return;
        }
        attempt := attempt + 1;
      }
    }
  }

  /**
   * Retrying cannot help a batch whose rows repeat an id, hold a value their column does not take or are too many: if
   * that is so at every attempt, nothing is synced and nothing is quarantined.
   */
  lemma RefusedBatchNeverCommits(data: seq<Raw>, source: string, envs: nat -> Env, faults: nat -> bool)
    requires forall a :: 1 <= a <= 3 ==> PlainCipher(envs(a))
    requires forall a :: 1 <= a <= 3 ==>
               !(&& AcceptedIdsDistinct(data, envs(a)) && RowsStorable(data, source, envs(a))
                 && StatementsFit(data, envs(a)))
    ensures FirstGood(data, source, envs, faults).None?
  {
    forall a | 1 <= a <= 3
      ensures !Good(data, source, envs, faults, a)
    {
      CommitsExactly(data, source, envs(a));
    }
  }

  /** A row with all fields and the amount `1`, and one more field. */
  function SmallRow(key: string, value: string): Raw {
    map["external_id" := "A", "customer_name" := "B", "amount" := "1"][key := value]
  }

  /** `parseFloat` reads the amount, `toUpperCase` keeps the default currency, and the cipher does not throw. */
  ghost predicate OrdinaryEnv(env: Env) {
    && env.parseFloat("1") == Some(1.0) && env.upper("USD") == "USD"
    && (forall s :: env.encrypt(s).Ok?) && PlainCipher(env)
  }

  /** The transformer accepts such a row whatever the further field is, if it is not one of the three. */
  lemma SmallRowIsAccepted(key: string, value: string, i: nat, env: Env)
    requires OrdinaryEnv(env) && key in {"invoice_date", "status"}
    ensures Accepts(SmallRow(key, value), i, env)
    ensures key == "invoice_date" ==> Normalize(SmallRow(key, value)).invoiceDate == Some(value)
    ensures key == "status" ==> Normalize(SmallRow(key, value)).status == value
  {
  }

  /**
   * The transformer accepts a row whose invoice date is no date, or one no timestamp reaches back to, and its batch
   * fails at every attempt.
   */
  lemma InvalidDateFailsBatch(noDate: string, source: string, envs: nat -> Env, faults: nat -> bool)
    requires forall a :: OrdinaryEnv(envs(a)) && !DateFits(Some(noDate), envs(a))
    ensures var data := [SmallRow("invoice_date", noDate)];
            && (forall a :: 1 <= a <= 3 ==> Accepts(data[0], 0, envs(a)))
            && FirstGood(data, source, envs, faults).None?
  {
    hide Key, Trim, FirstGood, SmallRow, Normalize, StatementsFit;
    var data := [SmallRow("invoice_date", noDate)];
    forall a | 1 <= a <= 3
      ensures Accepts(data[0], 0, envs(a)) && !RowStorable(data[0], source, envs(a)) && PlainCipher(envs(a))
    {
      assert OrdinaryEnv(envs(a)) && !DateFits(Some(noDate), envs(a));
      SmallRowIsAccepted("invoice_date", noDate, 0, envs(a));
    }
    RefusedBatchNeverCommits(data, source, envs, faults);
  }

  /** So does the batch of a row whose status names an inherited member. */
  lemma InheritedStatusFailsBatch(source: string, envs: nat -> Env, faults: nat -> bool) returns (status: string)
    requires forall a :: OrdinaryEnv(envs(a))
    ensures NormalizeStatus(status) == Inherited
    ensures var data := [SmallRow("status", status)];
            && (forall a :: 1 <= a <= 3 ==> Accepts(data[0], 0, envs(a)))
            && FirstGood(data, source, envs, faults).None?
  {
    hide Key, Trim, FirstGood, SmallRow, Normalize, StatementsFit;
    status := StatusCanEscape();
    StatusClosed(status);
    var data := [SmallRow("status", status)];
    forall a | 1 <= a <= 3
      ensures Accepts(data[0], 0, envs(a)) && !RowStorable(data[0], source, envs(a)) && PlainCipher(envs(a))
    {
      assert OrdinaryEnv(envs(a));
      SmallRowIsAccepted("status", status, 0, envs(a));
    }
    RefusedBatchNeverCommits(data, source, envs, faults);
  }

  // ── Large batches ──────────────────────────────────────────────────────────

  /** Rows without fault, each with an id of its own. */
  function GoodRows(n: nat): (rows: seq<Raw>)
    ensures |rows| == n && forall i :: 0 <= i < n ==> rows[i] == SmallRow("external_id", Decimal(i))
  {
    seq(n, i requires 0 <= i < n => SmallRow("external_id", Decimal(i)))
  }

  lemma DraftIsOwnKey()
    ensures Key("draft") !in INHERITED
  {
    CanonicalAreKeys("draft");
    KeyOfKey("draft");
  }

  lemma NumeralIsPlain(k: nat)
    ensures var id := Decimal(k); id != "" && Trim(id) == id && NulFree(id)
  {
    ToNumberDecimal(k);
    TrimEdges(Decimal(k));
    assert forall j :: 0 <= j < |Decimal(k)| ==> IsDigit(Decimal(k)[j]);
  }

  lemma GoodRowIsAccepted(k: nat, i: nat, source: string, env: Env)
    requires OrdinaryEnv(env) && NulFree(source)
    ensures var row := SmallRow("external_id", Decimal(k));
            Accepts(row, i, env) && RowStorable(row, source, env) && IdOf(row) == Decimal(k)
  {
    hide Key, Trim, Decimal;
    var id, row := Decimal(k), SmallRow("external_id", Decimal(k));
    NumeralIsPlain(k);
    DraftIsOwnKey();
    var n := Normalize(row);
    assert n.externalId == Some(id) && n.customerName == Some("B") && n.amount == Some("1");
    assert n.currency == "USD" && n.status == "draft" && n.invoiceDate == None && n.dueDate == None;
    assert NulFree("USD") && |"USD"| == 3;
  }

  lemma {:induction false} NoneRejected(flags: seq<bool>)
    requires forall i :: 0 <= i < |flags| ==> !flags[i]
    ensures CountTrue(flags) == 0
  {
    if flags != [] {
      NoneRejected(flags[..|flags| - 1]);
    }
  }

  /** Of batches without fault exactly those of up to 6,553 rows can commit, although 10,000 are let in. */
  lemma GoodRowsCommitExactly(n: nat, source: string, env: Env)
    requires OrdinaryEnv(env) && NulFree(source)
    ensures Commits(ValidOf(GoodRows(n), source, env), QuarantineOf(GoodRows(n), source, env)) <==> n <= 6_553
  {
    hide Accepts, RowStorable, SmallRow, IdOf, Commits, Decimal;
    var rows := GoodRows(n);
    forall i | 0 <= i < n
      ensures Accepts(rows[i], i, env) && RowStorable(rows[i], source, env) && IdOf(rows[i]) == Decimal(i)
    {
      GoodRowIsAccepted(i, i, source, env);
    }
    forall i, j | 0 <= i < j < n
      ensures IdOf(rows[i]) != IdOf(rows[j])
    {
      ToNumberDecimal(i);
      ToNumberDecimal(j);
    }
    NoneRejected(Rejections(rows, env));
    CommitsExactly(rows, source, env);
  }

  /** A batch of 6,554 accepted rows or more, whatever they hold, fails at every attempt. */
  lemma LargeBatchNeverCommits(data: seq<Raw>, source: string, envs: nat -> Env, faults: nat -> bool)
    requires forall a :: 1 <= a <= 3 ==> PlainCipher(envs(a)) && AcceptedCount(data, envs(a)) >= 6_554
    ensures FirstGood(data, source, envs, faults).None?
  {
    RefusedBatchNeverCommits(data, source, envs, faults);
  }
}
