/** Validating and normalising raw invoice rows (src/etl/services/etl-transformer.service.ts). */
module EtlTransform {
  import opened Wrappers
  import opened Strings

  /** A raw row with text values, as a CSV upload gives it. */
  type Raw = map<string, string>

  /** A date field of an invoice: undefined, a date by its instant in milliseconds, or the Invalid Date. */
  datatype When = NoDate | Date(instant: int) | InvalidDate

  /** `source` is the part of the metadata that comes from the caller. */
  datatype Invoice = Invoice(
    externalId: string, customerName: string, invoiceNumber: string, amount: real, status: Status, currency: string,
    invoiceDate: When, dueDate: When, source: string)

  datatype Record = Record(sourceType: string, rawData: Raw, errors: seq<string>, status: string, entityType: string)

  /**
   * What the transformer calls: `parseFloat` (None is NaN or an infinity), `new Date` (None is the Invalid Date, else
   * the instant), `toUpperCase`, the cipher (an error is the message of the exception it throws) and the generated
   * number of a row without one.
   */
  datatype Env = Env(
    parseFloat: string -> Option<real>, parseDate: string -> Option<int>, upper: string -> string,
    encrypt: string -> Result<string, string>, autoNumber: nat -> string)

  // ── Status normalisation ───────────────────────────────────────────────────

  /** What the lookup of a status key yields: text, or an inherited member of the lookup object, which is no text. */
  datatype Status = Text(name: string) | Inherited

  const STATUS_MAP: map<string, string> := map[
    "pending" := "sent", "open" := "sent", "unpaid" := "sent", "issued" := "sent", "approved" := "sent",
    "authorised" := "sent", "authorized" := "sent",
    "complete" := "paid", "completed" := "paid", "closed" := "paid", "settled" := "paid", "cleared" := "paid",
    "late" := "overdue", "past_due" := "overdue", "pastdue" := "overdue", "delinquent" := "overdue",
    "cancelled" := "void", "canceled" := "void", "voided" := "void", "written_off" := "void", "writtenoff" := "void",
    "deleted" := "void",
    "draft" := "draft", "sent" := "sent", "paid" := "paid", "overdue" := "overdue", "void" := "void"]

  /** The lower-case members every plain object inherits. */
  const INHERITED: set<string> := {"constructor", "__proto__"}

  const CANONICAL: set<string> := {"draft", "sent", "paid", "overdue", "void"}

  /** Of the other letters none has a lower-case form that occurs in a key of the lookup object. */
  function LowerChar(c: char): char {
    if 'A' <= c <= 'Z' then c + ('a' - 'A') else c
  }

  function Lower(s: string): (r: string)
    ensures |r| == |s|
  {
    seq(|s|, i requires 0 <= i < |s| => LowerChar(s[i]))
  }

  /** `raw.toLowerCase().trim().replace(/\s+/g, '_')`. */
  function Key(raw: string): string {
    Join(Words(Trim(Lower(raw))), '_')
  }

  function Lookup(key: string): Status {
    if key in STATUS_MAP then Text(STATUS_MAP[key]) else if key in INHERITED then Inherited else Text("draft")
  }

  function NormalizeStatus(raw: string): Status {
    if raw == "" then Text("draft") else Lookup(Key(raw))
  }

  /** A key is read as it stands. */
  ghost predicate IsKey(s: string) {
    s != "" && forall i :: 0 <= i < |s| ==> !IsSpace(s[i]) && LowerChar(s[i]) == s[i]
  }

  lemma KeyOfKey(s: string)
    requires IsKey(s)
    ensures Key(s) == s
  {
    assert Lower(s) == s;
    TrimEdges(s);
    WordsPrefix(s, "x");
  }

  lemma LettersAreKey(s: string)
    requires s != "" && forall i :: 0 <= i < |s| ==> 'a' <= s[i] <= 'z' || s[i] == '_'
    ensures IsKey(s)
  {
  }

  lemma CanonicalAreKeys(s: string)
    requires s in CANONICAL
    ensures IsKey(s) && Lookup(s) == Text(s)
  {
    hide IsKey;
    LettersAreKey(s);
  }

  lemma LookupIsCanonical(key: string)
    ensures Lookup(key) == Inherited <==> key in INHERITED
    ensures Lookup(key).Text? ==> Lookup(key).name in CANONICAL
  {
    assert forall k :: k in STATUS_MAP ==> STATUS_MAP[k] in CANONICAL && k !in INHERITED;
  }

  /** The result is one of the five statuses, unless the key names an inherited member; it is its own normal form. */
  lemma StatusClosed(raw: string)
    ensures var s := NormalizeStatus(raw);
            && (s == Inherited <==> raw != "" && Key(raw) in INHERITED)
            && (s.Text? ==> s.name in CANONICAL && NormalizeStatus(s.name) == s)
  {
    LookupIsCanonical(Key(raw));
    var s := NormalizeStatus(raw);
    if s.Text? {
      CanonicalAreKeys(s.name);
      KeyOfKey(s.name);
    }
  }

  lemma InheritedKey() returns (s: string)
    ensures IsKey(s) && Lookup(s) == Inherited
  {
    s := "constructor";
    hide IsKey;
    LettersAreKey(s);
  }

  const SENT: set<string> := {"pending", "open", "unpaid", "issued", "approved", "authorised", "authorized", "sent"}
  const PAID: set<string> := {"complete", "completed", "closed", "settled", "cleared", "paid"}
  const OVERDUE: set<string> := {"late", "past_due", "pastdue", "delinquent", "overdue"}
  const VOIDED: set<string> :=
    {"cancelled", "canceled", "voided", "void", "written_off", "writtenoff", "deleted"}

  /** The synonyms of each status; what is none of them is a draft. */
  lemma StatusMeans(raw: string)
    ensures NormalizeStatus(raw) == Text("sent") <==> raw != "" && Key(raw) in SENT
    ensures NormalizeStatus(raw) == Text("paid") <==> raw != "" && Key(raw) in PAID
    ensures NormalizeStatus(raw) == Text("overdue") <==> raw != "" && Key(raw) in OVERDUE
    ensures NormalizeStatus(raw) == Text("void") <==> raw != "" && Key(raw) in VOIDED
    ensures NormalizeStatus(raw) == Text("draft") <==>
            raw == "" || Key(raw) !in SENT + PAID + OVERDUE + VOIDED + {"constructor", "__proto__"}
  {
    hide Key;
    LookupMeans(Key(raw));
  }

  lemma LookupMeans(k: string)
    ensures Lookup(k) == Text("sent") <==> k in SENT
    ensures Lookup(k) == Text("paid") <==> k in PAID
    ensures Lookup(k) == Text("overdue") <==> k in OVERDUE
    ensures Lookup(k) == Text("void") <==> k in VOIDED
    ensures Lookup(k) == Text("draft") <==> k !in SENT + PAID + OVERDUE + VOIDED + {"constructor", "__proto__"}
  {
  }

  /** Words in lower case, however they are spaced, are joined by underscores. */
  lemma KeyOfWords(ws: seq<string>)
    requires |ws| >= 1 && forall i :: 0 <= i < |ws| ==> PlainWord(ws[i])
    requires Lower(Join(ws, ' ')) == Join(ws, ' ')
    ensures Key(Join(ws, ' ')) == Join(ws, '_')
  {
    WordsJoin(ws);
    TrimEdges(Join(ws, ' '));
  }

  /** Case does not matter. */
  lemma KeyIgnoresCase(raw: string)
    ensures Key(Lower(raw)) == Key(raw)
  {
    assert Lower(Lower(raw)) == Lower(raw);
  }

  /** The lower-case form of a text: letter by letter, everything else as it is. */
  lemma LowerExactly(s: string, i: nat, k: nat)
    requires i < |s| && k < 26
    ensures s[i] == "ABCDEFGHIJKLMNOPQRSTUVWXYZ"[k] ==> Lower(s)[i] == "abcdefghijklmnopqrstuvwxyz"[k]
    ensures s[i] !in "ABCDEFGHIJKLMNOPQRSTUVWXYZ" ==> Lower(s)[i] == s[i]
  {
    var upper, lower := "ABCDEFGHIJKLMNOPQRSTUVWXYZ", "abcdefghijklmnopqrstuvwxyz";
    assert forall j :: 0 <= j < 26 ==> upper[j] == 'A' + (j as char) && lower[j] == 'a' + (j as char);
    if 'A' <= s[i] <= 'Z' {
      assert upper[(s[i] - 'A') as int] == s[i];
    }
  }

  /** Not every status is one of the five: that of the text `constructor` is a member of the lookup object itself. */
  lemma StatusCanEscape() returns (raw: string)
    ensures NormalizeStatus(raw) == Inherited
  {
    raw := InheritedKey();
    KeyOfKey(raw);
  }

  // ── Field aliases ──────────────────────────────────────────────────────────

  /** `row.key`. */
  function At(row: Raw, key: string): Option<string> {
    if key in row then Some(row[key]) else None
  }

  /** `a ?? b`: empty text is a value. */
  function Coalesce(a: Option<string>, b: Option<string>): Option<string> {
    if a.Some? then a else b
  }

  predicate Filled(row: Raw, alias: string) {
    alias in row && Trim(row[alias]) != ""
  }

  /** The employee columns' `resolve`: the value of the first alias that is not blank. */
  method Resolve(row: Raw, aliases: seq<string>) returns (value: Option<string>)
    ensures value.None? <==> forall k :: 0 <= k < |aliases| ==> !Filled(row, aliases[k])
    ensures value.Some? ==> exists k ::
      && 0 <= k < |aliases| && Filled(row, aliases[k]) && value == Some(row[aliases[k]])
      && forall j :: 0 <= j < k ==> !Filled(row, aliases[j])
  {
    for k := 0 to |aliases|
      invariant forall j :: 0 <= j < k ==> !Filled(row, aliases[j])
    {
      if aliases[k] in row && Trim(row[aliases[k]]) != "" {
        return Some(row[aliases[k]]);
      }
    }
    return None;
  }

  // ── Invoices ───────────────────────────────────────────────────────────────

  const MIN_AMOUNT := 0.01
  const MAX_AMOUNT := 999_999_999.99

  /** The fields of a row by their aliases; the currency as it stands, before `toUpperCase`. */
  datatype Normalized = Normalized(
    externalId: Option<string>, amount: Option<string>, customerName: Option<string>, invoiceNumber: Option<string>,
    currency: string, status: string, invoiceDate: Option<string>, dueDate: Option<string>)

  function Normalize(row: Raw): Normalized {
    Normalized(
      Coalesce(At(row, "external_id"), Coalesce(At(row, "invoice_id"), At(row, "invoiceId"))),
      Coalesce(At(row, "amount"), Coalesce(At(row, "total_amount"), At(row, "totalAmount"))),
      Coalesce(At(row, "customer_name"), At(row, "customerName")),
      At(row, "invoice_number"),
      Coalesce(At(row, "currency"), Some("USD")).value,
      Coalesce(At(row, "status"), Some("draft")).value,
      Coalesce(At(row, "invoice_date"), Coalesce(At(row, "invoiceDate"), At(row, "date"))),
      Coalesce(At(row, "due_date"), At(row, "dueDate")))
  }

  /** The value of the first of the keys the row has, if it has any. */
  ghost predicate FirstPresent(row: Raw, keys: seq<string>, value: Option<string>) {
    && (value.None? <==> forall k :: 0 <= k < |keys| ==> keys[k] !in row)
    && (value.Some? ==> exists k ::
          0 <= k < |keys| && keys[k] in row && value.value == row[keys[k]] && forall j :: 0 <= j < k ==> keys[j] !in row)
  }

  lemma CoalesceTakesFirst(row: Raw, keys: seq<string>)
    requires 2 <= |keys| <= 3
    ensures FirstPresent(row, keys,
              if |keys| == 2 then Coalesce(At(row, keys[0]), At(row, keys[1]))
              else Coalesce(At(row, keys[0]), Coalesce(At(row, keys[1]), At(row, keys[2]))))
  {
  }

  lemma OnlyAlias(row: Raw, key: string)
    ensures FirstPresent(row, [key], At(row, key))
  {
    assert [key][0] == key;
  }

  /** Each field takes the first alias the row has, be its text empty; the status and the currency have defaults. */
  lemma AliasesInOrder(row: Raw)
    ensures var n := Normalize(row);
            && FirstPresent(row, ["external_id", "invoice_id", "invoiceId"], n.externalId)
            && FirstPresent(row, ["amount", "total_amount", "totalAmount"], n.amount)
            && FirstPresent(row, ["customer_name", "customerName"], n.customerName)
            && FirstPresent(row, ["invoice_date", "invoiceDate", "date"], n.invoiceDate)
            && FirstPresent(row, ["due_date", "dueDate"], n.dueDate)
            && FirstPresent(row, ["invoice_number"], n.invoiceNumber)
            && n.currency == (if "currency" in row then row["currency"] else "USD")
            && n.status == (if "status" in row then row["status"] else "draft")
  {
    CoalesceTakesFirst(row, ["external_id", "invoice_id", "invoiceId"]);
    CoalesceTakesFirst(row, ["amount", "total_amount", "totalAmount"]);
    CoalesceTakesFirst(row, ["customer_name", "customerName"]);
    CoalesceTakesFirst(row, ["invoice_date", "invoiceDate", "date"]);
    CoalesceTakesFirst(row, ["due_date", "dueDate"]);
    OnlyAlias(row, "invoice_number");
  }

  /** The external id a synced row is stored under. */
  function IdOf(row: Raw): string {
    var id := Normalize(row).externalId;
    if id.Some? then Trim(id.value) else ""
  }

  /** Undefined and empty text are falsy. */
  predicate Truthy(value: Option<string>) {
    value.Some? && value.value != ""
  }

  function ParsedAmount(n: Normalized, env: Env): Option<real> {
    if n.amount.Some? then env.parseFloat(n.amount.value) else None
  }

  predicate AmountAllowed(amount: Option<real>) {
    amount.Some? && MIN_AMOUNT <= amount.value <= MAX_AMOUNT
  }

  function Message(row: nat, text: string): string {
    "Row " + Decimal(row) + ": " + text
  }

  /** `validateInvoice`. */
  function Validate(n: Normalized, row: nat, env: Env): (errors: seq<string>)
    ensures errors == [] <==> Truthy(n.externalId) && Truthy(n.customerName) && AmountAllowed(ParsedAmount(n, env))
  {
    (if Truthy(n.externalId) then [] else [Message(row, "Missing external_id")])
    + (if Truthy(n.customerName) then [] else [Message(row, "Missing customer_name")])
    + (if AmountAllowed(ParsedAmount(n, env)) then [] else [Message(row, "Invalid amount")])
  }

  function NumberOf(n: Normalized, i: nat, env: Env): string {
    if Truthy(n.invoiceNumber) then n.invoiceNumber.value else env.autoNumber(i)
  }

  /** An empty date text counts as no date; `new Date` does not throw. */
  function DateOf(value: Option<string>, env: Env): When {
    if !Truthy(value) then NoDate
    else
      var date := env.parseDate(value.value);
      if date.Some? then Date(date.value) else InvalidDate
  }

  function MakeQuarantine(source: string, row: Raw, errors: seq<string>): Record {
    Record(source, row, errors, "pending", "invoice")
  }

  const CIPHER_FAILED := "Encryption failed: "

  /** The `try` block: the message of the exception when the cipher throws. */
  function Assemble(n: Normalized, i: nat, source: string, env: Env): Result<Invoice, string>
    requires Truthy(n.externalId) && Truthy(n.customerName) && AmountAllowed(ParsedAmount(n, env))
  {
    var name, number := env.encrypt(n.customerName.value), env.encrypt(NumberOf(n, i, env));
    if name.Err? then Err(name.error)
    else if number.Err? then Err(number.error)
    else Ok(Invoice(Trim(n.externalId.value), name.value, number.value, ParsedAmount(n, env).value,
                    NormalizeStatus(n.status), env.upper(n.currency), DateOf(n.invoiceDate, env),
                    DateOf(n.dueDate, env), source))
  }

  /** The invoice a row becomes, or its quarantine record. */
  function Outcome(row: Raw, i: nat, source: string, env: Env): Result<Invoice, Record> {
    var n := Normalize(row);
    var errors := Validate(n, i + 1, env);
    if errors != [] then Err(MakeQuarantine(source, row, errors))
    else
      var invoice := Assemble(n, i, source, env);
      if invoice.Ok? then Ok(invoice.value)
      else Err(MakeQuarantine(source, row, [CIPHER_FAILED + invoice.error]))
  }

  /** A row is synced exactly when its fields pass and both texts can be encrypted. */
  predicate Accepts(row: Raw, i: nat, env: Env) {
    var n := Normalize(row);
    && Truthy(n.externalId) && Truthy(n.customerName) && AmountAllowed(ParsedAmount(n, env))
    && env.encrypt(n.customerName.value).Ok? && env.encrypt(NumberOf(n, i, env)).Ok?
  }

  /** The message of the exception the row meets: the customer name is encrypted first. */
  function Thrown(row: Raw, i: nat, env: Env): string {
    var n := Normalize(row);
    if n.customerName.None? then ""
    else
      var name, number := env.encrypt(n.customerName.value), env.encrypt(NumberOf(n, i, env));
      if name.Err? then name.error else if number.Err? then number.error else ""
  }

  lemma OutcomeMeans(row: Raw, i: nat, source: string, env: Env)
    ensures var o := Outcome(row, i, source, env);
            && (o.Ok? <==> Accepts(row, i, env))
            && (o.Err? ==> o.error.rawData == row && o.error.errors != [] && o.error.sourceType == source)
            && (o.Err? ==> o.error.status == "pending" && o.error.entityType == "invoice")
            && (o.Ok? ==> o.value.externalId == IdOf(row))
            && (o.Err? && Validate(Normalize(row), i + 1, env) == [] ==>
                  o.error.errors == [CIPHER_FAILED + Thrown(row, i, env)])
            && (o.Ok? ==> EdgeFree(o.value.externalId) && MIN_AMOUNT <= o.value.amount <= MAX_AMOUNT)
  {
    if Accepts(row, i, env) {
      TrimEdges(Normalize(row).externalId.value);
    }
  }

  /** The fields of a synced invoice: each from its own field of the row, and every name and number encrypted. */
  lemma SyncedFields(row: Raw, i: nat, source: string, env: Env)
    requires Accepts(row, i, env)
    ensures Outcome(row, i, source, env).Ok?
    ensures var n, inv := Normalize(row), Outcome(row, i, source, env).value;
            && inv.externalId == Trim(n.externalId.value)
            && env.encrypt(n.customerName.value) == Ok(inv.customerName)
            && (n.invoiceNumber.Some? && n.invoiceNumber.value != "" ==>
                  env.encrypt(n.invoiceNumber.value) == Ok(inv.invoiceNumber))
            && (n.invoiceNumber.None? || n.invoiceNumber.value == "" ==>
                  env.encrypt(env.autoNumber(i)) == Ok(inv.invoiceNumber))
            && env.parseFloat(n.amount.value) == Some(inv.amount) && 0.01 <= inv.amount <= 999_999_999.99
            && inv.status == NormalizeStatus(n.status) && inv.currency == env.upper(n.currency)
            && DateRead(n.invoiceDate, inv.invoiceDate, env) && DateRead(n.dueDate, inv.dueDate, env)
            && inv.source == source
  {
    hide Key, Trim;
  }

  /** No text or an empty one is no date; another is the date the parser makes of it, or the Invalid Date. */
  predicate DateRead(text: Option<string>, date: When, env: Env) {
    if text.None? || text.value == "" then date == NoDate
    else if env.parseDate(text.value).None? then date == InvalidDate
    else date == Date(env.parseDate(text.value).value)
  }

  /** The parsed amount is a number from one hundredth up to 999,999,999.99. */
  ghost predicate AmountFits(n: Normalized, env: Env) {
    exists x: real :: 0.01 <= x <= 999_999_999.99 && n.amount.Some? && env.parseFloat(n.amount.value) == Some(x)
  }

  lemma AmountFitsExactly(n: Normalized, env: Env)
    ensures AmountFits(n, env) <==> AmountAllowed(ParsedAmount(n, env))
  {
    if AmountAllowed(ParsedAmount(n, env)) {
      assert env.parseFloat(n.amount.value) == Some(ParsedAmount(n, env).value);
    }
  }

  function Numbered(i: nat): string {
    "Row " + Decimal(i + 1)
  }

  lemma ColonConcat(i: nat, text: string, colon: string)
    requires colon == ": " + text
    ensures Message(i + 1, text) == Numbered(i) + colon
  {
    hide Decimal;
    assert "Row " + Decimal(i + 1) + ": " + text == "Row " + Decimal(i + 1) + (": " + text);
  }

  lemma AmongThree(a: string, b: string, c: string, noA: bool, noB: bool, noC: bool, e: string)
    ensures var s := (if noA then [] else [a]) + (if noB then [] else [b]) + (if noC then [] else [c]);
            |s| <= 3 && (e in s <==> (e == a && !noA) || (e == b && !noB) || (e == c && !noC))
  {
  }

  lemma MessagesOf(n: Normalized, row: nat, env: Env, e: string)
    ensures var errors := Validate(n, row, env);
            && |errors| <= 3
            && (e in errors <==>
                  || (e == Message(row, "Missing external_id") && !Truthy(n.externalId))
                  || (e == Message(row, "Missing customer_name") && !Truthy(n.customerName))
                  || (e == Message(row, "Invalid amount") && !AmountAllowed(ParsedAmount(n, env))))
  {
    hide Message, AmountAllowed, Truthy, ParsedAmount;
    AmongThree(Message(row, "Missing external_id"), Message(row, "Missing customer_name"), Message(row, "Invalid amount"),
               Truthy(n.externalId), Truthy(n.customerName), AmountAllowed(ParsedAmount(n, env)), e);
  }

  /** Which messages a row that fails validation gets, with its number counted from 1. */
  lemma MessagesAre(row: Raw, i: nat, source: string, env: Env, e: string)
    ensures var n, errors := Normalize(row), Validate(Normalize(row), i + 1, env);
            && |errors| <= 3
            && (e in errors <==>
                  || (e == Numbered(i) + ": Missing external_id" && !Truthy(n.externalId))
                  || (e == Numbered(i) + ": Missing customer_name" && !Truthy(n.customerName))
                  || (e == Numbered(i) + ": Invalid amount" && !AmountFits(n, env)))
            && (errors != [] ==> Outcome(row, i, source, env) == Err(Record(source, row, errors, "pending", "invoice")))
  {
    hide Normalize, Numbered, Message, AmountFits, AmountAllowed, ParsedAmount, Truthy, Validate, Assemble;
    MessagesOf(Normalize(row), i + 1, env, e);
    ColonConcat(i, "Missing external_id", ": Missing external_id");
    ColonConcat(i, "Missing customer_name", ": Missing customer_name");
    ColonConcat(i, "Invalid amount", ": Invalid amount");
    AmountFitsExactly(Normalize(row), env);
  }

  /** What the callback of `rawData.forEach` makes of a row and its index. */
  type Callback = (Raw, nat) -> Result<Invoice, Record>

  function CallbackOf(source: string, env: Env): Callback {
    (row: Raw, i: nat) => Outcome(row, i, source, env)
  }

  function Outcomes(rows: seq<Raw>, callback: Callback): (os: seq<Result<Invoice, Record>>)
    ensures |os| == |rows|
  {
    seq(|rows|, i requires 0 <= i < |rows| => callback(rows[i], i))
  }

  /** The invoices among the first `count` outcomes, in order. */
  function Invoices(os: seq<Result<Invoice, Record>>, count: nat): seq<Invoice>
    requires count <= |os|
  {
    if count == 0 then []
    else Invoices(os, count - 1) + (if os[count - 1].Ok? then [os[count - 1].value] else [])
  }

  /** The quarantine records among the first `count` outcomes, in order. */
  function Records(os: seq<Result<Invoice, Record>>, count: nat): seq<Record>
    requires count <= |os|
  {
    if count == 0 then []
    else Records(os, count - 1) + (if os[count - 1].Err? then [os[count - 1].error] else [])
  }

  function ValidOf(rows: seq<Raw>, source: string, env: Env): seq<Invoice> {
    Invoices(Outcomes(rows, CallbackOf(source, env)), |rows|)
  }

  function QuarantineOf(rows: seq<Raw>, source: string, env: Env): seq<Record> {
    Records(Outcomes(rows, CallbackOf(source, env)), |rows|)
  }

  method ForEach(rows: seq<Raw>, callback: Callback) returns (valid: seq<Invoice>, quarantine: seq<Record>)
    ensures var os := Outcomes(rows, callback);
            valid == Invoices(os, |rows|) && quarantine == Records(os, |rows|)
  {
    ghost var os := Outcomes(rows, callback);
    valid, quarantine := [], [];
    for i := 0 to |rows|
      invariant valid == Invoices(os, i) && quarantine == Records(os, i)
    {
      match callback(rows[i], i)
      case Ok(invoice) => valid := valid + [invoice];
      case Err(record) => quarantine := quarantine + [record];
    }
  }

  /** `transformInvoices`. */
  method TransformInvoices(rawData: seq<Raw>, source: string, env: Env)
    returns (valid: seq<Invoice>, quarantine: seq<Record>)
    ensures valid == ValidOf(rawData, source, env) && quarantine == QuarantineOf(rawData, source, env)
  {
    valid, quarantine := ForEach(rawData, CallbackOf(source, env));
  }

  // ── Partition ──────────────────────────────────────────────────────────────

  lemma {:induction false} PartitionAt(os: seq<Result<Invoice, Record>>, count: nat, i: nat)
    requires i < count <= |os|
    ensures |Invoices(os, count)| + |Records(os, count)| == count
    ensures var rank := |Invoices(os, i)|;
            && rank <= i
            && (os[i].Ok? ==> rank < |Invoices(os, count)| && Invoices(os, count)[rank] == os[i].value)
            && (os[i].Err? ==> i - rank < |Records(os, count)| && Records(os, count)[i - rank] == os[i].error)
    decreases count
  {
    if i < count - 1 {
      PartitionAt(os, count - 1, i);
    } else if i > 0 {
      PartitionAt(os, i, i - 1);
    }
  }

  /**
   * No row is lost, none is invented and their order stays: total = synced + quarantined, and row `i` is, at its rank
   * among its own kind, either the invoice made from it or the record that holds it verbatim.
   */
  lemma TransformPartitions(rows: seq<Raw>, source: string, env: Env, i: nat)
    requires i < |rows|
    ensures var valid, quarantine := ValidOf(rows, source, env), QuarantineOf(rows, source, env);
            var rank := |Invoices(Outcomes(rows, CallbackOf(source, env)), i)|;
            && |valid| + |quarantine| == |rows| && rank <= i
            && (if Accepts(rows[i], i, env)
                then rank < |valid| && valid[rank].externalId == IdOf(rows[i])
                else i - rank < |quarantine| && quarantine[i - rank].rawData == rows[i]
                     && quarantine[i - rank].errors != [] && quarantine[i - rank].sourceType == source)
  {
    PartitionAt(Outcomes(rows, CallbackOf(source, env)), |rows|, i);
    OutcomeMeans(rows[i], i, source, env);
  }

  // ── How many rows are rejected ─────────────────────────────────────────────

  function CountTrue(flags: seq<bool>): nat {
    if flags == [] then 0 else CountTrue(flags[..|flags| - 1]) + (if flags[|flags| - 1] then 1 else 0)
  }

  /** Which rows the transformer rejects. */
  function Rejections(rows: seq<Raw>, env: Env): (flags: seq<bool>)
    ensures |flags| == |rows|
  {
    seq(|rows|, i requires 0 <= i < |rows| => !Accepts(rows[i], i, env))
  }

  /** How many rows the transformer rejects. */
  function Rejected(rows: seq<Raw>, env: Env): nat {
    CountTrue(Rejections(rows, env))
  }

  lemma {:induction false} RecordsCounted(os: seq<Result<Invoice, Record>>, flags: seq<bool>, count: nat)
    requires count <= |os| == |flags| && forall i :: 0 <= i < |os| ==> (flags[i] <==> os[i].Err?)
    ensures |Records(os, count)| == CountTrue(flags[..count])
  {
    if count > 0 {
      RecordsCounted(os, flags, count - 1);
      assert flags[..count][..count - 1] == flags[..count - 1];
    }
  }

  lemma RecordsOfRejected(rows: seq<Raw>, source: string, env: Env)
    ensures |QuarantineOf(rows, source, env)| == Rejected(rows, env)
  {
    var os, flags := Outcomes(rows, CallbackOf(source, env)), Rejections(rows, env);
    forall i | 0 <= i < |rows|
      ensures flags[i] <==> os[i].Err?
    {
      OutcomeMeans(rows[i], i, source, env);
    }
    RecordsCounted(os, flags, |os|);
    assert flags[..|os|] == flags;
  }

  /** How many rows it accepts. */
  function AcceptedCount(rows: seq<Raw>, env: Env): int {
    |rows| - Rejected(rows, env)
  }

  lemma InvoicesOfAccepted(rows: seq<Raw>, source: string, env: Env)
    ensures |ValidOf(rows, source, env)| == AcceptedCount(rows, env)
  {
    RecordsOfRejected(rows, source, env);
    if rows != [] {
      PartitionAt(Outcomes(rows, CallbackOf(source, env)), |rows|, 0);
    }
  }
}
