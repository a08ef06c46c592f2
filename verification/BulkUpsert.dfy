/** Bulk statements and their placeholder arithmetic (src/etl/services/etl.service.ts, src/common/database/query-helper.ts). */
module BulkUpsert {
  import opened Wrappers

  /**
   * A column value: SQL null, a text, a number, a flag, a date by its instant in milliseconds, an object holding a
   * text, a date that is invalid, or a value that is none of these.
   */
  datatype Value =
    | Null
    | Text(text: string)
    | Number(number: real)
    | Flag(flag: bool)
    | Timestamp(instant: int)
    | Json(content: string)
    | InvalidDate
    | Other

  /** The cells of a row in the order of the column list. */
  type Cells = seq<Value>

  /** The column list of a helper and the stride of its placeholder numbers. */
  datatype Layout = Layout(columns: seq<string>, stride: nat)

  /** An upsert: the first column is its conflict key, `updated` are the columns `DO UPDATE SET` replaces. */
  datatype Target = Target(layout: Layout, updated: set<string>)

  datatype Statement = Statement(placeholders: seq<seq<nat>>, parameters: seq<Value>)

  const INVOICES := Target(Layout(
    ["external_id", "customer_name", "invoice_number", "amount", "status", "currency", "invoice_date", "due_date",
     "is_encrypted", "metadata"], 10),
    {"amount", "status", "customer_name", "currency", "invoice_date", "due_date", "metadata"})

  const CONTACTS := Target(Layout(["external_id", "name", "type", "contact_info"], 4), {"name", "type", "contact_info"})

  const PRODUCTS := Target(Layout(["external_id", "name", "price", "stock"], 4), {"name", "price", "stock"})

  const EMPLOYEES := Target(Layout(
    ["external_id", "name", "department", "role", "status", "start_date", "end_date", "salary", "currency", "metadata"], 10),
    {"name", "department", "role", "status", "start_date", "end_date", "salary", "currency", "metadata"})

  const EXPENSES := Layout(["category", "vendor_id", "amount", "currency", "expense_date", "description", "metadata"], 7)

  const BANK_TRANSACTIONS :=
    Layout(["type", "amount", "currency", "transaction_date", "description", "reference", "metadata"], 7)

  const QUARANTINE := Layout(["source_type", "raw_data", "errors", "status", "entity_type"], 5)

  // ── Building the statement ─────────────────────────────────────────────────

  function Flatten<T>(parts: seq<seq<T>>): seq<T> {
    if parts == [] then [] else parts[0] + Flatten(parts[1..])
  }

  /** The numbers of one tuple, `$b+1`, `$b+2`, … for `b = row * stride`. */
  function TupleNumbers(row: nat, width: nat, stride: nat): (r: seq<nat>)
    ensures |r| == width
  {
    var b := row * stride;
    seq(width, c requires 0 <= c < width => b + c + 1)
  }

  function AllNumbers(rows: nat, width: nat, stride: nat): (r: seq<seq<nat>>)
    ensures |r| == rows
  {
    seq(rows, i requires 0 <= i < rows => TupleNumbers(i, width, stride))
  }

  /** The statement a helper builds from the cells of its rows. */
  function Build(rows: seq<Cells>, layout: Layout): Statement {
    Statement(AllNumbers(|rows|, |layout.columns|, layout.stride), Flatten(rows))
  }

  /** The cells of an object, in the order of the columns; a missing key is undefined, which the driver sends as null. */
  function CellsOf(row: map<string, Value>, columns: seq<string>): (r: Cells)
    ensures |r| == |columns|
  {
    seq(|columns|, c requires 0 <= c < |columns| => if columns[c] in row then row[columns[c]] else Null)
  }

  function AllCells(rows: seq<map<string, Value>>, columns: seq<string>): (r: seq<Cells>)
    ensures |r| == |rows|
    ensures forall i :: 0 <= i < |r| ==> |r[i]| == |columns|
  {
    seq(|rows|, i requires 0 <= i < |rows| => CellsOf(rows[i], columns))
  }

  /** `QueryHelper.buildUpsert`: the columns are the keys of the first object, and no objects give an empty query. */
  function BuildUpsert(rows: seq<map<string, Value>>, keysOfFirst: seq<string>): Option<Statement> {
    if rows == [] then None
    else Some(Build(AllCells(rows, keysOfFirst), Layout(keysOfFirst, |keysOfFirst|)))
  }

  predicate ValidLayout(layout: Layout) {
    layout.stride == |layout.columns|
  }

  predicate ValidTarget(target: Target) {
    ValidLayout(target.layout) && target.layout.columns != [] && target.layout.columns[0] !in target.updated
  }

  /** Every helper's stride is its column count, and no upsert replaces its key. */
  lemma HelpersAreValid()
    ensures ValidTarget(INVOICES) && ValidTarget(CONTACTS) && ValidTarget(PRODUCTS) && ValidTarget(EMPLOYEES)
    ensures ValidLayout(EXPENSES) && ValidLayout(BANK_TRANSACTIONS) && ValidLayout(QUARANTINE)
    ensures forall target :: target in {INVOICES, CONTACTS, PRODUCTS, EMPLOYEES} ==>
              target.layout.columns[0] == "external_id"
  {
  }

  /** The columns a conflict leaves alone: the key, and of an invoice its number and its encryption flag. */
  lemma KeptColumns(k: nat)
    ensures k < 10 ==> (INVOICES.layout.columns[k] !in INVOICES.updated <==>
                          INVOICES.layout.columns[k] in {"external_id", "invoice_number", "is_encrypted"})
    ensures k < 4 ==> (CONTACTS.layout.columns[k] !in CONTACTS.updated <==> k == 0)
    ensures k < 4 ==> (PRODUCTS.layout.columns[k] !in PRODUCTS.updated <==> k == 0)
    ensures k < 10 ==> (EMPLOYEES.layout.columns[k] !in EMPLOYEES.updated <==> k == 0)
  {
  }

  ghost predicate Shaped(rows: seq<Cells>, width: nat) {
    forall i :: 0 <= i < |rows| ==> |rows[i]| == width
  }

  /** The most parameters a Bind message of the PostgreSQL protocol can count, in 16 bits. */
  const MAX_PARAMETERS := 65_535

  /** The statement for that many rows can be bound. */
  predicate Fits(rows: nat, layout: Layout) {
    rows * layout.stride <= MAX_PARAMETERS
  }

  // ── Placeholders ───────────────────────────────────────────────────────────

  lemma {:induction false} FlattenLength<T>(parts: seq<seq<T>>, width: nat)
    requires forall i :: 0 <= i < |parts| ==> |parts[i]| == width
    ensures |Flatten(parts)| == |parts| * width
    decreases |parts|
  {
    if parts != [] {
      FlattenLength(parts[1..], width);
      assert |parts| * width == width + (|parts| - 1) * width;
    }
  }

  lemma {:induction false} FlattenAt<T>(parts: seq<seq<T>>, width: nat, r: nat, c: nat)
    requires forall i :: 0 <= i < |parts| ==> |parts[i]| == width
    requires r < |parts| && c < width
    ensures |Flatten(parts)| == |parts| * width
    ensures 0 <= r * width + c < |Flatten(parts)| && Flatten(parts)[r * width + c] == parts[r][c]
    decreases |parts|
  {
    FlattenLength(parts, width);
    if r > 0 {
      FlattenAt(parts[1..], width, r - 1, c);
      assert r * width + c == width + ((r - 1) * width + c);
    } else {
      FlattenLength(parts[1..], width);
    }
  }

  lemma RowProduct(a: nat, b: nat, w: nat)
    requires a <= b
    ensures a * w <= b * w
  {
  }

  /**
   * Read tuple by tuple, the placeholders are 1, 2, 3, … up to the number of parameters, so each parameter is used
   * exactly once.
   */
  lemma PlaceholdersConsecutive(rows: seq<Cells>, layout: Layout, k: nat)
    requires ValidLayout(layout) && Shaped(rows, layout.stride) && k < |rows| * layout.stride
    ensures var s := Build(rows, layout);
            var numbers := Flatten(s.placeholders);
            |numbers| == |s.parameters| == |rows| * layout.stride && numbers[k] == k + 1
  {
    var w := layout.stride;
    if w > 0 {
      var r, c := k / w, k % w;
      assert k == r * w + c;
      if r >= |rows| {
        RowProduct(|rows|, r, w);
        assert false;
      }
      FlattenAt(AllNumbers(|rows|, w, w), w, r, c);
      FlattenLength(rows, w);
    }
  }

  /** Every placeholder has a parameter. */
  ghost predicate Bindable(s: Statement) {
    forall r, c :: 0 <= r < |s.placeholders| && 0 <= c < |s.placeholders[r]| ==>
      1 <= s.placeholders[r][c] <= |s.parameters|
  }

  /** The tuple the server reads: each placeholder stands for its parameter. */
  ghost function TupleOf(s: Statement, r: nat): (t: Cells)
    requires Bindable(s) && r < |s.placeholders|
    ensures |t| == |s.placeholders[r]|
  {
    var numbers := s.placeholders[r];
    seq(|numbers|, c requires 0 <= c < |numbers| => s.parameters[numbers[c] - 1])
  }

  ghost function Tuples(s: Statement): (t: seq<Cells>)
    requires Bindable(s)
    ensures |t| == |s.placeholders|
  {
    seq(|s.placeholders|, r requires 0 <= r < |s.placeholders| => TupleOf(s, r))
  }

  /** Column `c` of row `r` is parameter `r * width + c`, and the placeholder of that cell names it. */
  lemma BindsItsCell(rows: seq<Cells>, layout: Layout, r: nat, c: nat)
    requires ValidLayout(layout) && Shaped(rows, layout.stride) && r < |rows| && c < layout.stride
    ensures var s := Build(rows, layout);
            var at := r * layout.stride + c;
            && |s.placeholders[r]| == layout.stride && s.placeholders[r][c] == at + 1
            && 0 <= at < |s.parameters| && s.parameters[at] == rows[r][c]
  {
    FlattenAt(rows, layout.stride, r, c);
  }

  /** The server reads back exactly the rows. */
  lemma TuplesAreTheRows(rows: seq<Cells>, layout: Layout)
    requires ValidLayout(layout) && Shaped(rows, layout.stride)
    ensures Bindable(Build(rows, layout)) && Tuples(Build(rows, layout)) == rows
  {
    var s := Build(rows, layout);
    forall r, c | 0 <= r < |s.placeholders| && 0 <= c < |s.placeholders[r]|
      ensures 1 <= s.placeholders[r][c] <= |s.parameters| && s.parameters[s.placeholders[r][c] - 1] == rows[r][c]
    {
      BindsItsCell(rows, layout, r, c);
    }
    forall r | 0 <= r < |rows|
      ensures TupleOf(s, r) == rows[r]
    {
    }
  }

  /** `buildUpsert` sends each object's value of every column of the first object, and nothing else. */
  lemma BuildUpsertBinds(rows: seq<map<string, Value>>, keysOfFirst: seq<string>)
    requires rows != []
    ensures var s := BuildUpsert(rows, keysOfFirst).value;
            && Bindable(s) && |Tuples(s)| == |rows| && |s.parameters| == |rows| * |keysOfFirst|
            && forall r :: 0 <= r < |rows| ==> Tuples(s)[r] == CellsOf(rows[r], keysOfFirst)
  {
    var cells := AllCells(rows, keysOfFirst);
    TuplesAreTheRows(cells, Layout(keysOfFirst, |keysOfFirst|));
    FlattenLength(cells, |keysOfFirst|);
  }

  /** With two rows or more, any other stride than the column count breaks the numbering at the second row. */
  lemma OtherStrideBreaksNumbering(rows: seq<Cells>, layout: Layout)
    requires |rows| >= 2 && layout.columns != [] && !ValidLayout(layout)
    ensures var numbers := Flatten(Build(rows, layout).placeholders);
            var w := |layout.columns|;
            w < |numbers| && numbers[w] != w + 1
  {
    var w := |layout.columns|;
    FlattenAt(AllNumbers(|rows|, w, layout.stride), w, 1, 0);
  }

  // ── Executing the statement ────────────────────────────────────────────────

  /** A table by conflict key. */
  type Table = map<string, Cells>

  /** The stored row after a conflict: the updated columns from the new cells, the others as they were. */
  function Merge(prior: Cells, cells: Cells, target: Target): (r: Cells)
    requires |cells| == |target.layout.columns|
    ensures |r| == |cells|
  {
    seq(|cells|, c requires 0 <= c < |cells| =>
      if target.layout.columns[c] in target.updated || c >= |prior| then cells[c] else prior[c])
  }

  /** Rows of the full width with a key. */
  ghost predicate Keyed(rows: seq<Cells>, target: Target) {
    && target.layout.columns != []
    && Shaped(rows, |target.layout.columns|)
    && forall i :: 0 <= i < |rows| ==> rows[i][0].Text?
  }

  /** What an upsert of the row leaves at its key. */
  function Written(t: Table, cells: Cells, target: Target): Cells
    requires |cells| == |target.layout.columns| && cells != [] && cells[0].Text?
  {
    if cells[0].text in t then Merge(t[cells[0].text], cells, target) else cells
  }

  /** The single-row statement. */
  function UpsertOne(t: Table, cells: Cells, target: Target): Table
    requires |cells| == |target.layout.columns| && cells != [] && cells[0].Text?
  {
    t[cells[0].text := Written(t, cells, target)]
  }

  function UpsertFold(t: Table, rows: seq<Cells>, target: Target): Table
    requires Keyed(rows, target)
  {
    if rows == [] then t
    else
      var n := |rows| - 1;
      UpsertOne(UpsertFold(t, rows[..n], target), rows[n], target)
  }

  ghost predicate HasKey(rows: seq<Cells>, key: string) {
    exists i :: 0 <= i < |rows| && rows[i] != [] && rows[i][0] == Text(key)
  }

  /** No two rows share a key. */
  predicate Distinct(rows: seq<Cells>) {
    forall i, j :: 0 <= i < j < |rows| && rows[i] != [] && rows[j] != [] ==> rows[i][0] != rows[j][0]
  }

  /** `t'` is `t` with every row inserted or merged at its key, each against the table before the statement. */
  ghost predicate AllWritten(t: Table, rows: seq<Cells>, target: Target, t': Table)
    requires Keyed(rows, target)
  {
    && (forall i :: 0 <= i < |rows| ==>
          rows[i][0].text in t' && t'[rows[i][0].text] == Written(t, rows[i], target))
    && (forall k :: !HasKey(rows, k) ==> (k in t' <==> k in t) && (k in t ==> t'[k] == t[k]))
  }

  /** The rows whose values the columns and their constraints take. */
  type Constraint = Cells -> bool

  predicate AllStorable(rows: seq<Cells>, storable: Constraint) {
    forall i :: 0 <= i < |rows| ==> storable(rows[i])
  }

  /**
   * The server on a bulk upsert: the tuples are those the placeholders spell out; more parameters than a message can
   * count are an error, a value its column does not take is one, and so is a key that conflicts twice in one statement.
   */
  ghost predicate Executes(t: Table, s: Statement, target: Target, storable: Constraint, t': Table) {
    && Bindable(s) && |s.parameters| <= MAX_PARAMETERS
    && Keyed(Tuples(s), target)
    && AllStorable(Tuples(s), storable)
    && Distinct(Tuples(s))
    && AllWritten(t, Tuples(s), target, t')
  }

  lemma LastKeyIsNew(rows: seq<Cells>, target: Target)
    requires rows != [] && Keyed(rows, target) && Distinct(rows)
    ensures var n := |rows| - 1;
            && Keyed(rows[..n], target) && Distinct(rows[..n]) && !HasKey(rows[..n], rows[n][0].text)
            && forall k :: HasKey(rows, k) <==> HasKey(rows[..n], k) || rows[n][0] == Text(k)
  {
    var n := |rows| - 1;
    forall k
      ensures HasKey(rows, k) <==> HasKey(rows[..n], k) || rows[n][0] == Text(k)
    {
      if HasKey(rows[..n], k) {
        var i :| 0 <= i < n && rows[..n][i] != [] && rows[..n][i][0] == Text(k);
        assert rows[i][0] == Text(k);
      }
      if HasKey(rows, k) && rows[n][0] != Text(k) {
        var i :| 0 <= i < |rows| && rows[i] != [] && rows[i][0] == Text(k);
        assert rows[..n][i] == rows[i];
      }
    }
  }

  lemma FoldStep(t: Table, rows: seq<Cells>, before: Table, target: Target)
    requires rows != [] && Keyed(rows, target) && Distinct(rows)
    requires Keyed(rows[..|rows| - 1], target) && AllWritten(t, rows[..|rows| - 1], target, before)
    ensures AllWritten(t, rows, target, UpsertOne(before, rows[|rows| - 1], target))
  {
    LastKeyIsNew(rows, target);
    var n := |rows| - 1;
    var id, after := rows[n][0].text, UpsertOne(before, rows[n], target);
    assert Written(before, rows[n], target) == Written(t, rows[n], target);
    forall i | 0 <= i < |rows|
      ensures rows[i][0].text in after && after[rows[i][0].text] == Written(t, rows[i], target)
    {
      if i < n {
        assert rows[..n][i] == rows[i] && rows[i][0] != rows[n][0];
      }
    }
  }

  lemma {:induction false} FoldWritesAll(t: Table, rows: seq<Cells>, target: Target)
    requires Keyed(rows, target) && Distinct(rows)
    ensures AllWritten(t, rows, target, UpsertFold(t, rows, target))
    decreases |rows|
  {
    if rows != [] {
      var n := |rows| - 1;
      LastKeyIsNew(rows, target);
      FoldWritesAll(t, rows[..n], target);
      FoldStep(t, rows, UpsertFold(t, rows[..n], target), target);
    }
  }

  lemma WrittenUnique(t: Table, rows: seq<Cells>, target: Target, a: Table, b: Table)
    requires Keyed(rows, target) && AllWritten(t, rows, target, a) && AllWritten(t, rows, target, b)
    ensures a == b
  {
    forall k
      ensures (k in a <==> k in b) && (k in a ==> a[k] == b[k])
    {
      if HasKey(rows, k) {
        var i :| 0 <= i < |rows| && rows[i] != [] && rows[i][0] == Text(k);
        assert rows[i][0].text == k;
      }
    }
  }

  /**
   * The built statement succeeds exactly when its parameters can be counted, every row is storable and no two rows
   * share a key, and then leaves exactly what upserting the rows one by one leaves.
   */
  lemma BulkIsFold(t: Table, rows: seq<Cells>, target: Target, storable: Constraint, t': Table)
    requires ValidTarget(target) && Keyed(rows, target)
    ensures Executes(t, Build(rows, target.layout), target, storable, t') <==>
            && Fits(|rows|, target.layout) && AllStorable(rows, storable) && Distinct(rows)
            && t' == UpsertFold(t, rows, target)
  {
    FlattenLength(rows, target.layout.stride);
    TuplesAreTheRows(rows, target.layout);
    if Distinct(rows) {
      FoldWritesAll(t, rows, target);
      if AllWritten(t, rows, target, t') {
        WrittenUnique(t, rows, target, t', UpsertFold(t, rows, target));
      }
    }
  }

  /**
   * What an executed statement leaves: at the key of a row that was not in the table the row itself; at one that was,
   * column by column, the new value where the statement replaces the column and the old one where it does not.
   */
  lemma ConflictReplaces(t: Table, s: Statement, target: Target, storable: Constraint, t': Table, i: nat)
    requires Executes(t, s, target, storable, t') && i < |s.placeholders|
    ensures var row := Tuples(s)[i];
            var key, n := row[0].text, |target.layout.columns|;
            && key in t' && |t'[key]| == |row| == n
            && (key !in t ==> t'[key] == row)
            && (key in t ==>
                  forall c :: 0 <= c < n ==>
                    t'[key][c] == if target.layout.columns[c] in target.updated || c >= |t[key]| then row[c]
                                  else t[key][c])
  {
    assert Keyed(Tuples(s), target);
  }

  lemma UntouchedKeys(t: Table, s: Statement, target: Target, storable: Constraint, t': Table)
    requires Executes(t, s, target, storable, t')
    ensures forall k :: (forall j :: 0 <= j < |s.placeholders| ==> Tuples(s)[j][0].text != k) ==>
              (k in t' <==> k in t) && (k in t ==> t'[k] == t[k])
  {
    forall k | forall j :: 0 <= j < |s.placeholders| ==> Tuples(s)[j][0].text != k
      ensures !HasKey(Tuples(s), k)
    {
    }
  }

  lemma WrittenTwice(t: Table, cells: Cells, target: Target)
    requires |cells| == |target.layout.columns| && cells != [] && cells[0].Text?
    ensures Merge(Written(t, cells, target), cells, target) == Written(t, cells, target)
  {
  }

  /** Executing the same batch a second time changes nothing. */
  lemma BulkIdempotent(t: Table, s: Statement, target: Target, storable: Constraint, once: Table, twice: Table)
    requires Executes(t, s, target, storable, once) && Executes(once, s, target, storable, twice)
    ensures twice == once
  {
    var rows: seq<Cells> := Tuples(s);
    forall i | 0 <= i < |rows|
      ensures once[rows[i][0].text] == Written(once, rows[i], target)
    {
      WrittenTwice(t, rows[i], target);
    }
    WrittenUnique(once, rows, target, twice, once);
  }
}
