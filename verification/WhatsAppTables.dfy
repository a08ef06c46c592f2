/** The tables of phone linking and their SQL statements (src/whatsapp/whatsapp.service.ts). */
module WhatsAppTables {
  import opened Wrappers
  import opened Strings

  type Tenant = string
  type User = string
  type Schema = string
  type Phone = string
  type ChatId = string

  datatype OtpRow = OtpRow(tenant: Tenant, user: User, otp: string, expiresAt: int, usedAt: Option<int>)

  datatype Session = Session(user: Option<User>, chat: Option<ChatId>)

  datatype Registration = Registration(tenant: Tenant, schema: Schema, user: User)

  /** The public tables, and every tenant schema's sessions by schema and phone. Tenants do not change. */
  datatype Tables = Tables(
    tenants: map<Tenant, Schema>,
    otps: seq<OtpRow>,
    sessions: map<(Schema, Phone), Session>,
    registry: map<Phone, Registration>)

  /** An unused, unexpired row of the code, in any tenant. */
  predicate Live(row: OtpRow, otp: string, now: int) {
    row.otp == otp && row.expiresAt > now && row.usedAt.None?
  }

  /** The foreign key to the tenants, and the unique index on unused codes within a tenant. */
  predicate OtpInsertable(db: Tables, row: OtpRow) {
    && row.tenant in db.tenants && row.usedAt.None?
    && forall i :: 0 <= i < |db.otps| ==>
         !(db.otps[i].otp == row.otp && db.otps[i].tenant == row.tenant && db.otps[i].usedAt.None?)
  }

  /** VALIDATE_AND_CONSUME_OTP_SQL stamps every live row of the code. */
  function Consume(otps: seq<OtpRow>, otp: string, now: int): (r: seq<OtpRow>)
    ensures |r| == |otps|
  {
    seq(|otps|, i requires 0 <= i < |otps| =>
      if Live(otps[i], otp, now) then otps[i].(usedAt := Some(now)) else otps[i])
  }

  /** The session upsert of `handleOtpSubmission`: the user is replaced, the chat session is kept. */
  function LinkSession(db: Tables, schema: Schema, phone: Phone, user: User): Tables {
    var chat := if (schema, phone) in db.sessions then db.sessions[(schema, phone)].chat else None;
    db.(sessions := db.sessions[(schema, phone) := Session(Some(user), chat)])
  }

  /** UPSERT_SESSION_SQL of `routeToLlm`: user and chat session are replaced. */
  function ChatSession(db: Tables, schema: Schema, phone: Phone, user: User, chat: ChatId): Tables {
    db.(sessions := db.sessions[(schema, phone) := Session(Some(user), Some(chat))])
  }

  /** REGISTER_PHONE_SQL. */
  function Register(db: Tables, phone: Phone, row: Registration): Tables {
    db.(registry := db.registry[phone := row])
  }

  datatype Outcome = Linked | InvalidCode | MissingFields | TenantNotFound

  class WhatsAppService {
    var db: Tables

    constructor (tenants: map<Tenant, Schema>)
      ensures db == Tables(tenants, [], map[], map[])
    {
      db := Tables(tenants, [], map[], map[]);
    }

    /** `generateOtp`'s insert; the code comes from `randomInt`. */
    method InsertOtp(row: OtpRow) returns (ok: bool)
      modifies this
      ensures ok <==> OtpInsertable(old(db), row)
      ensures db == if ok then old(db).(otps := old(db).otps + [row]) else old(db)
    {
      ok := row.tenant in db.tenants && row.usedAt.None?;
      var i := 0;
      while ok && i < |db.otps|
        invariant 0 <= i <= |db.otps|
        invariant ok ==> row.tenant in db.tenants && row.usedAt.None?
        invariant ok ==> forall k :: 0 <= k < i ==>
                    !(db.otps[k].otp == row.otp && db.otps[k].tenant == row.tenant && db.otps[k].usedAt.None?)
        invariant !ok ==> !OtpInsertable(db, row)
      {
        if db.otps[i].otp == row.otp && db.otps[i].tenant == row.tenant && db.otps[i].usedAt.None? {
          ok := false;
        }
        i := i + 1;
      }
      if ok {
        db := db.(otps := db.otps + [row]);
      }
    }

    /** The consuming update: stamps the live rows and returns their positions. */
    method ConsumeOtp(otp: string, now: int) returns (hits: seq<nat>)
      modifies this
      ensures db == old(db).(otps := Consume(old(db).otps, otp, now))
      ensures forall i :: i in hits <==>
                && 0 <= i < |old(db).otps| && old(db).otps[i].otp == otp && old(db).otps[i].expiresAt > now
                && old(db).otps[i].usedAt.None?
      ensures |db.otps| == |old(db).otps|
      ensures forall i :: 0 <= i < |db.otps| ==>
                db.otps[i] == if i in hits then old(db).otps[i].(usedAt := Some(now)) else old(db).otps[i]
    {
      hits := [];
      var rows := db.otps;
      for i := 0 to |db.otps|
        invariant |rows| == |db.otps| && db == old(db)
        invariant forall k :: 0 <= k < i ==> rows[k] == Consume(db.otps, otp, now)[k]
        invariant forall k :: i <= k < |rows| ==> rows[k] == db.otps[k]
        invariant forall k :: k in hits <==> 0 <= k < i && Live(db.otps[k], otp, now)
      {
        if Live(rows[i], otp, now) {
          rows := rows[i := rows[i].(usedAt := Some(now))];
          hits := hits + [i];
        }
      }
      assert rows == Consume(db.otps, otp, now);
      db := db.(otps := rows);
    }

    /** `handleOtpSubmission` undisturbed: all four steps, or none after the one that fails. */
    method HandleOtpSubmission(phone: Phone, otp: string, now: int) returns (outcome: Outcome, row: nat)
      modifies this
      ensures outcome.InvalidCode? <==>
                !exists i :: 0 <= i < |old(db).otps| && old(db).otps[i].otp == otp && old(db).otps[i].expiresAt > now
                             && old(db).otps[i].usedAt.None?
      ensures !outcome.InvalidCode? ==>
                && row < |old(db).otps| && old(db).otps[row].otp == otp && old(db).otps[row].expiresAt > now
                && old(db).otps[row].usedAt.None?
      ensures forall i :: 0 <= i < |old(db).otps| && old(db).otps[i].expiresAt <= now ==>
                i < |db.otps| && db.otps[i] == old(db).otps[i]
      ensures var consumed := old(db).(otps := Consume(old(db).otps, otp, now));
              if outcome.Linked? then
                var hit := old(db).otps[row];
                && hit.tenant in old(db).tenants
                && hit.user != "" && hit.tenant != ""
                && var schema := old(db).tenants[hit.tenant];
                   var key := (schema, phone);
                   var chat := if key in old(db).sessions then old(db).sessions[key].chat else None;
                   && db.tenants == old(db).tenants && db.otps == consumed.otps
                   && db.sessions == old(db).sessions[key := Session(Some(hit.user), chat)]
                   && db.registry == old(db).registry[phone := Registration(hit.tenant, schema, hit.user)]
              else db == consumed
    {
      var hits := ConsumeOtp(otp, now);
      row := 0;
      if hits == [] {
        forall i | 0 <= i < |old(db).otps|
          ensures !Live(old(db).otps[i], otp, now)
        {
          assert i !in hits;
        }
        return InvalidCode, row;
      }
      row := hits[0];
      assert row in hits;
      var user, tenant := db.otps[row].user, db.otps[row].tenant;
      if user == "" || tenant == "" {
        return MissingFields, row;
      }
      if tenant !in db.tenants {
        return TenantNotFound, row;
      }
      var schema := db.tenants[tenant];
      db := LinkSession(db, schema, phone, user);
      db := Register(db, phone, Registration(tenant, schema, user));
      return Linked, row;
    }
  }

  /** A code is single-use: after it was consumed no row of it is live again at any later instant. */
  lemma ConsumedStaysUsed(otps: seq<OtpRow>, otp: string, now: int, later: int)
    requires now <= later
    ensures forall i :: 0 <= i < |otps| ==> !Live(Consume(otps, otp, now)[i], otp, later)
    ensures Consume(Consume(otps, otp, now), otp, later) == Consume(otps, otp, now)
  {
  }

  /** The unique index holds: a code is unused at most once within a tenant. */
  ghost predicate UniqueUnused(otps: seq<OtpRow>) {
    forall i, j :: 0 <= i < j < |otps| && otps[i].usedAt.None? && otps[j].usedAt.None? ==>
      otps[i].otp != otps[j].otp || otps[i].tenant != otps[j].tenant
  }

  /** One submission consumes a single row exactly when no two tenants hold the same live code. */
  lemma ConsumesOneRowExactly(otps: seq<OtpRow>, otp: string, now: int)
    requires UniqueUnused(otps)
    ensures (forall i, j :: 0 <= i < j < |otps| && Live(otps[i], otp, now) ==> !Live(otps[j], otp, now))
            <==> (forall i, j :: 0 <= i < |otps| && 0 <= j < |otps| && Live(otps[i], otp, now) && Live(otps[j], otp, now)
                     ==> otps[i].tenant == otps[j].tenant)
  {
    if forall i, j :: 0 <= i < j < |otps| && Live(otps[i], otp, now) ==> !Live(otps[j], otp, now) {
      forall i, j | 0 <= i < |otps| && 0 <= j < |otps| && Live(otps[i], otp, now) && Live(otps[j], otp, now)
        ensures i == j
      {
      }
    }
  }

  // ── Which handler an inbound text goes to ──────────────────────────────────

  datatype Inbound = Help | Code(otp: string) | Chat(text: string)

  function Lower(c: char): char {
    if 'A' <= c <= 'Z' then c - 'A' + 'a' else c
  }

  /** The dispatch of `processTextMessage`. */
  function Classify(body: string): Inbound {
    var text := Trim(body);
    if |text| == 4 && Lower(text[0]) == 'h' && Lower(text[1]) == 'e' && Lower(text[2]) == 'l' && Lower(text[3]) == 'p'
    then Help
    else if |text| == 6 && Digits(text) then Code(text)
    else Chat(text)
  }

  lemma {:induction false} DecimalLength(n: nat, digits: nat, bound: nat)
    requires digits >= 1 && bound == PowerOfTen(digits - 1)
    requires bound <= n < 10 * bound && (digits > 1 || n > 0)
    ensures |Decimal(n)| == digits
    decreases digits
  {
    if digits > 1 {
      DecimalLength(n / 10, digits - 1, PowerOfTen(digits - 2));
    }
  }

  function PowerOfTen(k: nat): nat {
    if k == 0 then 1 else 10 * PowerOfTen(k - 1)
  }

  /** Every code `generateOtp` can draw, sent back with any blanks around it, is dispatched as that code. */
  lemma GeneratedCodeIsRecognised(n: nat, body: string)
    requires 100000 <= n < 999999 && Trim(body) == Decimal(n)
    ensures Classify(body) == Code(Decimal(n))
  {
    ToNumberDecimal(n);
    assert PowerOfTen(5) == 100000 by {
      assert PowerOfTen(2) == 100 && PowerOfTen(3) == 1000 && PowerOfTen(4) == 10000;
    }
    DecimalLength(n, 6, 100000);
  }

  /** A code is six digits, help is that word in any case, and everything else goes to the chat. */
  lemma ClassifyExactly(body: string)
    ensures Classify(body).Code? <==> |Trim(body)| == 6 && forall i :: 0 <= i < 6 ==> '0' <= Trim(body)[i] <= '9'
    ensures Classify(body).Help? <==>
            && |Trim(body)| == 4
            && Trim(body)[0] in {'h', 'H'} && Trim(body)[1] in {'e', 'E'} && Trim(body)[2] in {'l', 'L'}
            && Trim(body)[3] in {'p', 'P'}
    ensures Classify(body).Code? ==> Classify(body).otp == Trim(body)
    ensures Classify(body).Chat? ==> Classify(body).text == Trim(body)
  {
    hide Trim;
  }

  /** A code can be inserted when its tenant is there and no unused row of the tenant holds it. */
  lemma InsertableExactly(db: Tables, row: OtpRow)
    ensures OtpInsertable(db, row) <==>
            row.tenant in db.tenants && row.usedAt == None
            && forall other :: other in db.otps && other.otp == row.otp && other.tenant == row.tenant ==> other.usedAt.Some?
  {
    if OtpInsertable(db, row) {
      forall other | other in db.otps && other.otp == row.otp && other.tenant == row.tenant
        ensures other.usedAt.Some?
      {
        var i :| 0 <= i < |db.otps| && db.otps[i] == other;
      }
    }
  }
}
