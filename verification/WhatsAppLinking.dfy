/** Every interleaving of link handlers and inbound messages, each stopping anywhere (src/whatsapp/whatsapp.service.ts). */
module WhatsAppLinking {
  import opened Wrappers
  import opened WhatsAppTables

  /** How a handler ended. */
  datatype Reply =
    | Failed(outcome: Outcome)
    | LinkedTo(registration: Registration)
    | Welcome
    | SessionError
    | NotLinked
    | Routed(registration: Registration)

  /** Where a handler stands between two of its transactions. */
  datatype Handler =
    | Submitted(phone: Phone, otp: string)
    | Consumed(phone: Phone, tenant: Tenant, user: User)
    | Located(phone: Phone, row: Registration)
    | Seated(phone: Phone, row: Registration)
    | Arrived(phone: Phone)
    | Found(phone: Phone, row: Registration)
    | Checked(phone: Phone, row: Registration, session: Session)
    | Done(phone: Phone, reply: Reply)

  datatype State = State(db: Tables, handlers: seq<Handler>)

  datatype Step =
    | GenerateOtp(row: OtpRow)
    | ReceiveCode(phone: Phone, otp: string)
    | ReceiveChat(phone: Phone)
    | Advance(h: nat, now: int, pick: nat, chat: ChatId)

  ghost predicate Enabled(s: State, step: Step) {
    match step
    case GenerateOtp(row) => OtpInsertable(s.db, row)
    case Advance(h, now, pick, _) =>
      && h < |s.handlers| && !s.handlers[h].Done?
      && (s.handlers[h].Submitted? ==> PickedFirst(s.db.otps, s.handlers[h].otp, now, pick))
    case _ => true
  }

  /** `otpRows[0]` is some row the update returned, if it returned any. */
  ghost predicate PickedFirst(otps: seq<OtpRow>, otp: string, now: int, pick: nat) {
    (exists i :: 0 <= i < |otps| && Live(otps[i], otp, now)) ==> pick < |otps| && Live(otps[pick], otp, now)
  }

  /** The next transaction of a handler; `routeToLlm` is reached by the step out of `Checked`. */
  function Transaction(db: Tables, h: Handler, now: int, pick: nat, chat: ChatId): (Tables, Handler) {
    match h
    case Submitted(phone, otp) =>
      var consumed := db.(otps := Consume(db.otps, otp, now));
      if pick < |db.otps| && Live(db.otps[pick], otp, now) then
        var row := db.otps[pick];
        (consumed,
         if row.user == "" || row.tenant == "" then Done(phone, Failed(MissingFields))
         else Consumed(phone, row.tenant, row.user))
      else (consumed, Done(phone, Failed(InvalidCode)))
    case Consumed(phone, tenant, user) =>
      (db,
       if tenant in db.tenants then Located(phone, Registration(tenant, db.tenants[tenant], user))
       else Done(phone, Failed(TenantNotFound)))
    case Located(phone, row) => (LinkSession(db, row.schema, phone, row.user), Seated(phone, row))
    case Seated(phone, row) => (Register(db, phone, row), Done(phone, LinkedTo(row)))
    case Arrived(phone) =>
      (db, if phone in db.registry then Found(phone, db.registry[phone]) else Done(phone, Welcome))
    case Found(phone, row) =>
      (db,
       if (row.schema, phone) !in db.sessions then Done(phone, SessionError)
       else
         var session := db.sessions[(row.schema, phone)];
         if session.user.None? || session.user.value == "" then Done(phone, NotLinked)
         else Checked(phone, row, session))
    case Checked(phone, row, session) =>
      if row.user == "" || session.user.None? || session.user.value == "" then (db, Done(phone, NotLinked))
      else (if session.chat.Some? then db else ChatSession(db, row.schema, phone, row.user, chat),
            Done(phone, Routed(row)))
    case Done(_, _) => (db, h)
  }

  /** What each transaction writes: stamps, a session, a registry entry, or nothing. */
  lemma TransactionWrites(db: Tables, h: Handler, now: int, pick: nat, chat: ChatId)
    ensures var db' := Transaction(db, h, now, pick, chat).0;
            && db'.tenants == db.tenants
            && (!h.Submitted? ==> db'.otps == db.otps)
            && (!h.Located? && !h.Checked? ==> db'.sessions == db.sessions)
            && (!h.Seated? ==> db'.registry == db.registry)
    ensures var otps := Transaction(db, h, now, pick, chat).0.otps;
            |otps| == |db.otps| &&
            forall i :: 0 <= i < |otps| ==>
              otps[i] == if h.Submitted? && db.otps[i].otp == h.otp && db.otps[i].expiresAt > now && db.otps[i].usedAt.None?
                         then db.otps[i].(usedAt := Some(now)) else db.otps[i]
    ensures h.Located? ==>
              var key := (h.row.schema, h.phone);
              Transaction(db, h, now, pick, chat).0.sessions
              == db.sessions[key := Session(Some(h.row.user), if key in db.sessions then db.sessions[key].chat else None)]
    ensures h.Seated? ==> Transaction(db, h, now, pick, chat).0.registry == db.registry[h.phone := h.row]
    ensures h.Checked? && h.row.user != "" && h.session.user.Some? && h.session.user.value != "" ==>
              Transaction(db, h, now, pick, chat).0.sessions
              == if h.session.chat.Some? then db.sessions
                 else db.sessions[(h.row.schema, h.phone) := Session(Some(h.row.user), Some(chat))]
  {
  }

  /** Where each transaction of a handler leads. */
  lemma TransactionLeads(db: Tables, h: Handler, now: int, pick: nat, chat: ChatId)
    ensures var next := Transaction(db, h, now, pick, chat).1;
            && next.phone == h.phone
            && (h.Submitted? && pick < |db.otps| && db.otps[pick].otp == h.otp && db.otps[pick].expiresAt > now
                && db.otps[pick].usedAt.None? && db.otps[pick].user != "" && db.otps[pick].tenant != "" ==>
                  next == Consumed(h.phone, db.otps[pick].tenant, db.otps[pick].user))
            && (h.Submitted? && (pick < |db.otps| ==> db.otps[pick].otp != h.otp || db.otps[pick].expiresAt <= now
                                                      || db.otps[pick].usedAt.Some?) ==>
                  next == Done(h.phone, Failed(InvalidCode)))
            && (h.Consumed? && h.tenant in db.tenants ==>
                  next == Located(h.phone, Registration(h.tenant, db.tenants[h.tenant], h.user)))
            && (h.Consumed? && h.tenant !in db.tenants ==> next == Done(h.phone, Failed(TenantNotFound)))
            && (h.Located? ==> next == Seated(h.phone, h.row))
            && (h.Seated? ==> next == Done(h.phone, LinkedTo(h.row)))
            && (h.Arrived? && h.phone in db.registry ==> next == Found(h.phone, db.registry[h.phone]))
            && (h.Arrived? && h.phone !in db.registry ==> next == Done(h.phone, Welcome))
    ensures var next := Transaction(db, h, now, pick, chat).1;
            && (h.Found? ==>
                  var key := (h.row.schema, h.phone);
                  if key !in db.sessions then next == Done(h.phone, SessionError)
                  else if db.sessions[key].user.None? || db.sessions[key].user.value == "" then next == Done(h.phone, NotLinked)
                  else next == Checked(h.phone, h.row, db.sessions[key]))
            && (h.Checked? ==>
                  if h.row.user == "" || h.session.user.None? || h.session.user.value == "" then next == Done(h.phone, NotLinked)
                  else next == Done(h.phone, Routed(h.row)))
  {
    hide Consume, LinkSession, Register, ChatSession;
  }

  function Apply(s: State, step: Step): State
    requires Enabled(s, step)
  {
    match step
    case GenerateOtp(row) => s.(db := s.db.(otps := s.db.otps + [row]))
    case ReceiveCode(phone, otp) => s.(handlers := s.handlers + [Submitted(phone, otp)])
    case ReceiveChat(phone) => s.(handlers := s.handlers + [Arrived(phone)])
    case Advance(h, now, pick, chat) =>
      var (db, next) := Transaction(s.db, s.handlers[h], now, pick, chat);
      State(db, s.handlers[h := next])
  }

  // ── The invariant ──────────────────────────────────────────────────────────

  /** Some code was issued to that user of that tenant, and consumed before it expired. */
  ghost predicate Proven(db: Tables, tenant: Tenant, user: User) {
    user != "" && exists i :: 0 <= i < |db.otps| && db.otps[i].usedAt.Some? && db.otps[i].usedAt.value < db.otps[i].expiresAt
                              && db.otps[i].tenant == tenant && db.otps[i].user == user
  }

  /** The schema belongs to the tenant, and the user proved membership with a code. */
  ghost predicate Honest(db: Tables, row: Registration) {
    row.tenant in db.tenants && db.tenants[row.tenant] == row.schema && Proven(db, row.tenant, row.user)
  }

  /** A session's user was proven for a tenant that owns the schema. */
  ghost predicate SessionHonest(db: Tables, schema: Schema, session: Session) {
    session.user.Some? && exists t :: Honest(db, Registration(t, schema, session.user.value))
  }

  ghost predicate HandlerHonest(db: Tables, h: Handler) {
    match h
    case Consumed(_, tenant, user) => tenant in db.tenants && Proven(db, tenant, user)
    case Located(_, row) => Honest(db, row)
    case Seated(phone, row) => Honest(db, row) && (row.schema, phone) in db.sessions
    case Found(phone, row) => Honest(db, row) && (row.schema, phone) in db.sessions
    case Checked(phone, row, session) => Honest(db, row) && SessionHonest(db, row.schema, session)
    case Done(_, reply) =>
      && reply != SessionError && reply != NotLinked && reply != Failed(TenantNotFound)
      && (reply.Routed? || reply.LinkedTo? ==> Honest(db, reply.registration))
    case _ => true
  }

  ghost predicate DatabaseHonest(db: Tables) {
    && (forall i :: 0 <= i < |db.otps| ==> db.otps[i].tenant in db.tenants)
    && (forall k :: k in db.sessions ==> SessionHonest(db, k.0, db.sessions[k]))
    && (forall p :: p in db.registry ==> Honest(db, db.registry[p]) && (db.registry[p].schema, p) in db.sessions)
  }

  ghost predicate Invariant(s: State) {
    DatabaseHonest(s.db) && forall i :: 0 <= i < |s.handlers| ==> HandlerHonest(s.db, s.handlers[i])
  }

  /** What every transaction keeps: proofs, tenants and the presence of sessions only grow. */
  ghost predicate Grows(db: Tables, db': Tables) {
    && db'.tenants == db.tenants
    && |db'.otps| >= |db.otps|
    && (forall i :: 0 <= i < |db.otps| ==>
          && db'.otps[i].tenant == db.otps[i].tenant && db'.otps[i].user == db.otps[i].user
          && (db.otps[i].usedAt.Some? ==> db'.otps[i].usedAt == db.otps[i].usedAt)
          && db'.otps[i].expiresAt == db.otps[i].expiresAt)
    && db.sessions.Keys <= db'.sessions.Keys
  }

  lemma HonestPersists(db: Tables, db': Tables, row: Registration)
    requires Grows(db, db') && Honest(db, row)
    ensures Honest(db', row)
  {
    var i :| 0 <= i < |db.otps| && db.otps[i].usedAt.Some? && db.otps[i].usedAt.value < db.otps[i].expiresAt
             && db.otps[i].tenant == row.tenant && db.otps[i].user == row.user;
    assert db'.otps[i].usedAt.Some?;
  }

  lemma SessionHonestPersists(db: Tables, db': Tables, schema: Schema, session: Session)
    requires Grows(db, db') && SessionHonest(db, schema, session)
    ensures SessionHonest(db', schema, session)
  {
    var t :| Honest(db, Registration(t, schema, session.user.value));
    HonestPersists(db, db', Registration(t, schema, session.user.value));
  }

  lemma HandlerHonestPersists(db: Tables, db': Tables, h: Handler)
    requires Grows(db, db') && HandlerHonest(db, h)
    ensures HandlerHonest(db', h)
  {
    match h
    case Consumed(_, tenant, user) =>
      HonestPersists(db, db', Registration(tenant, db.tenants[tenant], user));
    case Located(_, row) => HonestPersists(db, db', row);
    case Seated(_, row) => HonestPersists(db, db', row);
    case Found(_, row) => HonestPersists(db, db', row);
    case Checked(_, row, session) =>
      HonestPersists(db, db', row);
      SessionHonestPersists(db, db', row.schema, session);
    case Done(_, reply) =>
      if reply.Routed? || reply.LinkedTo? {
        HonestPersists(db, db', reply.registration);
      }
    case _ =>
  }

  /** An honest registration makes an honest session of its user. */
  lemma RowMakesSession(db: Tables, row: Registration, chat: Option<ChatId>)
    requires Honest(db, row)
    ensures SessionHonest(db, row.schema, Session(Some(row.user), chat))
  {
    assert Honest(db, Registration(row.tenant, row.schema, row.user));
  }

  lemma TransactionGrows(db: Tables, h: Handler, now: int, pick: nat, chat: ChatId)
    ensures Grows(db, Transaction(db, h, now, pick, chat).0)
  {
  }

  /** A transaction of an honest handler leaves its own next state honest. */
  lemma TransactionKeepsHandler(db: Tables, h: Handler, now: int, pick: nat, chat: ChatId)
    requires DatabaseHonest(db) && HandlerHonest(db, h)
    ensures var (db', next) := Transaction(db, h, now, pick, chat); HandlerHonest(db', next)
  {
    var (db', next) := Transaction(db, h, now, pick, chat);
    TransactionGrows(db, h, now, pick, chat);
    HandlerHonestPersists(db, db', h);
    match h
    case Submitted(phone, otp) =>
      if next.Consumed? {
        assert db'.otps[pick].usedAt.Some?;
      }
    case Found(phone, row) =>
      assert SessionHonest(db, row.schema, db.sessions[(row.schema, phone)]);
    case _ =>
  }

  lemma TransactionKeepsSessions(db: Tables, h: Handler, now: int, pick: nat, chat: ChatId, k: (Schema, Phone))
    requires DatabaseHonest(db) && HandlerHonest(db, h)
    requires k in Transaction(db, h, now, pick, chat).0.sessions
    ensures var db' := Transaction(db, h, now, pick, chat).0; SessionHonest(db', k.0, db'.sessions[k])
  {
    hide Consume, Grows;
    var db' := Transaction(db, h, now, pick, chat).0;
    TransactionGrows(db, h, now, pick, chat);
    if k in db.sessions && db.sessions[k] == db'.sessions[k] {
      SessionHonestPersists(db, db', k.0, db.sessions[k]);
    } else {
      HonestPersists(db, db', h.row);
      RowMakesSession(db', h.row, db'.sessions[k].chat);
    }
  }

  lemma TransactionKeepsRegistry(db: Tables, h: Handler, now: int, pick: nat, chat: ChatId, p: Phone)
    requires DatabaseHonest(db) && HandlerHonest(db, h)
    requires p in Transaction(db, h, now, pick, chat).0.registry
    ensures var db' := Transaction(db, h, now, pick, chat).0;
            Honest(db', db'.registry[p]) && (db'.registry[p].schema, p) in db'.sessions
  {
    var db' := Transaction(db, h, now, pick, chat).0;
    TransactionGrows(db, h, now, pick, chat);
    HonestPersists(db, db', db'.registry[p]);
  }

  /** A transaction of an honest handler keeps the tables honest. */
  lemma TransactionKeepsDatabase(db: Tables, h: Handler, now: int, pick: nat, chat: ChatId)
    requires DatabaseHonest(db) && HandlerHonest(db, h)
    ensures DatabaseHonest(Transaction(db, h, now, pick, chat).0)
  {
    var db' := Transaction(db, h, now, pick, chat).0;
    TransactionGrows(db, h, now, pick, chat);
    forall k | k in db'.sessions
      ensures SessionHonest(db', k.0, db'.sessions[k])
    {
      TransactionKeepsSessions(db, h, now, pick, chat, k);
    }
    forall p | p in db'.registry
      ensures Honest(db', db'.registry[p]) && (db'.registry[p].schema, p) in db'.sessions
    {
      TransactionKeepsRegistry(db, h, now, pick, chat, p);
    }
    assert forall i :: 0 <= i < |db'.otps| ==> db'.otps[i].tenant == db.otps[i].tenant;
  }

  lemma StepKeepsInvariant(s: State, step: Step)
    requires Invariant(s) && Enabled(s, step)
    ensures Invariant(Apply(s, step))
  {
    var s' := Apply(s, step);
    match step {
      case Advance(h, now, pick, chat) =>
        TransactionGrows(s.db, s.handlers[h], now, pick, chat);
        TransactionKeepsDatabase(s.db, s.handlers[h], now, pick, chat);
        TransactionKeepsHandler(s.db, s.handlers[h], now, pick, chat);
      case GenerateOtp(row) =>
        InsertKeepsDatabase(s.db, row);
      case _ =>
    }
    forall i | 0 <= i < |s'.handlers|
      ensures HandlerHonest(s'.db, s'.handlers[i])
    {
      if i < |s.handlers| && s'.handlers[i] == s.handlers[i] {
        HandlerHonestPersists(s.db, s'.db, s.handlers[i]);
      }
    }
  }

  lemma InsertKeepsDatabase(db: Tables, row: OtpRow)
    requires DatabaseHonest(db) && OtpInsertable(db, row)
    ensures Grows(db, db.(otps := db.otps + [row])) && DatabaseHonest(db.(otps := db.otps + [row]))
  {
    var db' := db.(otps := db.otps + [row]);
    assert Grows(db, db');
    forall k | k in db'.sessions
      ensures SessionHonest(db', k.0, db'.sessions[k])
    {
      SessionHonestPersists(db, db', k.0, db.sessions[k]);
    }
    forall p | p in db'.registry
      ensures Honest(db', db'.registry[p])
    {
      HonestPersists(db, db', db.registry[p]);
    }
  }

  // ── Whole runs ─────────────────────────────────────────────────────────────

  ghost predicate Run(s: State, steps: seq<Step>)
    decreases |steps|
  {
    steps != [] ==> Enabled(s, steps[0]) && Run(Apply(s, steps[0]), steps[1..])
  }

  ghost function Final(s: State, steps: seq<Step>): State
    requires Run(s, steps)
    decreases |steps|
  {
    if steps == [] then s else Final(Apply(s, steps[0]), steps[1..])
  }

  lemma {:induction false} RunKeepsInvariant(s: State, steps: seq<Step>)
    requires Run(s, steps) && Invariant(s)
    ensures Invariant(Final(s, steps))
    decreases |steps|
  {
    if steps != [] {
      StepKeepsInvariant(s, steps[0]);
      RunKeepsInvariant(Apply(s, steps[0]), steps[1..]);
    }
  }

  function Initial(tenants: map<Tenant, Schema>): State {
    State(Tables(tenants, [], map[], map[]), [])
  }

  /**
   * In every interleaving: a registry row's schema is its tenant's, a session of the phone with a user exists there,
   * and a code of that tenant and user was consumed before it expired; no handler ever replies "session error", "not linked" or
   * "tenant not found".
   */
  lemma LinkingIsSafe(tenants: map<Tenant, Schema>, steps: seq<Step>)
    requires Run(Initial(tenants), steps)
    ensures var s := Final(Initial(tenants), steps);
            && (forall p :: p in s.db.registry ==>
                  var row := s.db.registry[p];
                  && row.tenant in tenants && tenants[row.tenant] == row.schema
                  && (row.schema, p) in s.db.sessions
                  && s.db.sessions[(row.schema, p)].user.Some? && s.db.sessions[(row.schema, p)].user.value != ""
                  && row.user != ""
                  && exists i :: 0 <= i < |s.db.otps| && s.db.otps[i].tenant == row.tenant && s.db.otps[i].user == row.user
                                 && s.db.otps[i].usedAt.Some? && s.db.otps[i].usedAt.value < s.db.otps[i].expiresAt)
            && (forall i :: 0 <= i < |s.handlers| && s.handlers[i].Done? ==>
                  s.handlers[i].reply !in {SessionError, NotLinked, Failed(TenantNotFound)})
  {
    RunKeepsInvariant(Initial(tenants), steps);
    var s := Final(Initial(tenants), steps);
    TenantsFixed(Initial(tenants), steps);
    forall p | p in s.db.registry
      ensures var key := (s.db.registry[p].schema, p);
              key in s.db.sessions && s.db.sessions[key].user.Some? && s.db.sessions[key].user.value != ""
    {
      assert SessionHonest(s.db, s.db.registry[p].schema, s.db.sessions[(s.db.registry[p].schema, p)]);
    }
    assert forall i :: 0 <= i < |s.handlers| ==> HandlerHonest(s.db, s.handlers[i]);
  }

  lemma {:induction false} TenantsFixed(s: State, steps: seq<Step>)
    requires Run(s, steps)
    ensures Final(s, steps).db.tenants == s.db.tenants
    decreases |steps|
  {
    if steps != [] {
      TenantsFixed(Apply(s, steps[0]), steps[1..]);
    }
  }

  /** A message handler of a registered phone on its way to `routeToLlm`, and how many transactions it still needs. */
  predicate OnRoute(s: State, h: nat, phone: Phone) {
    h < |s.handlers| && s.handlers[h].phone == phone &&
    match s.handlers[h]
    case Arrived(_) => phone in s.db.registry
    case Found(_, _) => true
    case Checked(_, _, _) => true
    case Done(_, reply) => reply.Routed?
    case _ => false
  }

  function Remaining(h: Handler): nat {
    if h.Arrived? then 3 else if h.Found? then 2 else if h.Checked? then 1 else 0
  }

  /** How many transactions of handler `h` the run contains. */
  function Moves(steps: seq<Step>, h: nat): nat {
    if steps == [] then 0
    else (if steps[0].Advance? && steps[0].h == h then 1 else 0) + Moves(steps[1..], h)
  }

  lemma StepKeepsRoute(s: State, step: Step, h: nat, phone: Phone)
    requires Invariant(s) && Enabled(s, step) && OnRoute(s, h, phone)
    ensures OnRoute(Apply(s, step), h, phone)
    ensures Remaining(Apply(s, step).handlers[h])
         == Remaining(s.handlers[h]) - (if step.Advance? && step.h == h then 1 else 0)
  {
    assert HandlerHonest(s.db, s.handlers[h]);
    if step.Advance? && step.h == h && s.handlers[h].Found? {
      var key := (s.handlers[h].row.schema, phone);
      assert SessionHonest(s.db, key.0, s.db.sessions[key]);
    }
  }

  lemma {:induction false} RunKeepsRoute(s: State, steps: seq<Step>, h: nat, phone: Phone)
    requires Invariant(s) && Run(s, steps) && OnRoute(s, h, phone)
    ensures OnRoute(Final(s, steps), h, phone)
    ensures Remaining(Final(s, steps).handlers[h]) == Remaining(s.handlers[h]) - Moves(steps, h)
    decreases |steps|
  {
    if steps != [] {
      StepKeepsRoute(s, steps[0], h, phone);
      StepKeepsInvariant(s, steps[0]);
      RunKeepsRoute(Apply(s, steps[0]), steps[1..], h, phone);
    }
  }

  /**
   * Liveness: whatever runs in between, a message of a registered phone whose handler gets its three transactions is
   * routed to the LLM, as a tenant and user proven by a consumed code.
   */
  lemma RegisteredPhoneReachesLlm(s: State, steps: seq<Step>, h: nat, phone: Phone)
    requires Invariant(s) && Run(s, steps)
    requires h < |s.handlers| && s.handlers[h] == Arrived(phone) && phone in s.db.registry
    requires Moves(steps, h) >= 3
    ensures var end := Final(s, steps);
            && h < |end.handlers| && end.handlers[h].Done? && end.handlers[h].phone == phone
            && end.handlers[h].reply.Routed? && Honest(end.db, end.handlers[h].reply.registration)
  {
    RunKeepsRoute(s, steps, h, phone);
    RunKeepsInvariant(s, steps);
    assert HandlerHonest(Final(s, steps).db, Final(s, steps).handlers[h]);
  }

  // ── A code two tenants hold ────────────────────────────────────────────────

  /**
   * A submission proves the user a live row was issued to, whichever row the update returns first, exactly when that
   * row is the only live one of its code. Otherwise the phone can go to the user of another tenant.
   */
  lemma IssuerIsLinkedExactly(db: Tables, phone: Phone, i: nat, now: int)
    requires i < |db.otps| && UniqueUnused(db.otps) && Live(db.otps[i], db.otps[i].otp, now)
    requires db.otps[i].user != "" && db.otps[i].tenant != ""
    ensures (forall pick: nat :: PickedFirst(db.otps, db.otps[i].otp, now, pick) ==>
               Transaction(db, Submitted(phone, db.otps[i].otp), now, pick, "").1
               == Consumed(phone, db.otps[i].tenant, db.otps[i].user))
            <==> (forall j :: 0 <= j < |db.otps| && Live(db.otps[j], db.otps[i].otp, now) ==> j == i)
  {
    var otp := db.otps[i].otp;
    if j :| 0 <= j < |db.otps| && Live(db.otps[j], otp, now) && j != i {
      assert PickedFirst(db.otps, otp, now, j);
      assert db.otps[j].tenant != db.otps[i].tenant;
    }
  }
}
