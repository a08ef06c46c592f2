/**
 * When the session and the registry entry of a phone name the same user, over every interleaving of link and message
 * handlers that may stop anywhere (src/whatsapp/whatsapp.service.ts).
 */
module WhatsAppAgreement {
  import opened Wrappers
  import opened WhatsAppTables
  import opened WhatsAppLinking

  /** The session of a registered phone belongs to the registered user. */
  ghost predicate Agrees(db: Tables, phone: Phone) {
    phone in db.registry ==>
      var row := db.registry[phone];
      (row.schema, phone) in db.sessions && db.sessions[(row.schema, phone)].user == Some(row.user)
  }

  /** Handler `i` linked the phone's session in that schema and has not registered the phone yet. */
  predicate SeatedIn(s: State, phone: Phone, schema: Schema, i: int) {
    0 <= i < |s.handlers| && s.handlers[i].Seated? && s.handlers[i].phone == phone && s.handlers[i].row.schema == schema
  }

  predicate RegisteredIn(s: State, phone: Phone, schema: Schema) {
    phone in s.db.registry && s.db.registry[phone].schema == schema
  }

  /** A relink under way, or stopped, between its two writes: seated as a user that is not the registered one. */
  ghost predicate RelinkPending(s: State, phone: Phone) {
    exists i :: RelinkBy(s, phone, i)
  }

  predicate RelinkBy(s: State, phone: Phone, i: int) {
    && phone in s.db.registry && SeatedIn(s, phone, s.db.registry[phone].schema, i)
    && s.handlers[i].row.user != s.db.registry[phone].user
  }

  /** Session and registry disagree during a relink and at no other time. */
  ghost predicate Exact(s: State, phone: Phone) {
    Agrees(s.db, phone) <==> !RelinkPending(s, phone)
  }

  // ── Orderly steps ──────────────────────────────────────────────────────────

  /** The next transaction of the handler writes the session of its row as its row's user. */
  predicate Writes(h: Handler) {
    || h.Located?
    || (h.Checked? && h.session.chat.None? && h.row.user != "" && h.session.user.Some? && h.session.user.value != "")
  }

  /**
   * A session write is orderly when every handler between its two writes in that schema has the same user, and, if
   * there is none and a message handler writes, the phone is not by now registered there as someone else.
   */
  ghost predicate OrderlyWrite(s: State, h: Handler)
    requires Writes(h)
  {
    && (forall i :: SeatedIn(s, h.phone, h.row.schema, i) ==> s.handlers[i].row.user == h.row.user)
    && (h.Checked? && RegisteredIn(s, h.phone, h.row.schema)
          && (forall i :: !SeatedIn(s, h.phone, h.row.schema, i)) ==>
        s.db.registry[h.phone].user == h.row.user)
  }

  ghost predicate OrderlyStep(s: State, step: Step, phone: Phone)
    requires Enabled(s, step)
  {
    step.Advance? && s.handlers[step.h].phone == phone && Writes(s.handlers[step.h]) ==>
      OrderlyWrite(s, s.handlers[step.h])
  }

  ghost predicate Orderly(s: State, steps: seq<Step>, phone: Phone)
    requires Run(s, steps)
    decreases |steps|
  {
    steps != [] ==> OrderlyStep(s, steps[0], phone) && Orderly(Apply(s, steps[0]), steps[1..], phone)
  }

  // ── What orderly steps keep ────────────────────────────────────────────────

  function SessionUser(db: Tables, schema: Schema, phone: Phone): Option<User> {
    if (schema, phone) in db.sessions then db.sessions[(schema, phone)].user else None
  }

  ghost predicate SeatsHold(s: State, phone: Phone) {
    forall i :: 0 <= i < |s.handlers| && s.handlers[i].Seated? && s.handlers[i].phone == phone ==>
      SessionUser(s.db, s.handlers[i].row.schema, phone) == Some(s.handlers[i].row.user)
  }

  ghost predicate RegistryHolds(s: State, phone: Phone) {
    phone in s.db.registry ==>
      var row := s.db.registry[phone];
      SessionUser(s.db, row.schema, phone) == Some(row.user) || exists i :: SeatedIn(s, phone, row.schema, i)
  }

  /** A seated handler's session is its own, and the registered one is the registered user's if nobody is seated there. */
  ghost predicate Kept(s: State, phone: Phone) {
    SeatsHold(s, phone) && RegistryHolds(s, phone)
  }

  lemma KeptIsExact(s: State, phone: Phone)
    requires Kept(s, phone)
    ensures Exact(s, phone)
  {
    if phone in s.db.registry {
      var row := s.db.registry[phone];
      if i :| RelinkBy(s, phone, i) {
        assert SessionUser(s.db, row.schema, phone) == Some(s.handlers[i].row.user);
      } else if i :| SeatedIn(s, phone, row.schema, i) {
        assert !RelinkBy(s, phone, i);
      }
    }
  }

  /** What a session write by handler `h` does to the phone. */
  lemma WriteEffect(s: State, step: Step)
    requires Enabled(s, step) && step.Advance? && Writes(s.handlers[step.h])
    ensures var h, s' := s.handlers[step.h], Apply(s, step);
            && s'.db.registry == s.db.registry
            && SessionUser(s'.db, h.row.schema, h.phone) == Some(h.row.user)
            && (forall schema, phone :: (schema, phone) != (h.row.schema, h.phone) ==>
                  SessionUser(s'.db, schema, phone) == SessionUser(s.db, schema, phone))
            && |s'.handlers| == |s.handlers|
            && (forall i :: 0 <= i < |s.handlers| && i != step.h ==> s'.handlers[i] == s.handlers[i])
            && s'.handlers[step.h] == (if h.Located? then Seated(h.phone, h.row) else Done(h.phone, Routed(h.row)))
  {
  }

  lemma WriteKeeps(s: State, step: Step, phone: Phone)
    requires Kept(s, phone) && Enabled(s, step) && step.Advance?
    requires s.handlers[step.h].phone == phone && Writes(s.handlers[step.h]) && OrderlyWrite(s, s.handlers[step.h])
    ensures Kept(Apply(s, step), phone)
  {
    hide Apply, SessionUser;
    WriteEffect(s, step);
    var h, s' := s.handlers[step.h], Apply(s, step);
    forall i | 0 <= i < |s'.handlers| && s'.handlers[i].Seated? && s'.handlers[i].phone == phone
      ensures SessionUser(s'.db, s'.handlers[i].row.schema, phone) == Some(s'.handlers[i].row.user)
    {
      if i != step.h {
        assert SeatedIn(s, phone, s'.handlers[i].row.schema, i);
      }
    }
    if phone in s.db.registry {
      SeatsStay(s, step, phone, s.db.registry[phone].schema);
    }
  }

  /** After an orderly write in that schema, or one elsewhere, whoever was seated in the schema still is. */
  lemma SeatsStay(s: State, step: Step, phone: Phone, schema: Schema)
    requires Enabled(s, step) && step.Advance? && Writes(s.handlers[step.h])
    ensures (exists i :: SeatedIn(s, phone, schema, i)) ==> exists i :: SeatedIn(Apply(s, step), phone, schema, i)
    ensures var h := s.handlers[step.h];
            h.Located? ==> SeatedIn(Apply(s, step), h.phone, h.row.schema, step.h)
  {
    WriteEffect(s, step);
    if i :| SeatedIn(s, phone, schema, i) {
      assert i != step.h;
      assert SeatedIn(Apply(s, step), phone, schema, i);
    }
  }

  /** The registration of a seated handler. */
  lemma RegistrationKeeps(s: State, step: Step, phone: Phone)
    requires Kept(s, phone) && Enabled(s, step) && step.Advance? && s.handlers[step.h].Seated?
    ensures Kept(Apply(s, step), phone)
  {
    var s' := Apply(s, step);
    assert s'.db.sessions == s.db.sessions;
    if s.handlers[step.h].phone != phone && phone in s.db.registry {
      var schema := s.db.registry[phone].schema;
      if i :| SeatedIn(s, phone, schema, i) {
        assert SeatedIn(s', phone, schema, i);
      }
    }
  }

  /** Any other step touches neither the sessions nor the registry of the phone, and no seat of it. */
  lemma OtherKeeps(s: State, step: Step, phone: Phone)
    requires Kept(s, phone) && Enabled(s, step)
    requires step.Advance? ==>
               !s.handlers[step.h].Seated? && (s.handlers[step.h].phone != phone || !Writes(s.handlers[step.h]))
    ensures Kept(Apply(s, step), phone)
  {
    var s' := Apply(s, step);
    assert s'.db.registry == s.db.registry;
    assert forall schema :: SessionUser(s'.db, schema, phone) == SessionUser(s.db, schema, phone);
    if phone in s.db.registry {
      var schema := s.db.registry[phone].schema;
      if i :| SeatedIn(s, phone, schema, i) {
        assert SeatedIn(s', phone, schema, i);
      }
    }
  }

  lemma OrderlyStepKeeps(s: State, step: Step, phone: Phone)
    requires Kept(s, phone) && Enabled(s, step) && OrderlyStep(s, step, phone)
    ensures Kept(Apply(s, step), phone)
  {
    hide Kept, Apply;
    if step.Advance? && s.handlers[step.h].Seated? {
      RegistrationKeeps(s, step, phone);
    } else if step.Advance? && s.handlers[step.h].phone == phone && Writes(s.handlers[step.h]) {
      WriteKeeps(s, step, phone);
    } else {
      OtherKeeps(s, step, phone);
    }
  }

  // ── Orderly runs ───────────────────────────────────────────────────────────

  lemma {:induction false} OrderlyRunKeeps(s: State, steps: seq<Step>, phone: Phone)
    requires Kept(s, phone) && Run(s, steps) && Orderly(s, steps, phone)
    ensures Kept(Final(s, steps), phone)
    decreases |steps|
  {
    hide Kept, OrderlyStep, Apply, Enabled;
    if steps != [] {
      OrderlyStepKeeps(s, steps[0], phone);
      OrderlyRunKeeps(Apply(s, steps[0]), steps[1..], phone);
    }
  }

  /** Runs begin orderly. */
  lemma InitialKept(tenants: map<Tenant, Schema>, phone: Phone)
    ensures Kept(Initial(tenants), phone)
  {
  }

  /**
   * Over every orderly run, wherever its handlers stop: session and registry of the phone disagree exactly while a
   * relink is between its two writes, so they agree whenever no handler of the phone is.
   */
  lemma OrderlyRunAgrees(tenants: map<Tenant, Schema>, steps: seq<Step>, phone: Phone)
    requires Run(Initial(tenants), steps) && Orderly(Initial(tenants), steps, phone)
    ensures var end := Final(Initial(tenants), steps);
            && Exact(end, phone)
            && ((forall i :: 0 <= i < |end.handlers| && end.handlers[i].Seated? ==> end.handlers[i].phone != phone) ==>
                  Agrees(end.db, phone))
  {
    InitialKept(tenants, phone);
    OrderlyRunKeeps(Initial(tenants), steps, phone);
    KeptIsExact(Final(Initial(tenants), steps), phone);
  }

  // ── Disorderly runs ────────────────────────────────────────────────────────

  /** Every step is the registration of a seated handler. */
  ghost predicate Registrations(s: State, steps: seq<Step>)
    requires Run(s, steps)
    decreases |steps|
  {
    steps != [] ==>
      steps[0].Advance? && s.handlers[steps[0].h].Seated? && Registrations(Apply(s, steps[0]), steps[1..])
  }

  /** The state is exact, and stays so when seated handlers register, in whatever order. */
  ghost predicate ExactOnward(s: State, phone: Phone) {
    forall more :: Run(s, more) && Registrations(s, more) ==> Exact(Final(s, more), phone)
  }

  /** Every state along the run is exact onward. */
  ghost predicate AlwaysExact(s: State, steps: seq<Step>, phone: Phone)
    requires Run(s, steps)
    decreases |steps|
  {
    ExactOnward(s, phone) && (steps != [] ==> AlwaysExact(Apply(s, steps[0]), steps[1..], phone))
  }

  lemma {:induction false} RegistrationsKeep(s: State, more: seq<Step>, phone: Phone)
    requires Kept(s, phone) && Run(s, more) && Registrations(s, more)
    ensures Kept(Final(s, more), phone)
    decreases |more|
  {
    hide Kept, Apply;
    if more != [] {
      RegistrationKeeps(s, more[0], phone);
      RegistrationsKeep(Apply(s, more[0]), more[1..], phone);
    }
  }

  lemma KeptIsExactOnward(s: State, phone: Phone)
    requires Kept(s, phone)
    ensures ExactOnward(s, phone)
  {
    forall more | Run(s, more) && Registrations(s, more)
      ensures Exact(Final(s, more), phone)
    {
      RegistrationsKeep(s, more, phone);
      KeptIsExact(Final(s, more), phone);
    }
  }

  /** With a session that is neither the registered user's nor that of anyone seated, nothing is pending. */
  lemma BareDisagreement(s: State, phone: Phone)
    requires phone in s.db.registry
    requires SessionUser(s.db, s.db.registry[phone].schema, phone) != Some(s.db.registry[phone].user)
    requires forall i :: SeatedIn(s, phone, s.db.registry[phone].schema, i) ==>
               s.handlers[i].row.user == s.db.registry[phone].user
    ensures !Exact(s, phone)
  {
    assert forall i :: !RelinkBy(s, phone, i);
  }

  lemma NoMore(s: State, phone: Phone)
    requires ExactOnward(s, phone)
    ensures Exact(s, phone)
  {
    assert Run(s, []) && Registrations(s, []) && Final(s, []) == s;
  }

  lemma OneMore(s: State, phone: Phone, h: nat)
    requires ExactOnward(s, phone) && h < |s.handlers| && s.handlers[h].Seated?
    ensures Enabled(s, Advance(h, 0, 0, "")) && ExactOnward(Apply(s, Advance(h, 0, 0, "")), phone)
  {
    var step := Advance(h, 0, 0, "");
    var s' := Apply(s, step);
    forall more | Run(s', more) && Registrations(s', more)
      ensures Exact(Final(s', more), phone)
    {
      assert ([step] + more)[1..] == more;
      assert Run(s, [step] + more) && Registrations(s, [step] + more) && Final(s, [step] + more) == Final(s', more);
    }
  }

  /** Of two seated users of one session, one registering last does not agree with it. */
  lemma LostSeat(s: State, phone: Phone, h: nat)
    requires h < |s.handlers| && s.handlers[h].Seated? && s.handlers[h].phone == phone
    requires SessionUser(s.db, s.handlers[h].row.schema, phone) != Some(s.handlers[h].row.user)
    requires forall i :: SeatedIn(s, phone, s.handlers[h].row.schema, i) ==>
               s.handlers[i].row.user == s.handlers[h].row.user
    ensures !ExactOnward(s, phone)
  {
    if ExactOnward(s, phone) {
      OneMore(s, phone, h);
      var row, s' := s.handlers[h].row, Apply(s, Advance(h, 0, 0, ""));
      assert s'.db.registry[phone] == row;
      forall i | SeatedIn(s', phone, row.schema, i)
        ensures s'.handlers[i].row.user == row.user
      {
        assert SeatedIn(s, phone, row.schema, i);
      }
      BareDisagreement(s', phone);
      NoMore(s', phone);
    }
  }

  /** A disorderly write takes the session of a seated handler, or of the registered user for good. */
  lemma DisorderlyWrite(s: State, step: Step, phone: Phone)
    requires Kept(s, phone) && Enabled(s, step) && !OrderlyStep(s, step, phone)
    ensures !ExactOnward(Apply(s, step), phone)
  {
    var h, s' := s.handlers[step.h], Apply(s, step);
    WriteEffect(s, step);
    if i :| SeatedIn(s, phone, h.row.schema, i) && s.handlers[i].row.user != h.row.user {
      if ExactOnward(s', phone) {
        SeatTaken(s, step, phone, i);
      }
    } else {
      assert forall i :: SeatedIn(s', phone, h.row.schema, i) ==> SeatedIn(s, phone, h.row.schema, i);
      BareDisagreement(s', phone);
      if ExactOnward(s', phone) {
        NoMore(s', phone);
      }
    }
  }

  /** The writer, if it has a registration to make, makes it first; then the handler whose session it took. */
  lemma SeatTaken(s: State, step: Step, phone: Phone, i: nat)
    requires Kept(s, phone) && Enabled(s, step) && step.Advance? && Writes(s.handlers[step.h])
    requires s.handlers[step.h].phone == phone
    requires SeatedIn(s, phone, s.handlers[step.h].row.schema, i) && s.handlers[i].row.user != s.handlers[step.h].row.user
    ensures !ExactOnward(Apply(s, step), phone)
  {
    var h, s' := s.handlers[step.h], Apply(s, step);
    WriteEffect(s, step);
    assert i != step.h;
    if h.Located? {
      if ExactOnward(s', phone) {
        OneMore(s', phone, step.h);
        var t := Apply(s', Advance(step.h, 0, 0, ""));
        assert t.db.sessions == s'.db.sessions;
        SameSeats(s, t, phone, h.row.schema, i, step.h);
        LostSeat(t, phone, i);
      }
    } else {
      SameSeats(s, s', phone, h.row.schema, i, step.h);
      LostSeat(s', phone, i);
    }
  }

  /** All who were seated in the schema had the session's user, so they still are seated as one user. */
  lemma SameSeats(s: State, t: State, phone: Phone, schema: Schema, i: nat, w: nat)
    requires SeatsHold(s, phone) && SeatedIn(s, phone, schema, i)
    requires |t.handlers| == |s.handlers| && w < |t.handlers| && !t.handlers[w].Seated?
    requires forall k :: 0 <= k < |s.handlers| && k != w ==> t.handlers[k] == s.handlers[k]
    ensures forall k :: SeatedIn(t, phone, schema, k) ==> t.handlers[k].row.user == s.handlers[i].row.user
  {
    forall k | SeatedIn(t, phone, schema, k)
      ensures t.handlers[k].row.user == s.handlers[i].row.user
    {
      assert k != w;
    }
  }

  /**
   * Exactly: a run is orderly if and only if along it session and registry disagree only while a relink is between its
   * two writes, also when those between their two writes go on to register. So a disorderly step always shows.
   */
  lemma {:induction false} OrderlyExactly(s: State, steps: seq<Step>, phone: Phone)
    requires Kept(s, phone) && Run(s, steps)
    ensures Orderly(s, steps, phone) <==> AlwaysExact(s, steps, phone)
    decreases |steps|
  {
    hide Kept, OrderlyStep, Apply, ExactOnward, Enabled;
    KeptIsExactOnward(s, phone);
    if steps != [] {
      if OrderlyStep(s, steps[0], phone) {
        OrderlyStepKeeps(s, steps[0], phone);
        OrderlyExactly(Apply(s, steps[0]), steps[1..], phone);
      } else {
        DisorderlyWrite(s, steps[0], phone);
      }
    }
  }

  // ── Runs that disagree ─────────────────────────────────────────────────────

  lemma {:induction false} RunJoin(s: State, a: seq<Step>, b: seq<Step>)
    requires Run(s, a) && Run(Final(s, a), b)
    ensures Run(s, a + b) && Final(s, a + b) == Final(Final(s, a), b)
    decreases |a|
  {
    if a == [] {
      assert a + b == b;
    } else {
      assert (a + b)[1..] == a[1..] + b;
      RunJoin(Apply(s, a[0]), a[1..], b);
    }
  }

  lemma OneStep(s: State, step: Step)
    requires Enabled(s, step)
    ensures Run(s, [step]) && Final(s, [step]) == Apply(s, step)
  {
    hide Apply, Enabled;
    var t := Apply(s, step);
    assert [step][1..] == [];
    assert Run(t, []) && Final(t, []) == t;
  }

  lemma Extend(s: State, steps: seq<Step>, step: Step)
    requires Run(s, steps) && Enabled(Final(s, steps), step)
    ensures Run(s, steps + [step]) && Final(s, steps + [step]) == Apply(Final(s, steps), step)
  {
    hide Apply, Enabled, Run, Final;
    OneStep(Final(s, steps), step);
    RunJoin(s, steps, [step]);
  }

  lemma TwoSteps(s: State, a: Step, b: Step)
    requires Enabled(s, a) && Enabled(Apply(s, a), b)
    ensures Run(s, [a, b]) && Final(s, [a, b]) == Apply(Apply(s, a), b)
  {
    hide Apply, Enabled, Run, Final;
    OneStep(s, a);
    Extend(s, [a], b);
    assert [a, b] == [a] + [b];
  }

  /** The two link handlers of a race, both in the same stage. */
  function RaceState(t: Tenant, schema: Schema, otps: seq<OtpRow>, a: Handler, b: Handler): State {
    State(Tables(map[t := schema], otps, map[], map[]), [a, b])
  }

  lemma RaceSubmits(t: Tenant, schema: Schema, a: OtpRow, b: OtpRow, phone: Phone) returns (steps: seq<Step>)
    requires a.tenant == b.tenant == t && a.otp != b.otp && a.usedAt.None? && b.usedAt.None?
    ensures Run(Initial(map[t := schema]), steps)
    ensures Final(Initial(map[t := schema]), steps)
         == RaceState(t, schema, [a, b], Submitted(phone, a.otp), Submitted(phone, b.otp))
  {
    var s0 := Initial(map[t := schema]);
    TwoSteps(s0, GenerateOtp(a), GenerateOtp(b));
    var s2 := Final(s0, [GenerateOtp(a), GenerateOtp(b)]);
    assert s2.db.otps == [a, b];
    TwoSteps(s2, ReceiveCode(phone, a.otp), ReceiveCode(phone, b.otp));
    RunJoin(s0, [GenerateOtp(a), GenerateOtp(b)], [ReceiveCode(phone, a.otp), ReceiveCode(phone, b.otp)]);
    steps := [GenerateOtp(a), GenerateOtp(b)] + [ReceiveCode(phone, a.otp), ReceiveCode(phone, b.otp)];
  }

  lemma RaceConsumes(t: Tenant, schema: Schema, a: OtpRow, b: OtpRow, phone: Phone, now: int) returns (steps: seq<Step>)
    requires a.tenant == b.tenant == t && t != "" && a.user != "" && b.user != "" && a.otp != b.otp
    requires Live(a, a.otp, now) && Live(b, b.otp, now)
    ensures var s := RaceState(t, schema, [a, b], Submitted(phone, a.otp), Submitted(phone, b.otp));
            var used := [a.(usedAt := Some(now)), b.(usedAt := Some(now))];
            && Run(s, steps)
            && Final(s, steps) == RaceState(t, schema, used, Consumed(phone, t, a.user), Consumed(phone, t, b.user))
  {
    var s := RaceState(t, schema, [a, b], Submitted(phone, a.otp), Submitted(phone, b.otp));
    var first, second := Advance(0, now, 0, ""), Advance(1, now, 1, "");
    var s1 := Apply(s, first);
    assert s1.db.otps == [a.(usedAt := Some(now)), b];
    assert s1.handlers == [Consumed(phone, t, a.user), Submitted(phone, b.otp)];
    var s2 := Apply(s1, second);
    assert s2.db.otps == [a.(usedAt := Some(now)), b.(usedAt := Some(now))];
    assert s2.handlers == [Consumed(phone, t, a.user), Consumed(phone, t, b.user)];
    TwoSteps(s, first, second);
    steps := [first, second];
  }

  lemma RaceRegisters(t: Tenant, schema: Schema, otps: seq<OtpRow>, u1: User, u2: User, phone: Phone)
    returns (steps: seq<Step>)
    ensures var s := RaceState(t, schema, otps, Consumed(phone, t, u1), Consumed(phone, t, u2));
            && Run(s, steps)
            && Final(s, steps).db.registry == map[phone := Registration(t, schema, u1)]
            && Final(s, steps).db.sessions == map[(schema, phone) := Session(Some(u2), None)]
            && Final(s, steps).handlers == [Done(phone, LinkedTo(Registration(t, schema, u1))),
                                            Done(phone, LinkedTo(Registration(t, schema, u2)))]
  {
    hide Run, Final;
    var s := RaceState(t, schema, otps, Consumed(phone, t, u1), Consumed(phone, t, u2));
    var r1, r2 := Registration(t, schema, u1), Registration(t, schema, u2);
    var first, second := Advance(0, 0, 0, ""), Advance(1, 0, 0, "");
    TwoSteps(s, first, second);
    var s2 := Final(s, [first, second]);
    assert s2 == RaceState(t, schema, otps, Located(phone, r1), Located(phone, r2));
    TwoSteps(s2, first, second);
    var s4 := Final(s2, [first, second]);
    assert s4.handlers == [Seated(phone, r1), Seated(phone, r2)];
    TwoSteps(s4, second, first);
    RunJoin(s2, [first, second], [second, first]);
    RunJoin(s, [first, second], [first, second] + [second, first]);
    steps := [first, second] + ([first, second] + [second, first]);
  }

  /** Two overlapping link handlers of one phone can leave the session with one user and the registry with the other. */
  lemma OverlappingLinksDisagree(t: Tenant, schema: Schema, a: OtpRow, b: OtpRow, phone: Phone, now: int)
    returns (steps: seq<Step>)
    requires a.tenant == b.tenant == t && t != "" && a.user != "" && b.user != "" && a.user != b.user
    requires a.otp != b.otp && Live(a, a.otp, now) && Live(b, b.otp, now)
    ensures Run(Initial(map[t := schema]), steps)
    ensures var s := Final(Initial(map[t := schema]), steps);
            && s.handlers == [Done(phone, LinkedTo(Registration(t, schema, a.user))),
                              Done(phone, LinkedTo(Registration(t, schema, b.user)))]
            && s.db.registry == map[phone := Registration(t, schema, a.user)]
            && s.db.sessions == map[(schema, phone) := Session(Some(b.user), None)]
            && !Agrees(s.db, phone)
  {
    var s0 := Initial(map[t := schema]);
    var x := RaceSubmits(t, schema, a, b, phone);
    var y := RaceConsumes(t, schema, a, b, phone, now);
    var z := RaceRegisters(t, schema, [a.(usedAt := Some(now)), b.(usedAt := Some(now))], a.user, b.user, phone);
    RunJoin(Final(s0, x), y, z);
    RunJoin(s0, x, y + z);
    steps := x + (y + z);
  }

  /** A link handler running alone up to its registration, when the update returns the live row `pick` first. */
  lemma SeatAlone(s: State, h: nat, pick: nat, phone: Phone, now: int) returns (steps: seq<Step>)
    requires h < |s.handlers| && pick < |s.db.otps| && s.handlers[h] == Submitted(phone, s.db.otps[pick].otp)
    requires var row := s.db.otps[pick];
             Live(row, row.otp, now) && row.tenant in s.db.tenants && row.tenant != "" && row.user != ""
    ensures var row := s.db.otps[pick];
            var registration := Registration(row.tenant, s.db.tenants[row.tenant], row.user);
            && Run(s, steps)
            && Final(s, steps) == State(LinkSession(s.db.(otps := Consume(s.db.otps, row.otp, now)),
                                                    registration.schema, phone, row.user),
                                        s.handlers[h := Seated(phone, registration)])
  {
    var row := s.db.otps[pick];
    var registration := Registration(row.tenant, s.db.tenants[row.tenant], row.user);
    var step := Advance(h, now, pick, "");
    var s1 := Apply(s, step);
    assert s1 == State(s.db.(otps := Consume(s.db.otps, row.otp, now)),
                       s.handlers[h := Consumed(phone, row.tenant, row.user)]);
    TwoSteps(s, step, Advance(h, now, 0, ""));
    var s2 := Apply(s1, Advance(h, now, 0, ""));
    assert s2 == State(s1.db, s.handlers[h := Located(phone, registration)]);
    steps := [step, Advance(h, now, 0, "")] + [Advance(h, now, 0, "")];
    Extend(s, [step, Advance(h, now, 0, "")], Advance(h, now, 0, ""));
    assert Apply(s2, Advance(h, now, 0, "")).handlers == s.handlers[h := Seated(phone, registration)];
  }

  /** The first user links the phone, alone. */
  lemma FirstLink(t: Tenant, schema: Schema, a: OtpRow, b: OtpRow, phone: Phone, now: int) returns (steps: seq<Step>)
    requires a.tenant == b.tenant == t && t != "" && a.user != "" && a.otp != b.otp
    requires Live(a, a.otp, now) && b.usedAt.None?
    ensures var r1 := Registration(t, schema, a.user);
            && Run(Initial(map[t := schema]), steps)
            && Final(Initial(map[t := schema]), steps)
            == State(Tables(map[t := schema], [a.(usedAt := Some(now)), b],
                            map[(schema, phone) := Session(Some(a.user), None)], map[phone := r1]),
                     [Done(phone, LinkedTo(r1))])
  {
    var s0 := Initial(map[t := schema]);
    TwoSteps(s0, GenerateOtp(a), GenerateOtp(b));
    var x := [GenerateOtp(a), GenerateOtp(b)];
    assert Final(s0, x).db.otps == [a, b];
    Extend(s0, x, ReceiveCode(phone, a.otp));
    x := x + [ReceiveCode(phone, a.otp)];
    var y := SeatAlone(Final(s0, x), 0, 0, phone, now);
    RunJoin(s0, x, y);
    Extend(s0, x + y, Advance(0, now, 0, ""));
    steps := x + y + [Advance(0, now, 0, "")];
    assert Final(s0, steps).handlers == [Done(phone, LinkedTo(Registration(t, schema, a.user)))];
  }

  /** The phone is linked as one user, and a handler relinking it as another stops between its two writes. */
  lemma StoppedRelinkDisagrees(t: Tenant, schema: Schema, a: OtpRow, b: OtpRow, phone: Phone, now: int)
    returns (steps: seq<Step>)
    requires a.tenant == b.tenant == t && t != "" && a.user != "" && b.user != "" && a.user != b.user
    requires a.otp != b.otp && Live(a, a.otp, now) && Live(b, b.otp, now)
    ensures Run(Initial(map[t := schema]), steps)
    ensures var s := Final(Initial(map[t := schema]), steps);
            && s.handlers == [Done(phone, LinkedTo(Registration(t, schema, a.user))),
                              Seated(phone, Registration(t, schema, b.user))]
            && RelinkPending(s, phone) && !Agrees(s.db, phone)
  {
    var s0 := Initial(map[t := schema]);
    var x := FirstLink(t, schema, a, b, phone, now);
    Extend(s0, x, ReceiveCode(phone, b.otp));
    x := x + [ReceiveCode(phone, b.otp)];
    var y := SeatAlone(Final(s0, x), 1, 1, phone, now);
    RunJoin(s0, x, y);
    steps := x + y;
    var s := Final(s0, steps);
    assert s.handlers == [Done(phone, LinkedTo(Registration(t, schema, a.user))),
                          Seated(phone, Registration(t, schema, b.user))];
    assert RelinkBy(s, phone, 1);
  }

  /** A message of a phone linked by handler 0 gets to the step before `routeToLlm`. */
  lemma MessageChecked(s: State, phone: Phone, r1: Registration) returns (steps: seq<Step>)
    requires s.handlers == [Done(phone, LinkedTo(r1))] && r1.user != ""
    requires s.db.registry == map[phone := r1]
    requires s.db.sessions == map[(r1.schema, phone) := Session(Some(r1.user), None)]
    ensures Run(s, steps)
    ensures Final(s, steps) == State(s.db, s.handlers + [Checked(phone, r1, Session(Some(r1.user), None))])
  {
    var step := Advance(1, 0, 0, "");
    TwoSteps(s, ReceiveChat(phone), step);
    var s2 := Final(s, [ReceiveChat(phone), step]);
    assert s2.handlers == s.handlers + [Found(phone, r1)];
    Extend(s, [ReceiveChat(phone), step], step);
    steps := [ReceiveChat(phone), step] + [step];
    assert Final(s, steps).handlers == s.handlers + [Checked(phone, r1, Session(Some(r1.user), None))];
  }

  /** The relink registers, and the message handler goes on with the row it had looked up. */
  lemma RelinkThenRoute(s: State, phone: Phone, r1: Registration, r2: Registration, chat: ChatId)
    returns (steps: seq<Step>)
    requires s.handlers == [Done(phone, LinkedTo(r1)), Checked(phone, r1, Session(Some(r1.user), None)), Seated(phone, r2)]
    requires r1.user != "" && r1.schema == r2.schema
    requires s.db.registry == map[phone := r1]
    requires s.db.sessions == map[(r1.schema, phone) := Session(Some(r2.user), None)]
    ensures Run(s, steps)
    ensures var end := Final(s, steps);
            && end.handlers == [Done(phone, LinkedTo(r1)), Done(phone, Routed(r1)), Done(phone, LinkedTo(r2))]
            && end.db.registry == map[phone := r2]
            && end.db.sessions == map[(r1.schema, phone) := Session(Some(r1.user), Some(chat))]
  {
    var register, route := Advance(2, 0, 0, ""), Advance(1, 0, 0, chat);
    TwoSteps(s, register, route);
    steps := [register, route];
    var s1 := Apply(s, register);
    assert s1.db.registry == map[phone := r2] && s1.handlers == s.handlers[2 := Done(phone, LinkedTo(r2))];
    assert Apply(s1, route).db.sessions == map[(r1.schema, phone) := Session(Some(r1.user), Some(chat))];
  }

  /** A message handler that looked the phone up before it was relinked, and starts its chat session after. */
  lemma StaleMessageDisagrees(t: Tenant, schema: Schema, a: OtpRow, b: OtpRow, phone: Phone, now: int, chat: ChatId)
    returns (steps: seq<Step>)
    requires a.tenant == b.tenant == t && t != "" && a.user != "" && b.user != "" && a.user != b.user
    requires a.otp != b.otp && Live(a, a.otp, now) && Live(b, b.otp, now)
    ensures Run(Initial(map[t := schema]), steps)
    ensures var s := Final(Initial(map[t := schema]), steps);
            var r1, r2 := Registration(t, schema, a.user), Registration(t, schema, b.user);
            && s.handlers == [Done(phone, LinkedTo(r1)), Done(phone, Routed(r1)), Done(phone, LinkedTo(r2))]
            && s.db.registry == map[phone := r2]
            && s.db.sessions == map[(schema, phone) := Session(Some(a.user), Some(chat))]
            && !Agrees(s.db, phone)
  {
    var s0 := Initial(map[t := schema]);
    var r1, r2 := Registration(t, schema, a.user), Registration(t, schema, b.user);
    var x := FirstLink(t, schema, a, b, phone, now);
    var y := MessageChecked(Final(s0, x), phone, r1);
    RunJoin(s0, x, y);
    Extend(s0, x + y, ReceiveCode(phone, b.otp));
    x := x + y + [ReceiveCode(phone, b.otp)];
    var z := SeatAlone(Final(s0, x), 2, 1, phone, now);
    RunJoin(s0, x, z);
    x := x + z;
    var w := RelinkThenRoute(Final(s0, x), phone, r1, r2, chat);
    RunJoin(s0, x, w);
    steps := x + w;
  }

  // ── A stopped relink lasts ─────────────────────────────────────────────────

  /** No handler registers the phone. */
  ghost predicate NoRegistration(s: State, steps: seq<Step>, phone: Phone)
    requires Run(s, steps)
    decreases |steps|
  {
    steps != [] ==>
      && (steps[0].Advance? && s.handlers[steps[0].h].Seated? ==> s.handlers[steps[0].h].phone != phone)
      && NoRegistration(Apply(s, steps[0]), steps[1..], phone)
  }

  /** A relink that stopped between its two writes leaves the disagreement until someone registers the phone again. */
  lemma {:induction false} StoppedRelinkLasts(s: State, steps: seq<Step>, phone: Phone)
    requires Kept(s, phone) && RelinkPending(s, phone)
    requires Run(s, steps) && Orderly(s, steps, phone) && NoRegistration(s, steps, phone)
    ensures RelinkPending(Final(s, steps), phone) && !Agrees(Final(s, steps).db, phone)
    decreases |steps|
  {
    KeptIsExact(s, phone);
    if steps != [] {
      var s' := Apply(s, steps[0]);
      var i :| RelinkBy(s, phone, i);
      assert RelinkBy(s', phone, i);
      OrderlyStepKeeps(s, steps[0], phone);
      StoppedRelinkLasts(s', steps[1..], phone);
    }
  }
}
