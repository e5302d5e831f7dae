/** What the client does on each message, by the entries of the message itself: opcode by opcode and dispatch type by
    dispatch type, with every number and key spelled out. */
module Protocol {
  import opened Prelude
  import opened Json
  import opened Envelope
  import opened Dispatch
  import opened Session
  import opened History
  import opened Bookkeeping
  import opened Runs

  /* ---- messages ---- */

  /** An envelope: distinct keys, all of them among the four known ones. */
  ghost predicate Proper(es: seq<Entry>) {
    DistinctKeys(es) && forall e :: e in es ==> e.key == "op" || e.key == "d" || e.key == "t" || e.key == "s"
  }

  /** The opcode, as an unsigned 32-bit number; jansson reads 0 from anything that is not an integer. */
  ghost predicate Carries(es: seq<Entry>, op: nat) {
    exists v :: Entry("op", v) in es && op == if v.Integer? then v.n % 0x1_0000_0000 else 0
  }

  ghost predicate Lacks(es: seq<Entry>, key: string) {
    forall v :: Entry(key, v) !in es
  }

  /** The data of an envelope, if it has any. */
  ghost predicate HasData(es: seq<Entry>, d: Option<Json>) {
    forall v :: Entry("d", v) in es <==> d == Some(v)
  }

  /** The sequence number after the decoder has come across `s`: the `int` congruent to it modulo 2^32. */
  ghost predicate Visits(es: seq<Entry>, before: int, after: int) {
    && (Lacks(es, "s") ==> after == before)
    && (forall v :: Entry("s", v) in es ==>
          && -0x8000_0000 <= after < 0x8000_0000
          && (after - if v.Integer? then v.n else 0) % 0x1_0000_0000 == 0)
  }

  ghost predicate Reads(cfg: Config, msg: Bytes, es: seq<Entry>) {
    cfg.read(msg) == ReadingOf(Some(Object(es))) && Proper(es)
  }

  /** Nothing has changed but the sequence number, and the delivery is noted. */
  ghost predicate OnlyHeard(s: State, s': State, msg: Bytes, es: seq<Entry>) {
    s' == s.(lastSeq := s'.lastSeq, log := Snoc(s.log, Delivered(msg))) && Visits(es, s.lastSeq, s'.lastSeq)
  }

  /** The same, and the user was called. */
  ghost predicate HeardAndCalled(s: State, s': State, msg: Bytes, es: seq<Entry>, reason: int, data: Option<Json>) {
    && s' == s.(lastSeq := s'.lastSeq, log := Snoc(Snoc(s.log, Delivered(msg)), Called(reason, data, s.session)))
    && Visits(es, s.lastSeq, s'.lastSeq)
  }

  lemma LookupIs(es: seq<Entry>, key: string)
    requires DistinctKeys(es)
    ensures forall v :: Entry(key, v) in es <==> LastValue(es, key) == Some(v)
    ensures FirstValue(es, key) == LastValue(es, key)
  {
    LastValueFinds(es, key);
    FirstIsLast(es, key);
    forall v | Entry(key, v) in es ensures LastValue(es, key) == Some(v) {
      OneValuePerKey(es, key, v, LastValue(es, key).value);
    }
  }

  /** What the decoder makes of an envelope. */
  lemma DecodedFields(es: seq<Entry>)
    requires Proper(es)
    ensures Decode(es).complete
    ensures forall op :: Carries(es, op) ==> Decode(es).opcode == op
    ensures Lacks(es, "op") ==> Decode(es).opcode == 999
    ensures HasData(es, Decode(es).d)
    ensures forall v :: Entry("t", v) in es <==> Decode(es).t == Some(v)
    ensures forall v :: Entry("s", v) in es <==> Decode(es).s == Some(v)
  {
    AllVisited(es);
    LookupIs(es, "op");
    LookupIs(es, "d");
    LookupIs(es, "t");
    LookupIs(es, "s");
  }

  /** `(int) n`: the 32-bit number congruent to n. */
  lemma CastIsCongruent(n: int)
    ensures -0x8000_0000 <= ToInt32(n) < 0x8000_0000 && (ToInt32(n) - n) % 0x1_0000_0000 == 0
  {
    var q, u := n / 0x1_0000_0000, n % 0x1_0000_0000;
    assert n == 0x1_0000_0000 * q + u;
    assert ToInt32(n) - n == 0x1_0000_0000 * (if u < 0x8000_0000 then -q else -q - 1);
  }

  lemma VisitedNumber(es: seq<Entry>, before: int)
    requires Proper(es)
    ensures Visits(es, before, SeqAfter(Decode(es).s, before))
  {
    var s := Decode(es).s;
    DecodedFields(es);
    if s.Some? {
      CastIsCongruent(IntegerValue(s.value));
      assert Entry("s", s.value) in es;
    }
  }

  lemma Heard(cfg: Config, s: State, msg: Bytes, es: seq<Entry>)
    requires Reads(cfg, msg, es)
    ensures OnlyHeard(s, Decoding(cfg, s, msg), msg, es)
  {
    VisitedNumber(es, s.lastSeq);
  }

  /** The meanings that change nothing, and their codes. */
  lemma HearingOnly(cfg: Config, s: State, msg: Bytes, es: seq<Entry>, a: Answers)
    requires Reads(cfg, msg, es)
    requires var m := MeaningOf(cfg, msg); m.Ignored? || m.Rejected? || m.Untyped? || m.Unlisted?
    ensures var m, o := MeaningOf(cfg, msg), Parse(cfg, s, msg, a);
      && OnlyHeard(s, o.state, msg, es)
      && o.code == if m.Rejected? then 1 else if m.Untyped? then 320 else 0
  {
    Heard(cfg, s, msg, es);
    IdleMeaning(cfg, Decoding(cfg, s, msg), MeaningOf(cfg, msg), a);
  }

  lemma IdleMeaning(cfg: Config, s: State, m: Message, a: Answers)
    requires m.Ignored? || m.Rejected? || m.Untyped? || m.Unlisted?
    ensures Obey(cfg, s, m, a) == Outcome(s, if m.Rejected? then 1 else if m.Untyped? then 320 else 0)
  {
  }

  lemma HearingAck(cfg: Config, s: State, msg: Bytes, es: seq<Entry>, a: Answers)
    requires Reads(cfg, msg, es) && MeaningOf(cfg, msg).Ack?
    ensures var o := Parse(cfg, s, msg, a); o.code == 0 && OnlyHeard(s.(hbCount := s.hbCount - 1), o.state, msg, es)
  {
    Heard(cfg, s, msg, es);
    var heard := Decoding(cfg, s, msg);
    assert Parse(cfg, s, msg, a) == Outcome(heard.(hbCount := heard.hbCount - 1), 0);
  }

  /** What an envelope asks for, apart from dispatches and HELLO. */
  lemma PlainMeaning(es: seq<Entry>, op: nat)
    requires Proper(es) && Carries(es, op)
    ensures op == 11 ==> Meaning(Some(Object(es))) == Ack
    ensures op == 9 ==> Meaning(Some(Object(es))) == Invalidate
    ensures 1 <= op <= 8 || op == 12 ==> Meaning(Some(Object(es))) == Ignored
    ensures op > 12 ==> Meaning(Some(Object(es))) == Rejected
  {
    DecodedFields(es);
  }

  lemma NoOpcodeMeaning(es: seq<Entry>)
    requires Proper(es) && Lacks(es, "op")
    ensures Meaning(Some(Object(es))) == Rejected
  {
    DecodedFields(es);
  }

  /* ---- by opcode ---- */

  /** Opcode 11, a heartbeat ACK: the counter falls by one. */
  lemma AckLaw(cfg: Config, s: State, msg: Bytes, es: seq<Entry>, a: Answers)
    requires Reads(cfg, msg, es) && Carries(es, 11)
    ensures var o := Parse(cfg, s, msg, a);
      o.code == 0 && OnlyHeard(s.(hbCount := s.hbCount - 1), o.state, msg, es)
  {
    PlainMeaning(es, 11);
    HearingAck(cfg, s, msg, es, a);
  }

  /** Opcode 9, an invalidated session: no session any more, and the numbering starts anew. */
  lemma InvalidationLaw(cfg: Config, s: State, msg: Bytes, es: seq<Entry>, a: Answers)
    requires Reads(cfg, msg, es) && Carries(es, 9)
    ensures Parse(cfg, s, msg, a)
         == Outcome(s.(session := None, lastSeq := 0, log := Snoc(s.log, Delivered(msg))), 0)
  {
    PlainMeaning(es, 9);
  }

  /** Opcodes 1 to 8 and 12 are ignored. */
  lemma IgnoredLaw(cfg: Config, s: State, msg: Bytes, es: seq<Entry>, op: nat, a: Answers)
    requires Reads(cfg, msg, es) && Carries(es, op) && (1 <= op <= 8 || op == 12)
    ensures var o := Parse(cfg, s, msg, a); o.code == 0 && OnlyHeard(s, o.state, msg, es)
  {
    PlainMeaning(es, op);
    HearingOnly(cfg, s, msg, es, a);
  }

  /** Larger opcodes, and an envelope without one, are rejected. */
  lemma RejectedLaw(cfg: Config, s: State, msg: Bytes, es: seq<Entry>, a: Answers)
    requires Reads(cfg, msg, es) && (Lacks(es, "op") || exists op :: Carries(es, op) && op > 12)
    ensures var o := Parse(cfg, s, msg, a); o.code == 1 && OnlyHeard(s, o.state, msg, es)
  {
    if Lacks(es, "op") {
      NoOpcodeMeaning(es);
    } else {
      var op :| Carries(es, op) && op > 12;
      PlainMeaning(es, op);
    }
    HearingOnly(cfg, s, msg, es, a);
  }

  /** What is no JSON object is rejected, too, and changes nothing. */
  lemma NoObjectLaw(cfg: Config, s: State, msg: Bytes, parsed: Option<Json>, a: Answers)
    requires cfg.read(msg) == ReadingOf(parsed) && (parsed.Some? ==> !parsed.value.Object?)
    ensures Parse(cfg, s, msg, a) == Outcome(s.(log := Snoc(s.log, Delivered(msg))), 1)
  {
  }

  /** The interval a HELLO announces in its data, and the default. */
  ghost predicate Announces(data: seq<Entry>, interval: nat) {
    && (forall v :: Entry("heartbeat_interval", v) in data ==>
          interval == if v.Integer? && v.n != 0 then v.n % 0x1_0000_0000 else 41250)
    && (Lacks(data, "heartbeat_interval") ==> interval == 41250)
  }

  lemma AnnouncedInterval(d: Option<Json>)
    requires DistinctKeys(EntriesOf(d))
    ensures Announces(EntriesOf(d), HelloInterval(d))
  {
    LookupIs(EntriesOf(d), "heartbeat_interval");
  }

  lemma DataIs(es: seq<Entry>, d: Option<Json>)
    requires Proper(es) && HasData(es, d)
    ensures Decode(es).d == d
  {
    DecodedFields(es);
    assert d.Some? ==> Entry("d", d.value) in es;
    assert Decode(es).d.Some? ==> Entry("d", Decode(es).d.value) in es;
  }

  lemma HelloMeaning(es: seq<Entry>, d: Option<Json>)
    requires Proper(es) && Carries(es, 10) && HasData(es, d)
    ensures Meaning(Some(Object(es))) == Hello(HelloInterval(d))
  {
    DecodedFields(es);
    DataIs(es, d);
  }

  /** Opcode 10, HELLO: the interval is set; and an IDENTIFY, if there is one to send, is queued if there is room, and
      the timer restarted. */
  lemma HelloLaw(cfg: Config, s: State, msg: Bytes, es: seq<Entry>, d: Option<Json>, a: Answers)
    requires Reads(cfg, msg, es) && Carries(es, 10) && HasData(es, d) && DistinctKeys(EntriesOf(d))
    ensures var o := Parse(cfg, s, msg, a);
      Announces(EntriesOf(d), o.state.interval) && Visits(es, s.lastSeq, o.state.lastSeq)
      && o == Greeting(cfg, s, msg, o.state.interval, o.state.lastSeq, a)
  {
    var interval, number := HelloInterval(d), SeqAfter(Decode(es).s, s.lastSeq);
    AnnouncedInterval(d);
    VisitedNumber(es, s.lastSeq);
    HelloIsGreeted(cfg, s, msg, es, d, a);
    GreetingKeeps(cfg, s, msg, interval, number, a);
  }

  lemma GreetingKeeps(cfg: Config, s: State, msg: Bytes, interval: nat, lastSeq: int, a: Answers)
    ensures var o := Greeting(cfg, s, msg, interval, lastSeq, a);
      o.state.interval == interval && o.state.lastSeq == lastSeq
  {
  }

  lemma HelloIsGreeted(cfg: Config, s: State, msg: Bytes, es: seq<Entry>, d: Option<Json>, a: Answers)
    requires Reads(cfg, msg, es) && Carries(es, 10) && HasData(es, d)
    ensures Parse(cfg, s, msg, a)
         == Greeting(cfg, s, msg, HelloInterval(d), SeqAfter(Decode(es).s, s.lastSeq), a)
  {
    HelloMeaning(es, d);
    GreetingIsGreet(cfg, s, msg, HelloInterval(d), a);
  }

  /** What a HELLO does, once interval and sequence number are known. */
  function Greeting(cfg: Config, s: State, msg: Bytes, interval: nat, lastSeq: int, a: Answers): Outcome {
    var body := if s.session.None? then cfg.identify else a.staleIdentify;
    var heard := s.(interval := interval, lastSeq := lastSeq, log := Snoc(s.log, Delivered(msg)));
    if body.None? then Outcome(heard, 1)
    else
      var identify := Object([Entry("op", Integer(2)), Entry("d", body.value)]);
      var greeted := heard.(lastHb := a.now);
      if |s.ring| < cfg.capacity
      then Outcome(greeted.(ring := s.ring + [identify], log := Snoc(heard.log, Accepted(identify))), 0)
      else Outcome(greeted.(log := Snoc(heard.log, Refused(identify))), 0)
  }

  lemma GreetingIsGreet(cfg: Config, s: State, msg: Bytes, interval: nat, a: Answers)
    ensures var heard := Decoding(cfg, s, msg);
      Greet(cfg, heard, interval, a) == Greeting(cfg, s, msg, interval, heard.lastSeq, a)
  {
    var body := if s.session.None? then cfg.identify else a.staleIdentify;
    if body.Some? {
      assert Identify(body.value).entries == [Entry("op", Integer(2)), Entry("d", body.value)];
    }
  }

  /* ---- opcode 0, by dispatch type ---- */

  lemma UntypedMeaning(es: seq<Entry>)
    requires Proper(es) && Carries(es, 0) && forall name :: Entry("t", String(name)) !in es
    ensures Meaning(Some(Object(es))) == Untyped
  {
    var t := Decode(es).t;
    DecodedFields(es);
    assert StringValue(t) == None by {
      assert forall name :: t != Some(String(name));
    }
  }

  lemma TypedMeaning(es: seq<Entry>, name: string, d: Option<Json>)
    requires Proper(es) && Carries(es, 0) && Entry("t", String(name)) in es && HasData(es, d)
    ensures Meaning(Some(Object(es))) == DispatchMeaning(Some(String(name)), d)
  {
    DecodedFields(es);
    DataIs(es, d);
  }

  lemma NamedMeaning(name: string, d: Option<Json>)
    ensures (forall reason :: !Names(name, reason)) ==> DispatchMeaning(Some(String(name)), d) == Unlisted
    ensures forall reason :: Names(name, reason) ==>
      DispatchMeaning(Some(String(name)), d) == if name == "READY" then Ready(1, d) else Listed(reason, d)
    ensures Names("READY", 1)
  {
    DispatchByName(name, d);
    TableFollowsEnumeration("READY", 1);
    if ReasonOf(name).Some? {
      TableFollowsEnumeration(name, ReasonOf(name).value);
    }
    forall reason | Names(name, reason) ensures ReasonOf(name) == Some(reason) {
      TableFollowsEnumeration(name, reason);
    }
  }

  /** Without a type that is a string there is an error, and nobody is called. */
  lemma UntypedLaw(cfg: Config, s: State, msg: Bytes, es: seq<Entry>, a: Answers)
    requires Reads(cfg, msg, es) && Carries(es, 0) && forall name :: Entry("t", String(name)) !in es
    ensures var o := Parse(cfg, s, msg, a); o.code == 320 && OnlyHeard(s, o.state, msg, es)
  {
    UntypedMeaning(es);
    HearingOnly(cfg, s, msg, es, a);
  }

  /** A type that names no enumerator is fine, and nobody is called. */
  lemma UnlistedLaw(cfg: Config, s: State, msg: Bytes, es: seq<Entry>, name: string, a: Answers)
    requires Reads(cfg, msg, es) && Carries(es, 0) && Entry("t", String(name)) in es
    requires forall reason :: !Names(name, reason)
    ensures var o := Parse(cfg, s, msg, a); o.code == 0 && OnlyHeard(s, o.state, msg, es)
  {
    UnlistedMeaning(es, name);
    HearingOnly(cfg, s, msg, es, a);
  }

  lemma UnlistedMeaning(es: seq<Entry>, name: string)
    requires Proper(es) && Carries(es, 0) && Entry("t", String(name)) in es && forall reason :: !Names(name, reason)
    ensures Meaning(Some(Object(es))) == Unlisted
  {
    DecodedFields(es);
    TypedMeaning(es, name, Decode(es).d);
    NamedMeaning(name, Decode(es).d);
  }

  /** Every type but READY calls the user with the enumerator of its name and the data, and returns what that call
      returns. */
  lemma ListedLaw(cfg: Config, s: State, msg: Bytes, es: seq<Entry>, name: string, reason: int, d: Option<Json>,
                  a: Answers)
    requires Reads(cfg, msg, es) && Carries(es, 0) && Entry("t", String(name)) in es && HasData(es, d)
    requires Names(name, reason) && name != "READY"
    ensures var o := Parse(cfg, s, msg, a);
      o.code == a.userResult && HeardAndCalled(s, o.state, msg, es, reason, d)
  {
    TypedMeaning(es, name, d);
    NamedMeaning(name, d);
    Heard(cfg, s, msg, es);
    AnnouncingCalls(Decoding(cfg, s, msg), reason, d, a);
  }

  lemma AnnouncingCalls(s: State, reason: int, d: Option<Json>, a: Answers)
    ensures Announce(s, Listed(reason, d), a)
         == Outcome(s.(log := Snoc(s.log, Called(reason, d, s.session))), a.userResult)
  {
  }

  /** READY stores its session id first; without one there is an error, and nobody is called. */
  lemma ReadyLaw(cfg: Config, s: State, msg: Bytes, es: seq<Entry>, d: Option<Json>, a: Answers)
    requires Reads(cfg, msg, es) && Carries(es, 0) && Entry("t", String("READY")) in es && HasData(es, d)
    requires DistinctKeys(EntriesOf(d))
    ensures var o, data := Parse(cfg, s, msg, a), EntriesOf(d);
      && (Lacks(data, "session_id") ==> o.code == 1 && OnlyHeard(s, o.state, msg, es))
      && (forall v :: Entry("session_id", v) in data ==>
            && o.code == a.userResult
            && HeardAndCalled(s.(session := if v.String? then Some(v.s) else None), o.state, msg, es, 1, d))
  {
    TypedMeaning(es, "READY", d);
    NamedMeaning("READY", d);
    Heard(cfg, s, msg, es);
    LookupIs(EntriesOf(d), "session_id");
    ReadyStores(Decoding(cfg, s, msg), d, a);
  }

  lemma ReadyStores(s: State, d: Option<Json>, a: Answers)
    ensures var id := FirstValue(EntriesOf(d), "session_id"); var stored := s.(session := StringValue(id));
      Announce(s, Ready(1, d), a) == if id.None? then Outcome(s, 1)
        else Outcome(stored.(log := Snoc(s.log, Called(1, d, stored.session))), a.userResult)
  {
  }

  /* ---- the library's own payloads ---- */

  /** A built payload is such an envelope, with the fields it was built from. */
  lemma BuiltIsProper(op: Json, code: nat, d: Option<Json>, t: Option<Json>, s: Option<Json>)
    requires code == if op.Integer? then op.n % 0x1_0000_0000 else 0
    ensures var es := Fields(op, d, t, s);
      && Proper(es) && Carries(es, code) && HasData(es, d)
      && (forall v :: Entry("t", v) in es <==> t == Some(v)) && (forall v :: Entry("s", v) in es <==> s == Some(v))
  {
    FieldsAreProper(op, d, t, s);
    assert Entry("op", op) in Fields(op, d, t, s);
  }

  /** So, when received, it asks for what its opcode says. */
  lemma BuiltPayloadMeaning(op: Json, code: nat, d: Option<Json>, t: Option<Json>, s: Option<Json>)
    requires code == if op.Integer? then op.n % 0x1_0000_0000 else 0
    ensures var m := Meaning(Some(Object(Fields(op, d, t, s))));
      && (code == 0 ==> m == DispatchMeaning(t, d))
      && (1 <= code <= 8 || code == 12 ==> m == Ignored)
      && (code == 9 ==> m == Invalidate)
      && (code == 10 ==> m == Hello(HelloInterval(d)))
      && (code == 11 ==> m == Ack)
      && (code > 12 ==> m == Rejected)
  {
    var es := Fields(op, d, t, s);
    BuiltIsProper(op, code, d, t, s);
    PlainMeaning(es, code);
    if code == 10 {
      HelloMeaning(es, d);
    } else if code == 0 {
      EnvelopeRoundTrip(op, d, t, s);
      DispatchedMeaning(es);
    }
  }

  /* ---- whole runs, by the entries of the messages ---- */

  /** An object of jansson's: distinct keys, in it and in its data. */
  ghost predicate WellKeyed(j: Option<Json>) {
    j.Some? && j.value.Object? ==>
      && DistinctKeys(j.value.entries)
      && forall data :: Entry("d", Object(data)) in j.value.entries ==> DistinctKeys(data)
  }

  ghost predicate IsOp(j: Option<Json>, op: nat) {
    j.Some? && j.value.Object? && Proper(j.value.entries) && Carries(j.value.entries, op)
  }

  ghost predicate IsReady(j: Option<Json>, data: seq<Entry>) {
    IsOp(j, 0) && Entry("t", String("READY")) in j.value.entries && Entry("d", Object(data)) in j.value.entries
  }

  ghost predicate Decodes(cfg: Config, load: Bytes -> Option<Json>) {
    forall msg :: cfg.read(msg) == ReadingOf(load(msg)) && WellKeyed(load(msg))
  }

  /** A message asks for what its opcode says, and only envelopes ask for anything. */
  lemma MeaningByOpcode(j: Option<Json>)
    requires WellKeyed(j)
    ensures Meaning(j).Ack? <==> IsOp(j, 11)
    ensures Meaning(j).Invalidate? <==> IsOp(j, 9)
    ensures Meaning(j).Hello? <==> IsOp(j, 10)
    ensures IsDispatch(Meaning(j)) <==> IsOp(j, 0)
  {
    if j.Some? && j.value.Object? {
      var es := j.value.entries;
      CompleteMeansAllKnown(es);
      if Proper(es) {
        EnvelopeMeaning(es);
      }
    }
  }

  lemma EnvelopeMeaning(es: seq<Entry>)
    requires Proper(es)
    ensures var m := Meaning(Some(Object(es)));
      && (m.Ack? <==> Carries(es, 11)) && (m.Invalidate? <==> Carries(es, 9)) && (m.Hello? <==> Carries(es, 10))
      && (IsDispatch(m) <==> Carries(es, 0))
  {
    OpcodeIsOne(es);
    if Lacks(es, "op") {
      NoOpcodeMeaning(es);
    } else {
      var v :| Entry("op", v) in es;
      var op := if v.Integer? then v.n % 0x1_0000_0000 else 0;
      assert Carries(es, op);
      PlainMeaning(es, op);
      HelloOrDispatch(es, op);
    }
  }

  lemma HelloOrDispatch(es: seq<Entry>, op: nat)
    requires Proper(es) && Carries(es, op)
    ensures op == 10 ==> Meaning(Some(Object(es))).Hello?
    ensures op == 0 ==> IsDispatch(Meaning(Some(Object(es))))
  {
    if op == 10 {
      DecodedFields(es);
      HelloMeaning(es, Decode(es).d);
    } else if op == 0 {
      DispatchedMeaning(es);
    }
  }

  predicate IsDispatch(m: Message) {
    m.Untyped? || m.Unlisted? || m.Ready? || m.Listed?
  }

  lemma DispatchedMeaning(es: seq<Entry>)
    requires Proper(es) && Carries(es, 0)
    ensures Meaning(Some(Object(es))) == DispatchMeaning(Decode(es).t, Decode(es).d)
    ensures IsDispatch(Meaning(Some(Object(es))))
  {
    DecodedFields(es);
    DispatchIsDispatch(Decode(es).t, Decode(es).d);
  }

  lemma DispatchIsDispatch(t: Option<Json>, d: Option<Json>)
    ensures IsDispatch(DispatchMeaning(t, d))
  {
  }

  /** How many of the delivered messages carry an opcode. */
  ghost function Delivers(load: Bytes -> Option<Json>, log: Log, op: nat): nat {
    match log
    case Empty => 0
    case Snoc(init, Delivered(msg)) => Delivers(load, init, op) + if IsOp(load(msg), op) then 1 else 0
    case Snoc(init, _) => Delivers(load, init, op)
  }

  lemma {:induction false} AccountsByOpcode(cfg: Config, load: Bytes -> Option<Json>, log: Log)
    requires Decodes(cfg, load)
    ensures Acks(cfg, log) == Delivers(load, log, 11) && Hellos(cfg, log) == Delivers(load, log, 10)
  {
    if log.Snoc? {
      AccountsByOpcode(cfg, load, log.init);
      if log.last.Delivered? {
        MeaningByOpcode(load(log.last.msg));
      }
    }
  }

  /** The ledger with its three accounts read off the outside: payloads accepted that lead with opcode 1, calls of
      `ld_service` that returned 220, and messages delivered with opcode 11. */
  lemma LedgerByOpcode(cfg: Config, load: Bytes -> Option<Json>, start: Secs, ticks: seq<Tick>)
    requires Decodes(cfg, load)
    ensures var s := Run(cfg, Init(start), ticks);
      s.hbCount == Beats(AcceptedIn(s.log)) + Count(Codes(cfg, Init(start), ticks), 220) - Delivers(load, s.log, 11)
  {
    var s := Run(cfg, Init(start), ticks);
    HeartbeatLedger(cfg, start, ticks);
    MissesAreReturned(cfg, Init(start), ticks);
    AccountsByOpcode(cfg, load, s.log);
    BeatsAreCounted(s.log);
  }

  lemma {:induction false} BeatsAreCounted(log: Log)
    ensures BeatsAccepted(log) == Beats(AcceptedIn(log))
  {
    if log.Snoc? {
      BeatsAreCounted(log.init);
      if log.last.Accepted? {
        BeatsAppend(AcceptedIn(log.init), log.last.p);
      }
    }
  }

  /** A message that decides about the session: an invalidation, or a READY with a session id. */
  ghost predicate Decides(j: Option<Json>, session: Option<string>) {
    || (IsOp(j, 9) && session == None)
    || exists data, v :: IsReady(j, data) && Entry("session_id", v) in data
                         && session == if v.String? then Some(v.s) else None
  }

  lemma DecidesSession(j: Option<Json>)
    requires WellKeyed(j)
    ensures SetsSession(Meaning(j)) <==> exists session :: Decides(j, session)
    ensures forall session :: Decides(j, session) ==> SessionAfter(Meaning(j), None) == session
  {
    forall session | Decides(j, session)
      ensures SetsSession(Meaning(j)) && SessionAfter(Meaning(j), None) == session
    {
      DecisionIsObeyed(j, session);
    }
    if SetsSession(Meaning(j)) {
      DecisionIsMade(j);
    }
  }

  lemma DecisionIsObeyed(j: Option<Json>, session: Option<string>)
    requires WellKeyed(j) && Decides(j, session)
    ensures SetsSession(Meaning(j)) && SessionAfter(Meaning(j), None) == session
  {
    if IsOp(j, 9) {
      PlainMeaning(j.value.entries, 9);
      OpcodeIsOne(j.value.entries);
    } else {
      var data, v :| IsReady(j, data) && Entry("session_id", v) in data
                     && session == if v.String? then Some(v.s) else None;
      ReadyMeans(j, data);
      LookupIs(data, "session_id");
    }
  }

  lemma DecisionIsMade(j: Option<Json>)
    requires WellKeyed(j) && SetsSession(Meaning(j))
    ensures exists session :: Decides(j, session)
  {
    if Meaning(j).Invalidate? {
      MeaningByOpcode(j);
      assert Decides(j, None);
    } else {
      ReadyHasData(j);
      var data := EntriesOf(Meaning(j).data);
      LookupIs(data, "session_id");
      NamedSessionDecides(j, data, FirstValue(data, "session_id").value);
    }
  }

  lemma NamedSessionDecides(j: Option<Json>, data: seq<Entry>, v: Json)
    requires IsReady(j, data) && Entry("session_id", v) in data
    ensures Decides(j, if v.String? then Some(v.s) else None)
  {
  }

  lemma OpcodeIsOne(es: seq<Entry>)
    requires Proper(es)
    ensures forall op, op' :: Carries(es, op) && Carries(es, op') ==> op == op'
  {
    DecodedFields(es);
  }

  lemma ReadyMeans(j: Option<Json>, data: seq<Entry>)
    requires WellKeyed(j) && IsReady(j, data)
    ensures Meaning(j) == Ready(1, Some(Object(data))) && DistinctKeys(data)
  {
    var es := j.value.entries;
    LookupIs(es, "d");
    assert HasData(es, Some(Object(data)));
    TypedMeaning(es, "READY", Some(Object(data)));
    NamedMeaning("READY", Some(Object(data)));
  }

  /** A READY that names a session has an object for its data. */
  lemma ReadyHasData(j: Option<Json>)
    requires WellKeyed(j) && Meaning(j).Ready? && SetsSession(Meaning(j))
    ensures IsReady(j, EntriesOf(Meaning(j).data)) && DistinctKeys(EntriesOf(Meaning(j).data))
  {
    MeaningByOpcode(j);
    var es := j.value.entries;
    DecodedFields(es);
    var e := Decode(es);
    OpcodeIsOne(es);
    assert Meaning(j) == DispatchMeaning(e.t, e.d);
    var name := StringValue(e.t).value;
    DispatchByName(name, e.d);
    assert Entry("t", String(name)) in es;
    assert e.d.Some? && e.d.value.Object? && Entry("d", Object(e.d.value.entries)) in es;
  }

  /** The session id after any run is what the last message that decides about the session says. */
  lemma SessionByMessages(cfg: Config, load: Bytes -> Option<Json>, start: Secs, ticks: seq<Tick>, k: nat,
                          session: Option<string>)
    requires Decodes(cfg, load)
    requires var ms := DeliveredIn(Run(cfg, Init(start), ticks).log);
      && k <= |ms| && (if k == 0 then session == None else Decides(load(ms[k - 1]), session))
      && Undecided(load, ms, k)
    ensures Run(cfg, Init(start), ticks).session == session
  {
    var ms := DeliveredIn(Run(cfg, Init(start), ticks).log);
    UndecidedUntouched(cfg, load, ms, k);
    SessionIsOfLastReady(cfg, start, ticks, if k > 0 then k - 1 else 0);
    if k > 0 {
      DecisionIsObeyed(load(ms[k - 1]), session);
      assert MeaningOf(cfg, ms[k - 1]) == Meaning(load(ms[k - 1]));
    }
  }

  /** No message from the given one on decides about the session. */
  ghost predicate Undecided(load: Bytes -> Option<Json>, ms: seq<Bytes>, from: nat) {
    forall i, session :: from <= i < |ms| ==> !Decides(load(ms[i]), session)
  }

  lemma UndecidedUntouched(cfg: Config, load: Bytes -> Option<Json>, ms: seq<Bytes>, from: nat)
    requires Decodes(cfg, load) && Undecided(load, ms, from)
    ensures SessionUntouched(cfg, ms, from)
  {
    forall i | from <= i < |ms| ensures !SetsSession(MeaningOf(cfg, ms[i])) {
      DecidesSession(load(ms[i]));
    }
  }
}
