/** Session and sequence bookkeeping, and the user callback: what they owe to the messages delivered. */
module Bookkeeping {
  import opened Prelude
  import opened Json
  import opened Envelope
  import opened Dispatch
  import opened Session
  import opened History

  /* ---- what a message does to the stored values ---- */

  /** A READY that names its session, or an invalidated session. */
  predicate SetsSession(m: Message) {
    m.Invalidate? || (m.Ready? && FirstValue(EntriesOf(m.data), SESSION_ID).Some?)
  }

  function SessionAfter(m: Message, session: Option<string>): Option<string> {
    if !SetsSession(m) then session
    else if m.Invalidate? then None
    else StringValue(FirstValue(EntriesOf(m.data), SESSION_ID))
  }

  /** An invalidated session, or a message with a visited `s`. */
  predicate SetsSeq(r: Reading) {
    r.message.Invalidate? || r.s.Some?
  }

  function SeqNumberAfter(r: Reading, lastSeq: int): int {
    if r.message.Invalidate? then 0 else SeqAfter(r.s, lastSeq)
  }

  function IntervalAfter(m: Message, interval: nat): nat {
    if m.Hello? then m.interval else interval
  }

  /* ---- the same along a log ---- */

  function SessionIn(cfg: Config, log: Log): Option<string> {
    match log
    case Empty => None
    case Snoc(init, Delivered(msg)) => SessionAfter(cfg.read(msg).message, SessionIn(cfg, init))
    case Snoc(init, _) => SessionIn(cfg, init)
  }

  function SeqIn(cfg: Config, log: Log): int {
    match log
    case Empty => 0
    case Snoc(init, Delivered(msg)) => SeqNumberAfter(cfg.read(msg), SeqIn(cfg, init))
    case Snoc(init, _) => SeqIn(cfg, init)
  }

  function IntervalIn(cfg: Config, log: Log): nat {
    match log
    case Empty => 0
    case Snoc(init, Delivered(msg)) => IntervalAfter(cfg.read(msg).message, IntervalIn(cfg, init))
    case Snoc(init, _) => IntervalIn(cfg, init)
  }

  /** Every heartbeat the ring took carries the sequence number of the moment it was queued. */
  predicate Stamped(cfg: Config, log: Log) {
    match log
    case Empty => true
    case Snoc(init, Accepted(p)) => (IsHeartbeat(p) ==> p == Heartbeat(SeqIn(cfg, init))) && Stamped(cfg, init)
    case Snoc(init, _) => Stamped(cfg, init)
  }

  /** Every user callback finds the session id of the messages delivered so far, its own included. */
  predicate SeesSession(cfg: Config, log: Log) {
    match log
    case Empty => true
    case Snoc(init, Called(_, _, seen)) => seen == SessionIn(cfg, init) && SeesSession(cfg, init)
    case Snoc(init, _) => SeesSession(cfg, init)
  }

  /* ---- the user callback ---- */

  /** The user callbacks a message is owed: none, or one with the reason of its type. */
  function CallsFor(m: Message): seq<(int, Option<Json>)> {
    match m
    case Listed(reason, data) => [(reason, data)]
    case Ready(reason, data) => if SetsSession(m) then [(reason, data)] else []
    case _ => []
  }

  function CallsOwed(cfg: Config, log: Log): seq<(int, Option<Json>)> {
    match log
    case Empty => []
    case Snoc(init, Delivered(msg)) => CallsOwed(cfg, init) + CallsFor(cfg.read(msg).message)
    case Snoc(init, _) => CallsOwed(cfg, init)
  }

  /** The calls made for dispatches; the websocket's own reasons are left out. */
  function CallsIn(log: Log): seq<(int, Option<Json>)> {
    match log
    case Empty => []
    case Snoc(init, Called(reason, data, _)) =>
      if reason < CALLBACK_WS_ESTABLISHED then CallsIn(init) + [(reason, data)] else CallsIn(init)
    case Snoc(init, _) => CallsIn(init)
  }

  /** Readers that take their reasons from the table never use the websocket's reasons. */
  ghost predicate TableReasons(cfg: Config) {
    forall msg :: var m := cfg.read(msg).message; m.Listed? || m.Ready? ==> m.reason < CALLBACK_WS_ESTABLISHED
  }

  /** A reason that is announced is one of the table's. */
  lemma AnnouncedIsListed(kind: Option<Json>, data: Option<Json>)
    ensures var m := DispatchMeaning(kind, data); m.Listed? || m.Ready? ==> m.reason < CALLBACK_WS_ESTABLISHED
  {
    var name := StringValue(kind);
    if name.Some? && Scan(TABLE, name.value).Some? {
      ReasonsStayBelow(Scan(TABLE, name.value).value);
    }
  }

  lemma MeaningIsListed(parsed: Option<Json>)
    ensures var m := Meaning(parsed); m.Listed? || m.Ready? ==> m.reason < CALLBACK_WS_ESTABLISHED
  {
    var e := Decode(EntriesOf(parsed));
    AnnouncedIsListed(e.t, e.d);
  }

  /** The library's decoder is such a reader. */
  lemma DecoderUsesTable(cfg: Config, load: Bytes -> Option<Json>)
    requires forall msg :: cfg.read(msg) == ReadingOf(load(msg))
    ensures TableReasons(cfg)
  {
    forall msg ensures var m := cfg.read(msg).message; m.Listed? || m.Ready? ==> m.reason < CALLBACK_WS_ESTABLISHED {
      MeaningIsListed(load(msg));
    }
  }

  /* ---- what every step keeps ---- */

  ghost predicate Booked(cfg: Config, s: State) {
    && s.session == SessionIn(cfg, s.log)
    && s.lastSeq == SeqIn(cfg, s.log)
    && s.interval == IntervalIn(cfg, s.log)
    && Stamped(cfg, s.log)
    && SeesSession(cfg, s.log)
    && (TableReasons(cfg) ==> CallsIn(s.log) == CallsOwed(cfg, s.log))
  }

  lemma NoteBooked(cfg: Config, s: State, o: Obs)
    requires Booked(cfg, s) && !o.Delivered? && !o.Accepted?
    requires o.Called? ==> o.seen == s.session && o.reason >= CALLBACK_WS_ESTABLISHED
    ensures Booked(cfg, Note(s, o))
  {
  }

  lemma InsertBooked(cfg: Config, s: State, p: Json)
    requires Booked(cfg, s) && (IsHeartbeat(p) ==> p == Heartbeat(s.lastSeq))
    ensures Booked(cfg, Insert(cfg, s, p))
  {
  }

  lemma GreetBooked(cfg: Config, s: State, interval: nat, a: Answers)
    requires Booked(cfg, s.(interval := interval))
    ensures Booked(cfg, Greet(cfg, s, interval, a).state)
  {
    var s1 := s.(interval := interval);
    var body := if s1.session.None? then cfg.identify else a.staleIdentify;
    if body.Some? {
      PayloadKinds(0, body.value);
      InsertBooked(cfg, s1, Identify(body.value));
    }
  }

  lemma ParseBooked(cfg: Config, s: State, msg: Bytes, a: Answers)
    requires Booked(cfg, s)
    ensures Booked(cfg, Parse(cfg, s, msg, a).state)
  {
    var m := cfg.read(msg).message;
    var s1 := Decoding(cfg, s, msg);
    assert SessionIn(cfg, s1.log) == SessionAfter(m, s.session);
    assert SeqIn(cfg, s1.log) == SeqNumberAfter(cfg.read(msg), s.lastSeq);
    assert IntervalIn(cfg, s1.log) == IntervalAfter(m, s.interval);
    assert CallsIn(s1.log) == CallsIn(s.log);
    assert CallsOwed(cfg, s1.log) == CallsOwed(cfg, s.log) + CallsFor(m);
    if m.Hello? {
      GreetBooked(cfg, s1, m.interval, a);
    }
  }

  lemma EventBooked(cfg: Config, s: State, e: Event)
    requires Booked(cfg, s)
    ensures Booked(cfg, OnEvent(cfg, s, e).state)
  {
    match e {
      case Fragment(data, first, final, a) =>
        ParseBooked(cfg, s, data, a);
        if s.rx.Some? {
          ParseBooked(cfg, s, s.rx.value + StrNCpy(data), a);
        }
      case Writeable(writeResult) =>
        if s.ring != [] {
          var s1 := Note(s.(ring := s.ring[1..]), Consumed(s.ring[0]));
          assert Booked(cfg, s1);
          NoteBooked(cfg, s1, Wrote(s.ring[0]));
          NoteBooked(cfg, s1, WriteFailed(s.ring[0]));
        }
      case ConnectionError(_) => NoteBooked(cfg, s, Called(CALLBACK_WS_CONNECTION_ERROR, None, s.session));
      case Established(_, _) => NoteBooked(cfg, s, Called(CALLBACK_WS_ESTABLISHED, None, s.session));
      case _ =>
    }
  }

  lemma BeatBooked(cfg: Config, s: State, now: Secs, later: Secs)
    requires Booked(cfg, s)
    ensures Booked(cfg, Beat(cfg, s, now, later).state)
  {
  }
}
