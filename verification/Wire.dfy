/** What goes over the wire, as against what enters the ring: which payloads are sent, and whether a heartbeat is sent
    before HELLO. */
module Wire {
  import opened Prelude
  import opened Json
  import opened Envelope
  import opened Dispatch
  import opened Session
  import opened History
  import opened Queue
  import opened Runs
  import opened Timer
  import opened Websocket
  import opened Opening

  /* ---- what every step keeps ---- */

  predicate BeatOrIdentify(p: Json) {
    IsHeartbeat(p) || IsIdentify(p)
  }

  /** Nothing but heartbeats and IDENTIFYs waits or was written. */
  ghost predicate Plain(s: State) {
    (forall p :: p in s.ring ==> BeatOrIdentify(p)) && (forall p :: p in WroteIn(s.log) ==> BeatOrIdentify(p))
  }

  /** Heartbeats written or waiting, beyond those accepted. */
  function Surplus(s: State): int {
    BeatsWrote(s.log) + Beats(s.ring) - BeatsAccepted(s.log)
  }

  /** No step brings anything else into the ring, and none brings a heartbeat there without accepting it. */
  ghost predicate Steps(s: State, s': State) {
    (Plain(s) ==> Plain(s')) && Surplus(s') <= Surplus(s) && BeatsWrote(s.log) <= BeatsWrote(s'.log)
  }

  lemma NoteSteps(s: State, o: Obs)
    requires !o.Accepted? && !o.Wrote?
    ensures Steps(s, Note(s, o))
  {
  }

  lemma InsertSteps(cfg: Config, s: State, p: Json)
    requires BeatOrIdentify(p)
    ensures Steps(s, Insert(cfg, s, p))
  {
    BeatsAppend(s.ring, p);
  }

  lemma SendSteps(cfg: Config, s: State, writeResult: int)
    ensures Steps(s, Send(cfg, s, writeResult).state)
  {
    if s.ring != [] {
      var p := s.ring[0];
      var s1 := Note(s.(ring := s.ring[1..]), Consumed(p));
      assert s.ring == [p] + s1.ring;
      assert WroteIn(s1.log) == WroteIn(s.log) && BeatsAccepted(s1.log) == BeatsAccepted(s.log);
      assert BeatsWrote(s1.log) == BeatsWrote(s.log);
    }
  }

  lemma ParseSteps(cfg: Config, s: State, msg: Bytes, a: Answers)
    ensures Steps(s, Parse(cfg, s, msg, a).state)
  {
    NoteSteps(s, Delivered(msg));
    ObeySteps(cfg, Decoding(cfg, s, msg), MeaningOf(cfg, msg), a);
  }

  lemma GreetSteps(cfg: Config, s: State, interval: nat, a: Answers)
    ensures Steps(s, Greet(cfg, s, interval, a).state)
  {
    var body := if s.session.None? then cfg.identify else a.staleIdentify;
    if body.Some? {
      PayloadKinds(0, body.value);
      InsertSteps(cfg, s.(interval := interval), Identify(body.value));
    }
  }

  lemma ObeySteps(cfg: Config, s: State, m: Message, a: Answers)
    ensures Steps(s, Obey(cfg, s, m, a).state)
  {
    match m {
      case Hello(interval) => GreetSteps(cfg, s, interval, a);
      case Ready(reason, data) =>
        var id := StringValue(FirstValue(EntriesOf(data), SESSION_ID));
        NoteSteps(s.(session := id), Called(reason, data, id));
      case Listed(reason, data) => NoteSteps(s, Called(reason, data, s.session));
      case _ =>
    }
  }

  lemma EventSteps(cfg: Config, s: State, e: Event)
    ensures Steps(s, OnEvent(cfg, s, e).state)
  {
    match e {
      case Fragment(_, _, _, a) =>
        if Completed(s, e).Some? {
          ParseSteps(cfg, s, Completed(s, e).value, a);
        }
      case Writeable(writeResult) => SendSteps(cfg, s, writeResult);
      case ConnectionError(_) => NoteSteps(s, Called(CALLBACK_WS_CONNECTION_ERROR, None, s.session));
      case Established(_, _) => NoteSteps(s, Called(CALLBACK_WS_ESTABLISHED, None, s.session));
      case _ =>
    }
  }

  lemma {:induction false} PumpSteps(cfg: Config, s: State, events: seq<Event>)
    ensures Steps(s, Pump(cfg, s, events))
    decreases |events|
  {
    if events != [] {
      EventSteps(cfg, s, events[0]);
      PumpSteps(cfg, OnEvent(cfg, s, events[0]).state, events[1..]);
    }
  }

  lemma BeatSteps(cfg: Config, s: State, now: Secs, later: Secs)
    ensures Steps(s, Beat(cfg, s, now, later).state)
  {
    var hb := Heartbeat(s.lastSeq);
    PayloadKinds(s.lastSeq, Null);
    InsertSteps(cfg, s, hb);
    NoteSteps(s, Refused(hb));
    NoteSteps(Note(s, Refused(hb)), Returned(LDS_CANTFIT_HEARTBEAT_ERR));
    NoteSteps(s.(hbCount := s.hbCount + 1), Returned(LDS_ACK_MISSED));
  }

  lemma ServiceSteps(cfg: Config, s: State, tick: Tick)
    ensures Steps(s, Service(cfg, s, tick).state)
  {
    var s0 := PumpStart(cfg, s, tick);
    if s.connected {
      BeatSteps(cfg, s, tick.now, tick.later);
      NoteSteps(Beat(cfg, s, tick.now, tick.later).state, WriteAsked);
    }
    assert Steps(s, s0);
    PumpSteps(cfg, s0, Played(cfg, s, tick));
    var s1 := Pump(cfg, s0, Played(cfg, s, tick));
    NoteSteps(s1, Returned(LDS_OK));
    NoteSteps(s1, Returned(LDS_CONNECTION_ERR));
  }

  lemma {:induction false} RunSteps(cfg: Config, s: State, ticks: seq<Tick>)
    ensures Steps(s, Run(cfg, s, ticks))
    decreases |ticks|
  {
    if ticks != [] {
      ServiceSteps(cfg, s, ticks[0]);
      RunSteps(cfg, Service(cfg, s, ticks[0]).state, ticks[1..]);
    }
  }

  /** Over every run nothing but heartbeats and IDENTIFYs is sent, so nothing else can be sent before IDENTIFY. */
  lemma NothingElseIsSent(cfg: Config, start: Secs, ticks: seq<Tick>)
    ensures forall p :: p in WroteIn(Run(cfg, Init(start), ticks).log) ==> IsHeartbeat(p) || IsIdentify(p)
  {
    RunSteps(cfg, Init(start), ticks);
  }

  /* ---- a ring that is emptied ---- */

  /** Every payload has a text. */
  ghost predicate HasTexts(cfg: Config) {
    forall p :: |cfg.dumps(p)| > 0
  }

  /** A service call at time n in which the socket takes the whole text of p. */
  function Answer(cfg: Config, p: Json, n: Secs): Tick {
    Tick(n, n, Unreachable, [Writeable(|cfg.dumps(p)|)])
  }

  lemma AfterAnswer(cfg: Config, s: State, n: Secs)
    requires HasTexts(cfg) && s.connected
    requires var b := Beat(cfg, s, n, n); b.code == LDS_OK && b.state.ring != []
    ensures var b := Beat(cfg, s, n, n).state; var p := b.ring[0]; var s' := Run(cfg, s, [Answer(cfg, p, n)]);
      && s' == b.(ring := b.ring[1..], log := s'.log)
      && DeliveredIn(s'.log) == DeliveredIn(b.log) && WroteIn(s'.log) == WroteIn(b.log) + [p]
      && BeatsWrote(s'.log) == BeatsWrote(b.log) + (if IsHeartbeat(p) then 1 else 0)
      && NoWriteFailures(s'.log) == NoWriteFailures(b.log)
    ensures var tick := Answer(cfg, Beat(cfg, s, n, n).state.ring[0], n);
      ClosingRun(cfg, s, [tick]) && Advances(n, [tick]) && End(n, [tick]) == n
  {
    var b := Beat(cfg, s, n, n).state;
    var p := b.ring[0];
    var tick, e, s0 := Answer(cfg, p, n), Writeable(|cfg.dumps(p)|), AskWrite(b);
    assert SameTraffic(b.log, s0.log);
    PumpOne(cfg, s0, e);
    WrittenPayload(s0, p);
    assert [e][1..] == [];
    assert OnEvent(cfg, s0, e).code == LDS_OK;
    OneTick(cfg, s, tick);
    OneReading(n, e);
    assert TickAdvances(n, tick) && TickEnd(tick) == n;
    assert [tick][1..] == [];
    assert Advances(n, []) && End(n, []) == n;
  }

  lemma WrittenPayload(s: State, p: Json)
    ensures var log := Snoc(Snoc(s.log, Consumed(p)), Wrote(p));
      && DeliveredIn(log) == DeliveredIn(s.log) && WroteIn(log) == WroteIn(s.log) + [p]
      && BeatsWrote(log) == BeatsWrote(s.log) + (if IsHeartbeat(p) then 1 else 0)
      && NoWriteFailures(log) == NoWriteFailures(s.log)
  {
    assert NoWriteFailures(Snoc(s.log, Consumed(p))) == NoWriteFailures(s.log);
  }

  /** The same while the timer is not due. */
  lemma AfterQuietAnswer(cfg: Config, s: State, n: Secs)
    requires HasTexts(cfg) && s.connected && s.lastHb == n && s.ring != []
    ensures var p := s.ring[0]; var s' := Run(cfg, s, [Answer(cfg, p, n)]);
      && s' == s.(ring := s.ring[1..], log := s'.log)
      && WroteIn(s'.log) == WroteIn(s.log) + [p]
      && BeatsWrote(s'.log) == BeatsWrote(s.log) + (if IsHeartbeat(p) then 1 else 0)
      && NoWriteFailures(s'.log) == NoWriteFailures(s.log)
    ensures BeforeHello(cfg, s, n, [Answer(cfg, s.ring[0], n)]) && End(n, [Answer(cfg, s.ring[0], n)]) == n
  {
    SubUlongExact(n, n);
    assert Beat(cfg, s, n, n) == Outcome(s, LDS_OK);
    AfterAnswer(cfg, s, n);
  }

  /** The payloads go out one by one. */
  function Flush(cfg: Config, ps: seq<Json>, n: Secs): seq<Tick> {
    if ps == [] then [] else [Answer(cfg, ps[0], n)] + Flush(cfg, ps[1..], n)
  }

  /** All that waited has been written, and nothing else has changed. */
  ghost predicate Drained(s: State, s': State) {
    && s' == s.(ring := [], log := s'.log)
    && WroteIn(s'.log) == WroteIn(s.log) + s.ring && BeatsWrote(s'.log) == BeatsWrote(s.log) + Beats(s.ring)
    && NoWriteFailures(s'.log) == NoWriteFailures(s.log)
  }

  lemma DrainedStep(s: State, s1: State, s2: State)
    requires s.ring != [] && s1 == s.(ring := s.ring[1..], log := s1.log) && Drained(s1, s2)
    requires WroteIn(s1.log) == WroteIn(s.log) + [s.ring[0]] && NoWriteFailures(s1.log) == NoWriteFailures(s.log)
    requires BeatsWrote(s1.log) == BeatsWrote(s.log) + (if IsHeartbeat(s.ring[0]) then 1 else 0)
    ensures Drained(s, s2)
  {
    assert s.ring == [s.ring[0]] + s.ring[1..];
  }

  lemma {:induction false} AfterFlush(cfg: Config, s: State, n: Secs)
    requires HasTexts(cfg) && s.connected && s.lastHb == n
    ensures Drained(s, Run(cfg, s, Flush(cfg, s.ring, n)))
    ensures BeforeHello(cfg, s, n, Flush(cfg, s.ring, n)) && End(n, Flush(cfg, s.ring, n)) == n
    decreases |s.ring|
  {
    if s.ring != [] {
      var first, rest := [Answer(cfg, s.ring[0], n)], Flush(cfg, s.ring[1..], n);
      AfterQuietAnswer(cfg, s, n);
      var s1 := Run(cfg, s, first);
      AfterFlush(cfg, s1, n);
      BeforeHelloAppend(cfg, s, n, first, rest);
      DrainedStep(s, s1, Run(cfg, s1, rest));
    }
  }

  /** The connection is established at time t and sends what is left over from earlier ones. */
  function Resend(cfg: Config, s: State, t: Secs): seq<Tick> {
    [Reconnect(t)] + Flush(cfg, s.ring, t)
  }

  lemma AfterResend(cfg: Config, s: State, t: Secs)
    requires HasTexts(cfg) && !s.connected
    ensures var s' := Run(cfg, s, Resend(cfg, s, t));
      && s' == s.(connected := true, lastHb := t, ring := [], log := s'.log)
      && WroteIn(s'.log) == WroteIn(s.log) + s.ring && BeatsWrote(s'.log) == BeatsWrote(s.log) + Beats(s.ring)
      && NoWriteFailures(s'.log) == NoWriteFailures(s.log)
    ensures BeforeHello(cfg, s, t, Resend(cfg, s, t)) && End(t, Resend(cfg, s, t)) == t
  {
    var a := Reconnect(t);
    AfterReconnect(cfg, s, t);
    OneTick(cfg, s, a);
    assert [a][1..] == [] && Advances(t, []) && End(t, []) == t;
    assert BeforeHello(cfg, s, t, [a]) && End(t, [a]) == t;
    AfterFlush(cfg, Run(cfg, s, [a]), t);
    BeforeHelloAppend(cfg, s, t, [a], Flush(cfg, s.ring, t));
  }

  /** Then, at time n, the timer is due, and the heartbeat goes out in the call that queues it. */
  function LateBeat(cfg: Config, s: State, t: Secs, n: Secs): seq<Tick> {
    Resend(cfg, s, t) + [Answer(cfg, Heartbeat(s.lastSeq), n)]
  }

  lemma AfterLateBeat(cfg: Config, s: State, t: Secs, n: Secs)
    requires HasTexts(cfg) && !s.connected && t <= n && n - t > s.interval / 1000
    requires s.interval != 0 && s.hbCount <= 0 && cfg.capacity > 0
    ensures var s' := Run(cfg, s, LateBeat(cfg, s, t, n));
      && WroteIn(s'.log) == WroteIn(s.log) + s.ring + [Heartbeat(s.lastSeq)]
      && BeatsWrote(s'.log) == BeatsWrote(s.log) + Beats(s.ring) + 1
      && NoWriteFailures(s'.log) == NoWriteFailures(s.log)
    ensures BeforeHello(cfg, s, t, LateBeat(cfg, s, t, n))
  {
    var s1 := Run(cfg, s, Resend(cfg, s, t));
    var last := [Answer(cfg, Heartbeat(s.lastSeq), n)];
    AfterResend(cfg, s, t);
    SubUlongExact(n, t);
    BeatTraffic(cfg, s1, n);
    PayloadKinds(s.lastSeq, Null);
    assert Beat(cfg, s1, n, n).state.ring == [Heartbeat(s.lastSeq)];
    AfterAnswer(cfg, s1, n);
    assert last[1..] == [] && TickAdvances(t, last[0]);
    assert BeforeHello(cfg, s1, t, last);
    BeforeHelloAppend(cfg, s, t, Resend(cfg, s, t), last);
  }

  /* ---- heartbeats before HELLO ---- */

  /** If no heartbeat waits and none can be queued, no run whatsoever sends one before the next message. */
  lemma NoBeatSentBeforeHello(cfg: Config, s: State, ticks: seq<Tick>)
    requires DeliveredIn(Run(cfg, s, ticks).log) == DeliveredIn(s.log)
    requires Beats(s.ring) == 0 && (s.interval == 0 || s.hbCount > 0 || cfg.capacity == 0)
    ensures BeatsWrote(Run(cfg, s, ticks).log) == BeatsWrote(s.log)
  {
    NoBeatBeforeHello(cfg, s, ticks);
    RunSteps(cfg, s, ticks);
  }

  /** For a context between two connections: a heartbeat can be sent before the next HELLO exactly if one is left over
      in the ring, or the interval of an earlier connection is still set, no heartbeat is unacknowledged, and the ring
      has room at all. */
  lemma BeatSentBeforeHelloIff(cfg: Config, start: Secs, before: seq<Tick>, t: Secs)
    requires HasTexts(cfg)
    requires var s := Run(cfg, Init(start), before); !s.connected && t + s.interval / 1000 + 1 < TWO_64
    ensures var s := Run(cfg, Init(start), before);
      (exists ticks :: BeforeHello(cfg, s, t, ticks) && BeatsWrote(Run(cfg, s, ticks).log) > BeatsWrote(s.log))
      <==> Beats(s.ring) > 0 || (s.interval != 0 && s.hbCount <= 0 && cfg.capacity > 0)
  {
    var s := Run(cfg, Init(start), before);
    if ticks :| BeforeHello(cfg, s, t, ticks) && BeatsWrote(Run(cfg, s, ticks).log) > BeatsWrote(s.log) {
      if Beats(s.ring) == 0 && (s.interval == 0 || s.hbCount > 0 || cfg.capacity == 0) {
        NoBeatSentBeforeHello(cfg, s, ticks);
      }
    }
    if Beats(s.ring) > 0 {
      AfterResend(cfg, s, t);
      assert BeforeHello(cfg, s, t, Resend(cfg, s, t));
    } else if s.interval != 0 && s.hbCount <= 0 && cfg.capacity > 0 {
      var n := t + s.interval / 1000 + 1;
      AfterLateBeat(cfg, s, t, n);
      assert BeforeHello(cfg, s, t, LateBeat(cfg, s, t, n));
    }
  }

  /** The two reasons are independent. After a connection that was greeted, and one that queued a heartbeat and ended
      before sending it, no heartbeat can be queued before the next HELLO, but the one left over is still sent. */
  lemma LeftOverBeat(cfg: Config, hello: Bytes, t: Secs, n: Secs)
    requires HasTexts(cfg) && MeaningOf(cfg, hello).Hello? && MeaningOf(cfg, hello).interval > 0
    requires cfg.capacity >= 2 && t <= n && n - t > MeaningOf(cfg, hello).interval / 1000
    ensures var s := Run(cfg, Init(t), [Greeted(hello, t)] + (Reconnection(t, n) + [Drop(n)]));
      && !s.connected && s.hbCount == 1
      && BeforeHello(cfg, s, n, Resend(cfg, s, n))
      && BeatsWrote(Run(cfg, s, Resend(cfg, s, n)).log) == BeatsWrote(s.log) + 1
  {
    var s0 := Run(cfg, Init(t), [Greeted(hello, t)]);
    AfterGreeted(cfg, hello, t);
    var rest := Reconnection(t, n) + [Drop(n)];
    var s := BeatThenDrop(cfg, s0, t, n);
    RunAppend(cfg, Init(t), [Greeted(hello, t)], rest);
    PayloadKinds(0, if cfg.identify.Some? then cfg.identify.value else Null);
    assert Beats(s0.ring) == 0;
    AfterResend(cfg, s, n);
  }

  lemma BeatThenDrop(cfg: Config, s: State, t: Secs, n: Secs) returns (s': State)
    requires !s.connected && s.interval != 0 && s.hbCount <= 0 && |s.ring| < cfg.capacity
    requires t <= n && n - t > s.interval / 1000
    ensures s' == Run(cfg, s, Reconnection(t, n) + [Drop(n)])
    ensures !s'.connected && s'.hbCount == s.hbCount + 1 && Beats(s'.ring) == Beats(s.ring) + 1
  {
    var s1 := Run(cfg, s, Reconnection(t, n));
    AfterReconnection(cfg, s, t, n);
    AfterDrop(cfg, s1, n);
    RunAppend(cfg, s, Reconnection(t, n), [Drop(n)]);
    s' := Run(cfg, s1, [Drop(n)]);
    PayloadKinds(s.lastSeq, Null);
    BeatsAppend(s.ring, Heartbeat(s.lastSeq));
  }

  /* ---- the first payload on the wire ---- */

  /** A run that a HELLO opens, with a clock and a libwebsockets that behave, sends an IDENTIFY first. */
  ghost predicate IdentifiesFirst(cfg: Config, start: Secs, ticks: seq<Tick>) {
    Advances(start, ticks) && ClosingRun(cfg, Init(start), ticks) && HelloOpens(cfg, Run(cfg, Init(start), ticks).log)
    ==> var wire := WroteIn(Run(cfg, Init(start), ticks).log); wire != [] ==> IsIdentify(wire[0])
  }

  ghost predicate WritesSucceed(cfg: Config, start: Secs, ticks: seq<Tick>) {
    NoWriteFailures(Run(cfg, Init(start), ticks).log)
  }

  /** Over all runs without write failures, the first payload sent is an IDENTIFY exactly if a token is configured. */
  lemma IdentifySentFirstIffToken(cfg: Config, hello: Bytes)
    requires HasTexts(cfg) && cfg.capacity > 0
    requires MeaningOf(cfg, hello).Hello? && 0 < MeaningOf(cfg, hello).interval < TWO_32
    ensures (forall start, ticks :: WritesSucceed(cfg, start, ticks) ==> IdentifiesFirst(cfg, start, ticks))
            <==> cfg.identify.Some?
  {
    if cfg.identify.Some? {
      forall start, ticks | WritesSucceed(cfg, start, ticks) ensures IdentifiesFirst(cfg, start, ticks) {
        IdentifyComesFirst(cfg, start, ticks);
      }
    } else {
      var ticks := BeatSentFirst(cfg, hello, []);
      assert WritesSucceed(cfg, 0, ticks) && !IdentifiesFirst(cfg, 0, ticks);
    }
  }

  /** With failing writes a token does not suffice: an IDENTIFY that is lost is not sent again, and the next
      connection starts with a heartbeat. */
  lemma LostIdentify(cfg: Config, hello: Bytes)
    requires HasTexts(cfg) && cfg.capacity > 0 && cfg.identify.Some?
    requires MeaningOf(cfg, hello).Hello? && 0 < MeaningOf(cfg, hello).interval < TWO_32
    ensures exists ticks :: !IdentifiesFirst(cfg, 0, ticks)
  {
    var ticks := BeatSentFirst(cfg, hello, LostOnWrite(0));
    assert !IdentifiesFirst(cfg, 0, ticks);
  }

  /** A first connection that is greeted and ends, `lost` if its IDENTIFY is to be lost, and a late heartbeat. */
  lemma BeatSentFirst(cfg: Config, hello: Bytes, lost: seq<Tick>) returns (ticks: seq<Tick>)
    requires HasTexts(cfg) && cfg.capacity > 0
    requires MeaningOf(cfg, hello).Hello? && 0 < MeaningOf(cfg, hello).interval < TWO_32
    requires lost == if cfg.identify.Some? then LostOnWrite(0) else []
    ensures !IdentifiesFirst(cfg, 0, ticks) && (lost == [] ==> WritesSucceed(cfg, 0, ticks))
  {
    var n := MeaningOf(cfg, hello).interval / 1000 + 1;
    var s := Run(cfg, Init(0), [Greeted(hello, 0)]);
    var s1 := AfterLostIdentify(cfg, hello, lost);
    var rest := LateBeat(cfg, s1, 0, n);
    AfterLateBeat(cfg, s1, 0, n);
    BeforeHelloAppend(cfg, s, 0, lost, rest);
    GreetedThen(cfg, hello, 0, lost + rest);
    ticks := [Greeted(hello, 0)] + (lost + rest);
    PayloadKinds(s1.lastSeq, Null);
  }

  lemma AfterLostIdentify(cfg: Config, hello: Bytes, lost: seq<Tick>) returns (s': State)
    requires MeaningOf(cfg, hello).Hello? && cfg.capacity > 0
    requires lost == if cfg.identify.Some? then LostOnWrite(0) else []
    ensures var s := Run(cfg, Init(0), [Greeted(hello, 0)]);
      s' == Run(cfg, s, lost) && BeforeHello(cfg, s, 0, lost) && End(0, lost) == 0
    ensures !s'.connected && s'.interval == MeaningOf(cfg, hello).interval && s'.hbCount == 0 && s'.ring == []
    ensures WroteIn(s'.log) == [] && (lost == [] ==> NoWriteFailures(s'.log))
  {
    var s := Run(cfg, Init(0), [Greeted(hello, 0)]);
    AfterGreeted(cfg, hello, 0);
    if lost != [] {
      AfterLostOnWrite(cfg, s, 0);
    }
    s' := Run(cfg, s, lost);
  }
}
