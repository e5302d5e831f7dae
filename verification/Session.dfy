/** The gateway session as a state machine: what each entry point of the library does to the value of
    an `ld_context`, together with a log of everything that crosses the library's boundary. */
module Session {
  import opened Prelude
  import opened Json
  import opened Envelope
  import opened Dispatch

  const LDS_OK: int := 0
  const LDS_ERROR: int := 1
  const LDS_CONNECTION_ERR: int := 100
  const LDS_CANTFIT_PAYLOAD_ERR: int := 210
  const LDS_CANTFIT_HEARTBEAT_ERR: int := 211
  const LDS_ACK_MISSED: int := 220
  const LDS_DISPATCH_TYPE_ERR: int := 320

  /** What crosses the boundary between the library and its surroundings. */
  datatype Obs =
    | Delivered(msg: Bytes)                      // the payload parser was handed a message
    | Accepted(p: Json)                          // the transmit ring took a payload
    | Refused(p: Json)                           // the transmit ring had no room for it
    | WriteAsked                                 // a writable callback was asked for
    | Consumed(p: Json)                          // a payload left the ring
    | Wrote(p: Json)                             // the socket took its whole text
    | WriteFailed(p: Json)                       // the socket took none or a part of it
    | Called(reason: int, data: Option<Json>, seen: Option<string>)
                                                 // the user callback was called, and found this session id
    | Returned(code: int)                        // ld_service returned

  /** The log, oldest observation innermost. */
  datatype Log = Empty | Snoc(init: Log, last: Obs)

  /** The surroundings that stay the same: how message texts read (JSON text to the decoder's reading),
      how payloads are written as text, the ring's capacity, and the data of the IDENTIFY payload, which
      is missing when no bot token was configured. Everything below holds for every reader and writer. */
  datatype Config = Config(read: Bytes -> Reading, dumps: Json -> string, capacity: nat, identify: Option<Json>)

  datatype State = State(connected: bool, interval: nat, lastSeq: int, lastHb: Secs, hbCount: int,
                         ring: seq<Json>, rx: Option<Bytes>, session: Option<string>, log: Log)

  function Init(now: Secs): State {
    State(false, 0, 0, now, 0, [], None, None, Empty)
  }

  /** What the surroundings answer while a message is parsed: the clock, the user callback's result,
      and what the RESUME stub makes of its uninitialised IDENTIFY structure. */
  datatype Answers = Answers(now: Secs, userResult: int, staleIdentify: Option<Json>)

  /** Events of the websocket. `Fragment` carries the first-fragment and final-fragment flags,
      `Writeable` the result of the write it may lead to. */
  datatype Event =
    | ConnectionError(userResult: int)
    | Established(now: Secs, userResult: int)
    | Fragment(data: Bytes, first: bool, final: bool, answers: Answers)
    | Writeable(writeResult: int)
    | WsiDestroy
    | OtherReason

  /** An attempt to connect either fails before the websocket exists or plays some events. */
  datatype Connect = Unreachable | Started(events: seq<Event>)

  /** One call of `ld_service`: its two clock readings and what the surroundings do in it. */
  datatype Tick = Tick(now: Secs, later: Secs, connect: Connect, events: seq<Event>)

  datatype Outcome = Outcome(state: State, code: int)

  function Note(s: State, o: Obs): State {
    s.(log := Snoc(s.log, o))
  }

  /** The user callback is handed the context, so it sees the session id of that moment. */
  function CallUser(s: State, reason: int, data: Option<Json>): State {
    Note(s, Called(reason, data, s.session))
  }

  /* ---- payloads ---- */

  function Heartbeat(lastSeq: int): Json {
    Object(Fields(Integer(OPCODE_HEARTBEAT), Some(Integer(lastSeq)), None, None))
  }

  function Identify(data: Json): Json {
    Object(Fields(Integer(OPCODE_IDENTIFY), Some(data), None, None))
  }

  /** `lws_ring_insert` of one payload. */
  function Insert(cfg: Config, s: State, p: Json): State {
    if |s.ring| < cfg.capacity then Note(s.(ring := s.ring + [p]), Accepted(p)) else Note(s, Refused(p))
  }

  /* ---- receiving ---- */

  /** `strncpy` of |text| characters: everything after the first NUL comes out as NUL. */
  function StrNCpy(text: Bytes): (copy: Bytes)
    ensures |copy| == |text|
  {
    if text == [] then []
    else if text[0] == 0 then seq(|text|, _ => 0)
    else [text[0]] + StrNCpy(text[1..])
  }

  lemma {:induction false} StrNCpyParts(text: Bytes, n: nat)
    requires n <= |text| && forall i :: 0 <= i < n ==> text[i] != 0
    requires n < |text| ==> text[n] == 0
    ensures StrNCpy(text) == text[..n] + seq(|text| - n, _ => 0)
  {
    if n > 0 {
      StrNCpyParts(text[1..], n - 1);
      assert text[..n] == [text[0]] + text[1..][..n - 1];
    }
  }

  /** `ld_gateway_dispatch_parser`, with `ld_dispatch_ready` for READY. */
  function Announce(s: State, m: Message, a: Answers): Outcome {
    match m
    case Untyped => Outcome(s, LDS_DISPATCH_TYPE_ERR)
    case Ready(reason, data) =>
      var id := FirstValue(EntriesOf(data), SESSION_ID);
      if id.None? then Outcome(s, LDS_ERROR)
      else Outcome(CallUser(s.(session := StringValue(id)), reason, data), a.userResult)
    case Listed(reason, data) => Outcome(CallUser(s, reason, data), a.userResult)
    case _ => Outcome(s, LDS_OK)
  }

  /** The HELLO branch of the payload parser. */
  function Greet(cfg: Config, s: State, interval: nat, a: Answers): Outcome {
    var body := if s.session.None? then cfg.identify else a.staleIdentify;
    var s1 := s.(interval := interval);
    if body.None? then Outcome(s1, 1)
    else Outcome(Insert(cfg, s1, Identify(body.value)).(lastHb := a.now), LDS_OK)
  }

  /** The switch of `ld_gateway_payload_parser`. */
  function Obey(cfg: Config, s: State, m: Message, a: Answers): Outcome {
    match m
    case Rejected => Outcome(s, 1)
    case Ignored => Outcome(s, LDS_OK)
    case Invalidate => Outcome(s.(session := None, lastSeq := 0), LDS_OK)
    case Hello(interval) => Greet(cfg, s, interval, a)
    case Ack => Outcome(s.(hbCount := s.hbCount - 1), LDS_OK)
    case dispatch => Announce(s, dispatch, a)
  }

  /** The state in which a message is obeyed: the decoder has stored its sequence number. */
  function Decoding(cfg: Config, s: State, msg: Bytes): State {
    Note(s, Delivered(msg)).(lastSeq := SeqAfter(cfg.read(msg).s, s.lastSeq))
  }

  /** `ld_gateway_payload_parser`. */
  function Parse(cfg: Config, s: State, msg: Bytes, a: Answers): Outcome {
    Obey(cfg, Decoding(cfg, s, msg), cfg.read(msg).message, a)
  }

  /** Obeying a message neither reads nor writes the receive buffer. */
  lemma ParseIgnoresRx(cfg: Config, s: State, msg: Bytes, a: Answers, rx: Option<Bytes>)
    ensures var o := Parse(cfg, s, msg, a); Parse(cfg, s.(rx := rx), msg, a) == o.(state := o.state.(rx := rx))
  {
    assert Decoding(cfg, s.(rx := rx), msg) == Decoding(cfg, s, msg).(rx := rx);
  }

  /** The RECEIVE callback. */
  function Receive(cfg: Config, s: State, data: Bytes, first: bool, final: bool, a: Answers): Outcome {
    if s.rx.None? && final then
      var o := Parse(cfg, s, data, a);
      o.(state := o.state.(rx := None))
    else if first then
      Outcome(s.(rx := Some(StrNCpy(data))), LDS_OK)
    else
      var text := (if s.rx.None? then [] else s.rx.value) + StrNCpy(data);
      if final then
        var o := Parse(cfg, s, text, a);
        o.(state := o.state.(rx := None))
      else
        Outcome(s.(rx := Some(text)), LDS_OK)
  }

  /* ---- sending ---- */

  /** The WRITEABLE callback. */
  function Send(cfg: Config, s: State, writeResult: int): Outcome {
    if s.ring == [] then Outcome(s, LDS_OK)
    else
      var p := s.ring[0];
      var s1 := Note(s.(ring := s.ring[1..]), Consumed(p));
      if |cfg.dumps(p)| == 0 || writeResult < |cfg.dumps(p)| then Outcome(Note(s1, WriteFailed(p)), -1)
      else Outcome(Note(s1, Wrote(p)), LDS_OK)
  }

  /** `ld_lws_callback`. */
  function OnEvent(cfg: Config, s: State, e: Event): Outcome {
    match e
    case ConnectionError(r) =>
      Outcome(CallUser(s, CALLBACK_WS_CONNECTION_ERROR, None).(connected := false), r)
    case Established(now, r) =>
      Outcome(CallUser(s, CALLBACK_WS_ESTABLISHED, None).(lastHb := now), r)
    case Fragment(data, first, final, a) => Receive(cfg, s, data, first, final, a)
    case Writeable(writeResult) => Send(cfg, s, writeResult)
    case WsiDestroy => Outcome(s.(connected := false), LDS_OK)
    case OtherReason => Outcome(s, LDS_OK)
  }

  /** The message an event completes, if any. */
  function Completed(s: State, e: Event): Option<Bytes> {
    if !e.Fragment? || !e.final then None
    else if s.rx.None? then Some(e.data)
    else if e.first then None
    else Some(s.rx.value + StrNCpy(e.data))
  }

  /** The event pump. */
  function Pump(cfg: Config, s: State, events: seq<Event>): State
    decreases |events|
  {
    if events == [] then s else Pump(cfg, OnEvent(cfg, s, events[0]).state, events[1..])
  }

  lemma {:induction false} PumpAppend(cfg: Config, s: State, a: seq<Event>, b: seq<Event>)
    ensures Pump(cfg, s, a + b) == Pump(cfg, Pump(cfg, s, a), b)
    decreases |a|
  {
    if a == [] {
      assert a + b == b;
    } else {
      assert (a + b)[1..] == a[1..] + b;
      PumpAppend(cfg, OnEvent(cfg, s, a[0]).state, a[1..], b);
    }
  }

  /* ---- the clock tick ---- */

  /** Whether the heartbeat timer is up. */
  predicate Due(s: State, now: Secs) {
    SubUlong(now, s.lastHb) > s.interval / 1000 && s.interval != 0
  }

  /** The heartbeat check of `ld_service`. */
  function Beat(cfg: Config, s: State, now: Secs, later: Secs): Outcome {
    var hb := Heartbeat(s.lastSeq);
    if !Due(s, now) then Outcome(s, LDS_OK)
    else if s.hbCount + 1 > 1 then
      Outcome(Note(s.(hbCount := s.hbCount + 1), Returned(LDS_ACK_MISSED)), LDS_ACK_MISSED)
    else if |s.ring| >= cfg.capacity then
      Outcome(Note(Note(s, Refused(hb)), Returned(LDS_CANTFIT_HEARTBEAT_ERR)), LDS_CANTFIT_HEARTBEAT_ERR)
    else
      Outcome(Insert(cfg, s, hb).(hbCount := s.hbCount + 1, lastHb := later), LDS_OK)
  }

  /** Ask for a writable callback if something waits. */
  function AskWrite(s: State): State {
    if s.ring == [] then s else Note(s, WriteAsked)
  }

  /** `ld_service`. */
  function Service(cfg: Config, s: State, tick: Tick): Outcome {
    if !s.connected then
      if tick.connect.Unreachable? then
        Outcome(Note(s, Returned(LDS_CONNECTION_ERR)), LDS_CONNECTION_ERR)
      else
        var s1 := Pump(cfg, s.(connected := true), tick.connect.events);
        var code := if s1.connected then LDS_OK else LDS_CONNECTION_ERR;
        Outcome(Note(s1, Returned(code)), code)
    else
      var b := Beat(cfg, s, tick.now, tick.later);
      if b.code != LDS_OK then b
      else Outcome(Note(Pump(cfg, AskWrite(b.state), tick.events), Returned(LDS_OK)), LDS_OK)
  }

  /** The events a service call really plays: none if it fails before it pumps. */
  function Played(cfg: Config, s: State, tick: Tick): seq<Event> {
    if !s.connected then (if tick.connect.Started? then tick.connect.events else [])
    else if Beat(cfg, s, tick.now, tick.later).code == LDS_OK then tick.events
    else []
  }

  /** The state in which it starts to play them. */
  function PumpStart(cfg: Config, s: State, tick: Tick): State {
    if !s.connected then s.(connected := tick.connect.Started?)
    else
      var b := Beat(cfg, s, tick.now, tick.later);
      if b.code == LDS_OK then AskWrite(b.state) else b.state
  }

  /** A whole run: the application calls `ld_service` again and again. */
  function Run(cfg: Config, s: State, ticks: seq<Tick>): State
    decreases |ticks|
  {
    if ticks == [] then s else Run(cfg, Service(cfg, s, ticks[0]).state, ticks[1..])
  }

  /** The codes a run of `ld_service` calls returns. */
  function Codes(cfg: Config, s: State, ticks: seq<Tick>): (codes: seq<int>)
    ensures |codes| == |ticks|
    decreases |ticks|
  {
    if ticks == [] then []
    else [Service(cfg, s, ticks[0]).code] + Codes(cfg, Service(cfg, s, ticks[0]).state, ticks[1..])
  }

  /** Two runs in a row are one run. */
  lemma {:induction false} RunAppend(cfg: Config, s: State, a: seq<Tick>, b: seq<Tick>)
    ensures Run(cfg, s, a + b) == Run(cfg, Run(cfg, s, a), b)
    decreases |a|
  {
    if a == [] {
      assert a + b == b;
    } else {
      assert (a + b)[1..] == a[1..] + b;
      RunAppend(cfg, Service(cfg, s, a[0]).state, a[1..], b);
    }
  }
}
