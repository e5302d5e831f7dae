/** What the library returns, from every callback and every service call, when the websocket exists, and which
    callbacks its own events make. */
module Returns {
  import opened Prelude
  import opened Json
  import opened Session
  import opened History
  import opened Bookkeeping

  /* ---- the websocket ---- */

  /** The events after which there is no websocket any more. */
  predicate Ends(e: Event) {
    e.ConnectionError? || e.WsiDestroy?
  }

  predicate Survives(events: seq<Event>) {
    forall i :: 0 <= i < |events| ==> !Ends(events[i])
  }

  lemma EventConnected(cfg: Config, s: State, e: Event)
    ensures OnEvent(cfg, s, e).state.connected <==> s.connected && !Ends(e)
  {
  }

  /** The law of connectedness: after any events the websocket exists exactly if it did before and none of them ended
      it. */
  lemma {:induction false} PumpConnected(cfg: Config, s: State, events: seq<Event>)
    ensures Pump(cfg, s, events).connected <==> s.connected && Survives(events)
    decreases |events|
  {
    if events != [] {
      EventConnected(cfg, s, events[0]);
      PumpConnected(cfg, OnEvent(cfg, s, events[0]).state, events[1..]);
      assert Survives(events) <==> !Ends(events[0]) && Survives(events[1..]) by {
        assert forall i :: 0 < i < |events| ==> events[i] == events[1..][i - 1];
      }
    }
  }

  /* ---- the codes of the callbacks ---- */

  /** A callback returns what the user returned, if it called the user itself; what the parser returned, if it handed
      over a message; and otherwise 0, apart from writes. */
  lemma EventCode(cfg: Config, s: State, e: Event)
    ensures var o := OnEvent(cfg, s, e);
      && (e.ConnectionError? || e.Established? ==> o.code == e.userResult)
      && (Completed(s, e).Some? ==>
            var parsed := Parse(cfg, s, Completed(s, e).value, e.answers);
            o == Outcome(parsed.state.(rx := None), parsed.code))
      && (e.Fragment? && Completed(s, e).None? ==> o == Outcome(s.(rx := o.state.rx), 0) && o.state.rx.Some?)
      && (e.WsiDestroy? || e.OtherReason? ==> o.code == 0)
  {
  }

  /** A fragment completes a message exactly if it is final and does not start one over a buffer left over; then the
      buffer is gone. Any other fragment is kept behind what was there, or instead of it if it starts a message. */
  lemma FragmentLaw(cfg: Config, s: State, data: Bytes, first: bool, final: bool, a: Answers)
    ensures var e := Fragment(data, first, final, a);
      var had := if s.rx.None? then [] else s.rx.value;
      var rx := OnEvent(cfg, s, e).state.rx;
      && (Completed(s, e).Some? <==> final && (s.rx.None? || !first))
      && (Completed(s, e).Some? ==>
            Completed(s, e).value == (if s.rx.None? then data else had + StrNCpy(data)) && rx == None)
      && (Completed(s, e).None? ==>
            rx == Some(if first then StrNCpy(data) else had + StrNCpy(data)))
  {
  }

  /** A write succeeds exactly if the socket takes the whole of a text that is not empty. The payload is gone in any
      case, and the callback fails exactly if something waited and was not written. */
  lemma WriteLaw(cfg: Config, s: State, writeResult: int)
    ensures var o := OnEvent(cfg, s, Writeable(writeResult));
      if s.ring == [] then o == Outcome(s, 0)
      else
        var p := s.ring[0];
        var whole := |cfg.dumps(p)| > 0 && writeResult >= |cfg.dumps(p)|;
        && s.ring == [p] + o.state.ring
        && ConsumedIn(o.state.log) == ConsumedIn(s.log) + [p]
        && WroteIn(o.state.log) == WroteIn(s.log) + (if whole then [p] else [])
        && FailedIn(o.state.log) == FailedIn(s.log) + (if whole then [] else [p])
        && o.code == (if whole then 0 else -1)
  {
    if s.ring != [] {
      assert WroteIn(Snoc(s.log, Consumed(s.ring[0]))) == WroteIn(s.log);
      assert FailedIn(Snoc(s.log, Consumed(s.ring[0]))) == FailedIn(s.log);
    }
  }

  /** The payloads that left the ring and were not written whole. */
  function FailedIn(log: Log): seq<Json> {
    match log
    case Empty => []
    case Snoc(init, WriteFailed(p)) => FailedIn(init) + [p]
    case Snoc(init, _) => FailedIn(init)
  }

  /* ---- the callbacks of the websocket's own events ---- */

  /** The user callback an event of the websocket is owed. */
  function SocketCall(e: Event): seq<(int, Option<Json>)> {
    match e
    case Established(_, _) => [(35, None)]
    case ConnectionError(_) => [(36, None)]
    case _ => []
  }

  function SocketCalls(events: seq<Event>): seq<(int, Option<Json>)> {
    if events == [] then [] else SocketCall(events[0]) + SocketCalls(events[1..])
  }

  /** The calls made with the websocket's own reasons. */
  function SocketCallsIn(log: Log): seq<(int, Option<Json>)> {
    match log
    case Empty => []
    case Snoc(init, Called(reason, data, _)) =>
      if reason >= 35 then SocketCallsIn(init) + [(reason, data)] else SocketCallsIn(init)
    case Snoc(init, _) => SocketCallsIn(init)
  }

  /** No call for the websocket's own events, no return, and no request to write between two logs. */
  ghost predicate Silently(cfg: Config, before: Log, after: Log) {
    && (TableReasons(cfg) ==> SocketCallsIn(after) == SocketCallsIn(before)) && ReturnsIn(after) == ReturnsIn(before)
    && Asks(after) == Asks(before)
  }

  lemma ParseSilently(cfg: Config, s: State, msg: Bytes, a: Answers)
    ensures Silently(cfg, s.log, Parse(cfg, s, msg, a).state.log)
  {
    var s1 := Decoding(cfg, s, msg);
    assert Silently(cfg, s.log, s1.log);
    var m := cfg.read(msg).message;
    assert TableReasons(cfg) && (m.Listed? || m.Ready?) ==> m.reason < 35;
  }

  lemma EventCalls(cfg: Config, s: State, e: Event)
    ensures var log := OnEvent(cfg, s, e).state.log;
      && (TableReasons(cfg) ==> SocketCallsIn(log) == SocketCallsIn(s.log) + SocketCall(e))
      && ReturnsIn(log) == ReturnsIn(s.log) && Asks(log) == Asks(s.log)
  {
    if Completed(s, e).Some? {
      ParseSilently(cfg, s, Completed(s, e).value, e.answers);
    } else if e.Writeable? && s.ring != [] {
      assert Silently(cfg, s.log, Snoc(s.log, Consumed(s.ring[0])));
    }
  }

  /** The user hears of every connection made and every connection error, in order, and of no other event of the
      websocket. */
  lemma {:induction false} PumpCalls(cfg: Config, s: State, events: seq<Event>)
    ensures var log := Pump(cfg, s, events).log;
      && (TableReasons(cfg) ==> SocketCallsIn(log) == SocketCallsIn(s.log) + SocketCalls(events))
      && ReturnsIn(log) == ReturnsIn(s.log) && Asks(log) == Asks(s.log)
    decreases |events|
  {
    if events != [] {
      EventCalls(cfg, s, events[0]);
      PumpCalls(cfg, OnEvent(cfg, s, events[0]).state, events[1..]);
    }
  }

  /* ---- the codes of the service calls ---- */

  /** The codes in the log, in order. */
  function ReturnsIn(log: Log): seq<int> {
    match log
    case Empty => []
    case Snoc(init, Returned(code)) => ReturnsIn(init) + [code]
    case Snoc(init, _) => ReturnsIn(init)
  }

  /** How often a writable callback was asked for. */
  function Asks(log: Log): nat {
    match log
    case Empty => 0
    case Snoc(init, WriteAsked) => Asks(init) + 1
    case Snoc(init, _) => Asks(init)
  }

  /** An attempt to connect that leaves no websocket. */
  predicate Fails(attempt: Connect) {
    attempt.Started? ==> !Survives(attempt.events)
  }

  predicate TimerUp(s: State, now: Secs) {
    s.interval != 0 && (now - s.lastHb) % 0x1_0000_0000_0000_0000 > s.interval / 1000
  }

  /** The code of a service call. Without a websocket it is 0 exactly if the attempt to connect leaves one, and 100
      otherwise. With one it is 0 unless the timer is up, and then 220 for a missed ACK and 211 for a full ring. */
  lemma ServiceCode(cfg: Config, s: State, tick: Tick)
    ensures var o := Service(cfg, s, tick);
      if !s.connected then
        && o.code == (if Fails(tick.connect) then 100 else 0)
        && o.state.connected == !Fails(tick.connect)
      else
        && o.code == (if !TimerUp(s, tick.now) then 0 else if s.hbCount >= 1 then 220
                      else if |s.ring| >= cfg.capacity then 211 else 0)
        && o.state.connected == (o.code != 0 || Survives(tick.events))
  {
    if !s.connected && tick.connect.Started? {
      PumpConnected(cfg, s.(connected := true), tick.connect.events);
    } else {
      PumpConnected(cfg, AskWrite(Beat(cfg, s, tick.now, tick.later).state), tick.events);
    }
  }

  lemma BeatSilently(cfg: Config, s: State, now: Secs, later: Secs)
    ensures var b := Beat(cfg, s, now, later);
      && SocketCallsIn(b.state.log) == SocketCallsIn(s.log) && Asks(b.state.log) == Asks(s.log)
      && ReturnsIn(b.state.log) == ReturnsIn(s.log) + (if b.code == 0 then [] else [b.code])
      && (b.code == 0 ==> (b.state.ring != [] <==> s.ring != [] || TimerUp(s, now)))
  {
    var refused := Note(s, Refused(Heartbeat(s.lastSeq)));
    assert Silently(cfg, s.log, refused.log);
  }

  /** A service call leaves its code as the last thing in the log, and asks for a writable callback exactly if it goes
      on to pump events and something waits: what waited before, or the heartbeat just queued. */
  lemma ServiceLog(cfg: Config, s: State, tick: Tick)
    ensures var o := Service(cfg, s, tick);
      && ReturnsIn(o.state.log) == ReturnsIn(s.log) + [o.code]
      && (TableReasons(cfg) ==>
            SocketCallsIn(o.state.log) == SocketCallsIn(s.log) + SocketCalls(Played(cfg, s, tick)))
      && Asks(o.state.log) == Asks(s.log)
           + if s.connected && o.code == 0 && (s.ring != [] || TimerUp(s, tick.now)) then 1 else 0
  {
    if !s.connected {
      if tick.connect.Started? {
        PumpCalls(cfg, s.(connected := true), tick.connect.events);
      }
    } else {
      var b := Beat(cfg, s, tick.now, tick.later);
      BeatSilently(cfg, s, tick.now, tick.later);
      if b.code == 0 {
        PumpCalls(cfg, AskWrite(b.state), tick.events);
      }
    }
  }

  /** The codes in the log of a run are the codes its service calls returned, in order. */
  lemma {:induction false} ReturnsAreCodes(cfg: Config, s: State, ticks: seq<Tick>)
    ensures ReturnsIn(Run(cfg, s, ticks).log) == ReturnsIn(s.log) + Codes(cfg, s, ticks)
    decreases |ticks|
  {
    if ticks != [] {
      ServiceLog(cfg, s, ticks[0]);
      ReturnsAreCodes(cfg, Service(cfg, s, ticks[0]).state, ticks[1..]);
    }
  }

  /** All the events of a run. */
  function EventsPlayed(cfg: Config, s: State, ticks: seq<Tick>): seq<Event>
    decreases |ticks|
  {
    if ticks == [] then []
    else Played(cfg, s, ticks[0]) + EventsPlayed(cfg, Service(cfg, s, ticks[0]).state, ticks[1..])
  }

  lemma {:induction false} SocketCallsAppend(a: seq<Event>, b: seq<Event>)
    ensures SocketCalls(a + b) == SocketCalls(a) + SocketCalls(b)
  {
    if a == [] {
      assert a + b == b;
    } else {
      assert (a + b)[1..] == a[1..] + b;
      SocketCallsAppend(a[1..], b);
    }
  }

  lemma Regroup<T>(a: seq<T>, b: seq<T>, c: seq<T>)
    ensures a + b + c == a + (b + c)
  {
  }

  /** Over a whole run, the user hears of every connection made and every connection error, in order, once each. */
  lemma {:induction false} ConnectionsAreReported(cfg: Config, s: State, ticks: seq<Tick>)
    requires TableReasons(cfg)
    ensures SocketCallsIn(Run(cfg, s, ticks).log) == SocketCallsIn(s.log) + SocketCalls(EventsPlayed(cfg, s, ticks))
    decreases |ticks|
  {
    if ticks != [] {
      var s1 := Service(cfg, s, ticks[0]).state;
      var played, rest := Played(cfg, s, ticks[0]), EventsPlayed(cfg, s1, ticks[1..]);
      ServiceLog(cfg, s, ticks[0]);
      ConnectionsAreReported(cfg, s1, ticks[1..]);
      SocketCallsAppend(played, rest);
      assert EventsPlayed(cfg, s, ticks) == played + rest;
      Regroup(SocketCallsIn(s.log), SocketCalls(played), SocketCalls(rest));
    }
  }

  /** Without a websocket every service call attempts to connect: as long as all attempts fail, every call returns 100,
      and the first one that succeeds returns 0 and leaves the context connected. */
  lemma {:induction false} RetriesUntilConnected(cfg: Config, s: State, ticks: seq<Tick>, last: Tick)
    requires !s.connected && (forall i :: 0 <= i < |ticks| ==> Fails(ticks[i].connect)) && !Fails(last.connect)
    ensures forall i :: 0 <= i < |ticks| ==> Codes(cfg, s, ticks)[i] == 100
    ensures var s1 := Run(cfg, s, ticks);
      !s1.connected && Service(cfg, s1, last).code == 0 && Service(cfg, s1, last).state.connected
    decreases |ticks|
  {
    if ticks == [] {
      ServiceCode(cfg, s, last);
    } else {
      ServiceCode(cfg, s, ticks[0]);
      RetriesUntilConnected(cfg, Service(cfg, s, ticks[0]).state, ticks[1..], last);
    }
  }

  /** After any run: the last code of a run says whether there is a websocket, unless the websocket went while events
      were pumped. */
  lemma CodeTellsConnection(cfg: Config, s: State, ticks: seq<Tick>, tick: Tick)
    ensures var before := Run(cfg, s, ticks); var o := Service(cfg, before, tick);
      && (o.code == 100 ==> !o.state.connected)
      && (o.code == 220 || o.code == 211 ==> o.state.connected)
      && (o.code == 0 ==> (o.state.connected <==> Survives(Played(cfg, before, tick))))
      && (o.code == 0 || o.code == 100 || o.code == 211 || o.code == 220)
  {
    ServiceCode(cfg, Run(cfg, s, ticks), tick);
  }
}
