/** How far the promised order of the first payloads goes: on the first connection, without a token, and on later
    connections. */
module Opening {
  import opened Prelude
  import opened Json
  import opened Envelope
  import opened Dispatch
  import opened Session
  import opened History
  import opened Queue
  import opened Runs
  import opened Timer
  import opened Silence
  import opened Websocket

  /* ---- a reconnection before its HELLO ---- */

  /** Whether a service call at time n queues a heartbeat. */
  predicate BeatsAt(cfg: Config, s: State, n: Secs) {
    Due(s, n) && s.hbCount <= 0 && |s.ring| < cfg.capacity
  }

  /** The traffic of a heartbeat check. */
  lemma BeatTraffic(cfg: Config, s: State, n: Secs)
    ensures var b := Beat(cfg, s, n, n).state;
      var beat := if BeatsAt(cfg, s, n) then [Heartbeat(s.lastSeq)] else [];
      var missed := if Due(s, n) && s.hbCount >= 1 then 1 else 0;
      && b == s.(ring := s.ring + beat, hbCount := s.hbCount + |beat| + missed,
                 lastHb := if BeatsAt(cfg, s, n) then n else s.lastHb, log := b.log)
      && DeliveredIn(b.log) == DeliveredIn(s.log) && ConsumedIn(b.log) == ConsumedIn(s.log)
      && AcceptedIn(b.log) == AcceptedIn(s.log) + beat && BeatsAccepted(b.log) == BeatsAccepted(s.log) + |beat|
      && WroteIn(b.log) == WroteIn(s.log) && BeatsWrote(b.log) == BeatsWrote(s.log)
      && Misses(b.log) == Misses(s.log) + missed && NoWriteFailures(b.log) == NoWriteFailures(s.log)
  {
    PayloadKinds(s.lastSeq, Null);
    var b := Beat(cfg, s, n, n).state;
    if BeatsAt(cfg, s, n) {
      assert b.log == Snoc(s.log, Accepted(Heartbeat(s.lastSeq)));
    } else if Due(s, n) && s.hbCount >= 1 {
      assert b.log == Snoc(s.log, Returned(LDS_ACK_MISSED));
    } else if Due(s, n) {
      var refused := Snoc(s.log, Refused(Heartbeat(s.lastSeq)));
      assert SameTraffic(s.log, refused);
      assert b.log == Snoc(refused, Returned(LDS_CANTFIT_HEARTBEAT_ERR));
    } else {
      assert b == s;
    }
  }

  /** A service call without events. */
  lemma LoneTick(cfg: Config, s: State, n: Secs)
    requires s.connected
    ensures var s' := Service(cfg, s, Tick(n, n, Unreachable, [])).state; var b := Beat(cfg, s, n, n).state;
      s' == b.(log := s'.log) && SameTraffic(b.log, s'.log)
  {
    var b := Beat(cfg, s, n, n).state;
    assert SameTraffic(b.log, AskWrite(b).log);
  }

  /** The connection is established at time t. */
  function Reconnect(t: Secs): Tick {
    Tick(t, t, Started([Established(t, 0)]), [])
  }

  lemma AfterReconnect(cfg: Config, s: State, t: Secs)
    requires !s.connected
    ensures var s' := Service(cfg, s, Reconnect(t)).state;
      s' == s.(connected := true, lastHb := t, log := s'.log) && SameTraffic(s.log, s'.log)
    ensures Closing(cfg, PumpStart(cfg, s, Reconnect(t)), Played(cfg, s, Reconnect(t)))
    ensures TickAdvances(t, Reconnect(t)) && TickEnd(Reconnect(t)) == t
  {
    var s0 := s.(connected := true);
    PumpOne(cfg, s0, Established(t, 0));
    assert SameTraffic(s.log, OnEvent(cfg, s0, Established(t, 0)).state.log);
    assert [Established(t, 0)][1..] == [];
    OneReading(t, Established(t, 0));
  }

  /** A service call at time n, before the gateway's HELLO. */
  function Reconnection(t: Secs, n: Secs): seq<Tick> {
    [Reconnect(t), Tick(n, n, Unreachable, [])]
  }

  lemma AfterReconnection(cfg: Config, s: State, t: Secs, n: Secs)
    requires !s.connected && t <= n
    ensures var s' := Run(cfg, s, Reconnection(t, n));
      var due := s.interval != 0 && n - t > s.interval / 1000;
      var beat := if due && s.hbCount <= 0 && |s.ring| < cfg.capacity then [Heartbeat(s.lastSeq)] else [];
      var missed := if due && s.hbCount >= 1 then 1 else 0;
      && s' == s.(connected := true, ring := s.ring + beat, hbCount := s.hbCount + |beat| + missed,
                  lastHb := if beat == [] then t else n, log := s'.log)
      && DeliveredIn(s'.log) == DeliveredIn(s.log) && ConsumedIn(s'.log) == ConsumedIn(s.log)
      && AcceptedIn(s'.log) == AcceptedIn(s.log) + beat
      && BeatsAccepted(s'.log) == BeatsAccepted(s.log) + |beat|
      && WroteIn(s'.log) == WroteIn(s.log)
      && Misses(s'.log) == Misses(s.log) + missed
    ensures ClosingRun(cfg, s, Reconnection(t, n))
    ensures Advances(t, Reconnection(t, n)) && End(t, Reconnection(t, n)) == n
  {
    var a, b := Reconnect(t), Tick(n, n, Unreachable, []);
    var s1 := Service(cfg, s, a).state;
    AfterReconnect(cfg, s, t);
    TwoTicks(cfg, s, a, b);
    TwoTicksClose(cfg, s, a, b);
    SubUlongExact(n, t);
    BeatTraffic(cfg, s1, n);
    LoneTick(cfg, s1, n);
    TwoTicksAdvance(t, a, b);
  }

  /** A connection that is lost on its first write: room for one payload. */
  function LostOnWrite(t: Secs): seq<Tick> {
    [Reconnect(t), Tick(t, t, Unreachable, [Writeable(-1), WsiDestroy])]
  }

  lemma AfterLostOnWrite(cfg: Config, s: State, t: Secs)
    requires !s.connected && s.ring != []
    ensures var s' := Run(cfg, s, LostOnWrite(t));
      && s' == s.(lastHb := t, ring := s.ring[1..], log := s'.log)
      && DeliveredIn(s'.log) == DeliveredIn(s.log) && BeatsAccepted(s'.log) == BeatsAccepted(s.log)
      && WroteIn(s'.log) == WroteIn(s.log) && Misses(s'.log) == Misses(s.log)
    ensures ClosingRun(cfg, s, LostOnWrite(t)) && Advances(t, LostOnWrite(t)) && End(t, LostOnWrite(t)) == t
  {
    var events := [Writeable(-1), WsiDestroy];
    var a, b := Reconnect(t), Tick(t, t, Unreachable, events);
    var s1 := Service(cfg, s, a).state;
    AfterReconnect(cfg, s, t);
    SubUlongExact(t, t);
    var s2 := AskWrite(s1);
    var s3 := OnEvent(cfg, s2, events[0]).state;
    PumpTwo(cfg, s2, events[0], events[1]);
    TwoTicks(cfg, s, a, b);
    assert events[1..] == [WsiDestroy] && [WsiDestroy][1..] == [];
    assert Closing(cfg, s3, events[1..]);
    TwoTicksClose(cfg, s, a, b);
    assert SameTraffic(s1.log, s2.log);
    LostPayload(s2, s.ring[0]);
    ThreeReadings(t, events[0], events[1], OtherReason);
    TwoTicksAdvance(t, a, b);
  }

  /** A payload that leaves the ring and is not written whole. */
  lemma LostPayload(s: State, p: Json)
    ensures var log := Snoc(Snoc(s.log, Consumed(p)), WriteFailed(p));
      && DeliveredIn(log) == DeliveredIn(s.log) && BeatsAccepted(log) == BeatsAccepted(s.log)
      && WroteIn(log) == WroteIn(s.log) && Misses(log) == Misses(s.log)
  {
  }

  /** The connection ends at time n. */
  function Drop(n: Secs): Tick {
    Tick(n, n, Unreachable, [WsiDestroy])
  }

  lemma AfterDrop(cfg: Config, s: State, n: Secs)
    requires s.connected && s.lastHb == n
    ensures var s' := Run(cfg, s, [Drop(n)]); s' == s.(connected := false, log := s'.log) && SameTraffic(s.log, s'.log)
    ensures ClosingRun(cfg, s, [Drop(n)]) && Advances(n, [Drop(n)]) && End(n, [Drop(n)]) == n
  {
    SubUlongExact(n, n);
    assert SameTraffic(s.log, AskWrite(s).log);
    PumpOne(cfg, AskWrite(s), WsiDestroy);
    assert [WsiDestroy][1..] == [];
    OneTick(cfg, s, Drop(n));
    OneReading(n, WsiDestroy);
    assert TickAdvances(n, Drop(n)) && TickEnd(Drop(n)) == n;
    assert [Drop(n)][1..] == [];
    assert Advances(n, []) && End(n, []) == n;
  }

  /* ---- what may happen before the HELLO of a later connection ---- */

  /** From time t on, with a clock and a libwebsockets that behave, a run in which nothing is delivered. */
  ghost predicate BeforeHello(cfg: Config, s: State, t: Secs, ticks: seq<Tick>) {
    Advances(t, ticks) && ClosingRun(cfg, s, ticks) && DeliveredIn(Run(cfg, s, ticks).log) == DeliveredIn(s.log)
  }

  /** A stretch before HELLO followed by another one. */
  lemma BeforeHelloAppend(cfg: Config, s: State, t: Secs, a: seq<Tick>, b: seq<Tick>)
    requires BeforeHello(cfg, s, t, a) && BeforeHello(cfg, Run(cfg, s, a), End(t, a), b)
    ensures BeforeHello(cfg, s, t, a + b) && Run(cfg, s, a + b) == Run(cfg, Run(cfg, s, a), b)
    ensures End(t, a + b) == End(End(t, a), b)
  {
    RunAppend(cfg, s, a, b);
    ClosingRunAppend(cfg, s, a, b);
    AdvancesAppend(t, a, b);
  }

  /** If the interval is 0, a heartbeat is unacknowledged, or the ring has no room at all, then no run whatsoever
      queues a heartbeat before the next message. */
  lemma NoBeatBeforeHello(cfg: Config, s: State, ticks: seq<Tick>)
    requires DeliveredIn(Run(cfg, s, ticks).log) == DeliveredIn(s.log)
    requires s.interval == 0 || s.hbCount > 0 || cfg.capacity == 0
    ensures BeatsAccepted(Run(cfg, s, ticks).log) == BeatsAccepted(s.log)
  {
    RunIsSilent(cfg, s, ticks);
  }

  /** For a context between two connections: a heartbeat can be queued before the next HELLO exactly if the interval
      of an earlier connection is still set, no heartbeat is unacknowledged, and the ring has room at all. */
  lemma BeatBeforeHelloIff(cfg: Config, start: Secs, before: seq<Tick>, t: Secs)
    requires var s := Run(cfg, Init(start), before); !s.connected && t + s.interval / 1000 + 1 < TWO_64
    ensures var s := Run(cfg, Init(start), before);
      (exists ticks :: BeforeHello(cfg, s, t, ticks) && BeatsAccepted(Run(cfg, s, ticks).log) > BeatsAccepted(s.log))
      <==> s.interval != 0 && s.hbCount <= 0 && cfg.capacity > 0
  {
    var s := Run(cfg, Init(start), before);
    ReachableInv(cfg, start, before);
    if ticks :| BeforeHello(cfg, s, t, ticks) && BeatsAccepted(Run(cfg, s, ticks).log) > BeatsAccepted(s.log) {
      if s.interval == 0 || s.hbCount > 0 || cfg.capacity == 0 {
        NoBeatBeforeHello(cfg, s, ticks);
      }
    }
    if s.interval != 0 && s.hbCount <= 0 && cfg.capacity > 0 {
      EarlyBeatWitness(cfg, s, t);
    }
  }

  lemma EarlyBeatWitness(cfg: Config, s: State, t: Secs)
    requires !s.connected && t + s.interval / 1000 + 1 < TWO_64 && |s.ring| <= cfg.capacity
    requires s.interval != 0 && s.hbCount <= 0 && cfg.capacity > 0
    ensures exists ticks ::
      BeforeHello(cfg, s, t, ticks) && BeatsAccepted(Run(cfg, s, ticks).log) > BeatsAccepted(s.log)
  {
    var n := t + s.interval / 1000 + 1;
    if |s.ring| < cfg.capacity {
      AfterReconnection(cfg, s, t, n);
      assert BeforeHello(cfg, s, t, Reconnection(t, n));
    } else {
      var s1 := Run(cfg, s, LostOnWrite(t));
      AfterLostOnWrite(cfg, s, t);
      AfterReconnection(cfg, s1, t, n);
      BeforeHelloAppend(cfg, s, t, LostOnWrite(t), Reconnection(t, n));
      assert BeforeHello(cfg, s, t, LostOnWrite(t) + Reconnection(t, n));
    }
  }

  /** And a missed ACK can be reported before the next HELLO, although nothing was queued or sent in between,
      exactly if the interval is still set and a heartbeat of an earlier connection (or a miss) is unacknowledged:
      the counter survives the reconnection. If not, no run reports one without queueing a heartbeat first. */
  lemma SpuriousMissIff(cfg: Config, start: Secs, before: seq<Tick>, t: Secs)
    requires var s := Run(cfg, Init(start), before); !s.connected && t + s.interval / 1000 + 1 < TWO_64
    ensures var s := Run(cfg, Init(start), before);
      (exists ticks :: BeforeHello(cfg, s, t, ticks) && SpuriousMiss(s, Run(cfg, s, ticks)))
      <==> s.interval != 0 && BeatsAccepted(s.log) + Misses(s.log) > Acks(cfg, s.log)
  {
    var s := Run(cfg, Init(start), before);
    ReachableInv(cfg, start, before);
    if ticks :| BeforeHello(cfg, s, t, ticks) && SpuriousMiss(s, Run(cfg, s, ticks)) {
      RunIsSilent(cfg, s, ticks);
    }
    if s.interval != 0 && s.hbCount >= 1 {
      var n := t + s.interval / 1000 + 1;
      AfterReconnection(cfg, s, t, n);
      assert BeforeHello(cfg, s, t, Reconnection(t, n));
    }
  }

  /** A miss reported although no heartbeat was queued and nothing left the ring in between. */
  ghost predicate SpuriousMiss(s: State, s': State) {
    && Misses(s'.log) > Misses(s.log)
    && BeatsAccepted(s'.log) == BeatsAccepted(s.log) && ConsumedIn(s'.log) == ConsumedIn(s.log)
  }

  /** How many seconds it takes until nothing but reconnections and the timer have brought a miss about. */
  function Patience(s: State): nat {
    (if s.hbCount >= 1 then 1 else 2 - s.hbCount) * (s.interval / 1000 + 1)
  }

  /** The detector counts what was queued, not what was sent. So before the next HELLO a missed ACK can be reported
      although nothing at all was written in between, exactly if the interval is still set and either a heartbeat is
      unacknowledged or the ring has room for one. */
  lemma UnsentMissIff(cfg: Config, start: Secs, before: seq<Tick>, t: Secs)
    requires var s := Run(cfg, Init(start), before); !s.connected && t + Patience(s) < TWO_64
    ensures var s := Run(cfg, Init(start), before);
      (exists ticks :: BeforeHello(cfg, s, t, ticks) && UnsentMiss(s, Run(cfg, s, ticks)))
      <==> s.interval != 0 && (s.hbCount >= 1 || cfg.capacity > 0)
  {
    var s := Run(cfg, Init(start), before);
    ReachableInv(cfg, start, before);
    if ticks :| BeforeHello(cfg, s, t, ticks) && UnsentMiss(s, Run(cfg, s, ticks)) {
      RunIsSilent(cfg, s, ticks);
    }
    if s.interval != 0 && (s.hbCount >= 1 || cfg.capacity > 0) {
      UnsentMissWitness(cfg, s, t);
    }
  }

  /** A miss reported although nothing was written in between. */
  ghost predicate UnsentMiss(s: State, s': State) {
    Misses(s'.log) > Misses(s.log) && WroteIn(s'.log) == WroteIn(s.log)
  }

  lemma {:induction false} UnsentMissWitness(cfg: Config, s: State, t: Secs)
    requires !s.connected && t + Patience(s) < TWO_64 && |s.ring| <= cfg.capacity
    requires s.interval != 0 && (s.hbCount >= 1 || cfg.capacity > 0)
    ensures exists ticks :: BeforeHello(cfg, s, t, ticks) && UnsentMiss(s, Run(cfg, s, ticks))
    decreases if s.hbCount >= 1 then 0 else 1 - s.hbCount
  {
    PatienceStep(s);
    if s.hbCount >= 1 {
      var n := t + s.interval / 1000 + 1;
      AfterReconnection(cfg, s, t, n);
      assert BeforeHello(cfg, s, t, Reconnection(t, n));
    } else {
      var ticks, n := OneMoreUnsent(cfg, s, t);
      var s1 := Run(cfg, s, ticks);
      UnsentMissWitness(cfg, s1, n);
      var rest :| BeforeHello(cfg, s1, n, rest) && UnsentMiss(s1, Run(cfg, s1, rest));
      BeforeHelloAppend(cfg, s, t, ticks, rest);
    }
  }

  lemma PatienceStep(s: State)
    ensures Patience(s) >= s.interval / 1000 + 1
    ensures s.hbCount <= 0 ==> Patience(s) == Patience(s.(hbCount := s.hbCount + 1)) + s.interval / 1000 + 1
  {
    var k, d := if s.hbCount >= 1 then 1 else 2 - s.hbCount, s.interval / 1000 + 1;
    assert k * d == (k - 1) * d + d;
  }

  /** A connection on which the timer queues a heartbeat, nothing is written, and the websocket goes. */
  lemma OneMoreUnsent(cfg: Config, s: State, t: Secs) returns (ticks: seq<Tick>, n: Secs)
    requires !s.connected && |s.ring| <= cfg.capacity && s.interval != 0 && s.hbCount <= 0 && cfg.capacity > 0
    requires t + s.interval / 1000 + 1 < TWO_64
    ensures BeforeHello(cfg, s, t, ticks) && End(t, ticks) == n == t + s.interval / 1000 + 1
    ensures var s' := Run(cfg, s, ticks);
      && !s'.connected && s'.interval == s.interval && s'.hbCount == s.hbCount + 1 && |s'.ring| <= cfg.capacity
      && WroteIn(s'.log) == WroteIn(s.log) && Misses(s'.log) == Misses(s.log)
  {
    n := t + s.interval / 1000 + 1;
    ticks := [];
    var s0 := s;
    if |s.ring| == cfg.capacity {
      AfterLostOnWrite(cfg, s, t);
      ticks, s0 := LostOnWrite(t), Run(cfg, s, LostOnWrite(t));
    }
    AfterReconnection(cfg, s0, t, n);
    BeforeHelloAppend(cfg, s, t, ticks, Reconnection(t, n));
    ticks := ticks + Reconnection(t, n);
    AfterDrop(cfg, Run(cfg, s, ticks), n);
    BeforeHelloAppend(cfg, s, t, ticks, [Drop(n)]);
    ticks := ticks + [Drop(n)];
  }

  /* ---- the first connection ---- */

  /** How often a run starts a connection. */
  function Starts(cfg: Config, s: State, ticks: seq<Tick>): nat
    decreases |ticks|
  {
    if ticks == [] then 0
    else (if !s.connected && ticks[0].connect.Started? then 1 else 0)
         + Starts(cfg, Service(cfg, s, ticks[0]).state, ticks[1..])
  }

  /** If a HELLO opens the run, nothing was accepted; and while the connection lasts, there was no HELLO yet. */
  ghost predicate Unopened(cfg: Config, s: State) {
    HelloOpens(cfg, s.log) ==> AcceptedIn(s.log) == [] && (s.connected ==> Hellos(cfg, s.log) == 0)
  }

  /** The HELLO of a first connection without a token is refused, which ends the connection. */
  lemma TokenlessEvent(cfg: Config, s: State, e: Event)
    requires cfg.identify.None? && Opened(cfg, s) && Unopened(cfg, s)
    requires e.Fragment? ==> s.connected
    ensures var o := OnEvent(cfg, s, e); Unopened(cfg, o.state.(connected := false))
    ensures var o := OnEvent(cfg, s, e); Unopened(cfg, o.state) || (o.code != LDS_OK && o.state.connected)
  {
    if Completed(s, e).Some? {
      TokenlessParse(cfg, s, Completed(s, e).value, e.answers);
    } else {
      EventSilent(cfg, s, e);
      OpensOnlyByMessages(cfg, s, e);
    }
  }

  lemma TokenlessParse(cfg: Config, s: State, msg: Bytes, a: Answers)
    requires cfg.identify.None? && Opened(cfg, s) && Unopened(cfg, s) && s.connected
    ensures var o := Parse(cfg, s, msg, a);
      HelloOpens(cfg, o.state.log) ==> AcceptedIn(o.state.log) == [] && o.code != LDS_OK && o.state.connected
  {
    var s1 := Decoding(cfg, s, msg);
    OpensByMessage(cfg, s1, MeaningOf(cfg, msg), a);
    if HelloOpens(cfg, s1.log) {
      assert HelloOpens(cfg, s.log) && Hellos(cfg, s.log) == 0;
      assert MeaningOf(cfg, msg).Hello? && s1.session.None?;
      assert AcceptedIn(s1.log) == [];
    }
  }

  lemma OpensByMessage(cfg: Config, s: State, m: Message, a: Answers)
    ensures HelloOpens(cfg, Obey(cfg, s, m, a).state.log) == HelloOpens(cfg, s.log)
  {
  }

  lemma OpensOnlyByMessages(cfg: Config, s: State, e: Event)
    requires Completed(s, e).None?
    ensures HelloOpens(cfg, OnEvent(cfg, s, e).state.log) == HelloOpens(cfg, s.log)
    ensures OnEvent(cfg, s, e).state.connected ==> s.connected
  {
    if e.Writeable? && s.ring != [] {
      var s1 := Note(s.(ring := s.ring[1..]), Consumed(s.ring[0]));
      assert HelloOpens(cfg, s1.log) == HelloOpens(cfg, s.log);
    }
  }

  lemma {:induction false} TokenlessPump(cfg: Config, s: State, events: seq<Event>)
    requires cfg.identify.None? && Inv(cfg, s) && Closing(cfg, s, events)
    requires Unopened(cfg, s) || (events != [] && events[0].WsiDestroy? && Unopened(cfg, s.(connected := false)))
    ensures Unopened(cfg, Pump(cfg, s, events))
    decreases |events|
  {
    if events != [] {
      var e, s1 := events[0], OnEvent(cfg, s, events[0]).state;
      EventInv(cfg, s, e);
      if !e.WsiDestroy? {
        TokenlessEvent(cfg, s, e);
      }
      TokenlessPump(cfg, s1, events[1..]);
    }
  }

  lemma TokenlessService(cfg: Config, s: State, tick: Tick)
    requires cfg.identify.None? && Inv(cfg, s) && Unopened(cfg, s)
    requires Closing(cfg, PumpStart(cfg, s, tick), Played(cfg, s, tick))
    requires !s.connected && tick.connect.Started? ==> Hellos(cfg, s.log) == 0
    ensures Unopened(cfg, Service(cfg, s, tick).state)
  {
    var s1 := PumpStart(cfg, s, tick);
    if !s.connected {
      ConnectInv(cfg, s);
      TokenlessPump(cfg, s.(connected := tick.connect.Started?), Played(cfg, s, tick));
    } else {
      var b := Beat(cfg, s, tick.now, tick.later);
      BeatInv(cfg, s, tick.now, tick.later);
      assert HelloOpens(cfg, b.state.log) == HelloOpens(cfg, s.log);
      assert HelloOpens(cfg, s.log) ==> !Due(s, tick.now);
      if b.code == LDS_OK {
        NoteInv(cfg, b.state, WriteAsked);
        assert Unopened(cfg, s1);
        TokenlessPump(cfg, s1, tick.events);
      }
    }
  }

  lemma {:induction false} TokenlessRun(cfg: Config, s: State, ticks: seq<Tick>)
    requires cfg.identify.None? && Inv(cfg, s) && Unopened(cfg, s) && ClosingRun(cfg, s, ticks)
    requires Starts(cfg, s, ticks) == 0 || (Starts(cfg, s, ticks) == 1 && !s.connected && Hellos(cfg, s.log) == 0)
    ensures Unopened(cfg, Run(cfg, s, ticks))
    decreases |ticks|
  {
    if ticks != [] {
      TokenlessService(cfg, s, ticks[0]);
      ServiceInv(cfg, s, ticks[0]);
      TokenlessRun(cfg, Service(cfg, s, ticks[0]).state, ticks[1..]);
    }
  }

  /** Without a token the first connection accepts nothing at all, if a HELLO opens it: the RECEIVE callback fails,
      and that ends the connection. */
  lemma NothingWithoutToken(cfg: Config, start: Secs, ticks: seq<Tick>)
    requires cfg.identify.None? && ClosingRun(cfg, Init(start), ticks) && Starts(cfg, Init(start), ticks) <= 1
    requires HelloOpens(cfg, Run(cfg, Init(start), ticks).log)
    ensures AcceptedIn(Run(cfg, Init(start), ticks).log) == []
  {
    TokenlessRun(cfg, Init(start), ticks);
  }

  /* ---- whole runs ---- */

  /** The first payload the ring takes is an IDENTIFY, in a run that a HELLO opens, with a clock and a libwebsockets
      that behave. */
  ghost predicate KeepsOrder(cfg: Config, start: Secs, ticks: seq<Tick>) {
    Advances(start, ticks) && ClosingRun(cfg, Init(start), ticks) && HelloOpens(cfg, Run(cfg, Init(start), ticks).log)
    ==> var accepted := AcceptedIn(Run(cfg, Init(start), ticks).log); accepted != [] ==> IsIdentify(accepted[0])
  }

  /** The connection is established at time t, a HELLO follows at once, and the connection ends. */
  function Greeted(hello: Bytes, t: Secs): Tick {
    Tick(t, t, Started([Established(t, 0), Fragment(hello, true, true, Answers(t, 0, None)), WsiDestroy]), [])
  }

  /** What this leaves in the log, the ring having room. */
  function GreetedLog(cfg: Config, hello: Bytes): Log {
    var heard := Snoc(Snoc(Empty, Called(CALLBACK_WS_ESTABLISHED, None, None)), Delivered(hello));
    var answered := if cfg.identify.Some? then Snoc(heard, Accepted(Identify(cfg.identify.value))) else heard;
    Snoc(answered, Returned(LDS_CONNECTION_ERR))
  }

  lemma GreetedTraffic(cfg: Config, hello: Bytes)
    requires MeaningOf(cfg, hello).Hello?
    ensures var log := GreetedLog(cfg, hello);
      && AcceptedIn(log) == (if cfg.identify.Some? then [Identify(cfg.identify.value)] else [])
      && DeliveredIn(log) == [hello] && HelloOpens(cfg, log) && WroteIn(log) == [] && NoWriteFailures(log)
  {
    var established := Snoc(Empty, Called(CALLBACK_WS_ESTABLISHED, None, None));
    var heard := Snoc(established, Delivered(hello));
    assert AcceptedIn(established) == [] && DeliveredIn(established) == [] && HelloOpens(cfg, established);
    assert AcceptedIn(heard) == [] && DeliveredIn(heard) == [hello] && HelloOpens(cfg, heard);
    assert NoWriteFailures(established) && NoWriteFailures(heard) && WroteIn(heard) == [];
    if cfg.identify.Some? {
      var answered := Snoc(heard, Accepted(Identify(cfg.identify.value)));
      assert DeliveredIn(answered) == [hello] && HelloOpens(cfg, answered);
      assert NoWriteFailures(answered) && WroteIn(answered) == [];
    }
  }

  lemma GreetedState(cfg: Config, hello: Bytes, t: Secs)
    requires MeaningOf(cfg, hello).Hello? && cfg.capacity > 0
    ensures var s := Service(cfg, Init(t), Greeted(hello, t)).state;
      && !s.connected && s.interval == MeaningOf(cfg, hello).interval && s.hbCount == 0
      && s.ring == (if cfg.identify.Some? then [Identify(cfg.identify.value)] else [])
      && s.log == GreetedLog(cfg, hello)
  {
    var events := Greeted(hello, t).connect.events;
    PumpThree(cfg, Init(t).(connected := true), events[0], events[1], events[2]);
  }

  lemma GreetedCloses(cfg: Config, hello: Bytes, t: Secs)
    ensures ClosingRun(cfg, Init(t), [Greeted(hello, t)])
    ensures Advances(t, [Greeted(hello, t)]) && End(t, [Greeted(hello, t)]) == t
  {
    var tick := Greeted(hello, t);
    var events := tick.connect.events;
    var s1 := OnEvent(cfg, Init(t).(connected := true), events[0]).state;
    var s2 := OnEvent(cfg, s1, events[1]).state;
    assert events[1..] == [events[1], events[2]] && events[1..][1..] == [events[2]] && [events[2]][1..] == [];
    assert Closing(cfg, s2, [events[2]]) && Closing(cfg, s1, events[1..]);
    OneTick(cfg, Init(t), tick);
    ThreeReadings(t, events[0], events[1], events[2]);
    assert [tick][1..] == [];
  }

  lemma AfterGreeted(cfg: Config, hello: Bytes, t: Secs)
    requires MeaningOf(cfg, hello).Hello? && cfg.capacity > 0
    ensures var s := Run(cfg, Init(t), [Greeted(hello, t)]);
      && !s.connected && s.interval == MeaningOf(cfg, hello).interval && s.hbCount == 0
      && s.ring == AcceptedIn(s.log) == (if cfg.identify.Some? then [Identify(cfg.identify.value)] else [])
      && DeliveredIn(s.log) == [hello] && HelloOpens(cfg, s.log) && WroteIn(s.log) == [] && NoWriteFailures(s.log)
    ensures ClosingRun(cfg, Init(t), [Greeted(hello, t)])
    ensures Advances(t, [Greeted(hello, t)]) && End(t, [Greeted(hello, t)]) == t
  {
    OneTick(cfg, Init(t), Greeted(hello, t));
    GreetedState(cfg, hello, t);
    GreetedTraffic(cfg, hello);
    GreetedCloses(cfg, hello, t);
  }

  /** A run that goes on after that without another message. */
  lemma GreetedThen(cfg: Config, hello: Bytes, t: Secs, rest: seq<Tick>)
    requires MeaningOf(cfg, hello).Hello? && cfg.capacity > 0
    requires BeforeHello(cfg, Run(cfg, Init(t), [Greeted(hello, t)]), t, rest)
    ensures var ticks := [Greeted(hello, t)] + rest;
      && Run(cfg, Init(t), ticks) == Run(cfg, Run(cfg, Init(t), [Greeted(hello, t)]), rest)
      && Advances(t, ticks) && ClosingRun(cfg, Init(t), ticks) && HelloOpens(cfg, Run(cfg, Init(t), ticks).log)
  {
    var a := [Greeted(hello, t)];
    AfterGreeted(cfg, hello, t);
    RunAppend(cfg, Init(t), a, rest);
    ClosingRunAppend(cfg, Init(t), a, rest);
    AdvancesAppend(t, a, rest);
    OpenedOnceForAll(cfg, Run(cfg, Init(t), a).log, Run(cfg, Init(t), a + rest).log);
  }

  /** Without a token, the first payload of all is a heartbeat on the second connection, before its HELLO. */
  lemma TokenlessBeatsFirst(cfg: Config, hello: Bytes, t: Secs, n: Secs)
    requires MeaningOf(cfg, hello).Hello? && MeaningOf(cfg, hello).interval > 0 && cfg.capacity > 0
    requires cfg.identify.None? && t <= n && n - t > MeaningOf(cfg, hello).interval / 1000
    ensures var ticks := [Greeted(hello, t)] + Reconnection(t, n); var s := Run(cfg, Init(t), ticks);
      && Advances(t, ticks) && ClosingRun(cfg, Init(t), ticks) && HelloOpens(cfg, s.log)
      && |AcceptedIn(s.log)| == 1 && IsHeartbeat(AcceptedIn(s.log)[0])
  {
    var s := Run(cfg, Init(t), [Greeted(hello, t)]);
    AfterGreeted(cfg, hello, t);
    AfterReconnection(cfg, s, t, n);
    GreetedThen(cfg, hello, t, Reconnection(t, n));
    PayloadKinds(s.lastSeq, Null);
  }

  lemma {:induction false} OpenedOnceForAll(cfg: Config, a: Log, b: Log)
    requires HelloOpens(cfg, a) && DeliveredIn(a) == DeliveredIn(b)
    ensures HelloOpens(cfg, b)
  {
    OpensAsDelivered(cfg, a);
    OpensAsDelivered(cfg, b);
  }

  lemma {:induction false} OpensAsDelivered(cfg: Config, log: Log)
    ensures HelloOpens(cfg, log) <==> (DeliveredIn(log) != [] ==> MeaningOf(cfg, DeliveredIn(log)[0]).Hello?)
    ensures Hellos(cfg, log) > 0 ==> DeliveredIn(log) != []
    ensures DeliveredIn(log) != [] && MeaningOf(cfg, DeliveredIn(log)[0]).Hello? ==> Hellos(cfg, log) > 0
  {
    if log.Snoc? {
      OpensAsDelivered(cfg, log.init);
      if log.last.Delivered? {
        assert DeliveredIn(log) == DeliveredIn(log.init) + [log.last.msg];
      }
    }
  }

  /** Over all runs that a HELLO opens, reconnections included: the first payload is always an IDENTIFY exactly if a
      token is configured. */
  lemma IdentifyFirstIffToken(cfg: Config, hello: Bytes)
    requires MeaningOf(cfg, hello).Hello? && 0 < MeaningOf(cfg, hello).interval < TWO_32 && cfg.capacity > 0
    ensures (forall start, ticks :: KeepsOrder(cfg, start, ticks)) <==> cfg.identify.Some?
  {
    if cfg.identify.Some? {
      forall start, ticks ensures KeepsOrder(cfg, start, ticks) {
        IdentifyComesFirst(cfg, start, ticks);
      }
    } else {
      var n := MeaningOf(cfg, hello).interval / 1000 + 1;
      var ticks := [Greeted(hello, 0)] + Reconnection(0, n);
      TokenlessBeatsFirst(cfg, hello, 0, n);
      BeatsAreNoIdentify(AcceptedIn(Run(cfg, Init(0), ticks).log)[0]);
      assert !KeepsOrder(cfg, 0, ticks);
    }
  }

  lemma BeatsAreNoIdentify(p: Json)
    requires IsHeartbeat(p)
    ensures !IsIdentify(p)
  {
  }

  /* ---- the bound on the queue ---- */

  /** The connection is established at time t, a HELLO follows at once, and the next service call comes at time n. */
  function ProperStart(hello: Bytes, t: Secs, n: Secs): seq<Tick> {
    [Tick(t, t, Started([Established(t, 0), Fragment(hello, true, true, Answers(t, 0, None))]), []),
     Tick(n, n, Unreachable, [])]
  }

  /** The bound of `QueueSuffices` is tight. After this run, with one HELLO and no ACK at all, two payloads wait if the
      ring has room for two; if it has room for one, the heartbeat was refused. */
  lemma OneMorePayloadThanHellos(cfg: Config, hello: Bytes, t: Secs, n: Secs)
    requires MeaningOf(cfg, hello).Hello? && MeaningOf(cfg, hello).interval > 0
    requires cfg.capacity > 0 && cfg.identify.Some?
    requires t <= n && n - t > MeaningOf(cfg, hello).interval / 1000
    ensures var s := Run(cfg, Init(t), ProperStart(hello, t, n));
      && ClosingRun(cfg, Init(t), ProperStart(hello, t, n))
      && Hellos(cfg, s.log) == 1 && HonestAcks(cfg, s.log)
      && (if cfg.capacity >= 2 then |s.ring| == 2 else |s.ring| == 1 && !NoRefusals(s.log))
  {
    var ticks := ProperStart(hello, t, n);
    var events := ticks[0].connect.events;
    var s0 := Init(t).(connected := true);
    var s1 := OnEvent(cfg, s0, events[0]).state;
    var log := Decoding(cfg, s1, hello).log;
    PumpTwo(cfg, s0, events[0], events[1]);
    assert AcceptedIn(log) == [] && DeliveredIn(s1.log) == [] && DeliveredIn(log) == [hello];
    var s := Service(cfg, Init(t), ticks[0]).state;
    assert s.connected && s.lastHb == t && s.hbCount == 0 && DeliveredIn(s.log) == [hello];
    TwoTicks(cfg, Init(t), ticks[0], ticks[1]);
    assert events[1..] == [events[1]] && [events[1]][1..] == [];
    assert Closing(cfg, s1, events[1..]);
    TwoTicksClose(cfg, Init(t), ticks[0], ticks[1]);
    BeatTraffic(cfg, s, n);
    LoneTick(cfg, s, n);
    SubUlongExact(n, t);
    DeliveredDecides(cfg, s.log, hello);
    DeliveredDecides(cfg, Run(cfg, Init(t), ticks).log, hello);
  }

  /** A log whose only message is a HELLO. */
  lemma {:induction false} DeliveredDecides(cfg: Config, log: Log, hello: Bytes)
    requires MeaningOf(cfg, hello).Hello? && (DeliveredIn(log) == [hello] || DeliveredIn(log) == [])
    ensures Hellos(cfg, log) == |DeliveredIn(log)| && Acks(cfg, log) == 0 && HonestAcks(cfg, log)
  {
    if log.Snoc? {
      if log.last.Delivered? {
        var before := DeliveredIn(log.init);
        assert DeliveredIn(log) == before + [log.last.msg];
        assert before == [] && (before + [log.last.msg])[0] == log.last.msg;
      }
      DeliveredDecides(cfg, log.init, hello);
    }
  }
}
