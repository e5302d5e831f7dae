/** The receive buffer that a connection leaves over when it dies inside a message, and what becomes of the session
    then. */
module Stale {
  import opened Prelude
  import opened Session
  import opened History
  import opened Runs
  import opened Silence
  import opened Websocket

  /** The connection dies after the first fragment of a message. */
  function DeathInsideMessage(part: Bytes, a: Answers, t: Secs): Tick {
    Tick(t, t, Started([Established(t, 0), Fragment(part, true, false, a), WsiDestroy]), [])
  }

  /** From any context between connections, a new one included, this leaves the buffer over. */
  lemma DeathLeavesBuffer(cfg: Config, s: State, part: Bytes, a: Answers, t: Secs)
    requires !s.connected
    ensures var tick := DeathInsideMessage(part, a, t); var s' := Run(cfg, s, [tick]);
      ClosingRun(cfg, s, [tick]) && !s'.connected && s'.rx == Some(StrNCpy(part))
  {
    var tick := DeathInsideMessage(part, a, t);
    var events := tick.connect.events;
    var s0 := s.(connected := true);
    var s1 := OnEvent(cfg, s0, events[0]).state;
    var s2 := OnEvent(cfg, s1, events[1]).state;
    PumpThree(cfg, s0, events[0], events[1], events[2]);
    assert events[1..] == [events[1], events[2]] && events[1..][1..] == [events[2]] && [events[2]][1..] == [];
    assert Closing(cfg, s2, [events[2]]) && Closing(cfg, s1, events[1..]);
    OneTick(cfg, s, tick);
  }

  /** All messages come in one fragment. */
  predicate Whole(events: seq<Event>) {
    forall i :: 0 <= i < |events| && events[i].Fragment? ==> events[i].first && events[i].final
  }

  predicate WholeRun(cfg: Config, s: State, ticks: seq<Tick>)
    decreases |ticks|
  {
    ticks == [] ||
      (Whole(Played(cfg, s, ticks[0])) && WholeRun(cfg, Service(cfg, s, ticks[0]).state, ticks[1..]))
  }

  lemma {:induction false} DeafPump(cfg: Config, s: State, events: seq<Event>)
    requires s.rx.Some? && Whole(events)
    ensures Pump(cfg, s, events).rx.Some?
    ensures DeliveredIn(Pump(cfg, s, events).log) == DeliveredIn(s.log)
    decreases |events|
  {
    if events != [] {
      EventSilent(cfg, s, events[0]);
      DeafPump(cfg, OnEvent(cfg, s, events[0]).state, events[1..]);
    }
  }

  lemma DeafService(cfg: Config, s: State, tick: Tick)
    requires s.rx.Some? && Whole(Played(cfg, s, tick))
    ensures Service(cfg, s, tick).state.rx.Some?
    ensures DeliveredIn(Service(cfg, s, tick).state.log) == DeliveredIn(s.log)
  {
    if !s.connected {
      DeafPump(cfg, s.(connected := true), Played(cfg, s, tick));
    } else {
      var b := Beat(cfg, s, tick.now, tick.later);
      assert DeliveredIn(b.state.log) == DeliveredIn(s.log);
      assert DeliveredIn(AskWrite(b.state).log) == DeliveredIn(b.state.log);
      DeafPump(cfg, AskWrite(b.state), Played(cfg, s, tick));
    }
  }

  lemma {:induction false} DeafRun(cfg: Config, s: State, ticks: seq<Tick>)
    requires s.rx.Some? && WholeRun(cfg, s, ticks)
    ensures Run(cfg, s, ticks).rx.Some?
    ensures DeliveredIn(Run(cfg, s, ticks).log) == DeliveredIn(s.log)
    decreases |ticks|
  {
    if ticks != [] {
      DeafService(cfg, s, ticks[0]);
      DeafRun(cfg, Service(cfg, s, ticks[0]).state, ticks[1..]);
    }
  }

  /** As long as messages come in one fragment, a left-over buffer makes the session deaf for good, across writes,
      reconnections and everything else: no message is delivered, no ACK counts, the session id stays what it was, no
      IDENTIFY is queued any more, only heartbeats, and never more than one beyond the ACKs of before. */
  lemma StaleBufferIsDeaf(cfg: Config, start: Secs, before: seq<Tick>, ticks: seq<Tick>)
    requires var s := Run(cfg, Init(start), before); s.rx.Some? && WholeRun(cfg, s, ticks)
    ensures var s := Run(cfg, Init(start), before); var s' := Run(cfg, s, ticks);
      && s'.rx.Some?
      && DeliveredIn(s'.log) == DeliveredIn(s.log) && Acks(cfg, s'.log) == Acks(cfg, s.log)
      && s'.session == s.session && s'.interval == s.interval
      && BeatsAccepted(s.log) <= BeatsAccepted(s'.log) <= Acks(cfg, s.log) + 1
      && AcceptedIn(s'.log)
           == AcceptedIn(s.log) + Copies(Heartbeat(s.lastSeq), BeatsAccepted(s'.log) - BeatsAccepted(s.log))
  {
    var s := Run(cfg, Init(start), before);
    var s' := Run(cfg, s, ticks);
    DeafRun(cfg, s, ticks);
    RunIsSilent(cfg, s, ticks);
    ReachableInv(cfg, start, before);
    RunInv(cfg, s, ticks);
  }

  /** And it ends in the latch: a service call of such a run that finds the timer due and a heartbeat more queued than
      ACKs had come before the buffer was left over reports a missed ACK. */
  lemma StaleBufferEndsInLatch(cfg: Config, start: Secs, before: seq<Tick>, ticks: seq<Tick>, tick: Tick)
    requires var s := Run(cfg, Init(start), before); s.rx.Some? && WholeRun(cfg, s, ticks)
    requires var s' := Run(cfg, Run(cfg, Init(start), before), ticks); s'.connected && Due(s', tick.now)
    ensures var s := Run(cfg, Init(start), before); var s' := Run(cfg, s, ticks); var o := Service(cfg, s', tick);
      if BeatsAccepted(s'.log) + Misses(s'.log) > Acks(cfg, s.log) then o.code == LDS_ACK_MISSED
      else o.code == LDS_CANTFIT_HEARTBEAT_ERR || BeatsAccepted(o.state.log) == BeatsAccepted(s'.log) + 1
  {
    StaleBufferIsDeaf(cfg, start, before, ticks);
    RunAppend(cfg, Init(start), before, ticks);
    DetectorIsExact(cfg, start, before + ticks, tick);
  }
}
