/** The heartbeat timer under a monotone clock: failures latch, heartbeats are spaced. */
module Timer {
  import opened Prelude
  import opened Session
  import opened History

  /* ---- a clock that never goes back ---- */

  /** The clock reading an event makes, if any, after one that showed t. */
  function ClockAfter(t: Secs, e: Event): Secs {
    match e
    case Established(now, _) => now
    case Fragment(_, _, _, a) => a.now
    case _ => t
  }

  predicate EventsAdvance(t: Secs, events: seq<Event>)
    decreases |events|
  {
    events == [] || (t <= ClockAfter(t, events[0]) && EventsAdvance(ClockAfter(t, events[0]), events[1..]))
  }

  function EventsEnd(t: Secs, events: seq<Event>): Secs
    decreases |events|
  {
    if events == [] then t else EventsEnd(ClockAfter(t, events[0]), events[1..])
  }

  function ConnectEvents(tick: Tick): seq<Event> {
    if tick.connect.Started? then tick.connect.events else []
  }

  /** The readings of a service call never go back, starting from t. */
  predicate TickAdvances(t: Secs, tick: Tick) {
    && t <= tick.now <= tick.later
    && EventsAdvance(tick.later, ConnectEvents(tick))
    && EventsAdvance(tick.later, tick.events)
  }

  /** A time no reading of the service call exceeds. */
  function TickEnd(tick: Tick): Secs {
    var a, b := EventsEnd(tick.later, ConnectEvents(tick)), EventsEnd(tick.later, tick.events);
    if a <= b then b else a
  }

  predicate Advances(t: Secs, ticks: seq<Tick>)
    decreases |ticks|
  {
    ticks == [] || (TickAdvances(t, ticks[0]) && Advances(TickEnd(ticks[0]), ticks[1..]))
  }

  function End(t: Secs, ticks: seq<Tick>): Secs
    decreases |ticks|
  {
    if ticks == [] then t else End(TickEnd(ticks[0]), ticks[1..])
  }

  lemma EventKeepsClock(cfg: Config, s: State, t: Secs, e: Event)
    requires s.lastHb <= t <= ClockAfter(t, e)
    ensures OnEvent(cfg, s, e).state.lastHb <= ClockAfter(t, e)
  {
  }

  lemma {:induction false} PumpKeepsClock(cfg: Config, s: State, t: Secs, events: seq<Event>)
    requires s.lastHb <= t && EventsAdvance(t, events)
    ensures Pump(cfg, s, events).lastHb <= EventsEnd(t, events)
    ensures t <= EventsEnd(t, events)
    decreases |events|
  {
    if events != [] {
      EventKeepsClock(cfg, s, t, events[0]);
      PumpKeepsClock(cfg, OnEvent(cfg, s, events[0]).state, ClockAfter(t, events[0]), events[1..]);
    }
  }

  lemma ServiceKeepsClock(cfg: Config, s: State, t: Secs, tick: Tick)
    requires s.lastHb <= t && TickAdvances(t, tick)
    ensures Service(cfg, s, tick).state.lastHb <= TickEnd(tick)
  {
    PumpKeepsClock(cfg, s.(connected := true), tick.later, ConnectEvents(tick));
    var b := Beat(cfg, s, tick.now, tick.later).state;
    PumpKeepsClock(cfg, AskWrite(b), tick.later, tick.events);
  }

  /** The timer was never restarted in the future. */
  lemma {:induction false} RunKeepsClock(cfg: Config, s: State, t: Secs, ticks: seq<Tick>)
    requires s.lastHb <= t && Advances(t, ticks)
    ensures Run(cfg, s, ticks).lastHb <= End(t, ticks)
    decreases |ticks|
  {
    if ticks != [] {
      ServiceKeepsClock(cfg, s, t, ticks[0]);
      RunKeepsClock(cfg, Service(cfg, s, ticks[0]).state, TickEnd(ticks[0]), ticks[1..]);
    }
  }

  lemma TickEndIsLate(t: Secs, tick: Tick)
    requires TickAdvances(t, tick)
    ensures tick.now <= TickEnd(tick)
  {
    EventsEndIsLate(tick.later, tick.events);
  }

  lemma {:induction false} EventsEndIsLate(t: Secs, events: seq<Event>)
    requires EventsAdvance(t, events)
    ensures t <= EventsEnd(t, events)
    decreases |events|
  {
    if events != [] {
      EventsEndIsLate(ClockAfter(t, events[0]), events[1..]);
    }
  }

  lemma SubUlongExact(a: Secs, b: Secs)
    requires b <= a
    ensures SubUlong(a, b) == a - b
  {
  }

  /* ---- failures latch ---- */

  /** Nothing but returns and refused insertions happened between two logs. */
  predicate OnlyReturns(before: Log, after: Log) {
    before == after
    || (after.Snoc? && (after.last.Returned? || after.last.Refused?) && OnlyReturns(before, after.init))
  }

  /** Nothing but the counter and the log may have changed. */
  ghost predicate Frozen(s: State, s': State) {
    s' == s.(hbCount := s'.hbCount, log := s'.log) && OnlyReturns(s.log, s'.log)
  }

  /** A service call that fails with the given code, for want of an ACK or of room in the ring. */
  ghost predicate Failing(cfg: Config, s: State, t: Secs, code: int) {
    && s.connected && s.lastHb <= t && t - s.lastHb > s.interval / 1000 && s.interval != 0
    && (code == LDS_ACK_MISSED || code == LDS_CANTFIT_HEARTBEAT_ERR)
    && if code == LDS_ACK_MISSED then s.hbCount >= 1 else s.hbCount <= 0 && |s.ring| >= cfg.capacity
  }

  lemma FailingTick(cfg: Config, s: State, t: Secs, code: int, tick: Tick)
    requires Failing(cfg, s, t, code) && t <= tick.now
    ensures Service(cfg, s, tick).code == code
    ensures Failing(cfg, Service(cfg, s, tick).state, tick.now, code)
    ensures Frozen(s, Service(cfg, s, tick).state)
  {
  }

  lemma {:induction false} OnlyReturnsTransitive(a: Log, b: Log, c: Log)
    requires OnlyReturns(a, b) && OnlyReturns(b, c)
    ensures OnlyReturns(a, c)
    decreases c
  {
    if b != c {
      OnlyReturnsTransitive(a, b, c.init);
    }
  }

  lemma {:induction false} FailingRun(cfg: Config, s: State, t: Secs, code: int, ticks: seq<Tick>)
    requires Failing(cfg, s, t, code) && Advances(t, ticks)
    ensures forall i :: 0 <= i < |ticks| ==> Codes(cfg, s, ticks)[i] == code
    ensures Frozen(s, Run(cfg, s, ticks))
    decreases |ticks|
  {
    if ticks != [] {
      var s1 := Service(cfg, s, ticks[0]).state;
      FailingTick(cfg, s, t, code, ticks[0]);
      TickEndIsLate(t, ticks[0]);
      FailingRun(cfg, s1, TickEnd(ticks[0]), code, ticks[1..]);
      OnlyReturnsTransitive(s.log, s1.log, Run(cfg, s, ticks).log);
    }
  }

  /** What a frozen context keeps to itself. */
  lemma {:induction false} FrozenIsSilent(before: Log, after: Log)
    requires OnlyReturns(before, after)
    ensures AcceptedIn(after) == AcceptedIn(before) && ConsumedIn(after) == ConsumedIn(before)
    ensures WroteIn(after) == WroteIn(before) && DeliveredIn(after) == DeliveredIn(before)
    decreases after
  {
    if before != after {
      FrozenIsSilent(before, after.init);
    }
  }

  /** A missed ACK is a fail-stop latch, and so is a heartbeat that found the ring full: once a service
      call of a run returns one of these codes, every later call returns it too, and none of them queues,
      writes, calls back, parses or pumps anything. */
  lemma {:induction false} FailureIsALatch(cfg: Config, start: Secs, before: seq<Tick>, tick: Tick, after: seq<Tick>)
    requires Advances(start, before) && Advances(End(start, before), [tick] + after)
    requires var o := Service(cfg, Run(cfg, Init(start), before), tick);
      o.code == LDS_ACK_MISSED || o.code == LDS_CANTFIT_HEARTBEAT_ERR
    ensures var o := Service(cfg, Run(cfg, Init(start), before), tick);
      && (forall i :: 0 <= i < |after| ==> Codes(cfg, o.state, after)[i] == o.code)
      && Frozen(Run(cfg, Init(start), before), Run(cfg, o.state, after))
    ensures var log, log' := Run(cfg, Init(start), before).log, Run(cfg, Init(start), before + [tick] + after).log;
      && AcceptedIn(log') == AcceptedIn(log) && WroteIn(log') == WroteIn(log) && DeliveredIn(log') == DeliveredIn(log)
  {
    RunKeepsClock(cfg, Init(start), start, before);
    var s := Run(cfg, Init(start), before);
    var t := End(start, before);
    var o := Service(cfg, s, tick);
    var ticks := [tick] + after;
    assert ticks[0] == tick && ticks[1..] == after;
    SubUlongExact(tick.now, s.lastHb);
    assert Failing(cfg, s, tick.now, o.code);
    FailingTick(cfg, s, tick.now, o.code, tick);
    TickEndIsLate(t, tick);
    FailingRun(cfg, o.state, TickEnd(tick), o.code, after);
    OnlyReturnsTransitive(s.log, o.state.log, Run(cfg, o.state, after).log);
    RunAppend(cfg, Init(start), before, ticks);
    assert before + [tick] + after == before + ticks;
    FrozenIsSilent(s.log, Run(cfg, o.state, after).log);
  }
}
