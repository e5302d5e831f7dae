/** How far apart heartbeats are: whole-second clock readings against a millisecond interval. */
module Spacing {
  import opened Prelude
  import opened Session
  import opened History
  import opened Timer

  /** Events that restart the timer or end the connection: everything but HELLOs inside messages is
      known from the event alone. */
  predicate Restarts(cfg: Config, s: State, e: Event) {
    || e.Established? || e.ConnectionError? || e.WsiDestroy?
    || (Completed(s, e).Some? && MeaningOf(cfg, Completed(s, e).value).Hello?)
  }

  predicate QuietPump(cfg: Config, s: State, events: seq<Event>)
    decreases |events|
  {
    events == [] || (!Restarts(cfg, s, events[0]) && QuietPump(cfg, OnEvent(cfg, s, events[0]).state, events[1..]))
  }

  /** Service calls that all return OK, queue no heartbeat and see nothing restart the timer. */
  predicate Waiting(cfg: Config, s: State, ticks: seq<Tick>)
    decreases |ticks|
  {
    ticks == [] ||
      var b := Beat(cfg, s, ticks[0].now, ticks[0].later);
      && b.code == LDS_OK && b.state.log == s.log
      && QuietPump(cfg, AskWrite(b.state), ticks[0].events)
      && Waiting(cfg, Service(cfg, s, ticks[0]).state, ticks[1..])
  }

  /** The timer's view of a connected context. */
  ghost predicate SameTimer(s: State, s': State) {
    s.connected == s'.connected && s.interval == s'.interval && s.lastHb == s'.lastHb
  }

  lemma QuietEvent(cfg: Config, s: State, e: Event)
    requires !Restarts(cfg, s, e)
    ensures SameTimer(s, OnEvent(cfg, s, e).state)
  {
  }

  lemma {:induction false} QuietPumpKeepsTimer(cfg: Config, s: State, events: seq<Event>)
    requires QuietPump(cfg, s, events)
    ensures SameTimer(s, Pump(cfg, s, events))
    decreases |events|
  {
    if events != [] {
      QuietEvent(cfg, s, events[0]);
      QuietPumpKeepsTimer(cfg, OnEvent(cfg, s, events[0]).state, events[1..]);
    }
  }

  /** While waiting, no call finds the timer due and the timer stands still. */
  lemma {:induction false} WaitingIsNotDue(cfg: Config, s: State, ticks: seq<Tick>)
    requires s.connected && Waiting(cfg, s, ticks)
    ensures SameTimer(s, Run(cfg, s, ticks))
    ensures forall i :: 0 <= i < |ticks| ==> !Due(s, ticks[i].now)
    decreases |ticks|
  {
    if ticks != [] {
      var b := Beat(cfg, s, ticks[0].now, ticks[0].later);
      assert !Due(s, ticks[0].now);
      QuietPumpKeepsTimer(cfg, AskWrite(b.state), ticks[0].events);
      WaitingIsNotDue(cfg, Service(cfg, s, ticks[0]).state, ticks[1..]);
      forall i | 0 <= i < |ticks| ensures !Due(s, ticks[i].now) {
        if i > 0 { assert ticks[i] == ticks[1..][i - 1]; }
      }
    }
  }

  /** The calls of `ld_service` enter at the given millisecond times, at most `period` apart, the first one
      at most `period` after `from`; each reads the clock in whole seconds. */
  ghost predicate EnteredAt(from: nat, ticks: seq<Tick>, times: seq<nat>, period: nat) {
    && |times| == |ticks|
    && (forall i :: 0 <= i < |ticks| ==> ticks[i].now == times[i] / 1000)
    && (|times| > 0 ==> from <= times[0] <= from + period)
    && (forall i :: 0 < i < |times| ==> times[i - 1] <= times[i] <= times[i - 1] + period)
  }

  lemma {:induction false} TimesFollow(from: nat, ticks: seq<Tick>, times: seq<nat>, period: nat, k: nat)
    requires EnteredAt(from, ticks, times, period) && k < |times|
    ensures from <= times[k]
  {
    if k > 0 {
      TimesFollow(from, ticks, times, period, k - 1);
    }
  }

  /** The timer, restarted at some millisecond, is next found due more than the interval less a second
      later, and less than the interval plus a second and one service period later. */
  lemma {:induction false} TimerIsPunctual(cfg: Config, s: State, from: nat, wait: seq<Tick>, last: Tick,
                                           times: seq<nat>, period: nat)
    requires s.connected && s.lastHb == from / 1000
    requires Waiting(cfg, s, wait) && Due(Run(cfg, s, wait), last.now)
    requires EnteredAt(from, wait + [last], times, period)
    ensures from + s.interval < times[|wait|] + 1000
    ensures times[|wait|] < from + s.interval + 1000 + period
  {
    var ticks, n := wait + [last], |wait|;
    assert ticks[n] == last;
    WaitingIsNotDue(cfg, s, wait);
    TimesFollow(from, ticks, times, period, n);
    SubUlongExact(last.now, s.lastHb);
    if n > 0 {
      assert ticks[n - 1] == wait[n - 1];
      TimesFollow(from, ticks, times, period, n - 1);
      SubUlongExact(wait[n - 1].now, s.lastHb);
    }
  }

  /** Two consecutive heartbeats. `sent` is the millisecond at which the first one's call read the clock for
      `last_hb`. With service calls at most 9 s apart, the second is within the 10 s of leeway. */
  lemma {:induction false} HeartbeatsAreSpaced(cfg: Config, s: State, first: Tick, sent: nat,
                                               wait: seq<Tick>, last: Tick, times: seq<nat>, period: nat)
    requires s.connected && first.later == sent / 1000
    requires var b := Beat(cfg, s, first.now, first.later);
      b.code == LDS_OK && Due(s, first.now) && QuietPump(cfg, AskWrite(b.state), first.events)
    requires var s1 := Service(cfg, s, first).state;
      Waiting(cfg, s1, wait) && BeatsAccepted(Beat(cfg, Run(cfg, s1, wait), last.now, last.later).state.log)
                              > BeatsAccepted(Run(cfg, s1, wait).log)
    requires EnteredAt(sent, wait + [last], times, period)
    ensures sent + s.interval < times[|wait|] + 1000
    ensures times[|wait|] < sent + s.interval + 1000 + period
    ensures period <= 9000 ==> times[|wait|] < sent + s.interval + 10000
  {
    var b := Beat(cfg, s, first.now, first.later);
    QuietPumpKeepsTimer(cfg, AskWrite(b.state), first.events);
    TimerIsPunctual(cfg, Service(cfg, s, first).state, sent, wait, last, times, period);
  }

  /** The other restarts of the timer, and the reading each of them makes: a connection established, and a HELLO that
      got its IDENTIFY together. */
  predicate RestartsAt(cfg: Config, s: State, e: Event, reading: Secs) {
    || (e.Established? && e.now == reading)
    || (&& Completed(s, e).Some? && MeaningOf(cfg, Completed(s, e).value).Hello?
        && OnEvent(cfg, s, e).code == LDS_OK && e.answers.now == reading)
  }

  lemma RestartsSetTheTimer(cfg: Config, s: State, e: Event, reading: Secs)
    requires RestartsAt(cfg, s, e, reading)
    ensures var s' := OnEvent(cfg, s, e).state;
      && s'.lastHb == reading && s'.connected == s.connected
      && s'.interval == if e.Established? then s.interval else MeaningOf(cfg, Completed(s, e).value).interval
  {
  }

  /** A connection established or a HELLO answered inside a service call, as its i-th event and the last one to restart
      the timer: the call that next finds the timer due keeps the same bounds, for the interval then in force. */
  lemma {:induction false} RestartIsPunctual(cfg: Config, s: State, tick: Tick, i: nat, from: nat,
                                             wait: seq<Tick>, last: Tick, times: seq<nat>, period: nat)
    requires i < |Played(cfg, s, tick)| && from / 1000 < TWO_64
    requires var events := Played(cfg, s, tick); var before := Pump(cfg, PumpStart(cfg, s, tick), events[..i]);
      && before.connected && RestartsAt(cfg, before, events[i], from / 1000)
      && QuietPump(cfg, OnEvent(cfg, before, events[i]).state, events[i + 1..])
    requires var s1 := Service(cfg, s, tick).state;
      Waiting(cfg, s1, wait) && Due(Run(cfg, s1, wait), last.now)
    requires EnteredAt(from, wait + [last], times, period)
    ensures var events := Played(cfg, s, tick); var before := Pump(cfg, PumpStart(cfg, s, tick), events[..i]);
      var interval := OnEvent(cfg, before, events[i]).state.interval;
      && from + interval < times[|wait|] + 1000
      && times[|wait|] < from + interval + 1000 + period
  {
    var events, s0 := Played(cfg, s, tick), PumpStart(cfg, s, tick);
    var before := Pump(cfg, s0, events[..i]);
    var after := OnEvent(cfg, before, events[i]).state;
    assert events == events[..i] + events[i..] && events[i..][1..] == events[i + 1..];
    PumpAppend(cfg, s0, events[..i], events[i..]);
    RestartsSetTheTimer(cfg, before, events[i], from / 1000);
    QuietPumpKeepsTimer(cfg, after, events[i + 1..]);
    assert SameTimer(after, Service(cfg, s, tick).state);
    TimerIsPunctual(cfg, Service(cfg, s, tick).state, from, wait, last, times, period);
  }
}
