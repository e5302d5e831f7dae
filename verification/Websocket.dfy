/** What libwebsockets keeps to when it plays events: nothing arrives on a websocket that is gone, and a callback
    that returns non-zero closes its connection. */
module Websocket {
  import opened Prelude
  import opened Session
  import opened History
  import opened Timer

  /** Fragments, writable events and the establishment belong to a websocket that exists; and when a callback
      returns non-zero on one that still exists, the websocket is destroyed next. */
  predicate Closing(cfg: Config, s: State, events: seq<Event>)
    decreases |events|
  {
    events == [] ||
      (var e, o := events[0], OnEvent(cfg, s, events[0]);
       && (e.Fragment? || e.Writeable? || e.Established? ==> s.connected)
       && (o.code != LDS_OK && o.state.connected ==> |events| > 1 && events[1].WsiDestroy?)
       && Closing(cfg, o.state, events[1..]))
  }

  predicate ClosingRun(cfg: Config, s: State, ticks: seq<Tick>)
    decreases |ticks|
  {
    ticks == [] ||
      (&& Closing(cfg, PumpStart(cfg, s, ticks[0]), Played(cfg, s, ticks[0]))
       && ClosingRun(cfg, Service(cfg, s, ticks[0]).state, ticks[1..]))
  }

  lemma {:induction false} ClosingRunAppend(cfg: Config, s: State, a: seq<Tick>, b: seq<Tick>)
    requires ClosingRun(cfg, s, a) && ClosingRun(cfg, Run(cfg, s, a), b)
    ensures ClosingRun(cfg, s, a + b)
    decreases |a|
  {
    if a == [] {
      assert a + b == b;
    } else {
      assert (a + b)[1..] == a[1..] + b;
      ClosingRunAppend(cfg, Service(cfg, s, a[0]).state, a[1..], b);
    }
  }

  lemma {:induction false} AdvancesAppend(t: Secs, a: seq<Tick>, b: seq<Tick>)
    requires Advances(t, a) && Advances(End(t, a), b)
    ensures Advances(t, a + b) && End(t, a + b) == End(End(t, a), b)
    decreases |a|
  {
    if a == [] {
      assert a + b == b;
    } else {
      assert (a + b)[1..] == a[1..] + b;
      AdvancesAppend(TickEnd(a[0]), a[1..], b);
    }
  }

  /** Two logs with the same traffic: nothing was delivered, accepted, consumed or written between them, and neither a
      miss nor a failed write happened. */
  ghost predicate SameTraffic(before: Log, after: Log) {
    && DeliveredIn(after) == DeliveredIn(before)
    && AcceptedIn(after) == AcceptedIn(before) && BeatsAccepted(after) == BeatsAccepted(before)
    && ConsumedIn(after) == ConsumedIn(before)
    && WroteIn(after) == WroteIn(before) && BeatsWrote(after) == BeatsWrote(before)
    && Misses(after) == Misses(before) && NoWriteFailures(after) == NoWriteFailures(before)
  }

  /* ---- short runs ---- */

  lemma TwoTicks(cfg: Config, s: State, a: Tick, b: Tick)
    ensures Run(cfg, s, [a, b]) == Service(cfg, Service(cfg, s, a).state, b).state
  {
    assert [a, b][1..] == [b] && [b][1..] == [];
    var s1 := Service(cfg, s, a).state;
    assert Run(cfg, s1, [b]) == Service(cfg, s1, b).state;
  }

  lemma TwoTicksClose(cfg: Config, s: State, a: Tick, b: Tick)
    requires Closing(cfg, PumpStart(cfg, s, a), Played(cfg, s, a))
    requires var s1 := Service(cfg, s, a).state; Closing(cfg, PumpStart(cfg, s1, b), Played(cfg, s1, b))
    ensures ClosingRun(cfg, s, [a, b])
  {
    assert [a, b][1..] == [b] && [b][1..] == [];
    assert ClosingRun(cfg, Service(cfg, s, a).state, [b]);
  }

  lemma TwoTicksAdvance(t: Secs, a: Tick, b: Tick)
    requires TickAdvances(t, a) && TickAdvances(TickEnd(a), b)
    ensures Advances(t, [a, b]) && End(t, [a, b]) == TickEnd(b)
  {
    assert [a, b][1..] == [b] && [b][1..] == [];
    assert Advances(TickEnd(a), [b]) && End(TickEnd(a), [b]) == TickEnd(b);
  }

  lemma OneTick(cfg: Config, s: State, a: Tick)
    ensures Run(cfg, s, [a]) == Service(cfg, s, a).state
    ensures Closing(cfg, PumpStart(cfg, s, a), Played(cfg, s, a)) ==> ClosingRun(cfg, s, [a])
  {
    assert [a][1..] == [];
  }

  lemma PumpOne(cfg: Config, s: State, a: Event)
    ensures Pump(cfg, s, [a]) == OnEvent(cfg, s, a).state
  {
    assert [a][1..] == [];
  }

  lemma PumpTwo(cfg: Config, s: State, a: Event, b: Event)
    ensures Pump(cfg, s, [a, b]) == OnEvent(cfg, OnEvent(cfg, s, a).state, b).state
  {
    assert [a, b][1..] == [b];
    PumpOne(cfg, OnEvent(cfg, s, a).state, b);
  }

  lemma PumpThree(cfg: Config, s: State, a: Event, b: Event, c: Event)
    ensures Pump(cfg, s, [a, b, c]) == OnEvent(cfg, OnEvent(cfg, OnEvent(cfg, s, a).state, b).state, c).state
  {
    assert [a, b, c][1..] == [b, c];
    PumpTwo(cfg, OnEvent(cfg, s, a).state, b, c);
  }

  lemma OneReading(t: Secs, a: Event)
    ensures EventsAdvance(t, [a]) <==> t <= ClockAfter(t, a)
    ensures EventsEnd(t, [a]) == ClockAfter(t, a)
  {
    var t1 := ClockAfter(t, a);
    assert [a][1..] == [];
    assert EventsAdvance(t1, []) && EventsEnd(t1, []) == t1;
  }

  /** Events that make no reading, or the one of t again. */
  lemma ThreeReadings(t: Secs, a: Event, b: Event, c: Event)
    requires ClockAfter(t, a) == t && ClockAfter(t, b) == t && ClockAfter(t, c) == t
    ensures EventsAdvance(t, [a, b, c]) && EventsEnd(t, [a, b, c]) == t
    ensures EventsAdvance(t, [a, b]) && EventsEnd(t, [a, b]) == t
  {
    OneReading(t, b);
    OneReading(t, c);
    assert [a, b][1..] == [b] && [b, c][1..] == [c] && [a, b, c][1..] == [b, c];
    assert EventsAdvance(t, [b, c]) && EventsEnd(t, [b, c]) == t;
  }
}
