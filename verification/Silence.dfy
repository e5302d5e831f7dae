/** What can happen while the gateway is silent: stretches of a run in which no message is delivered, whatever
    else happens, connections lost and made again included. */
module Silence {
  import opened Prelude
  import opened Json
  import opened Session
  import opened History

  function Copies(p: Json, k: nat): seq<Json> {
    if k == 0 then [] else [p] + Copies(p, k - 1)
  }

  lemma {:induction false} CopiesAdd(p: Json, j: nat, k: nat)
    ensures Copies(p, j) + Copies(p, k) == Copies(p, j + k)
  {
    if j > 0 {
      CopiesAdd(p, j - 1, k);
      assert Copies(p, j) + Copies(p, k) == [p] + (Copies(p, j - 1) + Copies(p, k));
    }
  }

  lemma CopiesAppend(front: seq<Json>, p: Json, j: nat, k: nat)
    ensures front + Copies(p, j) + Copies(p, k) == front + Copies(p, j + k)
  {
    CopiesAdd(p, j, k);
    assert front + Copies(p, j) + Copies(p, k) == front + (Copies(p, j) + Copies(p, k));
  }

  /** k heartbeats were queued and m misses reported in between, and nothing else was queued or learnt. */
  ghost predicate SilentWith(cfg: Config, s: State, s': State, k: nat, m: nat) {
    && s'.interval == s.interval && s'.lastSeq == s.lastSeq && s'.session == s.session
    && DeliveredIn(s'.log) == DeliveredIn(s.log)
    && Acks(cfg, s'.log) == Acks(cfg, s.log) && Hellos(cfg, s'.log) == Hellos(cfg, s.log)
    && BeatsAccepted(s'.log) == BeatsAccepted(s.log) + k
    && Misses(s'.log) == Misses(s.log) + m
    && s'.hbCount == s.hbCount + k + m
    && AcceptedIn(s'.log) == AcceptedIn(s.log) + Copies(Heartbeat(s.lastSeq), k)
    && (k > 0 ==> s.interval != 0 && cfg.capacity > 0 && s.hbCount + k <= 1)
    && (m > 0 ==> s.interval != 0 && s.hbCount + k >= 1)
  }

  ghost predicate Silent(cfg: Config, s: State, s': State) {
    exists k: nat, m: nat :: SilentWith(cfg, s, s', k, m)
  }

  lemma SilentTransitive(cfg: Config, a: State, b: State, c: State)
    requires Silent(cfg, a, b) && Silent(cfg, b, c)
    ensures Silent(cfg, a, c)
  {
    var k1: nat, m1: nat :| SilentWith(cfg, a, b, k1, m1);
    var k2: nat, m2: nat :| SilentWith(cfg, b, c, k2, m2);
    SilentStretches(cfg, a, b, c, k1, m1, k2, m2);
  }

  lemma SilentStretches(cfg: Config, a: State, b: State, c: State, k1: nat, m1: nat, k2: nat, m2: nat)
    requires SilentWith(cfg, a, b, k1, m1) && SilentWith(cfg, b, c, k2, m2)
    ensures SilentWith(cfg, a, c, k1 + k2, m1 + m2)
  {
    CopiesAppend(AcceptedIn(a.log), Heartbeat(a.lastSeq), k1, k2);
  }

  /** Two states that agree on everything silence is about. */
  ghost predicate Same(cfg: Config, s: State, s': State) {
    && s'.interval == s.interval && s'.lastSeq == s.lastSeq && s'.session == s.session && s'.hbCount == s.hbCount
    && DeliveredIn(s'.log) == DeliveredIn(s.log)
    && Acks(cfg, s'.log) == Acks(cfg, s.log) && Hellos(cfg, s'.log) == Hellos(cfg, s.log)
    && BeatsAccepted(s'.log) == BeatsAccepted(s.log) && Misses(s'.log) == Misses(s.log)
    && AcceptedIn(s'.log) == AcceptedIn(s.log)
  }

  lemma SameIsSilent(cfg: Config, s: State, s': State)
    requires Same(cfg, s, s')
    ensures Silent(cfg, s, s')
  {
    assert AcceptedIn(s'.log) == AcceptedIn(s.log) + Copies(Heartbeat(s.lastSeq), 0);
    assert SilentWith(cfg, s, s', 0, 0);
  }

  /* ---- steps ---- */

  /** An event that completes no message is silent; one that completes a message is not. */
  lemma EventSilent(cfg: Config, s: State, e: Event)
    ensures Completed(s, e).None? ==> Same(cfg, s, OnEvent(cfg, s, e).state)
    ensures DeliveredIn(OnEvent(cfg, s, e).state.log)
         == DeliveredIn(s.log) + if Completed(s, e).Some? then [Completed(s, e).value] else []
  {
    if Completed(s, e).Some? {
      ParseDelivers(cfg, s, Completed(s, e).value, e.answers);
    } else if e.Writeable? && s.ring != [] {
      var s1 := Note(s.(ring := s.ring[1..]), Consumed(s.ring[0]));
      assert Same(cfg, s, s1);
    }
  }

  lemma {:induction false} PumpSilent(cfg: Config, s: State, events: seq<Event>)
    ensures |DeliveredIn(Pump(cfg, s, events).log)| >= |DeliveredIn(s.log)|
    ensures |DeliveredIn(Pump(cfg, s, events).log)| == |DeliveredIn(s.log)| ==> Same(cfg, s, Pump(cfg, s, events))
    decreases |events|
  {
    if events != [] {
      EventSilent(cfg, s, events[0]);
      PumpSilent(cfg, OnEvent(cfg, s, events[0]).state, events[1..]);
    }
  }

  lemma BeatSilent(cfg: Config, s: State, now: Secs, later: Secs)
    ensures Silent(cfg, s, Beat(cfg, s, now, later).state)
  {
    var b := Beat(cfg, s, now, later);
    var hb := Heartbeat(s.lastSeq);
    PayloadKinds(s.lastSeq, Null);
    assert Copies(hb, 1) == [hb] + Copies(hb, 0);
    if !Due(s, now) {
      SameIsSilent(cfg, s, s);
    } else if s.hbCount >= 1 {
      assert AcceptedIn(b.state.log) == AcceptedIn(s.log) + Copies(hb, 0);
      assert SilentWith(cfg, s, b.state, 0, 1);
    } else if |s.ring| < cfg.capacity {
      assert SilentWith(cfg, s, b.state, 1, 0);
    } else {
      assert Same(cfg, s, Note(s, Refused(hb)));
      SameIsSilent(cfg, s, b.state);
    }
  }

  lemma ServiceSilent(cfg: Config, s: State, tick: Tick)
    ensures |DeliveredIn(Service(cfg, s, tick).state.log)| >= |DeliveredIn(s.log)|
    ensures |DeliveredIn(Service(cfg, s, tick).state.log)| == |DeliveredIn(s.log)| ==>
      Silent(cfg, s, Service(cfg, s, tick).state)
  {
    var s' := Service(cfg, s, tick).state;
    if !s.connected {
      if tick.connect.Started? {
        PumpSilent(cfg, s.(connected := true), tick.connect.events);
      }
      if |DeliveredIn(s'.log)| == |DeliveredIn(s.log)| {
        SameIsSilent(cfg, s, s');
      }
    } else {
      var b := Beat(cfg, s, tick.now, tick.later);
      BeatSilent(cfg, s, tick.now, tick.later);
      if b.code == LDS_OK {
        var s1 := AskWrite(b.state);
        assert Same(cfg, b.state, s1);
        PumpSilent(cfg, s1, tick.events);
        if |DeliveredIn(s'.log)| == |DeliveredIn(s.log)| {
          assert Same(cfg, b.state, Pump(cfg, s1, tick.events));
          SameIsSilent(cfg, b.state, s');
          SilentTransitive(cfg, s, b.state, s');
        }
      }
    }
  }

  lemma {:induction false} RunGrows(cfg: Config, s: State, ticks: seq<Tick>)
    ensures |DeliveredIn(Run(cfg, s, ticks).log)| >= |DeliveredIn(s.log)|
    decreases |ticks|
  {
    if ticks != [] {
      ServiceSilent(cfg, s, ticks[0]);
      RunGrows(cfg, Service(cfg, s, ticks[0]).state, ticks[1..]);
    }
  }

  /** Over any run in which nothing is delivered, interval, sequence number and session stay; all that is queued is
      heartbeats, only with an interval set and room at all, and never more than bring the counter to one; misses
      are reported only with an interval set and once the counter is at least one. */
  lemma {:induction false} RunIsSilent(cfg: Config, s: State, ticks: seq<Tick>)
    requires DeliveredIn(Run(cfg, s, ticks).log) == DeliveredIn(s.log)
    ensures Silent(cfg, s, Run(cfg, s, ticks))
    decreases |ticks|
  {
    if ticks == [] {
      SameIsSilent(cfg, s, s);
    } else {
      var s1 := Service(cfg, s, ticks[0]).state;
      ServiceSilent(cfg, s, ticks[0]);
      RunGrows(cfg, s1, ticks[1..]);
      var k: nat, m: nat :| SilentWith(cfg, s, s1, k, m);
      RunIsSilent(cfg, s1, ticks[1..]);
      SilentTransitive(cfg, s, s1, Run(cfg, s, ticks));
    }
  }
}
