/** What waits in the transmit ring goes out: progress over any run, one payload for every answered request. */
module Draining {
  import opened Prelude
  import opened Session
  import opened History
  import opened Runs

  /** A service call that asks for a writable callback and gets one, among whatever other events. */
  predicate Answered(cfg: Config, s: State, tick: Tick) {
    var b := Beat(cfg, s, tick.now, tick.later);
    && s.connected && b.code == LDS_OK && Asked(b.state)
    && exists i :: 0 <= i < |tick.events| && tick.events[i].Writeable?
  }

  predicate Asked(s: State) {
    AskWrite(s).log == Snoc(s.log, WriteAsked)
  }

  lemma AskedMeansWaiting(s: State)
    ensures Asked(s) <==> s.ring != []
  {
  }

  function CountAnswered(cfg: Config, s: State, ticks: seq<Tick>): nat
    decreases |ticks|
  {
    if ticks == [] then 0
    else (if Answered(cfg, s, ticks[0]) then 1 else 0)
         + CountAnswered(cfg, Service(cfg, s, ticks[0]).state, ticks[1..])
  }

  /** Payloads are only ever added to what was accepted and to what was consumed. */
  ghost predicate Grows(before: Log, after: Log) {
    AcceptedIn(before) <= AcceptedIn(after) && |ConsumedIn(before)| <= |ConsumedIn(after)|
  }

  lemma EventGrows(cfg: Config, s: State, e: Event)
    ensures Grows(s.log, OnEvent(cfg, s, e).state.log)
    ensures ConsumedIn(OnEvent(cfg, s, e).state.log)
         == ConsumedIn(s.log) + if e.Writeable? && s.ring != [] then [s.ring[0]] else []
  {
    OneConsumedPerWritable(cfg, s, e);
    if Completed(s, e).Some? {
      ParseGrows(cfg, s, Completed(s, e).value, e.answers);
    }
  }

  lemma ParseGrows(cfg: Config, s: State, msg: Bytes, a: Answers)
    ensures AcceptedIn(s.log) <= AcceptedIn(Parse(cfg, s, msg, a).state.log)
  {
    assert AcceptedIn(Decoding(cfg, s, msg).log) == AcceptedIn(s.log);
  }

  /** A pump that plays a writable event leaves at least one payload fewer of those that waited. */
  lemma {:induction false} PumpGrows(cfg: Config, s: State, events: seq<Event>)
    requires Inv(cfg, s)
    ensures Inv(cfg, Pump(cfg, s, events)) && Grows(s.log, Pump(cfg, s, events).log)
    ensures s.ring != [] && (exists i :: 0 <= i < |events| && events[i].Writeable?) ==>
      |ConsumedIn(Pump(cfg, s, events).log)| > |ConsumedIn(s.log)|
    decreases |events|
  {
    if events != [] {
      var s1 := OnEvent(cfg, s, events[0]).state;
      EventInv(cfg, s, events[0]);
      EventGrows(cfg, s, events[0]);
      PumpGrows(cfg, s1, events[1..]);
      if s.ring != [] && !events[0].Writeable? {
        assert |s1.ring| == |AcceptedIn(s1.log)| - |ConsumedIn(s1.log)| >= |s.ring|;
        if i :| 0 <= i < |events| && events[i].Writeable? {
          assert events[1..][i - 1].Writeable?;
        }
      }
    }
  }

  lemma ServiceGrows(cfg: Config, s: State, tick: Tick)
    requires Inv(cfg, s)
    ensures Inv(cfg, Service(cfg, s, tick).state) && Grows(s.log, Service(cfg, s, tick).state.log)
    ensures Answered(cfg, s, tick) ==> |ConsumedIn(Service(cfg, s, tick).state.log)| > |ConsumedIn(s.log)|
  {
    ServiceInv(cfg, s, tick);
    if !s.connected {
      if tick.connect.Started? {
        ConnectInv(cfg, s);
        PumpGrows(cfg, s.(connected := true), tick.connect.events);
      }
    } else {
      var b := Beat(cfg, s, tick.now, tick.later);
      BeatInv(cfg, s, tick.now, tick.later);
      BeatGrows(cfg, s, tick.now, tick.later);
      if b.code == LDS_OK {
        var s1 := AskWrite(b.state);
        NoteInv(cfg, b.state, WriteAsked);
        assert AcceptedIn(s1.log) == AcceptedIn(b.state.log) && ConsumedIn(s1.log) == ConsumedIn(b.state.log);
        PumpGrows(cfg, s1, tick.events);
        AskedMeansWaiting(b.state);
      }
    }
  }

  lemma BeatGrows(cfg: Config, s: State, now: Secs, later: Secs)
    ensures Grows(s.log, Beat(cfg, s, now, later).state.log)
  {
  }

  function Min(a: nat, b: nat): nat {
    if a <= b then a else b
  }

  lemma {:induction false} RunConsumes(cfg: Config, s: State, ticks: seq<Tick>)
    requires Inv(cfg, s)
    ensures var s' := Run(cfg, s, ticks);
      && Inv(cfg, s') && Grows(s.log, s'.log)
      && |ConsumedIn(s'.log)| >= |ConsumedIn(s.log)| + Min(CountAnswered(cfg, s, ticks), |s.ring|)
    decreases |ticks|
  {
    if ticks != [] {
      var s1 := Service(cfg, s, ticks[0]).state;
      ServiceGrows(cfg, s, ticks[0]);
      RunConsumes(cfg, s1, ticks[1..]);
      assert |s1.ring| == |AcceptedIn(s1.log)| - |ConsumedIn(s1.log)|;
    }
  }

  /** From any point of any run on: for every service call whose request to write is answered, one more of the payloads
      that waited at that point has left the ring, in order, whatever else happens, failed calls and lost connections
      included; and without write failures it is on the wire. */
  lemma QueueDrains(cfg: Config, start: Secs, before: seq<Tick>, ticks: seq<Tick>)
    ensures var s := Run(cfg, Init(start), before); var s' := Run(cfg, s, ticks);
      var gone := ConsumedIn(s.log) + s.ring[..Min(CountAnswered(cfg, s, ticks), |s.ring|)];
      gone <= ConsumedIn(s'.log) && (NoWriteFailures(s'.log) ==> gone <= WroteIn(s'.log))
  {
    var s := Run(cfg, Init(start), before);
    ReachableInv(cfg, start, before);
    RunConsumes(cfg, s, ticks);
    var s' := Run(cfg, s, ticks);
    var k := Min(CountAnswered(cfg, s, ticks), |s.ring|);
    var gone := ConsumedIn(s.log) + s.ring[..k];
    assert gone <= AcceptedIn(s.log) <= AcceptedIn(s'.log);
    assert ConsumedIn(s'.log) <= AcceptedIn(s'.log);
  }
}
