/** What holds after every run: any number of `ld_service` calls, with any events of the surroundings
    inside them. */
module Runs {
  import opened Prelude
  import opened Json
  import opened Envelope
  import opened Session
  import opened History
  import opened Ledger
  import opened Bookkeeping
  import opened Queue

  ghost predicate Inv(cfg: Config, s: State) {
    Kept(cfg, s) && Booked(cfg, s) && Bounded(cfg, s) && Opened(cfg, s)
  }

  lemma EventInv(cfg: Config, s: State, e: Event)
    requires Inv(cfg, s)
    ensures Inv(cfg, OnEvent(cfg, s, e).state)
  {
    EventKeeps(cfg, s, e);
    EventBooked(cfg, s, e);
    EventBounded(cfg, s, e);
    EventOpened(cfg, s, e);
  }

  lemma {:induction false} PumpInv(cfg: Config, s: State, events: seq<Event>)
    requires Inv(cfg, s)
    ensures Inv(cfg, Pump(cfg, s, events))
    decreases |events|
  {
    if events != [] {
      EventInv(cfg, s, events[0]);
      PumpInv(cfg, OnEvent(cfg, s, events[0]).state, events[1..]);
    }
  }

  /** Observations without an account of their own, made by `ld_service` itself. */
  lemma NoteInv(cfg: Config, s: State, o: Obs)
    requires Inv(cfg, s)
    requires o.WriteAsked? || (o.Returned? && o.code != LDS_ACK_MISSED)
    ensures Inv(cfg, Note(s, o))
  {
  }

  lemma BeatInv(cfg: Config, s: State, now: Secs, later: Secs)
    requires Inv(cfg, s)
    ensures Inv(cfg, Beat(cfg, s, now, later).state)
  {
    BeatKeeps(cfg, s, now, later);
    BeatBooked(cfg, s, now, later);
    BeatBounded(cfg, s, now, later);
    BeatOpened(cfg, s, now, later);
  }

  lemma ConnectInv(cfg: Config, s: State)
    requires Inv(cfg, s)
    ensures Inv(cfg, s.(connected := true))
  {
  }

  lemma ServiceInv(cfg: Config, s: State, tick: Tick)
    requires Inv(cfg, s)
    ensures Inv(cfg, Service(cfg, s, tick).state)
  {
    if !s.connected {
      if tick.connect.Unreachable? {
        NoteInv(cfg, s, Returned(LDS_CONNECTION_ERR));
      } else {
        ConnectInv(cfg, s);
        var s1 := Pump(cfg, s.(connected := true), tick.connect.events);
        PumpInv(cfg, s.(connected := true), tick.connect.events);
        NoteInv(cfg, s1, Returned(if s1.connected then LDS_OK else LDS_CONNECTION_ERR));
      }
    } else {
      BeatInv(cfg, s, tick.now, tick.later);
      var b := Beat(cfg, s, tick.now, tick.later);
      if b.code == LDS_OK {
        NoteInv(cfg, b.state, WriteAsked);
        PumpInv(cfg, AskWrite(b.state), tick.events);
        NoteInv(cfg, Pump(cfg, AskWrite(b.state), tick.events), Returned(LDS_OK));
      }
    }
  }

  lemma {:induction false} RunInv(cfg: Config, s: State, ticks: seq<Tick>)
    requires Inv(cfg, s)
    ensures Inv(cfg, Run(cfg, s, ticks))
    decreases |ticks|
  {
    if ticks != [] {
      ServiceInv(cfg, s, ticks[0]);
      RunInv(cfg, Service(cfg, s, ticks[0]).state, ticks[1..]);
    }
  }

  /** Every state a fresh context can reach satisfies the invariant. */
  lemma ReachableInv(cfg: Config, start: Secs, ticks: seq<Tick>)
    ensures Inv(cfg, Run(cfg, Init(start), ticks))
  {
    RunInv(cfg, Init(start), ticks);
  }

  /* ---- the heartbeat detector ---- */

  /** The ledger, across reconnects and refused insertions; at no time have two heartbeats been queued beyond the
      ACKs received. The counter cannot overflow a C `int` in a run with fewer than 2^31 observations. */
  lemma HeartbeatLedger(cfg: Config, start: Secs, ticks: seq<Tick>)
    ensures var s := Run(cfg, Init(start), ticks);
      && s.hbCount == BeatsAccepted(s.log) + Misses(s.log) - Acks(cfg, s.log)
      && BeatsAccepted(s.log) <= Acks(cfg, s.log) + 1
      && s.hbCount <= Length(s.log) && -s.hbCount <= Length(s.log)
  {
    ReachableInv(cfg, start, ticks);
    AccountsFitLog(cfg, Run(cfg, Init(start), ticks).log);
  }

  lemma {:induction false} AccountsFitLog(cfg: Config, log: Log)
    ensures BeatsAccepted(log) + Misses(log) <= Length(log)
    ensures Acks(cfg, log) <= Length(log)
  {
    if log.Snoc? {
      AccountsFitLog(cfg, log.init);
    }
  }

  /** The detector is exact: after any run, a service call reports a missed ACK if and only if it finds
      the connection up, the timer due, and more heartbeats queued (and misses reported) than ACKs
      received. Otherwise a due timer queues exactly one heartbeat, room permitting. */
  lemma DetectorIsExact(cfg: Config, start: Secs, ticks: seq<Tick>, tick: Tick)
    ensures var s := Run(cfg, Init(start), ticks); var o := Service(cfg, s, tick);
      o.code == LDS_ACK_MISSED <==>
        s.connected && Due(s, tick.now) && BeatsAccepted(s.log) + Misses(s.log) > Acks(cfg, s.log)
    ensures var s := Run(cfg, Init(start), ticks); var o := Service(cfg, s, tick);
      s.connected && Due(s, tick.now) && BeatsAccepted(s.log) + Misses(s.log) <= Acks(cfg, s.log) ==>
        if |s.ring| < cfg.capacity then
          o.code == LDS_OK && BeatsAccepted(o.state.log) == BeatsAccepted(s.log) + 1
        else
          && o.code == LDS_CANTFIT_HEARTBEAT_ERR && o.state.hbCount == s.hbCount
          && AcceptedIn(o.state.log) == AcceptedIn(s.log)
  {
    ReachableInv(cfg, start, ticks);
    var s := Run(cfg, Init(start), ticks);
    var b := Beat(cfg, s, tick.now, tick.later);
    PayloadKinds(s.lastSeq, Null);
    if s.connected && b.code == LDS_OK {
      PumpQueuesNoBeats(cfg, AskWrite(b.state), tick.events);
    }
  }

  /** Only the clock tick queues heartbeats and reports misses: the event pump never does. */
  lemma {:induction false} PumpQueuesNoBeats(cfg: Config, s: State, events: seq<Event>)
    ensures BeatsAccepted(Pump(cfg, s, events).log) == BeatsAccepted(s.log)
    ensures Misses(Pump(cfg, s, events).log) == Misses(s.log)
    decreases |events|
  {
    if events != [] {
      EventLeaves(cfg, s, events[0]);
      PumpQueuesNoBeats(cfg, OnEvent(cfg, s, events[0]).state, events[1..]);
    }
  }

  /** Neither heartbeats queued nor misses reported nor payloads consumed between two logs. */
  ghost predicate SameAccounts(before: Log, after: Log) {
    && BeatsAccepted(after) == BeatsAccepted(before)
    && Misses(after) == Misses(before)
    && ConsumedIn(after) == ConsumedIn(before)
  }

  /** What an event cannot do: queue a heartbeat, report a miss, consume without being a writable event. */
  lemma EventLeaves(cfg: Config, s: State, e: Event)
    ensures BeatsAccepted(OnEvent(cfg, s, e).state.log) == BeatsAccepted(s.log)
    ensures Misses(OnEvent(cfg, s, e).state.log) == Misses(s.log)
    ensures !e.Writeable? ==> SameAccounts(s.log, OnEvent(cfg, s, e).state.log)
  {
    if e.Fragment? {
      ParseLeaves(cfg, s, e.data, e.answers);
      if s.rx.Some? {
        ParseLeaves(cfg, s, s.rx.value + StrNCpy(e.data), e.answers);
      }
    }
  }

  lemma ParseLeaves(cfg: Config, s: State, msg: Bytes, a: Answers)
    ensures SameAccounts(s.log, Parse(cfg, s, msg, a).state.log)
  {
    assert SameAccounts(s.log, Decoding(cfg, s, msg).log);
    ObeyLeaves(cfg, Decoding(cfg, s, msg), MeaningOf(cfg, msg), a);
  }

  lemma ObeyLeaves(cfg: Config, s: State, m: Message, a: Answers)
    ensures SameAccounts(s.log, Obey(cfg, s, m, a).state.log)
  {
  }

  /** The codes tell the misses: the log counts exactly the calls that returned the missed-ACK code. */
  lemma {:induction false} MissesAreReturned(cfg: Config, s: State, ticks: seq<Tick>)
    ensures Misses(Run(cfg, s, ticks).log) == Misses(s.log) + Count(Codes(cfg, s, ticks), LDS_ACK_MISSED)
    decreases |ticks|
  {
    if ticks != [] {
      var o := Service(cfg, s, ticks[0]);
      ServiceMisses(cfg, s, ticks[0]);
      MissesAreReturned(cfg, o.state, ticks[1..]);
      assert Codes(cfg, s, ticks)[1..] == Codes(cfg, o.state, ticks[1..]);
    }
  }

  function Count(codes: seq<int>, code: int): nat {
    if codes == [] then 0 else (if codes[0] == code then 1 else 0) + Count(codes[1..], code)
  }

  lemma ServiceMisses(cfg: Config, s: State, tick: Tick)
    ensures var o := Service(cfg, s, tick);
      Misses(o.state.log) == Misses(s.log) + if o.code == LDS_ACK_MISSED then 1 else 0
  {
    if !s.connected && tick.connect.Started? {
      PumpQueuesNoBeats(cfg, s.(connected := true), tick.connect.events);
    }
    var b := Beat(cfg, s, tick.now, tick.later);
    if s.connected && b.code == LDS_OK {
      PumpQueuesNoBeats(cfg, AskWrite(b.state), tick.events);
      assert Misses(AskWrite(b.state).log) == Misses(s.log);
    }
  }

  /* ---- the transmit ring ---- */

  /** First in, first out, nothing lost: what the ring took is what was consumed followed by what waits,
      and without write failures what was consumed is what went over the wire. */
  lemma FifoConservation(cfg: Config, start: Secs, ticks: seq<Tick>)
    ensures var s := Run(cfg, Init(start), ticks);
      && AcceptedIn(s.log) == ConsumedIn(s.log) + s.ring
      && (NoWriteFailures(s.log) ==> AcceptedIn(s.log) == WroteIn(s.log) + s.ring)
      && |s.ring| <= cfg.capacity
  {
    ReachableInv(cfg, start, ticks);
  }

  /** Only a writable event consumes, and it consumes the payload that waited longest. */
  lemma OneConsumedPerWritable(cfg: Config, s: State, e: Event)
    ensures ConsumedIn(OnEvent(cfg, s, e).state.log)
         == ConsumedIn(s.log) + if e.Writeable? && s.ring != [] then [s.ring[0]] else []
  {
    EventLeaves(cfg, s, e);
  }

  /** If the gateway acknowledges only heartbeats it was sent, then after k HELLOs at most k IDENTIFYs and
      one heartbeat wait, and a ring with room for k + 1 payloads has never refused one. */
  lemma QueueSuffices(cfg: Config, start: Secs, ticks: seq<Tick>)
    requires HonestAcks(cfg, Run(cfg, Init(start), ticks).log)
    ensures var s := Run(cfg, Init(start), ticks); var k := Hellos(cfg, s.log);
      && Beats(s.ring) <= 1
      && |s.ring| <= k + 1
      && (k + 1 <= cfg.capacity ==> NoRefusals(s.log))
  {
    ReachableInv(cfg, start, ticks);
  }

  /** No heartbeat enters the ring before a HELLO was delivered. And if a HELLO opens the run, the token
      for an IDENTIFY is there and the ring has room at all, the first payload accepted is an IDENTIFY,
      and without write failures so is the first on the wire. */
  lemma IdentifyComesFirst(cfg: Config, start: Secs, ticks: seq<Tick>)
    ensures var s := Run(cfg, Init(start), ticks);
      && NoEarlyBeat(cfg, s.log)
      && (HelloOpens(cfg, s.log) && cfg.capacity > 0 && cfg.identify.Some? ==>
            && (AcceptedIn(s.log) != [] ==> IsIdentify(AcceptedIn(s.log)[0]))
            && (NoWriteFailures(s.log) && WroteIn(s.log) != [] ==> IsIdentify(WroteIn(s.log)[0])))
  {
    ReachableInv(cfg, start, ticks);
    var s := Run(cfg, Init(start), ticks);
    if NoWriteFailures(s.log) && WroteIn(s.log) != [] {
      assert AcceptedIn(s.log)[0] == WroteIn(s.log)[0];
    }
  }

  /* ---- session and sequence ---- */

  /** No message from the given one on sets the session. */
  ghost predicate SessionUntouched(cfg: Config, ms: seq<Bytes>, from: nat) {
    forall j :: from <= j < |ms| ==> !SetsSession(MeaningOf(cfg, ms[j]))
  }

  /** No message from the given one on sets the sequence number. */
  ghost predicate SeqUntouched(cfg: Config, ms: seq<Bytes>, from: nat) {
    forall j :: from <= j < |ms| ==> !SetsSeq(cfg.read(ms[j]))
  }

  /** The stored session id is that of the last READY that named one, unless the session was invalidated
      since; without either it is absent. */
  lemma SessionIsOfLastReady(cfg: Config, start: Secs, ticks: seq<Tick>, k: nat)
    ensures var s := Run(cfg, Init(start), ticks); var ms := DeliveredIn(s.log);
      && (SessionUntouched(cfg, ms, 0) ==> s.session == None)
      && (k < |ms| && SetsSession(MeaningOf(cfg, ms[k])) && SessionUntouched(cfg, ms, k + 1)
          ==> s.session == SessionAfter(MeaningOf(cfg, ms[k]), None))
  {
    ReachableInv(cfg, start, ticks);
    LastSetterWins(cfg, Run(cfg, Init(start), ticks).log, k);
  }

  lemma {:induction false} LastSetterWins(cfg: Config, log: Log, k: nat)
    ensures var ms := DeliveredIn(log);
      && (SessionUntouched(cfg, ms, 0) ==> SessionIn(cfg, log) == None)
      && (k < |ms| && SetsSession(MeaningOf(cfg, ms[k])) && SessionUntouched(cfg, ms, k + 1)
          ==> SessionIn(cfg, log) == SessionAfter(MeaningOf(cfg, ms[k]), None))
  {
    if log.Snoc? {
      LastSetterWins(cfg, log.init, k);
      if log.last.Delivered? {
        var before := DeliveredIn(log.init);
        UntouchedSplits(cfg, before, log.last.msg, 0);
        UntouchedSplits(cfg, before, log.last.msg, k + 1);
      }
    }
  }

  lemma UntouchedSplits(cfg: Config, before: seq<Bytes>, msg: Bytes, from: nat)
    ensures from <= |before| ==>
      (SessionUntouched(cfg, before + [msg], from)
       <==> SessionUntouched(cfg, before, from) && !SetsSession(MeaningOf(cfg, msg)))
    ensures from <= |before| ==>
      (SeqUntouched(cfg, before + [msg], from) <==> SeqUntouched(cfg, before, from) && !SetsSeq(cfg.read(msg)))
  {
    var ms := before + [msg];
    assert ms[|before|] == msg;
    assert forall j :: 0 <= j < |before| ==> before[j] == ms[j];
  }

  /** `last_seq` is the last `s` the decoder visited since the session was last invalidated, 0 if there is
      none; and every heartbeat carries the number of the moment it was queued. */
  lemma SeqIsLastVisited(cfg: Config, start: Secs, ticks: seq<Tick>, k: nat)
    ensures var s := Run(cfg, Init(start), ticks); var ms := DeliveredIn(s.log);
      && (SeqUntouched(cfg, ms, 0) ==> s.lastSeq == 0)
      && (k < |ms| && SetsSeq(cfg.read(ms[k])) && SeqUntouched(cfg, ms, k + 1)
          ==> s.lastSeq == SeqNumberAfter(cfg.read(ms[k]), 0))
      && Stamped(cfg, s.log)
  {
    ReachableInv(cfg, start, ticks);
    LastNumberWins(cfg, Run(cfg, Init(start), ticks).log, k);
  }

  lemma {:induction false} LastNumberWins(cfg: Config, log: Log, k: nat)
    ensures var ms := DeliveredIn(log);
      && (SeqUntouched(cfg, ms, 0) ==> SeqIn(cfg, log) == 0)
      && (k < |ms| && SetsSeq(cfg.read(ms[k])) && SeqUntouched(cfg, ms, k + 1)
          ==> SeqIn(cfg, log) == SeqNumberAfter(cfg.read(ms[k]), 0))
  {
    if log.Snoc? {
      LastNumberWins(cfg, log.init, k);
      if log.last.Delivered? {
        var before := DeliveredIn(log.init);
        UntouchedSplits(cfg, before, log.last.msg, 0);
        UntouchedSplits(cfg, before, log.last.msg, k + 1);
      }
    }
  }

  /** The user is called for dispatches exactly as the delivered messages ask, in order: once with the
      mapped reason for a listed type (for READY only if it names a session), never otherwise. And each
      call finds the session id already up to date. */
  lemma CallbacksAreOwed(cfg: Config, start: Secs, ticks: seq<Tick>)
    requires TableReasons(cfg)
    ensures var s := Run(cfg, Init(start), ticks);
      CallsIn(s.log) == CallsOwed(cfg, s.log) && SeesSession(cfg, s.log)
  {
    ReachableInv(cfg, start, ticks);
  }
}
