/** How much can wait in the transmit ring, and in which order the first payloads enter it. */
module Queue {
  import opened Prelude
  import opened Json
  import opened Envelope
  import opened Dispatch
  import opened Session
  import opened History
  import opened Ledger

  /** The gateway acknowledges only heartbeats that were sent: at no point more ACKs than that. */
  predicate HonestAcks(cfg: Config, log: Log) {
    log.Snoc? ==> Acks(cfg, log) <= BeatsWrote(log) && HonestAcks(cfg, log.init)
  }

  /** Nothing is delivered before the first HELLO. */
  predicate HelloOpens(cfg: Config, log: Log) {
    match log
    case Empty => true
    case Snoc(init, Delivered(msg)) => (Hellos(cfg, init) > 0 || MeaningOf(cfg, msg).Hello?) && HelloOpens(cfg, init)
    case Snoc(init, _) => HelloOpens(cfg, init)
  }

  /** No heartbeat was queued before a HELLO had been delivered. */
  predicate NoEarlyBeat(cfg: Config, log: Log) {
    match log
    case Empty => true
    case Snoc(init, Accepted(p)) => (IsHeartbeat(p) ==> Hellos(cfg, init) > 0) && NoEarlyBeat(cfg, init)
    case Snoc(init, _) => NoEarlyBeat(cfg, init)
  }

  /** With honest ACKs at most one heartbeat waits, beside at most one IDENTIFY per HELLO; so a ring with
      room for one payload more than there were HELLOs has refused nothing. */
  ghost predicate Bounded(cfg: Config, s: State) {
    HonestAcks(cfg, s.log) ==>
      && Beats(s.ring) <= 1
      && |s.ring| - Beats(s.ring) <= Hellos(cfg, s.log)
      && (Hellos(cfg, s.log) + 1 <= cfg.capacity ==> NoRefusals(s.log))
  }

  /** The ring takes nothing before the first HELLO, and if a HELLO opens the run and an IDENTIFY can be
      built, the first payload it takes is an IDENTIFY. */
  ghost predicate Opened(cfg: Config, s: State) {
    && NoEarlyBeat(cfg, s.log)
    && (s.interval != 0 || AcceptedIn(s.log) != [] ==> Hellos(cfg, s.log) > 0)
    && (HelloOpens(cfg, s.log) ==>
          if Hellos(cfg, s.log) == 0 then s.session.None?
          else cfg.capacity > 0 && cfg.identify.Some? ==> LedByIdentify(AcceptedIn(s.log)))
  }

  predicate LedByIdentify(ps: seq<Json>) {
    ps != [] && IsIdentify(ps[0])
  }

  /* ---- the bound ---- */

  lemma NoteBounded(cfg: Config, s: State, o: Obs)
    requires Bounded(cfg, s) && !o.Refused?
    ensures Bounded(cfg, Note(s, o))
  {
  }

  /** What `Insert` does to the bound, for a ring that has room whenever the capacity is sufficient. */
  lemma InsertBounded(cfg: Config, s: State, p: Json, k: nat)
    requires HonestAcks(cfg, s.log) ==>
      && Beats(s.ring) <= 1 && (IsHeartbeat(p) ==> Beats(s.ring) == 0)
      && |s.ring| - Beats(s.ring) <= k
      && Hellos(cfg, s.log) == k + (if IsHeartbeat(p) then 0 else 1)
      && (Hellos(cfg, s.log) + 1 <= cfg.capacity ==> NoRefusals(s.log))
    ensures Bounded(cfg, Insert(cfg, s, p))
  {
    BeatsAppend(s.ring, p);
  }

  lemma ParseBounded(cfg: Config, s: State, msg: Bytes, a: Answers)
    requires Bounded(cfg, s)
    ensures Bounded(cfg, Parse(cfg, s, msg, a).state)
  {
    var s1 := Decoding(cfg, s, msg);
    NoteBounded(cfg, s, Delivered(msg));
    assert Bounded(cfg, s1);
    if MeaningOf(cfg, msg).Hello? {
      GreetBounded(cfg, s1, MeaningOf(cfg, msg).interval, a, Hellos(cfg, s.log));
    } else {
      ObeyBounded(cfg, s1, MeaningOf(cfg, msg), a);
    }
  }

  /** The HELLO just delivered makes room in the bound for its IDENTIFY. */
  lemma GreetBounded(cfg: Config, s: State, interval: nat, a: Answers, k: nat)
    requires Bounded(cfg, s) && Hellos(cfg, s.log) == k + 1
    requires HonestAcks(cfg, s.log) ==> |s.ring| - Beats(s.ring) <= k
    ensures Bounded(cfg, Greet(cfg, s, interval, a).state)
  {
    var body := if s.session.None? then cfg.identify else a.staleIdentify;
    if body.Some? {
      PayloadKinds(0, body.value);
      InsertBounded(cfg, s.(interval := interval), Identify(body.value), k);
    }
  }

  lemma ObeyBounded(cfg: Config, s: State, m: Message, a: Answers)
    requires Bounded(cfg, s) && !m.Hello?
    ensures Bounded(cfg, Obey(cfg, s, m, a).state)
  {
  }

  lemma SendBounded(cfg: Config, s: State, writeResult: int)
    requires Bounded(cfg, s)
    ensures Bounded(cfg, Send(cfg, s, writeResult).state)
  {
    if s.ring != [] {
      var s1 := Note(s.(ring := s.ring[1..]), Consumed(s.ring[0]));
      BeatsAtMostAll(s.ring[1..]);
      assert Bounded(cfg, s1);
      NoteBounded(cfg, s1, Wrote(s.ring[0]));
      NoteBounded(cfg, s1, WriteFailed(s.ring[0]));
    }
  }

  lemma EventBounded(cfg: Config, s: State, e: Event)
    requires Bounded(cfg, s)
    ensures Bounded(cfg, OnEvent(cfg, s, e).state)
  {
    match e {
      case Fragment(data, first, final, a) =>
        ParseBounded(cfg, s, data, a);
        if s.rx.Some? {
          ParseBounded(cfg, s, s.rx.value + StrNCpy(data), a);
        }
      case Writeable(writeResult) => SendBounded(cfg, s, writeResult);
      case ConnectionError(_) => NoteBounded(cfg, s, Called(CALLBACK_WS_CONNECTION_ERROR, None, s.session));
      case Established(_, _) => NoteBounded(cfg, s, Called(CALLBACK_WS_ESTABLISHED, None, s.session));
      case _ =>
    }
  }

  /** A heartbeat is queued only when none waits: the ledger says the counter is at least the number
      of waiting heartbeats. */
  lemma BeatBounded(cfg: Config, s: State, now: Secs, later: Secs)
    requires Bounded(cfg, s) && Kept(cfg, s)
    ensures Bounded(cfg, Beat(cfg, s, now, later).state)
  {
    var hb := Heartbeat(s.lastSeq);
    PayloadKinds(s.lastSeq, Null);
    NoteBounded(cfg, s.(hbCount := s.hbCount + 1), Returned(LDS_ACK_MISSED));
    if s.hbCount <= 0 {
      assert HonestAcks(cfg, s.log) ==> Acks(cfg, s.log) <= BeatsWrote(s.log);
      InsertBounded(cfg, s, hb, Hellos(cfg, s.log));
      if |s.ring| >= cfg.capacity {
        NoteBounded(cfg, Note(s, Refused(hb)), Returned(LDS_CANTFIT_HEARTBEAT_ERR));
      }
    }
  }

  /* ---- the opening ---- */

  lemma NoteOpened(cfg: Config, s: State, o: Obs)
    requires Opened(cfg, s) && !o.Accepted?
    requires o.Delivered? ==> Hellos(cfg, s.log) > 0 || !MeaningOf(cfg, o.msg).Hello?
    ensures Opened(cfg, Note(s, o))
  {
  }

  lemma InsertOpened(cfg: Config, s: State, p: Json)
    requires Opened(cfg, s) && Hellos(cfg, s.log) > 0
    requires HelloOpens(cfg, s.log) && cfg.capacity > 0 && cfg.identify.Some? ==> LedByIdentify(AcceptedIn(s.log))
    ensures Opened(cfg, Insert(cfg, s, p))
  {
  }

  /** The first HELLO: nothing was accepted yet, so the ring is empty and takes the IDENTIFY. */
  lemma FirstHelloOpens(cfg: Config, s: State, msg: Bytes, a: Answers)
    requires Opened(cfg, s) && Conserved(cfg, s)
    requires Hellos(cfg, s.log) == 0 && MeaningOf(cfg, msg).Hello?
    ensures Opened(cfg, Parse(cfg, s, msg, a).state)
  {
  }

  lemma ParseOpened(cfg: Config, s: State, msg: Bytes, a: Answers)
    requires Opened(cfg, s) && Conserved(cfg, s)
    ensures Opened(cfg, Parse(cfg, s, msg, a).state)
  {
    var m := MeaningOf(cfg, msg);
    var s1 := Decoding(cfg, s, msg);
    if m.Hello? && Hellos(cfg, s.log) == 0 {
      FirstHelloOpens(cfg, s, msg, a);
    } else {
      NoteOpened(cfg, s, Delivered(msg));
      assert Opened(cfg, s1);
      ObeyOpened(cfg, s1, m, a);
    }
  }

  lemma ObeyOpened(cfg: Config, s: State, m: Message, a: Answers)
    requires Opened(cfg, s) && (m.Hello? ==> Hellos(cfg, s.log) > 0)
    requires HelloOpens(cfg, s.log) ==> Hellos(cfg, s.log) > 0
    ensures Opened(cfg, Obey(cfg, s, m, a).state)
  {
  }

  lemma SendOpened(cfg: Config, s: State, writeResult: int)
    requires Opened(cfg, s)
    ensures Opened(cfg, Send(cfg, s, writeResult).state)
  {
    if s.ring != [] {
      var s1 := Note(s.(ring := s.ring[1..]), Consumed(s.ring[0]));
      assert Opened(cfg, s1);
      NoteOpened(cfg, s1, Wrote(s.ring[0]));
      NoteOpened(cfg, s1, WriteFailed(s.ring[0]));
    }
  }

  lemma EventOpened(cfg: Config, s: State, e: Event)
    requires Opened(cfg, s) && Conserved(cfg, s)
    ensures Opened(cfg, OnEvent(cfg, s, e).state)
  {
    match e {
      case Fragment(data, first, final, a) =>
        ParseOpened(cfg, s, data, a);
        if s.rx.Some? {
          ParseOpened(cfg, s, s.rx.value + StrNCpy(data), a);
        }
      case Writeable(writeResult) => SendOpened(cfg, s, writeResult);
      case ConnectionError(_) => NoteOpened(cfg, s, Called(CALLBACK_WS_CONNECTION_ERROR, None, s.session));
      case Established(_, _) => NoteOpened(cfg, s, Called(CALLBACK_WS_ESTABLISHED, None, s.session));
      case _ =>
    }
  }

  lemma BeatOpened(cfg: Config, s: State, now: Secs, later: Secs)
    requires Opened(cfg, s)
    ensures Opened(cfg, Beat(cfg, s, now, later).state)
  {
    var hb := Heartbeat(s.lastSeq);
    if Due(s, now) {
      InsertOpened(cfg, s, hb);
      NoteOpened(cfg, s, Returned(LDS_ACK_MISSED));
      NoteOpened(cfg, s, Refused(hb));
      NoteOpened(cfg, Note(s, Refused(hb)), Returned(LDS_CANTFIT_HEARTBEAT_ERR));
    }
  }
}
