/** The heartbeat ledger and the transmit FIFO: what every event and every clock tick keeps. */
module Ledger {
  import opened Prelude
  import opened Json
  import opened Envelope
  import opened Dispatch
  import opened Session
  import opened History

  /** The ledger: the counter balances accepted heartbeats and reported misses against ACKs. */
  ghost predicate Balanced(cfg: Config, s: State) {
    s.hbCount == BeatsAccepted(s.log) + Misses(s.log) - Acks(cfg, s.log)
  }

  /** Conservation: every accepted payload was consumed or still waits, in order. */
  ghost predicate Conserved(cfg: Config, s: State) {
    && AcceptedIn(s.log) == ConsumedIn(s.log) + s.ring
    && |s.ring| <= cfg.capacity
  }

  /** Heartbeats that are neither on the wire nor lost to a failed write wait in the ring. */
  ghost predicate BeatsTracked(s: State) {
    BeatsWrote(s.log) + Beats(s.ring) <= BeatsAccepted(s.log)
  }

  /** Unless a write failed, the wire carries what was consumed. */
  ghost predicate Wired(s: State) {
    NoWriteFailures(s.log) ==> WroteIn(s.log) == ConsumedIn(s.log)
  }

  /** Never two heartbeats without an ACK between them. */
  ghost predicate OneAtATime(cfg: Config, s: State) {
    BeatsAccepted(s.log) <= Acks(cfg, s.log) + 1
  }

  ghost predicate Kept(cfg: Config, s: State) {
    Balanced(cfg, s) && OneAtATime(cfg, s) && Conserved(cfg, s) && BeatsTracked(s) && Wired(s)
  }

  /** Observations that touch neither the ring nor the heartbeat accounts. */
  predicate Neutral(cfg: Config, o: Obs) {
    match o
    case Delivered(msg) => MeaningOf(cfg, msg) != Ack
    case Returned(code) => code != LDS_ACK_MISSED
    case Refused(_) => true
    case WriteAsked => true
    case Called(_, _, _) => true
    case _ => false
  }

  lemma NoteKeeps(cfg: Config, s: State, o: Obs)
    requires Kept(cfg, s) && Neutral(cfg, o)
    ensures Kept(cfg, Note(s, o))
  {
  }

  lemma InsertKeeps(cfg: Config, s: State, p: Json)
    requires Kept(cfg, s) && (IsHeartbeat(p) ==> s.hbCount <= 0)
    ensures var s' := Insert(cfg, s, p);
      Kept(cfg, if |s.ring| < cfg.capacity && IsHeartbeat(p) then s'.(hbCount := s'.hbCount + 1) else s')
  {
    BeatsAppend(s.ring, p);
    assert ConsumedIn(s.log) + (s.ring + [p]) == ConsumedIn(s.log) + s.ring + [p];
  }

  lemma ParseKeeps(cfg: Config, s: State, msg: Bytes, a: Answers)
    requires Kept(cfg, s)
    ensures Kept(cfg, Parse(cfg, s, msg, a).state)
  {
    var s1 := Decoding(cfg, s, msg);
    if MeaningOf(cfg, msg) != Ack {
      NoteKeeps(cfg, s, Delivered(msg));
      assert Kept(cfg, s1);
      ObeyKeeps(cfg, s1, MeaningOf(cfg, msg), a);
    }
  }

  lemma GreetKeeps(cfg: Config, s: State, interval: nat, a: Answers)
    requires Kept(cfg, s)
    ensures Kept(cfg, Greet(cfg, s, interval, a).state)
  {
    var body := if s.session.None? then cfg.identify else a.staleIdentify;
    if body.Some? {
      PayloadKinds(0, body.value);
      InsertKeeps(cfg, s.(interval := interval), Identify(body.value));
    }
  }

  lemma ObeyKeeps(cfg: Config, s: State, m: Message, a: Answers)
    requires Kept(cfg, s) && m != Ack
    ensures Kept(cfg, Obey(cfg, s, m, a).state)
  {
    match m {
      case Hello(interval) => GreetKeeps(cfg, s, interval, a);
      case Ready(reason, data) =>
        var id := StringValue(FirstValue(EntriesOf(data), SESSION_ID));
        NoteKeeps(cfg, s.(session := id), Called(reason, data, id));
      case Listed(reason, data) =>
        NoteKeeps(cfg, s, Called(reason, data, s.session));
      case _ =>
    }
  }

  lemma SendKeeps(cfg: Config, s: State, writeResult: int)
    requires Kept(cfg, s)
    ensures Kept(cfg, Send(cfg, s, writeResult).state)
  {
    if s.ring != [] {
      var p := s.ring[0];
      var s1 := Note(s.(ring := s.ring[1..]), Consumed(p));
      assert ConsumedIn(s.log) + s.ring == ConsumedIn(s.log) + [p] + s.ring[1..];
      assert NoWriteFailures(s1.log) == NoWriteFailures(s.log);
      WrittenKeeps(cfg, s1, p);
    }
  }

  /** A payload that has left the ring is written, or its write fails. */
  lemma WrittenKeeps(cfg: Config, s: State, p: Json)
    requires Balanced(cfg, s) && OneAtATime(cfg, s) && Conserved(cfg, s)
    requires BeatsWrote(s.log) + Beats([p] + s.ring) <= BeatsAccepted(s.log)
    requires NoWriteFailures(s.log) ==> WroteIn(s.log) + [p] == ConsumedIn(s.log)
    ensures Kept(cfg, Note(s, Wrote(p))) && Kept(cfg, Note(s, WriteFailed(p)))
  {
    assert ([p] + s.ring)[1..] == s.ring;
  }

  lemma EventKeeps(cfg: Config, s: State, e: Event)
    requires Kept(cfg, s)
    ensures Kept(cfg, OnEvent(cfg, s, e).state)
  {
    match e {
      case Fragment(data, first, final, a) =>
        ParseKeeps(cfg, s, data, a);
        if s.rx.Some? {
          ParseKeeps(cfg, s, s.rx.value + StrNCpy(data), a);
        }
      case Writeable(writeResult) => SendKeeps(cfg, s, writeResult);
      case _ =>
    }
  }

  lemma BeatKeeps(cfg: Config, s: State, now: Secs, later: Secs)
    requires Kept(cfg, s)
    ensures Kept(cfg, Beat(cfg, s, now, later).state)
  {
    var hb := Heartbeat(s.lastSeq);
    PayloadKinds(s.lastSeq, Null);
    if s.hbCount <= 0 {
      InsertKeeps(cfg, s, hb);
    }
    if Due(s, now) && s.hbCount + 1 <= 1 && |s.ring| >= cfg.capacity {
      NoteKeeps(cfg, Note(s, Refused(hb)), Returned(LDS_CANTFIT_HEARTBEAT_ERR));
    }
  }
}
