/** What the log of a session says, read without looking at the state. */
module History {
  import opened Prelude
  import opened Json
  import opened Envelope
  import opened Session

  /** A payload that leads with opcode 1. */
  predicate IsHeartbeat(p: Json) {
    p.Object? && p.entries != [] && p.entries[0] == Entry("op", Integer(1))
  }

  /** A payload that leads with opcode 2. */
  predicate IsIdentify(p: Json) {
    p.Object? && p.entries != [] && p.entries[0] == Entry("op", Integer(2))
  }

  /** Heartbeats and IDENTIFYs are told apart, and a receiver that decodes them finds their opcodes. */
  lemma PayloadKinds(seqno: int, data: Json)
    ensures IsHeartbeat(Heartbeat(seqno)) && !IsIdentify(Heartbeat(seqno))
    ensures IsIdentify(Identify(data)) && !IsHeartbeat(Identify(data))
    ensures Decode(Heartbeat(seqno).entries) == Decoded(true, OPCODE_HEARTBEAT, Some(Integer(seqno)), None, None)
    ensures Decode(Identify(data).entries) == Decoded(true, OPCODE_IDENTIFY, Some(data), None, None)
  {
    EnvelopeRoundTrip(Integer(OPCODE_HEARTBEAT), Some(Integer(seqno)), None, None);
    EnvelopeRoundTrip(Integer(OPCODE_IDENTIFY), Some(data), None, None);
  }

  /** The number of heartbeats among some payloads. */
  function Beats(ps: seq<Json>): nat {
    if ps == [] then 0 else (if IsHeartbeat(ps[0]) then 1 else 0) + Beats(ps[1..])
  }

  lemma {:induction false} BeatsAppend(ps: seq<Json>, p: Json)
    ensures Beats(ps + [p]) == Beats(ps) + if IsHeartbeat(p) then 1 else 0
  {
    if ps != [] {
      assert (ps + [p])[1..] == ps[1..] + [p];
      BeatsAppend(ps[1..], p);
    }
  }

  lemma {:induction false} BeatsAtMostAll(ps: seq<Json>)
    ensures Beats(ps) <= |ps|
  {
    if ps != [] {
      BeatsAtMostAll(ps[1..]);
    }
  }

  /** The messages the parser was handed. */
  function DeliveredIn(log: Log): seq<Bytes> {
    match log
    case Empty => []
    case Snoc(init, Delivered(msg)) => DeliveredIn(init) + [msg]
    case Snoc(init, _) => DeliveredIn(init)
  }

  /** The payloads the ring took. */
  function AcceptedIn(log: Log): seq<Json> {
    match log
    case Empty => []
    case Snoc(init, Accepted(p)) => AcceptedIn(init) + [p]
    case Snoc(init, _) => AcceptedIn(init)
  }

  /** The payloads that left the ring. */
  function ConsumedIn(log: Log): seq<Json> {
    match log
    case Empty => []
    case Snoc(init, Consumed(p)) => ConsumedIn(init) + [p]
    case Snoc(init, _) => ConsumedIn(init)
  }

  /** The payloads whose text went out whole: the wire. */
  function WroteIn(log: Log): seq<Json> {
    match log
    case Empty => []
    case Snoc(init, Wrote(p)) => WroteIn(init) + [p]
    case Snoc(init, _) => WroteIn(init)
  }

  predicate NoWriteFailures(log: Log) {
    log.Snoc? ==> !log.last.WriteFailed? && NoWriteFailures(log.init)
  }

  predicate NoRefusals(log: Log) {
    log.Snoc? ==> !log.last.Refused? && NoRefusals(log.init)
  }

  /** How many heartbeats the ring took. */
  function BeatsAccepted(log: Log): nat {
    match log
    case Empty => 0
    case Snoc(init, Accepted(p)) => BeatsAccepted(init) + if IsHeartbeat(p) then 1 else 0
    case Snoc(init, _) => BeatsAccepted(init)
  }

  /** How many heartbeats went out on the wire. */
  function BeatsWrote(log: Log): nat {
    match log
    case Empty => 0
    case Snoc(init, Wrote(p)) => BeatsWrote(init) + if IsHeartbeat(p) then 1 else 0
    case Snoc(init, _) => BeatsWrote(init)
  }

  /** How often `ld_service` reported a missed ACK. */
  function Misses(log: Log): nat {
    match log
    case Empty => 0
    case Snoc(init, Returned(code)) => Misses(init) + if code == LDS_ACK_MISSED then 1 else 0
    case Snoc(init, _) => Misses(init)
  }

  function MeaningOf(cfg: Config, msg: Bytes): Message {
    cfg.read(msg).message
  }

  /** How many of the delivered messages are heartbeat ACKs. */
  function Acks(cfg: Config, log: Log): nat {
    match log
    case Empty => 0
    case Snoc(init, Delivered(msg)) => Acks(cfg, init) + if MeaningOf(cfg, msg) == Ack then 1 else 0
    case Snoc(init, _) => Acks(cfg, init)
  }

  /** How many of the delivered messages are HELLOs. */
  function Hellos(cfg: Config, log: Log): nat {
    match log
    case Empty => 0
    case Snoc(init, Delivered(msg)) => Hellos(cfg, init) + if MeaningOf(cfg, msg).Hello? then 1 else 0
    case Snoc(init, _) => Hellos(cfg, init)
  }

  /** How often the log says anything. */
  function Length(log: Log): nat {
    if log.Empty? then 0 else Length(log.init) + 1
  }

  lemma ParseDelivers(cfg: Config, s: State, msg: Bytes, a: Answers)
    ensures DeliveredIn(Parse(cfg, s, msg, a).state.log) == DeliveredIn(s.log) + [msg]
  {
    assert DeliveredIn(Decoding(cfg, s, msg).log) == DeliveredIn(s.log) + [msg];
  }
}
