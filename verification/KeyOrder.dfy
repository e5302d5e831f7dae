/** The order in which a message names its keys: invisible to the session, unless an unknown key cuts the decoding
    short, and then only the sequence number can tell. */
module KeyOrder {
  import opened Prelude
  import opened Json
  import opened Envelope
  import opened Session

  predicate AllKnown(es: seq<Entry>) {
    forall e :: e in es ==> FieldOf(e.key) != Unknown
  }

  /** Two logs that differ at most in the texts of the messages delivered. */
  predicate Alike(a: Log, b: Log) {
    if a.Empty? || b.Empty? then a == b
    else (a.last == b.last || (a.last.Delivered? && b.last.Delivered?)) && Alike(a.init, b.init)
  }

  lemma {:induction false} LogIsAlike(log: Log)
    ensures Alike(log, log)
  {
    if log.Snoc? {
      LogIsAlike(log.init);
    }
  }

  lemma ObeyAlike(cfg: Config, s: State, s': State, m: Message, a: Answers)
    requires s' == s.(log := s'.log) && Alike(s.log, s'.log)
    ensures var o, o' := Obey(cfg, s, m, a), Obey(cfg, s', m, a);
      o'.code == o.code && o'.state == o.state.(log := o'.state.log) && Alike(o.state.log, o'.state.log)
  {
  }

  /** A message with an unknown key returns an error and can have changed nothing but the sequence number. */
  lemma RejectedChangesOnlySeq(cfg: Config, s: State, x: Bytes, xs: seq<Entry>, a: Answers)
    requires cfg.read(x) == ReadingOf(Some(Object(xs))) && !AllKnown(xs)
    ensures var number := SeqAfter(LastValue(xs[..KnownPrefix(xs)], "s"), s.lastSeq);
      Parse(cfg, s, x, a) == Outcome(Note(s, Delivered(x)).(lastSeq := number), 1)
  {
    CompleteMeansAllKnown(xs);
  }

  lemma KnownReadsAlike(xs: seq<Entry>, ys: seq<Entry>)
    requires DistinctKeys(xs) && multiset(xs) == multiset(ys)
    ensures AllKnown(xs) == AllKnown(ys)
    ensures AllKnown(xs) ==> ReadingOf(Some(Object(xs))) == ReadingOf(Some(Object(ys)))
  {
    CompleteMeansAllKnown(xs);
    CompleteMeansAllKnown(ys);
    DecodeIgnoresOrder(xs, ys);
    ReadingIgnoresOrder(xs, ys);
  }

  /** Two messages, each a permutation of the other. With known keys only, the parser does the same for both. With an
      unknown key both are rejected, and nothing has changed but the sequence number, if the decoder came across one
      before the unknown key. */
  lemma {:induction false} KeyOrderIsInvisible(cfg: Config, s: State, x: Bytes, y: Bytes,
                                               xs: seq<Entry>, ys: seq<Entry>, a: Answers)
    requires cfg.read(x) == ReadingOf(Some(Object(xs))) && cfg.read(y) == ReadingOf(Some(Object(ys)))
    requires DistinctKeys(xs) && multiset(xs) == multiset(ys)
    ensures var o, o' := Parse(cfg, s, x, a), Parse(cfg, s, y, a);
      if AllKnown(xs) then
        o'.code == o.code && o'.state == o.state.(log := o'.state.log) && Alike(o.state.log, o'.state.log)
      else
        && o.code == o'.code == 1
        && o.state == Note(s, Delivered(x)).(lastSeq := SeqAfter(LastValue(xs[..KnownPrefix(xs)], "s"), s.lastSeq))
        && o'.state == Note(s, Delivered(y)).(lastSeq := SeqAfter(LastValue(ys[..KnownPrefix(ys)], "s"), s.lastSeq))
  {
    KnownReadsAlike(xs, ys);
    if AllKnown(xs) {
      LogIsAlike(s.log);
      ObeyAlike(cfg, Decoding(cfg, s, x), Decoding(cfg, s, y), cfg.read(x).message, a);
    } else {
      RejectedChangesOnlySeq(cfg, s, x, xs, a);
      RejectedChangesOnlySeq(cfg, s, y, ys, a);
    }
  }
}
