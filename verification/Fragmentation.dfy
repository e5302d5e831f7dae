/** Reassembly: how a message is cut into websocket fragments (section 5.4 of RFC 6455) makes no
    difference, however other events and service calls fall between them. */
module Fragmentation {
  import opened Prelude
  import opened Session
  import opened History

  /* ---- strncpy ---- */

  /** No text after a NUL: in particular any text without NULs. */
  predicate Copyable(text: Bytes) {
    forall i, j :: 0 <= i < j < |text| && text[i] == 0 ==> text[j] == 0
  }

  /** `strncpy` is a plain copy exactly of such texts. */
  lemma {:induction false} StrNCpyIsPlainCopy(text: Bytes)
    ensures StrNCpy(text) == text <==> Copyable(text)
  {
    if text != [] {
      var rest := text[1..];
      StrNCpyIsPlainCopy(rest);
      assert text == [text[0]] + rest;
      if text[0] == 0 {
        assert Copyable(text) ==> text == seq(|text|, _ => 0);
        assert text == StrNCpy(text) ==> forall i :: 0 <= i < |text| ==> text[i] == 0;
      } else {
        assert StrNCpy(text)[1..] == StrNCpy(rest);
        assert StrNCpy(rest) == rest ==> StrNCpy(text) == text;
        assert Copyable(text) ==> Copyable(rest) by {
          assert forall i :: 0 <= i < |rest| ==> rest[i] == text[i + 1];
        }
        assert Copyable(rest) ==> Copyable(text);
      }
    }
  }

  /* ---- the stream without fragmentation ---- */

  function Text(pending: Option<Bytes>): Bytes {
    if pending.None? then [] else pending.value
  }

  /** The text of a message up to and including a fragment. A first fragment starts a message anew, whatever
      was left of an unfinished one. */
  function TextWith(pending: Option<Bytes>, e: Event): Bytes
    requires e.Fragment?
  {
    if e.first then e.data else Text(pending) + e.data
  }

  /** What is left of an unfinished message after an event. */
  function Pending(pending: Option<Bytes>, e: Event): Option<Bytes> {
    if !e.Fragment? then pending else if e.final then None else Some(TextWith(pending, e))
  }

  function PendingAfter(pending: Option<Bytes>, events: seq<Event>): Option<Bytes>
    decreases |events|
  {
    if events == [] then pending else PendingAfter(Pending(pending, events[0]), events[1..])
  }

  /** The same events with every message in one fragment, at the place of its final one. */
  function Coalesce(pending: Option<Bytes>, events: seq<Event>): seq<Event>
    decreases |events|
  {
    if events == [] then []
    else
      var e := events[0];
      var rest := Coalesce(Pending(pending, e), events[1..]);
      if !e.Fragment? then [e] + rest
      else if e.final then [Fragment(TextWith(pending, e), true, true, e.answers)] + rest
      else rest
  }

  /** A first-fragment flag exactly where a message begins. If a message was broken off, by a connection that
      died inside it, the next one must have two fragments or more. Fragments that are not a whole message are
      copied, so they must survive `strncpy`. */
  predicate WellPlaced(pending: Option<Bytes>, e: Event) {
    e.Fragment? ==>
      && (if e.first then pending.None? || !e.final else pending.Some?)
      && ((e.first && e.final) || Copyable(e.data))
  }

  /** Every fragment of the stream is well placed; other events may fall anywhere between them. */
  predicate WellFragmented(pending: Option<Bytes>, events: seq<Event>)
    decreases |events|
  {
    events == [] ||
      (WellPlaced(pending, events[0]) && WellFragmented(Pending(pending, events[0]), events[1..]))
  }

  lemma EventIgnoresRx(cfg: Config, s: State, e: Event, rx: Option<Bytes>)
    requires !e.Fragment?
    ensures var o := OnEvent(cfg, s, e); OnEvent(cfg, s.(rx := rx), e) == o.(state := o.state.(rx := rx))
    ensures OnEvent(cfg, s, e).state.rx == s.rx
  {
  }

  /** One fragment of a message: either it is kept, or the whole message goes to the parser. */
  lemma FragmentStep(cfg: Config, s: State, e: Event)
    requires e.Fragment? && WellPlaced(s.rx, e)
    ensures var text := TextWith(s.rx, e); var o := OnEvent(cfg, s, e);
      if e.final then o.state == Parse(cfg, s, text, e.answers).state.(rx := None)
      else o.state == s.(rx := Some(text))
  {
    if Copyable(e.data) {
      StrNCpyIsPlainCopy(e.data);
    }
  }

  /** The event pump on a fragmented stream does what it does on the stream of whole messages. */
  lemma {:induction false} PumpCoalesces(cfg: Config, s: State, events: seq<Event>)
    requires WellFragmented(s.rx, events)
    ensures Pump(cfg, s, events)
         == Pump(cfg, s.(rx := None), Coalesce(s.rx, events)).(rx := PendingAfter(s.rx, events))
    ensures Pump(cfg, s.(rx := None), Coalesce(s.rx, events)).rx == None
    decreases |events|
  {
    if events != [] {
      var e, rest := events[0], events[1..];
      var s1 := OnEvent(cfg, s, e).state;
      if !e.Fragment? {
        EventIgnoresRx(cfg, s, e, None);
        PumpCoalesces(cfg, s1, rest);
      } else {
        var text := TextWith(s.rx, e);
        FragmentStep(cfg, s, e);
        PumpCoalesces(cfg, s1, rest);
        if e.final {
          ParseIgnoresRx(cfg, s, text, e.answers, None);
          assert OnEvent(cfg, s.(rx := None), Fragment(text, true, true, e.answers)).state == s1;
        }
      }
    }
  }

  /* ---- whole runs ---- */

  /** The service call with its messages whole. */
  function CoalesceTick(cfg: Config, s: State, tick: Tick): Tick {
    var whole := Coalesce(s.rx, Played(cfg, s, tick));
    tick.(connect := if tick.connect.Started? then Started(whole) else Unreachable, events := whole)
  }

  function CoalesceRun(cfg: Config, s: State, ticks: seq<Tick>): seq<Tick>
    decreases |ticks|
  {
    if ticks == [] then []
    else [CoalesceTick(cfg, s, ticks[0])] + CoalesceRun(cfg, Service(cfg, s, ticks[0]).state, ticks[1..])
  }

  predicate WellFragmentedRun(cfg: Config, s: State, ticks: seq<Tick>)
    decreases |ticks|
  {
    ticks == [] ||
      (&& WellFragmented(s.rx, Played(cfg, s, ticks[0]))
       && WellFragmentedRun(cfg, Service(cfg, s, ticks[0]).state, ticks[1..]))
  }

  lemma BeatIgnoresRx(cfg: Config, s: State, now: Secs, later: Secs, rx: Option<Bytes>)
    ensures var b := Beat(cfg, s, now, later);
      Beat(cfg, s.(rx := rx), now, later) == b.(state := b.state.(rx := rx)) && b.state.rx == s.rx
  {
  }

  lemma ServiceCoalesces(cfg: Config, s: State, tick: Tick)
    requires WellFragmented(s.rx, Played(cfg, s, tick))
    ensures var o := Service(cfg, s, tick);
      Service(cfg, s.(rx := None), CoalesceTick(cfg, s, tick)) == o.(state := o.state.(rx := None))
  {
    var whole := Coalesce(s.rx, Played(cfg, s, tick));
    if !s.connected {
      if tick.connect.Started? {
        assert s.(rx := None).(connected := true) == s.(connected := true).(rx := None);
        PumpCoalesces(cfg, s.(connected := true), tick.connect.events);
      }
    } else {
      var b := Beat(cfg, s, tick.now, tick.later);
      BeatIgnoresRx(cfg, s, tick.now, tick.later, None);
      if b.code == LDS_OK {
        PumpCoalesces(cfg, AskWrite(b.state), tick.events);
      }
    }
  }

  /** A run on fragmented messages is the run on whole messages, in state and in return codes. */
  lemma {:induction false} RunCoalesces(cfg: Config, s: State, ticks: seq<Tick>)
    requires WellFragmentedRun(cfg, s, ticks)
    ensures Run(cfg, s.(rx := None), CoalesceRun(cfg, s, ticks)) == Run(cfg, s, ticks).(rx := None)
    ensures Codes(cfg, s.(rx := None), CoalesceRun(cfg, s, ticks)) == Codes(cfg, s, ticks)
    decreases |ticks|
  {
    if ticks != [] {
      ServiceCoalesces(cfg, s, ticks[0]);
      RunCoalesces(cfg, Service(cfg, s, ticks[0]).state, ticks[1..]);
      assert CoalesceRun(cfg, s, ticks)[1..] == CoalesceRun(cfg, Service(cfg, s, ticks[0]).state, ticks[1..]);
    }
  }

  /** Two runs of a fresh context that differ only in how the messages are cut end in the same context, with
      the same log (accepted payloads, wire, user callbacks and all) and the same return codes. */
  lemma FragmentationIndependence(cfg: Config, start: Secs, a: seq<Tick>, b: seq<Tick>)
    requires WellFragmentedRun(cfg, Init(start), a) && WellFragmentedRun(cfg, Init(start), b)
    requires CoalesceRun(cfg, Init(start), a) == CoalesceRun(cfg, Init(start), b)
    ensures Run(cfg, Init(start), a).(rx := None) == Run(cfg, Init(start), b).(rx := None)
    ensures Codes(cfg, Init(start), a) == Codes(cfg, Init(start), b)
  {
    RunCoalesces(cfg, Init(start), a);
    RunCoalesces(cfg, Init(start), b);
  }

  /* ---- explicit splittings, and the stale buffer ---- */

  /** The fragments of one message. */
  function Frames(parts: seq<Bytes>, first: bool, a: Answers): seq<Event> {
    if parts == [] then []
    else [Fragment(parts[0], first, |parts| == 1, a)] + Frames(parts[1..], false, a)
  }

  predicate Splitting(parts: seq<Bytes>) {
    parts != [] && (|parts| == 1 || forall i :: 0 <= i < |parts| ==> Copyable(parts[i]))
  }

  lemma {:induction false} RestOfMessage(cfg: Config, s: State, parts: seq<Bytes>, a: Answers)
    requires s.rx.Some? && parts != [] && forall i :: 0 <= i < |parts| ==> Copyable(parts[i])
    ensures Pump(cfg, s, Frames(parts, false, a))
         == Parse(cfg, s, s.rx.value + Concat(parts), a).state.(rx := None)
    decreases |parts|
  {
    var e := Fragment(parts[0], false, |parts| == 1, a);
    var text := s.rx.value + parts[0];
    assert Frames(parts, false, a)[0] == e;
    assert Frames(parts, false, a)[1..] == Frames(parts[1..], false, a);
    FragmentStep(cfg, s, e);
    if |parts| == 1 {
      assert Concat(parts) == parts[0];
    } else {
      var s1 := s.(rx := Some(text));
      forall i | 0 <= i < |parts[1..]| ensures Copyable(parts[1..][i]) {
        assert parts[1..][i] == parts[i + 1];
      }
      RestOfMessage(cfg, s1, parts[1..], a);
      assert text + Concat(parts[1..]) == s.rx.value + Concat(parts);
      ParseIgnoresRx(cfg, s, s.rx.value + Concat(parts), a, s1.rx);
    }
  }

  /** A message is parsed, whole and once, however it is cut, exactly if the receive buffer is not left over
      from an unfinished message, or the message has at least two fragments: a one-fragment message that
      meets a left-over buffer replaces it instead of being parsed. */
  lemma MessageIsParsedUnlessStale(cfg: Config, s: State, parts: seq<Bytes>, a: Answers)
    requires Splitting(parts)
    ensures s.rx.None? || |parts| >= 2 ==>
      Pump(cfg, s, Frames(parts, true, a)) == Parse(cfg, s, Concat(parts), a).state.(rx := None)
    ensures DeliveredIn(Pump(cfg, s, Frames(parts, true, a)).log) == DeliveredIn(s.log) + [Concat(parts)]
       <==> s.rx.None? || |parts| >= 2
  {
    var e := Fragment(parts[0], true, |parts| == 1, a);
    assert Frames(parts, true, a)[0] == e;
    assert Frames(parts, true, a)[1..] == Frames(parts[1..], false, a);
    StrNCpyIsPlainCopy(parts[0]);
    if |parts| >= 2 {
      var s1 := s.(rx := Some(parts[0]));
      assert OnEvent(cfg, s, e).state == s1;
      assert forall i :: 0 <= i < |parts[1..]| ==> Copyable(parts[1..][i]);
      RestOfMessage(cfg, s1, parts[1..], a);
      ParseIgnoresRx(cfg, s, Concat(parts), a, s1.rx);
    } else {
      assert Concat(parts) == parts[0];
      assert Frames(parts[1..], false, a) == [];
    }
    ParseDelivers(cfg, s, Concat(parts), a);
  }

  /** The fragments of several messages in a row, each with the answers it meets. */
  function Stream(parts: seq<seq<Bytes>>, answers: seq<Answers>): seq<Event>
    requires |answers| == |parts|
  {
    if parts == [] then [] else Frames(parts[0], true, answers[0]) + Stream(parts[1..], answers[1..])
  }

  /** Any two splittings of the same messages leave the same context. */
  lemma {:induction false} SplittingsAgree(cfg: Config, s: State, a: seq<seq<Bytes>>, b: seq<seq<Bytes>>,
                                           answers: seq<Answers>)
    requires s.rx.None? && |a| == |b| == |answers|
    requires forall i :: 0 <= i < |a| ==> Splitting(a[i]) && Splitting(b[i]) && Concat(a[i]) == Concat(b[i])
    ensures Pump(cfg, s, Stream(a, answers)) == Pump(cfg, s, Stream(b, answers))
    decreases |a|
  {
    if a != [] {
      MessageIsParsedUnlessStale(cfg, s, a[0], answers[0]);
      MessageIsParsedUnlessStale(cfg, s, b[0], answers[0]);
      PumpAppend(cfg, s, Frames(a[0], true, answers[0]), Stream(a[1..], answers[1..]));
      PumpAppend(cfg, s, Frames(b[0], true, answers[0]), Stream(b[1..], answers[1..]));
      SplittingsAgree(cfg, Pump(cfg, s, Frames(a[0], true, answers[0])), a[1..], b[1..], answers[1..]);
    }
  }
}
