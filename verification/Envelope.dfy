/** The four-field gateway envelope: its builder (`ld_json_create_payload`), the key classifier and
    the decoding of a received object, described without the decoder's loop. */
module Envelope {
  import opened Prelude
  import opened Json
  import opened Dispatch

  datatype Field = Op | D | T | S | Unknown

  /** `ld_gateway_payload_objectparser`. */
  function FieldOf(key: string): Field {
    if key == "op" then Op
    else if key == "d" then D
    else if key == "t" then T
    else if key == "s" then S
    else Unknown
  }

  const OPCODE_UNKNOWN: nat := 999
  const OPCODE_DISPATCH: nat := 0
  const OPCODE_HEARTBEAT: nat := 1
  const OPCODE_IDENTIFY: nat := 2
  const OPCODE_INVALIDATE_SESSION: nat := 9
  const OPCODE_HELLO: nat := 10
  const OPCODE_HEARTBEAT_ACK: nat := 11
  const OPCODE_GUILD_SYNC: nat := 12

  const DEFAULT_INTERVAL: nat := 41250

  datatype Decoded = Decoded(complete: bool, opcode: nat, d: Option<Json>, t: Option<Json>, s: Option<Json>)

  /** How many leading entries carry one of the four known keys: the ones the decoder visits. */
  function KnownPrefix(es: seq<Entry>): (n: nat)
    ensures n <= |es|
    ensures forall i :: 0 <= i < n ==> FieldOf(es[i].key) != Unknown
    ensures n < |es| ==> FieldOf(es[n].key) == Unknown
  {
    if es == [] || FieldOf(es[0].key) == Unknown then 0 else 1 + KnownPrefix(es[1..])
  }

  /** The opcode the visited entries leave behind. */
  function OpcodeIn(visited: seq<Entry>): nat {
    var op := LastValue(visited, "op");
    if op.None? then OPCODE_UNKNOWN else ToUint32(IntegerValue(op.value))
  }

  /** What decoding an object yields: the last value of each field among the entries before the
      first unknown key. */
  function Decode(es: seq<Entry>): Decoded {
    var visited := es[..KnownPrefix(es)];
    Decoded(KnownPrefix(es) == |es|, OpcodeIn(visited),
            LastValue(visited, "d"), LastValue(visited, "t"), LastValue(visited, "s"))
  }

  /** The sequence number the decoder leaves in the context. */
  function SeqAfter(s: Option<Json>, lastSeq: int): int {
    if s.None? then lastSeq else ToInt32(IntegerValue(s.value))
  }

  /** The heartbeat interval a HELLO announces, or the default if it names none. */
  function HelloInterval(d: Option<Json>): nat {
    var v := LastValue(EntriesOf(d), "heartbeat_interval");
    if v.Some? && IntegerValue(v.value) != 0 then ToUint32(IntegerValue(v.value)) else DEFAULT_INTERVAL
  }

  /** What a gateway message asks the client to do. A dispatch is `Untyped` without a string type,
      `Unlisted` if the table does not list its type, `Ready` if the library reads it itself. */
  datatype Message =
    | Rejected
    | Ignored
    | Invalidate
    | Hello(interval: nat)
    | Ack
    | Untyped
    | Unlisted
    | Ready(reason: int, data: Option<Json>)
    | Listed(reason: int, data: Option<Json>)

  function RowMeaning(row: Row, data: Option<Json>): Message {
    if row.library then Ready(row.reason, data) else Listed(row.reason, data)
  }

  function DispatchMeaning(kind: Option<Json>, data: Option<Json>): Message {
    var name := StringValue(kind);
    if name.None? then Untyped
    else
      var row := Scan(TABLE, name.value);
      if row.None? then Unlisted else RowMeaning(row.value, data)
  }

  /** By the name of the type: nothing for a type the table does not list, and the table's reason for one it does;
      READY, and only READY, is read by the library first. */
  lemma DispatchByName(name: string, data: Option<Json>)
    ensures DispatchMeaning(Some(String(name)), data) ==
      if ReasonOf(name).None? then Unlisted
      else if name == READY then Ready(1, data)
      else Listed(ReasonOf(name).value, data)
  {
    var found := Scan(TABLE, name);
    if found.Some? {
      RowIsUnique(found.value, found.value);
      assert TABLE[0] == Row(READY, 1, true);
      if name == READY {
        RowIsUnique(found.value, TABLE[0]);
      }
    }
  }

  /** The switch over the opcode. */
  function OpcodeMeaning(opcode: nat, d: Option<Json>, t: Option<Json>): Message {
    if opcode == OPCODE_DISPATCH then DispatchMeaning(t, d)
    else if opcode == OPCODE_INVALIDATE_SESSION then Invalidate
    else if opcode == OPCODE_HELLO then Hello(HelloInterval(d))
    else if opcode == OPCODE_HEARTBEAT_ACK then Ack
    else if opcode <= OPCODE_GUILD_SYNC then Ignored
    else Rejected
  }

  function Meaning(parsed: Option<Json>): Message {
    var e := Decode(EntriesOf(parsed));
    if parsed.None? || !e.complete then Rejected else OpcodeMeaning(e.opcode, e.d, e.t)
  }

  /** All that the decoder gets out of a message: its meaning and the `s` it visited. */
  datatype Reading = Reading(message: Message, s: Option<Json>)

  function ReadingOf(parsed: Option<Json>): Reading {
    Reading(Meaning(parsed), Decode(EntriesOf(parsed)).s)
  }

  /** `json_object_set_new` on the entries of an object: replace the key's value or append it. */
  function Put(es: seq<Entry>, key: string, value: Json): seq<Entry> {
    if es == [] then [Entry(key, value)]
    else if es[0].key == key then [Entry(key, value)] + es[1..]
    else [es[0]] + Put(es[1..], key, value)
  }

  /** A field that is set only when it has a value. */
  function Field1(key: string, v: Option<Json>): seq<Entry> {
    if v.Some? then [Entry(key, v.value)] else []
  }

  /** The entries of a payload with the given fields, in the order the builder sets them. */
  function Fields(op: Json, d: Option<Json>, t: Option<Json>, s: Option<Json>): seq<Entry> {
    [Entry("op", op)] + Field1("d", d) + Field1("t", t) + Field1("s", s)
  }

  lemma {:induction false} PutNewKey(es: seq<Entry>, key: string, value: Json)
    requires forall e :: e in es ==> e.key != key
    ensures Put(es, key, value) == es + [Entry(key, value)]
  {
    if es != [] {
      assert es[0] in es;
      assert forall e :: e in es[1..] ==> e in es;
      PutNewKey(es[1..], key, value);
    }
  }

  /** `ld_json_create_payload`. Setting a NULL opcode fails, and then there is no payload. */
  method CreatePayload(op: Option<Json>, d: Option<Json>, t: Option<Json>, s: Option<Json>)
    returns (payload: Option<Json>)
    ensures op.None? ==> payload == None
    ensures op.Some? ==> payload == Some(Object(Fields(op.value, d, t, s)))
  {
    if op == None {
      return None;
    }
    var entries := Put([], "op", op.value);
    if d != None {
      PutNewKey(entries, "d", d.value);
      entries := Put(entries, "d", d.value);
    }
    assert entries == [Entry("op", op.value)] + Field1("d", d);
    if t != None {
      PutNewKey(entries, "t", t.value);
      entries := Put(entries, "t", t.value);
    }
    assert entries == [Entry("op", op.value)] + Field1("d", d) + Field1("t", t);
    if s != None {
      PutNewKey(entries, "s", s.value);
      entries := Put(entries, "s", s.value);
    }
    assert entries == [Entry("op", op.value)] + Field1("d", d) + Field1("t", t) + Field1("s", s);
    return Some(Object(entries));
  }

  /** Setting one more field keeps the keys distinct and known. */
  lemma OneMoreField(es: seq<Entry>, key: string, v: Option<Json>)
    requires DistinctKeys(es) && forall e :: e in es ==> FieldOf(e.key) != Unknown && e.key != key
    requires FieldOf(key) != Unknown
    ensures DistinctKeys(es + Field1(key, v))
    ensures forall e :: e in es + Field1(key, v) ==> FieldOf(e.key) != Unknown
    ensures forall e :: e in es + Field1(key, v) <==> e in es || (v.Some? && e == Entry(key, v.value))
  {
  }

  lemma FieldComesBack(es: seq<Entry>, key: string, v: Option<Json>)
    requires DistinctKeys(es)
    requires v.Some? ==> Entry(key, v.value) in es
    requires v.None? ==> forall e :: e in es ==> e.key != key
    ensures LastValue(es, key) == v
  {
  }

  /** The built entries: distinct known keys, each optional field present exactly with its value. */
  lemma FieldsAreProper(op: Json, d: Option<Json>, t: Option<Json>, s: Option<Json>)
    ensures var es := Fields(op, d, t, s);
      && DistinctKeys(es)
      && (forall e :: e in es ==> FieldOf(e.key) != Unknown)
      && (forall e :: e in es <==>
            || e == Entry("op", op) || (d.Some? && e == Entry("d", d.value))
            || (t.Some? && e == Entry("t", t.value)) || (s.Some? && e == Entry("s", s.value)))
  {
    var es0 := [Entry("op", op)];
    var es1 := es0 + Field1("d", d);
    var es2 := es1 + Field1("t", t);
    OneMoreField(es0, "d", d);
    OneMoreField(es1, "t", t);
    OneMoreField(es2, "s", s);
  }

  lemma AllVisited(es: seq<Entry>)
    requires forall e :: e in es ==> FieldOf(e.key) != Unknown
    ensures KnownPrefix(es) == |es| && es[..KnownPrefix(es)] == es
  {
    CompleteMeansAllKnown(es);
  }

  /** Decoding a built payload gives back the four fields it was built from, up to the C casts. */
  lemma EnvelopeRoundTrip(op: Json, d: Option<Json>, t: Option<Json>, s: Option<Json>)
    ensures Decode(Fields(op, d, t, s)) == Decoded(true, ToUint32(IntegerValue(op)), d, t, s)
  {
    var es := Fields(op, d, t, s);
    FieldsAreProper(op, d, t, s);
    AllVisited(es);
    FieldComesBack(es, "op", Some(op));
    FieldComesBack(es, "d", d);
    FieldComesBack(es, "t", t);
    FieldComesBack(es, "s", s);
  }

  function Place(key: string): int {
    if key == "op" then 0 else if key == "d" then 1 else if key == "t" then 2 else if key == "s" then 3 else 4
  }

  /** The fields of a built payload stand in the order op, d, t, s. */
  lemma FieldsInOrder(op: Json, d: Option<Json>, t: Option<Json>, s: Option<Json>)
    ensures var es := Fields(op, d, t, s);
      es[0] == Entry("op", op) && forall i, j :: 0 <= i < j < |es| ==> Place(es[i].key) < Place(es[j].key) < 4
  {
  }

  /** The numbers themselves survive the round trip exactly when they fit the fields they land in. */
  lemma CastsExactWhenInRange(op: int, d: Option<Json>, t: Option<Json>, seqno: int, lastSeq: int)
    ensures Decode(Fields(Integer(op), d, t, Some(Integer(seqno)))).opcode == op <==> 0 <= op < TWO_32
    ensures SeqAfter(Decode(Fields(Integer(op), d, t, Some(Integer(seqno)))).s, lastSeq) == seqno
       <==> -TWO_31 <= seqno < TWO_31
  {
    EnvelopeRoundTrip(Integer(op), d, t, Some(Integer(seqno)));
  }

  /** A HELLO's interval is taken over exactly if it is a positive 32-bit number. Zero and everything that is not
      an integer give the default; a multiple of 2^32 turns heartbeats off. */
  lemma IntervalTakenOver(es: seq<Entry>, v: Json)
    requires DistinctKeys(es) && Entry("heartbeat_interval", v) in es
    ensures v.Integer? ==> (HelloInterval(Some(Object(es))) == v.n <==> 0 < v.n < TWO_32)
    ensures HelloInterval(Some(Object(es))) == 0 <==> v.Integer? && v.n != 0 && v.n % TWO_32 == 0
    ensures !v.Integer? || v.n == 0 ==> HelloInterval(Some(Object(es))) == DEFAULT_INTERVAL
  {
    FieldComesBack(es, "heartbeat_interval", Some(v));
  }

  lemma CompleteMeansAllKnown(es: seq<Entry>)
    ensures Decode(es).complete <==> forall e :: e in es ==> FieldOf(e.key) != Unknown
  {
  }

  /** The order of the entries does not matter, unless an unknown key cuts the decoding short; and
      whether that happens does not depend on the order either. */
  lemma DecodeIgnoresOrder(a: seq<Entry>, b: seq<Entry>)
    requires DistinctKeys(a) && multiset(a) == multiset(b)
    ensures Decode(a).complete == Decode(b).complete
    ensures Decode(a).complete ==> Decode(a) == Decode(b)
  {
    assert forall e :: e in a <==> e in multiset(a);
    assert forall e :: e in b <==> e in multiset(b);
    CompleteMeansAllKnown(a);
    CompleteMeansAllKnown(b);
    if Decode(a).complete {
      assert a[..KnownPrefix(a)] == a && b[..KnownPrefix(b)] == b;
      LookupIgnoresOrder(a, b, "op");
      LookupIgnoresOrder(a, b, "d");
      LookupIgnoresOrder(a, b, "t");
      LookupIgnoresOrder(a, b, "s");
    }
  }

  /** So two messages that differ in the order of their entries read alike, or are both rejected. */
  lemma ReadingIgnoresOrder(a: seq<Entry>, b: seq<Entry>)
    requires DistinctKeys(a) && multiset(a) == multiset(b)
    ensures var r, r' := ReadingOf(Some(Object(a))), ReadingOf(Some(Object(b)));
      if Decode(a).complete then r == r' else r.message == r'.message == Rejected
  {
    DecodeIgnoresOrder(a, b);
  }

  /** What the library reads out of a message's data does not depend on the order of its entries either. */
  lemma {:induction false} DataIgnoresOrder(a: seq<Entry>, b: seq<Entry>)
    requires DistinctKeys(a) && DistinctKeys(b) && multiset(a) == multiset(b)
    ensures FirstValue(a, SESSION_ID) == FirstValue(b, SESSION_ID)
    ensures HelloInterval(Some(Object(a))) == HelloInterval(Some(Object(b)))
  {
    FirstIsLast(a, SESSION_ID);
    FirstIsLast(b, SESSION_ID);
    LookupIgnoresOrder(a, b, SESSION_ID);
    LookupIgnoresOrder(a, b, "heartbeat_interval");
  }
}
