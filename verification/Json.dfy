/** JSON values as jansson hands them out, and the accessors the library calls on them. */
module Json {
  import opened Prelude

  datatype Entry = Entry(key: string, value: Json)

  datatype Json =
    | Null
    | Boolean(b: bool)
    | Integer(n: int)
    | Real(r: real)
    | String(s: string)
    | Array(items: seq<Json>)
    | Object(entries: seq<Entry>)

  /** `json_integer_value`: 0 for anything that is not an integer. */
  function IntegerValue(j: Json): int {
    if j.Integer? then j.n else 0
  }

  /** `json_boolean_value`: false for anything that is not a boolean. */
  function BooleanValue(j: Json): bool {
    j.Boolean? && j.b
  }

  /** `json_string_value`: NULL for a missing value and for anything that is not a string. */
  function StringValue(j: Option<Json>): Option<string> {
    if j.Some? && j.value.String? then Some(j.value.s) else None
  }

  /** What `json_object_foreach` visits: nothing for a missing value or a non-object. */
  function EntriesOf(j: Option<Json>): seq<Entry> {
    if j.Some? && j.value.Object? then j.value.entries else []
  }

  /** The value of the last entry with the given key. */
  function LastValue(es: seq<Entry>, key: string): Option<Json> {
    if es == [] then None
    else if es[|es| - 1].key == key then Some(es[|es| - 1].value)
    else LastValue(es[..|es| - 1], key)
  }

  /** The value of the first entry with the given key. */
  function FirstValue(es: seq<Entry>, key: string): Option<Json> {
    if es == [] then None
    else if es[0].key == key then Some(es[0].value)
    else FirstValue(es[1..], key)
  }

  /** jansson keeps the keys of an object distinct. */
  ghost predicate DistinctKeys(es: seq<Entry>) {
    forall i, j :: 0 <= i < j < |es| ==> es[i].key != es[j].key
  }

  /** `LastValue` finds an entry with the key exactly when there is one. */
  lemma {:induction false} LastValueFinds(es: seq<Entry>, key: string)
    ensures LastValue(es, key).Some? ==> Entry(key, LastValue(es, key).value) in es
    ensures LastValue(es, key).None? <==> forall e :: e in es ==> e.key != key
  {
    if es != [] {
      var front := es[..|es| - 1];
      assert es == front + [es[|es| - 1]];
      LastValueFinds(front, key);
    }
  }

  /** With distinct keys, a lookup depends on the set of entries and not on their order. */
  lemma LookupIgnoresOrder(a: seq<Entry>, b: seq<Entry>, key: string)
    requires DistinctKeys(a) && multiset(a) == multiset(b)
    ensures LastValue(a, key) == LastValue(b, key)
  {
    LastValueFinds(a, key);
    LastValueFinds(b, key);
    SameEntries(a, b);
    if LastValue(a, key).Some? && LastValue(b, key).Some? {
      OneValuePerKey(a, key, LastValue(a, key).value, LastValue(b, key).value);
    }
  }

  lemma SameEntries(a: seq<Entry>, b: seq<Entry>)
    requires multiset(a) == multiset(b)
    ensures forall e :: e in a <==> e in b
  {
    assert forall e :: e in a <==> e in multiset(a);
    assert forall e :: e in b <==> e in multiset(b);
  }

  lemma OneValuePerKey(es: seq<Entry>, key: string, v: Json, w: Json)
    requires DistinctKeys(es) && Entry(key, v) in es && Entry(key, w) in es
    ensures v == w
  {
    var i :| 0 <= i < |es| && es[i] == Entry(key, v);
    var j :| 0 <= j < |es| && es[j] == Entry(key, w);
    assert es[i].key == es[j].key;
  }

  /** With distinct keys, the first entry of a key is its last one. */
  lemma {:induction false} FirstIsLast(es: seq<Entry>, key: string)
    requires DistinctKeys(es)
    ensures FirstValue(es, key) == LastValue(es, key)
  {
    if es != [] {
      var rest := es[1..];
      assert es == [es[0]] + rest;
      FirstIsLast(rest, key);
      LastValueFinds(rest, key);
      LastValueFinds(es, key);
    }
  }
}
