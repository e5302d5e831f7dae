/** The table of dispatch types and the library's own reading of a READY dispatch. */
module Dispatch {
  import opened Prelude

  /** `library` tells whether the row has a callback of the library's own. */
  datatype Row = Row(name: string, reason: int, library: bool)

  const READY := "READY"
  const SESSION_ID := "session_id"

  const CALLBACK_WS_ESTABLISHED: int := 35
  const CALLBACK_WS_CONNECTION_ERROR: int := 36

  /** `dispatch_dict` without its terminator, with the enumerators of `ld_callback_reason`. */
  const TABLE: seq<Row> := [
    Row(READY, 1, true),
    Row("CHANNEL_CREATE", 4, false),
    Row("CHANNEL_UPDATE", 5, false),
    Row("CHANNEL_DELETE", 6, false),
    Row("CHANNEL_PINS_UPDATE", 7, false),
    Row("GUILD_CREATE", 8, false),
    Row("GUILD_UPDATE", 9, false),
    Row("GUILD_DELETE", 10, false),
    Row("GUILD_BAN_ADD", 11, false),
    Row("GUILD_BAN_REMOVE", 12, false),
    Row("GUILD_EMOJIS_UPDATE", 13, false),
    Row("GUILD_INTEGRATIONS_UPDATE", 14, false),
    Row("GUILD_MEMBER_ADD", 15, false),
    Row("GUILD_MEMBER_REMOVE", 16, false),
    Row("GUILD_MEMBER_UPDATE", 17, false),
    Row("GUILD_MEMBERS_CHUNK", 18, false),
    Row("GUILD_ROLE_CREATE", 19, false),
    Row("GUILD_ROLE_UPDATE", 20, false),
    Row("GUILD_ROLE_DELETE", 21, false),
    Row("MESSAGE_CREATE", 22, false),
    Row("MESSAGE_UPDATE", 23, false),
    Row("MESSAGE_DELETE", 24, false),
    Row("MESSAGE_DELETE_BULK", 25, false),
    Row("MESSAGE_REACTION_ADD", 26, false),
    Row("MESSAGE_REACTION_REMOVE", 27, false),
    Row("MESSAGE_REACTION_REMOVE_ALL", 28, false),
    Row("PRESENCE_UPDATE", 29, false),
    Row("TYPING_START", 30, false),
    Row("USER_UPDATE", 31, false),
    Row("VOICE_STATE_UPDATE", 32, false),
    Row("VOICE_SERVER_UPDATE", 33, false),
    Row("WEBHOOKS_UPDATE", 34, false)
  ]

  /** The first row with the given name. */
  function Scan(rows: seq<Row>, name: string): (r: Option<Row>)
    ensures r.Some? ==> r.value in rows && r.value.name == name
    ensures r.None? <==> forall row :: row in rows ==> row.name != name
  {
    if rows == [] then None
    else if rows[0].name == name then Some(rows[0])
    else Scan(rows[1..], name)
  }

  function ReasonOf(name: string): Option<int> {
    var row := Scan(TABLE, name);
    if row.None? then None else Some(row.value.reason)
  }

  /** A decision tree over length and a few characters that recognises the names of the table. */
  function Recognise(name: string): int {
    match |name|
    case 5 => 1
    case 11 => 31
    case 12 =>
      if name[6] == 'C' then 8
      else if name[6] == 'U' then 9
      else if name[6] == 'D' then 10
      else 30
    case 13 => 11
    case 14 =>
      if name[8] == 'C' then (if name[0] == 'C' then 4 else 22)
      else if name[8] == 'U' then (if name[0] == 'C' then 5 else 23)
      else if name[0] == 'C' then 6
      else 24
    case 15 => if name[0] == 'P' then 29 else 34
    case 16 => if name[6] == 'B' then 12 else 15
    case 17 =>
      if name[11] == 'C' then 19
      else if name[11] == 'U' then 20
      else 21
    case 18 => 32
    case 19 =>
      if name[8] == 'P' then 7
      else if name[8] == 'O' then 13
      else if name[8] == 'M' then (if name[13] == 'R' then 16 else if name[13] == 'U' then 17 else 18)
      else if name[8] == 'D' then 25
      else 33
    case 20 => 26
    case 23 => 27
    case 25 => 14
    case 27 => 28
    case _ => -1
  }

  lemma RowIsRecognised(i: nat)
    requires i < |TABLE|
    ensures Recognise(TABLE[i].name) == TABLE[i].reason
  {
  }

  lemma ReasonsIncrease(i: nat)
    requires i < |TABLE|
    ensures TABLE[i].reason == if i == 0 then 1 else i + 3
    ensures TABLE[i].library <==> i == 0
  {
  }

  /** Where a row stands decides its reason, and its name recognises it. */
  lemma RowStands(row: Row) returns (i: nat)
    requires row in TABLE
    ensures i < |TABLE| && TABLE[i] == row
    ensures Recognise(row.name) == row.reason == if i == 0 then 1 else i + 3
    ensures row.library <==> i == 0
  {
    i :| 0 <= i < |TABLE| && TABLE[i] == row;
    RowIsRecognised(i);
    ReasonsIncrease(i);
  }

  lemma SameRow(row: Row, other: Row)
    requires row in TABLE && other in TABLE
    requires row.name == other.name || row.reason == other.reason
    ensures row == other
  {
    var i := RowStands(row);
    var j := RowStands(other);
    assert row.reason == other.reason;
    assert i == j;
  }

  lemma ReasonsStayBelow(row: Row)
    requires row in TABLE
    ensures 1 <= row.reason < CALLBACK_WS_ESTABLISHED
  {
    var i := RowStands(row);
    assert |TABLE| == 32;
  }

  lemma OnlyReadyIsTheLibrarys(row: Row)
    requires row in TABLE
    ensures row.library <==> row.name == READY
  {
    var i := RowStands(row);
    assert TABLE[0] == Row(READY, 1, true);
    RowIsRecognised(0);
  }

  /** Every row is the only one with its name and the only one with its reason. */
  lemma RowIsUnique(row: Row, other: Row)
    requires row in TABLE && other in TABLE
    requires row.name == other.name || row.reason == other.reason
    ensures row == other
    ensures row.library <==> row.name == READY
    ensures 1 <= row.reason < CALLBACK_WS_ESTABLISHED
  {
    SameRow(row, other);
    OnlyReadyIsTheLibrarys(row);
    ReasonsStayBelow(row);
  }

  /* ---- the table against the enumeration ---- */

  /** The enumerators of `ld_callback_reason` from 0 to 34, without their common prefix. */
  const ENUMERATORS: seq<string> := [
    "HELLO", "READY", "RESUMED", "INVALID_SESSION",
    "CHANNEL_CREATE", "CHANNEL_UPDATE", "CHANNEL_DELETE", "CHANNEL_PINS_UPDATE",
    "GUILD_CREATE", "GUILD_UPDATE", "GUILD_DELETE", "GUILD_BAN_ADD", "GUILD_BAN_REMOVE",
    "GUILD_EMOJIS_UPDATE", "GUILD_INTEGRATIONS_UPDATE",
    "GUILD_MEMBER_ADD", "GUILD_MEMBER_REMOVE", "GUILD_MEMBER_UPDATE", "GUILD_MEMBERS_CHUNK",
    "GUILD_ROLE_CREATE", "GUILD_ROLE_UPDATE", "GUILD_ROLE_DELETE",
    "MESSAGE_CREATE", "MESSAGE_UPDATE", "MESSAGE_DELETE", "MESSAGE_DELETE_BULK",
    "MESSAGE_REACTION_ADD", "MESSAGE_REACTION_REMOVE", "MESSAGE_REACTION_REMOVE_ALL",
    "PRESENCE_UPDATE", "TYPING_START", "USER_UPDATE",
    "VOICE_STATE_UPDATE", "VOICE_SERVER_UPDATE", "WEBHOOKS_UPDATE"
  ]

  /** A dispatch type has the name of an enumerator; HELLO, RESUMED and INVALID_SESSION are none. */
  predicate Names(name: string, reason: int) {
    0 <= reason < |ENUMERATORS| && reason != 0 && reason != 2 && reason != 3 && ENUMERATORS[reason] == name
  }

  lemma RowFollowsEnumerator(i: nat)
    requires i < |TABLE|
    ensures |ENUMERATORS| == 35 && TABLE[i].name == ENUMERATORS[if i == 0 then 1 else i + 3]
  {
  }

  /** The scan announces every type as the enumerator of its own name, and finds no others. */
  lemma TableFollowsEnumeration(name: string, reason: int)
    ensures ReasonOf(name) == Some(reason) <==> Names(name, reason)
  {
    var found := Scan(TABLE, name);
    if found.Some? {
      var i := RowStands(found.value);
      RowFollowsEnumerator(i);
    }
    if Names(name, reason) {
      var j := if reason == 1 then 0 else reason - 3;
      assert |TABLE| == 32;
      RowFollowsEnumerator(j);
      ReasonsIncrease(j);
      assert TABLE[j] in TABLE;
      SameRow(found.value, TABLE[j]);
    }
  }

  /** The table is an injective map from type names to reasons and the scan is its lookup: it finds a
      reason exactly when the table lists it under that name, and no two types share a reason. */
  lemma TableIsInjectiveMap(name: string, reason: int, other: string)
    ensures ReasonOf(name) == Some(reason) <==> exists row :: row in TABLE && row.name == name && row.reason == reason
    ensures ReasonOf(name).Some? && ReasonOf(name) == ReasonOf(other) ==> name == other
  {
    var found := Scan(TABLE, name);
    if found.Some? {
      forall row | row in TABLE && row.name == name ensures row == found.value {
        RowIsUnique(row, found.value);
      }
      if ReasonOf(name) == ReasonOf(other) {
        RowIsUnique(found.value, Scan(TABLE, other).value);
      }
    }
  }
}
