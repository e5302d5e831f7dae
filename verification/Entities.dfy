/** The loaders that fill user and message structures from the entries of an object. */
module Entities {
  import opened Prelude
  import opened Json
  import opened Decimal

  /** The last string stored under a key: values of another type are skipped with a warning. */
  function LastString(es: seq<Entry>, key: string): Option<string> {
    if es == [] then None
    else if es[|es| - 1].key == key && es[|es| - 1].value.String? then Some(es[|es| - 1].value.s)
    else LastString(es[..|es| - 1], key)
  }

  lemma {:induction false} LastStringIsLast(es: seq<Entry>, key: string)
    requires DistinctKeys(es)
    ensures LastString(es, key) == StringValue(LastValue(es, key))
  {
    if es != [] {
      var front, last := es[..|es| - 1], es[|es| - 1];
      LastStringIsLast(front, key);
      LastValueFinds(front, key);
      if LastValue(front, key).Some? {
        var i :| 0 <= i < |front| && front[i] == Entry(key, LastValue(front, key).value);
        assert es[i].key == key;
      }
    }
  }

  lemma StringIgnoresOrder(a: seq<Entry>, b: seq<Entry>, key: string)
    requires DistinctKeys(a) && DistinctKeys(b) && multiset(a) == multiset(b)
    ensures LastString(a, key) == LastString(b, key)
  {
    LastStringIsLast(a, key);
    LastStringIsLast(b, key);
    LookupIgnoresOrder(a, b, key);
  }

  /* ---- what loading means for one field ---- */

  ghost predicate NoString(es: seq<Entry>, key: string) {
    forall s :: Entry(key, String(s)) !in es
  }

  ghost predicate Absent(es: seq<Entry>, key: string) {
    forall v :: Entry(key, v) !in es
  }

  /** A number from the decimal text under a key, kept if there is no text. */
  ghost predicate IdField(es: seq<Entry>, key: string, was: nat, now: nat) {
    && (forall s :: Entry(key, String(s)) in es ==> now == StrToULL(s))
    && (NoString(es, key) ==> now == was)
  }

  /** A copy of the text under a key, kept if there is no text. */
  ghost predicate TextField(es: seq<Entry>, key: string, was: Option<string>, now: Option<string>) {
    && (forall s :: Entry(key, String(s)) in es ==> now == Some(s))
    && (NoString(es, key) ==> now == was)
  }

  /** Whether true stands under a key, kept if nothing does. */
  ghost predicate BoolField(es: seq<Entry>, key: string, was: bool, now: bool) {
    && (forall v :: Entry(key, v) in es ==> now == (v == Boolean(true)))
    && (Absent(es, key) ==> now == was)
  }

  /** The locale is a text that anything else under its key deletes. */
  ghost predicate LocaleField(es: seq<Entry>, was: Option<string>, now: Option<string>) {
    && (forall s :: Entry("locale", String(s)) in es ==> now == Some(s))
    && (NoString(es, "locale") && !Absent(es, "locale") ==> now == None)
    && (Absent(es, "locale") ==> now == was)
  }

  lemma {:induction false} LastStringFinds(es: seq<Entry>, key: string)
    requires DistinctKeys(es)
    ensures forall s :: Entry(key, String(s)) in es <==> LastString(es, key) == Some(s)
  {
    LastStringIsLast(es, key);
    LastValueFinds(es, key);
    forall s | Entry(key, String(s)) in es ensures LastString(es, key) == Some(s) {
      OneValuePerKey(es, key, String(s), LastValue(es, key).value);
    }
  }

  lemma {:induction false} LastValueIsIt(es: seq<Entry>, key: string)
    requires DistinctKeys(es)
    ensures forall v :: Entry(key, v) in es <==> LastValue(es, key) == Some(v)
  {
    LastValueFinds(es, key);
    forall v | Entry(key, v) in es ensures LastValue(es, key) == Some(v) {
      OneValuePerKey(es, key, v, LastValue(es, key).value);
    }
  }

  lemma IdFieldLoads(es: seq<Entry>, key: string, was: nat)
    requires DistinctKeys(es)
    ensures IdField(es, key, was, IdOr(LastString(es, key), was))
  {
    LastStringFinds(es, key);
  }

  lemma TextFieldLoads(es: seq<Entry>, key: string, was: Option<string>)
    requires DistinctKeys(es)
    ensures TextField(es, key, was, TextOr(LastString(es, key), was))
  {
    LastStringFinds(es, key);
  }

  lemma BoolFieldLoads(es: seq<Entry>, key: string, was: bool)
    requires DistinctKeys(es)
    ensures BoolField(es, key, was, BoolOr(LastValue(es, key), was))
  {
    LastValueIsIt(es, key);
  }

  lemma LocaleFieldLoads(es: seq<Entry>, was: Option<string>)
    requires DistinctKeys(es)
    ensures var v := LastValue(es, "locale"); LocaleField(es, was, if v.Some? then StringValue(v) else was)
  {
    LastValueIsIt(es, "locale");
  }

  function IdOr(s: Option<string>, id: nat): nat {
    if s.Some? then StrToULL(s.value) else id
  }

  function TextOr(s: Option<string>, text: Option<string>): Option<string> {
    if s.Some? then s else text
  }

  function BoolOr(v: Option<Json>, b: bool): bool {
    if v.Some? then BooleanValue(v.value) else b
  }

  /* ---- users ---- */

  datatype UserFields = UserFields(id: nat, username: Option<string>, discriminator: Option<string>,
                                   avatar: Option<string>, bot: bool, mfaEnabled: bool, locale: Option<string>,
                                   verified: bool, email: Option<string>)

  /** A user after loading: each field on its own, from the entries of its key. */
  function UserFrom(u: UserFields, es: seq<Entry>): UserFields {
    UserFields(
      IdOr(LastString(es, "id"), u.id),
      TextOr(LastString(es, "username"), u.username),
      TextOr(LastString(es, "discriminator"), u.discriminator),
      TextOr(LastString(es, "avatar"), u.avatar),
      BoolOr(LastValue(es, "bot"), u.bot),
      BoolOr(LastValue(es, "mfa_enabled"), u.mfaEnabled),
      if LastValue(es, "locale").Some? then StringValue(LastValue(es, "locale")) else u.locale,
      BoolOr(LastValue(es, "verified"), u.verified),
      TextOr(LastString(es, "email"), u.email))
  }

  /** Every field of the user is loaded from its own key. */
  lemma UserFieldsLoad(u: UserFields, es: seq<Entry>)
    requires DistinctKeys(es)
    ensures UserLoaded(u, UserFrom(u, es), es)
  {
    IdFieldLoads(es, "id", u.id);
    TextFieldLoads(es, "username", u.username);
    TextFieldLoads(es, "discriminator", u.discriminator);
    TextFieldLoads(es, "avatar", u.avatar);
    BoolFieldLoads(es, "bot", u.bot);
    BoolFieldLoads(es, "mfa_enabled", u.mfaEnabled);
    LocaleFieldLoads(es, u.locale);
    BoolFieldLoads(es, "verified", u.verified);
    TextFieldLoads(es, "email", u.email);
  }

  ghost predicate UserLoaded(was: UserFields, now: UserFields, es: seq<Entry>) {
    && IdField(es, "id", was.id, now.id)
    && TextField(es, "username", was.username, now.username)
    && TextField(es, "discriminator", was.discriminator, now.discriminator)
    && TextField(es, "avatar", was.avatar, now.avatar)
    && BoolField(es, "bot", was.bot, now.bot)
    && BoolField(es, "mfa_enabled", was.mfaEnabled, now.mfaEnabled)
    && LocaleField(es, was.locale, now.locale)
    && BoolField(es, "verified", was.verified, now.verified)
    && TextField(es, "email", was.email, now.email)
  }

  /** One entry more changes the field of its key and no other. */
  lemma OneMoreEntry(u: UserFields, es: seq<Entry>, e: Entry)
    ensures var f, s := UserFrom(u, es), StringValue(Some(e.value));
      UserFrom(u, es + [e]) == UserFields(
        if e.key == "id" && s.Some? then StrToULL(s.value) else f.id,
        if e.key == "username" then TextOr(s, f.username) else f.username,
        if e.key == "discriminator" then TextOr(s, f.discriminator) else f.discriminator,
        if e.key == "avatar" then TextOr(s, f.avatar) else f.avatar,
        if e.key == "bot" then BooleanValue(e.value) else f.bot,
        if e.key == "mfa_enabled" then BooleanValue(e.value) else f.mfaEnabled,
        if e.key == "locale" then s else f.locale,
        if e.key == "verified" then BooleanValue(e.value) else f.verified,
        if e.key == "email" then TextOr(s, f.email) else f.email)
  {
  }

  class User {
    var id: nat
    var username: Option<string>
    var discriminator: Option<string>
    var avatar: Option<string>
    var bot: bool
    var mfaEnabled: bool
    var locale: Option<string>
    var verified: bool
    var email: Option<string>

    ghost function View(): UserFields
      reads this
    {
      UserFields(id, username, discriminator, avatar, bot, mfaEnabled, locale, verified, email)
    }

    /** A structure with whatever its memory held. */
    constructor (memory: UserFields)
      ensures View() == memory
    {
      id, username, discriminator, avatar := memory.id, memory.username, memory.discriminator, memory.avatar;
      bot, mfaEnabled, locale := memory.bot, memory.mfaEnabled, memory.locale;
      verified, email := memory.verified, memory.email;
    }

    /** `ld_json_load_user`. */
    method Load(user: Json)
      modifies this
      ensures View() == UserFrom(old(View()), EntriesOf(Some(user)))
      ensures var es := EntriesOf(Some(user)); DistinctKeys(es) ==>
        && IdField(es, "id", old(id), id) && TextField(es, "username", old(username), username)
        && TextField(es, "discriminator", old(discriminator), discriminator)
        && TextField(es, "avatar", old(avatar), avatar) && BoolField(es, "bot", old(bot), bot)
        && BoolField(es, "mfa_enabled", old(mfaEnabled), mfaEnabled) && LocaleField(es, old(locale), locale)
        && BoolField(es, "verified", old(verified), verified) && TextField(es, "email", old(email), email)
    {
      var es := EntriesOf(Some(user));
      ghost var start := View();
      for i := 0 to |es|
        invariant View() == UserFrom(start, es[..i])
      {
        LoadEntry(es[i], start, es[..i]);
        assert es[..i] + [es[i]] == es[..i + 1];
      }
      assert es[..|es|] == es;
      if DistinctKeys(es) {
        UserFieldsLoad(start, es);
      }
    }

    /** One turn of the loop: every test is made, whatever the ones before it did. */
    method LoadEntry(e: Entry, ghost u: UserFields, ghost es: seq<Entry>)
      requires View() == UserFrom(u, es)
      modifies this
      ensures View() == UserFrom(u, es + [e])
    {
      OneMoreEntry(u, es, e);
      var key, tmp := e.key, StringValue(Some(e.value));
      if key == "id" && tmp.Some? { id := StrToULL(tmp.value); }
      if key == "username" && tmp.Some? { username := tmp; }
      if key == "discriminator" && tmp.Some? { discriminator := tmp; }
      if key == "avatar" && tmp.Some? { avatar := tmp; }
      if key == "bot" { bot := BooleanValue(e.value); }
      if key == "mfa_enabled" { mfaEnabled := BooleanValue(e.value); }
      if key == "locale" { locale := tmp; }
      if key == "verified" { verified := BooleanValue(e.value); }
      if key == "email" && tmp.Some? { email := tmp; }
    }
  }

  /** Loading a user does not depend on the order of the object's entries. */
  lemma UserIgnoresOrder(u: UserFields, a: seq<Entry>, b: seq<Entry>)
    requires DistinctKeys(a) && DistinctKeys(b) && multiset(a) == multiset(b)
    ensures UserFrom(u, a) == UserFrom(u, b)
  {
    StringIgnoresOrder(a, b, "id");
    StringIgnoresOrder(a, b, "username");
    StringIgnoresOrder(a, b, "discriminator");
    StringIgnoresOrder(a, b, "avatar");
    StringIgnoresOrder(a, b, "email");
    LookupIgnoresOrder(a, b, "bot");
    LookupIgnoresOrder(a, b, "mfa_enabled");
    LookupIgnoresOrder(a, b, "locale");
    LookupIgnoresOrder(a, b, "verified");
  }

  /* ---- messages ---- */

  datatype MessageFields = MessageFields(id: nat, channelId: nat, content: Option<string>, kind: int,
                                         author: Option<UserFields>)

  function AuthorFrom(v: Option<Json>, author: Option<UserFields>, memory: UserFields): Option<UserFields> {
    if v.Some? then Some(UserFrom(memory, EntriesOf(v))) else author
  }

  /** A message after loading. `memory` is what the block allocated for the author holds. */
  function MessageFrom(m: MessageFields, es: seq<Entry>, memory: UserFields): MessageFields {
    MessageFields(
      IdOr(LastString(es, "id"), m.id),
      IdOr(LastString(es, "channel_id"), m.channelId),
      TextOr(LastString(es, "content"), m.content),
      if LastString(es, "type").Some? then ToInt32(StrToL(LastString(es, "type").value)) else m.kind,
      AuthorFrom(LastValue(es, "author"), m.author, memory))
  }

  /** Every field of the message is loaded from its own key; an author is loaded into fresh memory. */
  lemma MessageFieldsLoad(m: MessageFields, es: seq<Entry>, memory: UserFields)
    requires DistinctKeys(es)
    ensures MessagePacked(m, MessageFrom(m, es, memory), es, memory)
  {
    IdFieldLoads(es, "id", m.id);
    IdFieldLoads(es, "channel_id", m.channelId);
    TextFieldLoads(es, "content", m.content);
    LastStringFinds(es, "type");
    LastValueIsIt(es, "author");
    forall v | Entry("author", v) in es && DistinctKeys(EntriesOf(Some(v)))
      ensures UserLoaded(memory, UserFrom(memory, EntriesOf(Some(v))), EntriesOf(Some(v)))
    {
      UserFieldsLoad(memory, EntriesOf(Some(v)));
    }
  }

  ghost predicate KindField(es: seq<Entry>, was: int, now: int) {
    && (forall s :: Entry("type", String(s)) in es ==> now == ToInt32(StrToL(s)))
    && (NoString(es, "type") ==> now == was)
  }

  ghost predicate AuthorField(es: seq<Entry>, was: Option<UserFields>, now: Option<UserFields>, memory: UserFields) {
    && (forall v :: Entry("author", v) in es ==>
          now.Some? && (DistinctKeys(EntriesOf(Some(v))) ==> UserLoaded(memory, now.value, EntriesOf(Some(v)))))
    && (Absent(es, "author") ==> now == was)
  }

  ghost predicate MessagePacked(was: MessageFields, now: MessageFields, es: seq<Entry>, memory: UserFields) {
    && IdField(es, "id", was.id, now.id)
    && IdField(es, "channel_id", was.channelId, now.channelId)
    && TextField(es, "content", was.content, now.content)
    && KindField(es, was.kind, now.kind)
    && AuthorField(es, was.author, now.author, memory)
  }

  class Message {
    var id: nat
    var channelId: nat
    var content: Option<string>
    var kind: int
    var author: User?

    ghost function View(): MessageFields
      reads this, author
    {
      MessageFields(id, channelId, content, kind, if author == null then None else Some(author.View()))
    }

    /** `ld_json_message_init`. */
    constructor ()
      ensures View() == MessageFields(0, 0, None, 0, None)
    {
      id, channelId, content, kind, author := 0, 0, None, 0, null;
    }

    /** `ld_json_pack_message`. */
    method Pack(message: Json, memory: UserFields)
      modifies this
      ensures View() == MessageFrom(old(View()), EntriesOf(Some(message)), memory)
      ensures var es := EntriesOf(Some(message)); DistinctKeys(es) ==>
        && IdField(es, "id", old(id), id) && IdField(es, "channel_id", old(channelId), channelId)
        && TextField(es, "content", old(content), content) && KindField(es, old(kind), kind)
        && AuthorField(es, old(View()).author, View().author, memory)
      ensures forall a: nat, b: nat :: a < TWO_64 && b < TWO_64 && CarriesIds(message, a, b) ==>
        id == a && channelId == b
    {
      var es := EntriesOf(Some(message));
      ghost var start := View();
      for i := 0 to |es|
        invariant View() == MessageFrom(start, es[..i], memory)
      {
        PackEntry(es[i], memory, start, es[..i]);
        assert es[..i] + [es[i]] == es[..i + 1];
      }
      assert es[..|es|] == es;
      if DistinctKeys(es) {
        MessageFieldsLoad(start, es, memory);
        forall a: nat, b: nat | a < TWO_64 && b < TWO_64 && CarriesIds(message, a, b)
          ensures id == a && channelId == b
        {
          IdRoundTrip(a);
          IdRoundTrip(b);
        }
      }
    }

    /** One turn of the loop. An author goes into a block of its own. */
    method PackEntry(e: Entry, memory: UserFields, ghost m: MessageFields, ghost es: seq<Entry>)
      requires View() == MessageFrom(m, es, memory)
      modifies this
      ensures View() == MessageFrom(m, es + [e], memory)
    {
      assert (es + [e])[..|es|] == es;
      var key, tmp := e.key, StringValue(Some(e.value));
      if key == "content" && tmp.Some? { content := tmp; }
      if key == "channel_id" && tmp.Some? { channelId := StrToULL(tmp.value); }
      if key == "id" && tmp.Some? { id := StrToULL(tmp.value); }
      if key == "type" && tmp.Some? { kind := ToInt32(StrToL(tmp.value)); }
      if key == "author" {
        var user := new User(memory);
        user.Load(e.value);
        author := user;
      }
    }
  }

  /** An object that carries the texts of two ids, each under its own key. */
  ghost predicate CarriesIds(message: Json, id: nat, channelId: nat) {
    var es := EntriesOf(Some(message));
    && DistinctKeys(es)
    && Entry("id", String(SnowflakeToString(id))) in es
    && Entry("channel_id", String(SnowflakeToString(channelId))) in es
  }

  /** Loading a message does not depend on the order of the object's entries. */
  lemma MessageIgnoresOrder(m: MessageFields, a: seq<Entry>, b: seq<Entry>, memory: UserFields)
    requires DistinctKeys(a) && DistinctKeys(b) && multiset(a) == multiset(b)
    ensures MessageFrom(m, a, memory) == MessageFrom(m, b, memory)
  {
    StringIgnoresOrder(a, b, "id");
    StringIgnoresOrder(a, b, "channel_id");
    StringIgnoresOrder(a, b, "content");
    StringIgnoresOrder(a, b, "type");
    LookupIgnoresOrder(a, b, "author");
  }
}
