/** What each event does to what is buffered of a chat and of a message, field by field. */
module EventEffects {
  import opened Common
  import opened EventBuffer
  import opened EventInvariants

  // ---- What merging does to a chat --------------------------------------------------------------------

  lemma ConcatField(a: Dict, b: Dict, f: Field)
    requires f != UnreadCount
    ensures f in Concat(a, b) <==> f in a || f in b
    ensures Get(Concat(a, b), f) == if f in b then b[f] else Get(a, f)
  {
  }

  /** The count of a chat that has one and is not just marked as unread. */
  predicate Counts(chat: Dict) { Get(chat, UnreadCount).Num? && Get(chat, UnreadCount).n >= 0 }

  function Total(chats: seq<Dict>): int
    requires forall c :: c in chats ==> Counts(c)
  {
    if chats == [] then 0
    else
      assert Counts(chats[|chats| - 1]);
      Total(chats[..|chats| - 1]) + Get(chats[|chats| - 1], UnreadCount).n
  }

  /**
   * The unread count of a merge: counts add up, where a mark as unread counts as none; a mark as unread, or a count
   * that is there but empty, replaces the earlier one; without a new count the earlier stays, but a mark is cleared.
   */
  lemma MergedUnread(a: Dict, b: Dict)
    ensures var x, y := Get(a, UnreadCount), Get(b, UnreadCount);
      Get(Concat(a, b), UnreadCount)
        == if y.Num? && y.n >= 0 && x.Num? then Num(y.n + (if x.n < 0 then 0 else x.n))
           else if UnreadCount in b then y
           else if x.Num? && x.n < 0 then Null
           else x
  {
  }

  function ConcatAll(chat: Dict, us: seq<Dict>): Dict {
    if us == [] then chat else Concat(ConcatAll(chat, us[..|us| - 1]), us[|us| - 1])
  }

  /** Unread counts add up over any number of merges. */
  lemma {:induction false} UnreadCountsAdd(chat: Dict, us: seq<Dict>)
    requires Counts(chat) && forall u :: u in us ==> Counts(u)
    ensures Get(ConcatAll(chat, us), UnreadCount) == Num(Get(chat, UnreadCount).n + Total(us)) && Total(us) >= 0
  {
    if us != [] {
      UnreadCountsAdd(chat, us[..|us| - 1]);
      assert Counts(us[|us| - 1]);
    }
  }

  /** A message that arrives and is read leaves the count as it was; a count of zero is dropped. */
  lemma ArriveThenRead(env: Env, chat: Dict, message: Dict)
    requires Counts(chat) && env.unread(message)
    ensures var n := Get(chat, UnreadCount);
      Get(OneLessUnread(env, Concat(chat, map[UnreadCount := Num(1)]), message), UnreadCount) == if n == Num(0) then Null else n
  {
    UnreadCountsAdd(chat, [map[UnreadCount := Num(1)]]);
    assert [map[UnreadCount := Num(1)]][..0] == [];
  }

  /** The buffer once the upsert is stored, before it looks at the update that waits. */
  function WithUpsert(data: Data, chat: Dict): Data {
    data.(chatUpserts := Put(data.chatUpserts, IdOf(chat), MergedUpsert(data, chat)))
  }

  /** Field by field, the upsert wins over an earlier upsert and that over the update that waited. */
  function Layered(data: Data, chat: Dict, f: Field): Value {
    var id := IdOf(chat);
    if f in chat then chat[f]
    else if HasUpsert(data, id) && f in Lookup(data.chatUpserts, id).value then Lookup(data.chatUpserts, id).value[f]
    else if HasUpdate(data, id) then Get(Lookup(data.chatUpdates, id).value.fields, f)
    else Null
  }

  /**
   * A chat upserted while an update waits whose condition holds takes it in, and an earlier upsert too: later fields
   * win, the waiting update's are added where neither has them, counts add up, and the update is gone, as is an
   * earlier deletion.
   */
  lemma UpsertTakesWaitingUpdate(env: Env, data: Data, chat: Dict, f: Field)
    requires ChatsOk(data) && f != UnreadCount && HasUpdate(data, IdOf(chat))
    requires Verdict(env, WithUpsert(data, chat), Lookup(data.chatUpdates, IdOf(chat)).value) == Some(true)
    ensures var id, d := IdOf(chat), UpsertChat(env, data, chat);
      var u := Lookup(data.chatUpdates, id).value.fields;
      && Lookup(d.chatUpdates, id).None? && id !in d.chatDeletes && Lookup(d.chatUpserts, id).Some?
      && var stored := Lookup(d.chatUpserts, id).value;
      && Get(stored, f) == Layered(data, chat, f)
      && (Counts(u) && Counts(MergedUpsert(data, chat)) ==>
            Get(stored, UnreadCount) == Num(Get(u, UnreadCount).n + Get(MergedUpsert(data, chat), UnreadCount).n))
      && (HasUpsert(data, id) && Counts(Lookup(data.chatUpserts, id).value) && Counts(chat) ==>
            Get(MergedUpsert(data, chat), UnreadCount)
              == Num(Get(Lookup(data.chatUpserts, id).value, UnreadCount).n + Get(chat, UnreadCount).n))
  {
    hide Lookup, Without, Put, Each, Concat, ChatsOkBut;
    var id, merged := IdOf(chat), MergedUpsert(data, chat);
    var u := Lookup(data.chatUpdates, id).value.fields;
    var d := WithUpsert(data, chat);
    var stored := merged + Concat(u, merged);
    NamesAt(data, {}, id);
    if HasUpsert(data, id) {
      var earlier := Lookup(data.chatUpserts, id).value;
      ConcatKeepsId(earlier, chat);
      ConcatField(earlier, chat, f);
      CountsOfTwo(earlier, chat);
    }
    LookupPut(data.chatUpserts, id, merged, id);
    LookupPut(d.chatUpserts, id, stored, id);
    LookupWithout(d.chatUpdates, {id}, id);
    ConcatField(u, merged, f);
    CountsOfTwo(u, merged);
  }

  lemma CountsOfTwo(u: Dict, chat: Dict)
    ensures Counts(u) && Counts(chat) ==>
      UnreadCount in Concat(u, chat) && Get(Concat(u, chat), UnreadCount) == Num(Get(u, UnreadCount).n + Get(chat, UnreadCount).n)
  {
    hide Concat;
    if Counts(u) && Counts(chat) {
      UnreadCountsAdd(u, [chat]);
      ConcatOne(u, chat);
    }
  }

  lemma ConcatOne(u: Dict, chat: Dict)
    ensures ConcatAll(u, [chat]) == Concat(u, chat)
    ensures Counts(chat) ==> Total([chat]) == Get(chat, UnreadCount).n
    ensures Counts(chat) && Counts(u) ==> UnreadCount in Concat(u, chat)
  {
    assert [chat][..0] == [];
  }

  /**
   * An upsert that takes no update in is stored field by field over an earlier upsert; the update that waits stays if
   * its condition cannot be told and is dropped if the condition fails; an earlier deletion is undone either way.
   */
  lemma UpsertLeavesUpdate(env: Env, data: Data, chat: Dict, f: Field)
    requires ChatsOk(data) && f != UnreadCount
    requires HasUpdate(data, IdOf(chat)) ==>
      Verdict(env, WithUpsert(data, chat), Lookup(data.chatUpdates, IdOf(chat)).value) != Some(true)
    ensures var id, d := IdOf(chat), UpsertChat(env, data, chat);
      && Lookup(d.chatUpserts, id).Some? && id !in d.chatDeletes
      && Get(Lookup(d.chatUpserts, id).value, f)
        == (if f in chat then chat[f] else if HasUpsert(data, id) then Get(Lookup(data.chatUpserts, id).value, f) else Null)
      && (HasUpdate(data, id) ==>
            var u := Lookup(data.chatUpdates, id).value;
            Lookup(d.chatUpdates, id) == if Verdict(env, WithUpsert(data, chat), u) == None then Some(u) else None)
  {
    hide Lookup, Without, Put, Each, Concat, ChatsOkBut;
    var id, merged := IdOf(chat), MergedUpsert(data, chat);
    NamesAt(data, {}, id);
    if HasUpsert(data, id) {
      ConcatKeepsId(Lookup(data.chatUpserts, id).value, chat);
      ConcatField(Lookup(data.chatUpserts, id).value, chat, f);
    }
    LookupPut(data.chatUpserts, id, merged, id);
    LookupWithout(data.chatUpdates, {id}, id);
  }

  /**
   * A chat update by its verdict: undecided, it replaces what waits; failed, it is dropped; met, it goes into the
   * buffered upsert, or else over what waits, whose condition it then shares. A buffered deletion of the chat is
   * undone whatever the verdict.
   */
  lemma UpdateByVerdict(env: Env, data: Data, u: ChatUpdate, f: Field)
    requires IdOf(u.fields) != "" && f != UnreadCount
    ensures var id, d := IdOf(u.fields), UpdateChat(env, data, u);
      var verdict := if u.conditional.Some? then env.verdict(u.conditional.value, data) else Some(true);
      var up, waiting := Lookup(data.chatUpserts, id), Lookup(data.chatUpdates, id);
      && d.chatDeletes == data.chatDeletes - {id}
      && (verdict == None ==> Lookup(d.chatUpdates, id) == Some(u) && d.chatUpserts == data.chatUpserts)
      && (verdict == Some(false) ==> d.chatUpdates == data.chatUpdates && d.chatUpserts == data.chatUpserts)
      && (verdict == Some(true) && HasUpsert(data, id) ==>
            && d.chatUpdates == data.chatUpdates && Lookup(d.chatUpserts, id).Some?
            && Get(Lookup(d.chatUpserts, id).value, f) == if f in u.fields then u.fields[f] else Get(up.value, f))
      && (verdict == Some(true) && !HasUpsert(data, id) ==>
            && d.chatUpserts == data.chatUpserts && Lookup(d.chatUpdates, id).Some?
            && Lookup(d.chatUpdates, id).value.conditional == (if waiting.Some? then waiting.value.conditional else None)
            && Get(Lookup(d.chatUpdates, id).value.fields, f)
              == if f in u.fields then u.fields[f] else if waiting.Some? then Get(waiting.value.fields, f) else Null)
  {
    hide Lookup, Put, Concat;
    var id := IdOf(u.fields);
    LookupPut(data.chatUpdates, id, u, id);
    LookupPut(data.chatUpdates, id, MergedUpdate(data, u), id);
    ConcatField(map[], u.fields, f);
    if Lookup(data.chatUpdates, id).Some? {
      ConcatField(Lookup(data.chatUpdates, id).value.fields, u.fields, f);
    }
    if HasUpsert(data, id) {
      var c := Lookup(data.chatUpserts, id).value;
      ConcatField(c, u.fields, f);
      LookupPut(data.chatUpserts, id, Concat(c, u.fields), id);
    }
  }

  /** A buffered message of the chat, not the user's own, has just been read and counts as unread. */
  predicate ReadNow(env: Env, item: UpdateItem, message: Dict, id: string) {
    Get(item.update, Status) == Num(READ) && !item.key.fromMe && id != ""
    && KeyObjectOf(message).remoteJid == Some(id) && env.unread(message)
  }

  /** One less, where a count of one goes away; what is not a positive count stays. */
  predicate OneLess(before: Dict, after: Dict) {
    var n := Get(before, UnreadCount);
    && before - {UnreadCount} == after - {UnreadCount}
    && (n.Num? && n.n > 1 ==> Get(after, UnreadCount) == Num(n.n - 1))
    && (n == Num(1) ==> UnreadCount !in after)
    && (!(n.Num? && n.n > 0) ==> after == before)
  }

  /**
   * An update that marks a buffered message as read takes one from the chat's count, in the chat's waiting update if
   * there is one and else in its upsert; nothing else of any chat changes, and no other update of a message does it.
   */
  lemma ReadingLowersCount(env: Env, data: Data, item: UpdateItem, id: string)
    ensures var d, found := UpdateMessage(env, data, item), Lookup(data.messageUpserts, Stringify(item.key));
      var read := TakesUpdate(data, Stringify(item.key)) && ReadNow(env, item, found.value.message + item.update, id);
      var u, c := Lookup(data.chatUpdates, id), Lookup(data.chatUpserts, id);
      && d.chatDeletes == data.chatDeletes
      && (if read && HasUpdate(data, id) then
            && Lookup(d.chatUpdates, id).Some? && Lookup(d.chatUpdates, id).value.conditional == u.value.conditional
            && OneLess(u.value.fields, Lookup(d.chatUpdates, id).value.fields)
          else Lookup(d.chatUpdates, id) == u)
      && (if read && !HasUpdate(data, id) && HasUpsert(data, id) then
            Lookup(d.chatUpserts, id).Some? && OneLess(c.value, Lookup(d.chatUpserts, id).value)
          else Lookup(d.chatUpserts, id) == c)
  {
    hide Lookup, Put, Stringify, KeyObjectOf, OneLess, OneLessUnread;
    var k := Stringify(item.key);
    if TakesUpdate(data, k) {
      var merged := Lookup(data.messageUpserts, k).value.message + item.update;
      var jid := KeyObjectOf(merged).remoteJid;
      if jid.Some? && HasUpdate(data, jid.value) {
        var u := Lookup(data.chatUpdates, jid.value).value;
        LessOrSame(env, u.fields, merged);
        LookupPut(data.chatUpdates, jid.value, u.(fields := OneLessUnread(env, u.fields, merged)), id);
      } else if jid.Some? && HasUpsert(data, jid.value) {
        var c := Lookup(data.chatUpserts, jid.value).value;
        LessOrSame(env, c, merged);
        LookupPut(data.chatUpserts, jid.value, OneLessUnread(env, c, merged), id);
      }
    }
  }

  lemma LessOrSame(env: Env, chat: Dict, message: Dict)
    ensures env.unread(message) ==> OneLess(chat, OneLessUnread(env, chat, message))
    ensures !env.unread(message) ==> OneLessUnread(env, chat, message) == chat
  {
  }

  // ---- What upserting does to a message ---------------------------------------------------------------

  /**
   * An upserted message is stored field by field: an update that waited comes first, then an earlier upsert's
   * timestamp, then the message itself. It is of type notify if it or the earlier upsert is; the update is gone, and
   * all other messages are as they were.
   */
  lemma MessageStored(data: Data, m: Dict, kind: string, f: Field, k: string)
    ensures var key, d := KeyOf(m), UpsertMessage(data, m, kind);
      var earlier, update, stored := Lookup(data.messageUpserts, key), Lookup(data.messageUpdates, key), Lookup(d.messageUpserts, k);
      if k == key then
        && stored.Some? && Lookup(d.messageUpdates, k).None?
        && Get(stored.value.message, f)
          == (if update.Some? && f in update.value.update then update.value.update[f]
              else if f == MessageTimestamp && earlier.Some? && earlier.value.message != map[] then Get(earlier.value.message, f)
              else Get(m, f))
        && stored.value.kind == (if earlier.Some? && earlier.value.kind == NOTIFY then NOTIFY else kind)
      else stored == Lookup(data.messageUpserts, k) && Lookup(d.messageUpdates, k) == Lookup(data.messageUpdates, k)
  {
    hide Lookup, Put, Without, KeyOf;
    var key := KeyOf(m);
    LookupPut(data.messageUpserts, key, UpsertItem(BufferedMessage(data, m), BufferedKind(data, key, kind)), k);
    LookupWithout(data.messageUpdates, {key}, k);
  }

  // ---- Message keys -----------------------------------------------------------------------------------

  /** The text of a key tells keys apart by all it is made from, when the ids have no comma. */
  lemma KeysToldApart(a: KeyObject, b: KeyObject)
    requires ',' !in OrNone(a.id) && ',' !in OrNone(b.id)
    ensures Stringify(a) == Stringify(b)
      <==> OrNone(a.remoteJid) == OrNone(b.remoteJid) && OrNone(a.id) == OrNone(b.id) && a.fromMe == b.fromMe
  {
    if Stringify(a) == Stringify(b) {
      var s, t := Stringify(a), Stringify(b);
      var x, y := OrNone(a.remoteJid) + "," + OrNone(a.id), OrNone(b.remoteJid) + "," + OrNone(b.id);
      assert s[|s| - 1] == t[|t| - 1];
      assert x == s[..|s| - 2] && y == t[..|t| - 2];
      LastComma(OrNone(a.remoteJid), OrNone(a.id), OrNone(b.remoteJid), OrNone(b.id));
    }
  }

  /** With a comma in an id the text does not tell two keys apart. */
  lemma CommaConfuses()
    ensures Stringify(KeyObject(Some("chat"), Some("3,EB0"), false, None)) == Stringify(KeyObject(Some("chat,3"), Some("EB0"), false, None))
  {
    assert "chat" + "," + "3,EB0" == "chat,3" + "," + "EB0";
  }

  lemma NoneAfter(a: string, x: string)
    requires ',' !in x
    ensures forall i :: |a| < i < |a + "," + x| ==> (a + "," + x)[i] != ','
  {
  }

  lemma LastComma(a: string, x: string, b: string, y: string)
    requires a + "," + x == b + "," + y && ',' !in x && ',' !in y
    ensures a == b && x == y
  {
    var s := a + "," + x;
    NoneAfter(a, x);
    NoneAfter(b, y);
    assert s[|a|] == ',' && s[|b|] == ',';
    assert a == s[..|a|] && b == s[..|b|];
    assert x == s[|a| + 1..] && y == s[|b| + 1..];
  }
}
