/** What holds of the event buffer in every reachable state, for every order of events, buffering and flushing. */
module EventInvariants {
  import opened Common
  import opened EventBuffer

  // ---- The invariant ----------------------------------------------------------------------------------

  function ChatNamed(): (string, Dict) -> bool { (k: string, chat: Dict) => IdOf(chat) == k }

  function UpdateNamed(): (string, ChatUpdate) -> bool { (k: string, u: ChatUpdate) => k != "" && IdOf(u.fields) == k }

  /** The key of a message with no fields at all. */
  function NoFieldsKey(): string { KeyOf(map[]) }

  /** Of the one type, and under the key of an empty message if it is one. */
  function OfKind(kind: string): (string, UpsertItem) -> bool {
    (k: string, item: UpsertItem) => item.kind == kind && (item.message == map[] ==> k == NoFieldsKey())
  }

  function UpdateKeyed(): (string, UpdateItem) -> bool { (k: string, item: UpdateItem) => Stringify(item.key) == k }

  function DeleteKeyed(): (string, KeyObject) -> bool { (k: string, key: KeyObject) => Stringify(key) == k }

  ghost predicate ChatApart(data: Data, k: string) {
    k in data.chatDeletes ==> Lookup(data.chatUpserts, k).None? && Lookup(data.chatUpdates, k).None?
  }

  /** Chats are under their own id, and a deleted chat has neither an upsert nor an update, those listed aside. */
  ghost predicate ChatsOkBut(data: Data, aside: set<string>) {
    && Each(data.chatUpserts, ChatNamed())
    && Each(data.chatUpdates, UpdateNamed())
    && forall k :: k !in aside ==> ChatApart(data, k)
  }

  ghost predicate ChatsOk(data: Data) { ChatsOkBut(data, {}) }

  /** A message with both an upsert and a waiting update is an empty one. */
  ghost predicate MessageApart(data: Data, k: string) {
    Lookup(data.messageUpdates, k).Some? ==> !TakesUpdate(data, k)
  }

  ghost predicate MessagesOk(data: Data, kind: string) {
    && Each(data.messageUpserts, OfKind(kind))
    && Each(data.messageUpdates, UpdateKeyed())
    && Each(data.messageDeletes, DeleteKeyed())
    && forall k :: MessageApart(data, k)
  }

  /** The type the buffered upserts share: the first one's. */
  function BatchKind(data: Data): string {
    if data.messageUpserts == [] then NOTIFY else data.messageUpserts[0].value.kind
  }

  ghost predicate Invariant(st: State) {
    && ChatsOk(st.data)
    && MessagesOk(st.data, BatchKind(st.data))
    && (!st.buffering ==> st.data == EMPTY.(chatUpdates := st.data.chatUpdates) && Ready(st.data.chatUpdates) == [])
  }

  // ---- Chats ------------------------------------------------------------------------------------------

  lemma ConcatKeepsId(a: Dict, b: Dict)
    ensures IdOf(Concat(a, b)) == if Id in b then IdOf(b) else IdOf(a)
  {
  }

  lemma NamesAt(data: Data, aside: set<string>, k: string)
    requires ChatsOkBut(data, aside)
    ensures Lookup(data.chatUpserts, k).Some? ==> IdOf(Lookup(data.chatUpserts, k).value) == k
    ensures Lookup(data.chatUpdates, k).Some? ==> k != "" && IdOf(Lookup(data.chatUpdates, k).value.fields) == k
  {
    hide Lookup, Each;
    if Lookup(data.chatUpserts, k).Some? {
      EachLookup(data.chatUpserts, ChatNamed(), k);
    }
    if Lookup(data.chatUpdates, k).Some? {
      EachLookup(data.chatUpdates, UpdateNamed(), k);
    }
  }

  lemma PutUpsertOk(data: Data, aside: set<string>, id: string, chat: Dict)
    requires ChatsOkBut(data, aside) && IdOf(chat) == id
    ensures ChatsOkBut(data.(chatUpserts := Put(data.chatUpserts, id, chat)), aside + {id})
    ensures Lookup(data.chatUpserts, id).Some? ==> ChatsOkBut(data.(chatUpserts := Put(data.chatUpserts, id, chat)), aside)
  {
    hide Lookup, Put, Each;
    EachPut(data.chatUpserts, ChatNamed(), id, chat);
    var d := data.(chatUpserts := Put(data.chatUpserts, id, chat));
    forall k | k !in aside
      ensures k != id || Lookup(data.chatUpserts, id).Some? ==> ChatApart(d, k)
    {
      assert ChatApart(data, k);
      LookupPut(data.chatUpserts, id, chat, k);
    }
  }

  lemma PutUpdateOk(data: Data, aside: set<string>, id: string, u: ChatUpdate)
    requires ChatsOkBut(data, aside) && id != "" && IdOf(u.fields) == id
    ensures ChatsOkBut(data.(chatUpdates := Put(data.chatUpdates, id, u)), aside + {id})
    ensures Lookup(data.chatUpdates, id).Some? ==> ChatsOkBut(data.(chatUpdates := Put(data.chatUpdates, id, u)), aside)
  {
    hide Lookup, Put, Each;
    EachPut(data.chatUpdates, UpdateNamed(), id, u);
    var d := data.(chatUpdates := Put(data.chatUpdates, id, u));
    forall k | k !in aside
      ensures k != id || Lookup(data.chatUpdates, id).Some? ==> ChatApart(d, k)
    {
      assert ChatApart(data, k);
      LookupPut(data.chatUpdates, id, u, k);
    }
  }

  lemma DropUpdateOk(data: Data, aside: set<string>, id: string)
    requires ChatsOkBut(data, aside)
    ensures ChatsOkBut(data.(chatUpdates := Without(data.chatUpdates, {id})), aside)
  {
    hide Lookup, Without, Each;
    EachWithout(data.chatUpdates, UpdateNamed(), {id});
    forall k | k !in aside
      ensures ChatApart(data.(chatUpdates := Without(data.chatUpdates, {id})), k)
    {
      assert ChatApart(data, k);
      LookupWithout(data.chatUpdates, {id}, k);
    }
  }

  lemma DiscardOk(data: Data, aside: set<string>, id: string)
    requires ChatsOkBut(data, aside)
    ensures ChatsOkBut(data.(chatDeletes := data.chatDeletes - {id}), aside - {id})
  {
    hide Lookup, Each;
    forall k | k !in aside - {id}
      ensures ChatApart(data.(chatDeletes := data.chatDeletes - {id}), k)
    {
      assert k !in aside ==> ChatApart(data, k);
    }
  }

  lemma DeleteChatsOk(data: Data, ids: set<string>)
    requires ChatsOk(data)
    ensures ChatsOk(DeleteChats(data, ids))
  {
    hide Lookup, Without, Each;
    EachWithout(data.chatUpdates, UpdateNamed(), ids);
    EachWithout(data.chatUpserts, ChatNamed(), ids);
    forall k
      ensures ChatApart(DeleteChats(data, ids), k)
    {
      assert ChatApart(data, k);
      LookupWithout(data.chatUpdates, ids, k);
      LookupWithout(data.chatUpserts, ids, k);
    }
  }

  lemma AbsorbOk(env: Env, data: Data, aside: set<string>, slot: string)
    requires ChatsOkBut(data, aside) && Lookup(data.chatUpserts, slot).Some?
    ensures ChatsOkBut(AbsorbChatUpdate(env, data, slot), aside)
  {
    hide Lookup, Without, Put, Each, Concat, ChatsOkBut;
    var existing := Lookup(data.chatUpserts, slot).value;
    NamesAt(data, aside, slot);
    if HasUpdate(data, slot) {
      var u := Lookup(data.chatUpdates, slot).value;
      var merged := existing + Concat(u.fields, existing);
      ConcatKeepsId(u.fields, existing);
      PutUpsertOk(data, aside, slot, merged);
      DropUpdateOk(data, aside, slot);
      DropUpdateOk(data.(chatUpserts := Put(data.chatUpserts, slot, merged)), aside, slot);
    }
  }

  lemma UpsertChatOk(env: Env, data: Data, chat: Dict)
    requires ChatsOk(data)
    ensures ChatsOk(UpsertChat(env, data, chat))
  {
    hide Lookup, Without, Put, Each, Concat, ChatsOkBut, AbsorbChatUpdate;
    var id := IdOf(chat);
    var merged := MergedUpsert(data, chat);
    NamesAt(data, {}, id);
    if HasUpsert(data, id) {
      ConcatKeepsId(Lookup(data.chatUpserts, id).value, chat);
    }
    assert {} + {id} == {id} && {id} - {id} == {};
    PutUpsertOk(data, {}, id, merged);
    var d := data.(chatUpserts := Put(data.chatUpserts, id, merged));
    LookupPut(data.chatUpserts, id, merged, id);
    AbsorbOk(env, d, {id}, id);
    DiscardOk(AbsorbChatUpdate(env, d, id), {id}, id);
  }

  lemma UpdateChatOk(env: Env, data: Data, u: ChatUpdate)
    requires ChatsOk(data)
    ensures ChatsOk(UpdateChat(env, data, u))
  {
    hide Lookup, Without, Put, Each, Concat, ChatsOkBut;
    var id := IdOf(u.fields);
    if id != "" {
      assert {} + {id} == {id} && {id} - {id} == {} && {} - {id} == {};
      if HasUpsert(data, id) {
        var c := Lookup(data.chatUpserts, id).value;
        ConcatKeepsId(c, u.fields);
        PutUpsertOk(data, {}, id, Concat(c, u.fields));
        DiscardOk(data.(chatUpserts := Put(data.chatUpserts, id, Concat(c, u.fields))), {}, id);
      }
      var merged := MergedUpdate(data, u);
      if Lookup(data.chatUpdates, id).Some? {
        ConcatKeepsId(Lookup(data.chatUpdates, id).value.fields, u.fields);
      } else {
        ConcatKeepsId(map[], u.fields);
      }
      PutUpdateOk(data, {}, id, merged);
      PutUpdateOk(data, {}, id, u);
      DiscardOk(data.(chatUpdates := Put(data.chatUpdates, id, merged)), {id}, id);
      DiscardOk(data.(chatUpdates := Put(data.chatUpdates, id, u)), {id}, id);
      DiscardOk(data, {}, id);
    }
  }

  lemma CountReadOk(env: Env, data: Data, message: Dict)
    requires ChatsOk(data)
    ensures ChatsOk(CountRead(env, data, message))
    ensures CountRead(env, data, message).messageUpserts == data.messageUpserts
    ensures CountRead(env, data, message).messageUpdates == data.messageUpdates
    ensures CountRead(env, data, message).messageDeletes == data.messageDeletes
  {
    hide Lookup, Put, Each, ChatsOkBut;
    var jid := KeyObjectOf(message).remoteJid;
    if jid.Some? {
      NamesAt(data, {}, jid.value);
      if HasUpdate(data, jid.value) {
        var u := Lookup(data.chatUpdates, jid.value).value;
        PutUpdateOk(data, {}, jid.value, u.(fields := OneLessUnread(env, u.fields, message)));
      } else if HasUpsert(data, jid.value) {
        PutUpsertOk(data, {}, jid.value, OneLessUnread(env, Lookup(data.chatUpserts, jid.value).value, message));
      }
    }
  }

  // ---- Messages ---------------------------------------------------------------------------------------

  lemma EmptyOnlyFromEmpty(data: Data, m: Dict)
    ensures BufferedMessage(data, m) == map[] ==> m == map[]
  {
    hide Lookup, KeyOf;
    var update := Lookup(data.messageUpdates, KeyOf(m));
    if m != map[] {
      var f :| f in m;
      assert f in BufferedMessage(data, m);
    }
  }

  lemma MergedIsNotEmpty(a: Dict, b: Dict)
    requires a != map[]
    ensures a + b != map[]
  {
    var f :| f in a;
    assert f in a + b;
  }

  lemma UpsertMessageOk(data: Data, m: Dict, kind: string)
    requires MessagesOk(data, kind)
    ensures MessagesOk(UpsertMessage(data, m, kind), kind)
  {
    hide Lookup, Put, Without, Each, KeyOf, BufferedMessage;
    var k := KeyOf(m);
    var item := UpsertItem(BufferedMessage(data, m), BufferedKind(data, k, kind));
    if Lookup(data.messageUpserts, k).Some? {
      EachLookup(data.messageUpserts, OfKind(kind), k);
    }
    EmptyOnlyFromEmpty(data, m);
    EachPut(data.messageUpserts, OfKind(kind), k, item);
    EachWithout(data.messageUpdates, UpdateKeyed(), {k});
    forall j
      ensures MessageApart(UpsertMessage(data, m, kind), j)
    {
      assert MessageApart(data, j);
      LookupPut(data.messageUpserts, k, item, j);
      LookupWithout(data.messageUpdates, {k}, j);
    }
  }

  lemma UpdateMessageOk(env: Env, data: Data, item: UpdateItem, kind: string)
    requires MessagesOk(data, kind) && ChatsOk(data)
    ensures MessagesOk(UpdateMessage(env, data, item), kind) && ChatsOk(UpdateMessage(env, data, item))
  {
    hide Lookup, Put, Each, ChatsOk, CountRead, Stringify;
    var k := Stringify(item.key);
    var d := UpdateMessage(env, data, item);
    if TakesUpdate(data, k) {
      var found := Lookup(data.messageUpserts, k).value;
      var merged := found.(message := found.message + item.update);
      EachLookup(data.messageUpserts, OfKind(kind), k);
      MergedIsNotEmpty(found.message, item.update);
      EachPut(data.messageUpserts, OfKind(kind), k, merged);
      var put := data.(messageUpserts := Put(data.messageUpserts, k, merged));
      SameChats(data, put);
      CountReadOk(env, put, merged.message);
      forall j
        ensures MessageApart(put, j)
      {
        assert MessageApart(data, j);
        LookupPut(data.messageUpserts, k, merged, j);
      }
      SameMessages(put, d, kind);
    } else {
      var waiting := Lookup(data.messageUpdates, k);
      var next := if waiting.Some? then waiting.value.(update := waiting.value.update + item.update) else item;
      if waiting.Some? {
        EachLookup(data.messageUpdates, UpdateKeyed(), k);
      }
      EachPut(data.messageUpdates, UpdateKeyed(), k, next);
      forall j
        ensures MessageApart(d, j)
      {
        assert MessageApart(data, j);
        LookupPut(data.messageUpdates, k, next, j);
      }
      SameChats(data, d);
    }
  }

  lemma SameChats(a: Data, b: Data)
    requires ChatsOk(a)
    requires a.chatUpserts == b.chatUpserts && a.chatUpdates == b.chatUpdates && a.chatDeletes == b.chatDeletes
    ensures ChatsOk(b)
  {
    hide Lookup, Each;
    forall k
      ensures ChatApart(b, k)
    {
      assert ChatApart(a, k);
    }
  }

  lemma SameMessages(a: Data, b: Data, kind: string)
    requires MessagesOk(a, kind)
    requires a.messageUpserts == b.messageUpserts && a.messageUpdates == b.messageUpdates
    requires a.messageDeletes == b.messageDeletes
    ensures MessagesOk(b, kind)
  {
    hide Lookup, Each;
    forall k
      ensures MessageApart(b, k)
    {
      assert MessageApart(a, k);
    }
  }

  lemma DeleteMessageOk(data: Data, key: KeyObject, kind: string)
    requires MessagesOk(data, kind)
    ensures MessagesOk(DeleteMessage(data, key), kind)
  {
    hide Lookup, Put, Without, Each, Stringify;
    var k := Stringify(key);
    EachPut(data.messageDeletes, DeleteKeyed(), k, key);
    EachWithout(data.messageUpserts, OfKind(kind), {k});
    EachWithout(data.messageUpdates, UpdateKeyed(), {k});
    forall j
      ensures MessageApart(DeleteMessage(data, key), j)
    {
      assert MessageApart(data, j);
      LookupWithout(data.messageUpserts, {k}, j);
      LookupWithout(data.messageUpdates, {k}, j);
    }
  }

  // ---- Whole events and runs --------------------------------------------------------------------------

  lemma {:induction false} AppendChatsOk(env: Env, data: Data, e: Event)
    requires (e.ChatsUpsert? || e.ChatsUpdate? || e.ChatsDelete?) && ChatsOk(data)
    ensures ChatsOk(Append(env, data, e))
    ensures Append(env, data, e).messageUpserts == data.messageUpserts
    ensures Append(env, data, e).messageUpdates == data.messageUpdates
    ensures Append(env, data, e).messageDeletes == data.messageDeletes
    decreases if e.ChatsUpsert? then |e.chats| else if e.ChatsUpdate? then |e.updates| else 0
  {
    hide ChatsOk, UpsertChat, UpdateChat, DeleteChats;
    match e {
      case ChatsUpsert(chats) =>
        if chats != [] {
          AppendChatsOk(env, data, ChatsUpsert(chats[..|chats| - 1]));
          var d := UpsertChats(env, data, chats[..|chats| - 1]);
          UpsertChatOk(env, d, chats[|chats| - 1]);
          ChatStepsLeaveMessages(env, d, chats[|chats| - 1], ChatUpdate(map[], None), {});
        }
      case ChatsUpdate(us) =>
        if us != [] {
          AppendChatsOk(env, data, ChatsUpdate(us[..|us| - 1]));
          var d := UpdateChats(env, data, us[..|us| - 1]);
          UpdateChatOk(env, d, us[|us| - 1]);
          ChatStepsLeaveMessages(env, d, map[], us[|us| - 1], {});
        }
      case ChatsDelete(ids) =>
        DeleteChatsOk(data, ids);
        ChatStepsLeaveMessages(env, data, map[], ChatUpdate(map[], None), ids);
    }
  }

  function MessagePart(data: Data): (Ordered<UpsertItem>, Ordered<UpdateItem>, Ordered<KeyObject>) {
    (data.messageUpserts, data.messageUpdates, data.messageDeletes)
  }

  lemma ChatStepsLeaveMessages(env: Env, data: Data, chat: Dict, u: ChatUpdate, ids: set<string>)
    ensures MessagePart(UpsertChat(env, data, chat)) == MessagePart(data)
    ensures MessagePart(UpdateChat(env, data, u)) == MessagePart(data)
    ensures MessagePart(DeleteChats(data, ids)) == MessagePart(data)
  {
    hide Lookup, Put, Without, Concat, MergedUpsert, HasUpdate, HasUpsert;
    var id := IdOf(chat);
    LookupPut(data.chatUpserts, id, MergedUpsert(data, chat), id);
  }

  lemma {:induction false} AppendMessagesOk(env: Env, data: Data, e: Event, kind: string)
    requires e.MessagesUpsert? || e.MessagesUpdate? || e.MessagesDelete?
    requires MessagesOk(data, kind) && ChatsOk(data) && (e.MessagesUpsert? ==> Effective(e.kind) == kind)
    ensures MessagesOk(Append(env, data, e), kind) && ChatsOk(Append(env, data, e))
    decreases match e
      case MessagesUpsert(ms, _) => |ms|
      case MessagesUpdate(items) => |items|
      case MessagesDelete(Keys(keys)) => |keys|
      case _ => 0
  {
    hide MessagesOk, ChatsOk, UpsertMessage, UpdateMessage, DeleteMessage;
    match e {
      case MessagesUpsert(ms, t) =>
        if ms != [] {
          AppendMessagesOk(env, data, MessagesUpsert(ms[..|ms| - 1], t), kind);
          var d := UpsertMessages(data, ms[..|ms| - 1], kind);
          UpsertMessageOk(d, ms[|ms| - 1], kind);
          MessageStepsLeaveChats(d, ms[|ms| - 1], kind, NO_KEY);
        }
      case MessagesUpdate(items) =>
        if items != [] {
          AppendMessagesOk(env, data, MessagesUpdate(items[..|items| - 1]), kind);
          UpdateMessageOk(env, UpdateMessages(env, data, items[..|items| - 1]), items[|items| - 1], kind);
        }
      case MessagesDelete(Keys(keys)) =>
        if keys != [] {
          AppendMessagesOk(env, data, MessagesDelete(Keys(keys[..|keys| - 1])), kind);
          var d := DeleteMessages(data, keys[..|keys| - 1]);
          DeleteMessageOk(d, keys[|keys| - 1], kind);
          MessageStepsLeaveChats(d, map[], kind, keys[|keys| - 1]);
        }
      case MessagesDelete(AllOf(_)) =>
    }
  }

  lemma MessageStepsLeaveChats(data: Data, m: Dict, kind: string, key: KeyObject)
    requires ChatsOk(data)
    ensures ChatsOk(UpsertMessage(data, m, kind)) && ChatsOk(DeleteMessage(data, key))
  {
    hide ChatsOk;
    SameChats(data, UpsertMessage(data, m, kind));
    SameChats(data, DeleteMessage(data, key));
  }

  lemma {:induction false} EachFirst<V>(s: Ordered<V>, ok: (string, V) -> bool)
    requires Each(s, ok) && s != []
    ensures ok(s[0].key, s[0].value)
  {
    if |s| > 1 {
      EachFirst(s[..|s| - 1], ok);
    }
  }

  /** The first item's type is right for all. */
  lemma OneKind(data: Data, kind: string)
    requires MessagesOk(data, kind)
    ensures MessagesOk(data, BatchKind(data))
    ensures data.messageUpserts != [] ==> BatchKind(data) == kind
  {
    hide Lookup;
    if data.messageUpserts != [] {
      EachFirst(data.messageUpserts, OfKind(kind));
    } else {
      forall k
        ensures MessageApart(data, k)
      {
      }
    }
  }

  /** What waits for its condition stays, the rest goes: each chat update is on exactly one side. */
  lemma {:induction false} FlushSplits(us: Ordered<ChatUpdate>, k: string)
    requires Each(us, UpdateNamed())
    ensures Each(Waiting(us), UpdateNamed()) && Ready(Waiting(us)) == []
    ensures var u := Lookup(us, k);
      && Lookup(Waiting(us), k) == (if u.Some? && u.value.conditional.Some? then u else None)
      && Lookup(Ready(us), k) == (if u.Some? && u.value.conditional.None? then u else None)
  {
    if us != [] {
      var front, last := us[..|us| - 1], us[|us| - 1];
      FlushSplits(front, k);
      FlushSplits(front, last.key);
      LookupSnoc(Waiting(front), last, k);
      LookupSnoc(Ready(front), last, k);
      EachSnoc(Waiting(front), UpdateNamed(), last);
      assert last.value.conditional.Some? ==> (Waiting(front) + [last])[..|Waiting(front)|] == Waiting(front);
    }
  }

  lemma {:induction false} ReadyDistinct(us: Ordered<ChatUpdate>)
    requires Each(us, UpdateNamed())
    ensures Each(Ready(us), UpdateNamed())
  {
    if us != [] {
      var front, last := us[..|us| - 1], us[|us| - 1];
      ReadyDistinct(front);
      FlushSplits(front, last.key);
      EachSnoc(Ready(front), UpdateNamed(), last);
    }
  }

  lemma FlushKeeps(env: Env, st: State)
    requires Invariant(st)
    ensures Invariant(Next(env, st, Flush))
  {
    hide Lookup, Each, Waiting, Ready;
    var us := st.data.chatUpdates;
    FlushSplits(us, "");
    EachNone(OfKind(NOTIFY));
    EachNone(UpdateKeyed());
    EachNone(DeleteKeyed());
    EachNone(ChatNamed());
    var d := EMPTY.(chatUpdates := Waiting(us));
    forall k
      ensures st.buffering ==> ChatApart(d, k) && MessageApart(d, k)
    {
      LookupNone<UpdateItem>(k);
    }
  }

  lemma EachNone<V>(ok: (string, V) -> bool)
    ensures Each([], ok)
  {
  }

  lemma LookupNone<V>(k: string)
    ensures Lookup<V>([], k) == None
  {
  }

  lemma EmitKeeps(env: Env, st: State, e: Event)
    requires Invariant(st)
    ensures Invariant(Next(env, st, Emit(e)))
  {
    hide ChatsOk, MessagesOk, Append;
    var d := AfterEarly(st.data, e);
    var kind := if e.MessagesUpsert? then Effective(e.kind) else BatchKind(st.data);
    EarlyOk(st.data, e, kind);
    OneKind(d, kind);
    if st.buffering && !e.NotBufferable? {
      if e.ChatsUpsert? || e.ChatsUpdate? || e.ChatsDelete? {
        AppendChatsOk(env, d, e);
        SameMessages(d, Append(env, d, e), kind);
      } else {
        AppendMessagesOk(env, d, e, kind);
      }
      OneKind(Append(env, d, e), kind);
    }
  }

  lemma EarlyOk(data: Data, e: Event, kind: string)
    requires MessagesOk(data, BatchKind(data)) && ChatsOk(data)
    requires e.MessagesUpsert? ==> kind == Effective(e.kind)
    requires !e.MessagesUpsert? ==> kind == BatchKind(data)
    ensures MessagesOk(AfterEarly(data, e), kind) && ChatsOk(AfterEarly(data, e))
  {
    hide ChatsOk;
    SameChats(data, AfterEarly(data, e));
    forall k
      ensures MessageApart(AfterEarly(data, e), k)
    {
      assert MessageApart(data, k);
    }
  }

  lemma NextKeeps(env: Env, st: State, step: Step)
    requires Invariant(st)
    ensures Invariant(Next(env, st, step))
  {
    hide ChatsOk, MessagesOk;
    match step {
      case Buffer =>
      case Flush => FlushKeeps(env, st);
      case Emit(e) => EmitKeeps(env, st, e);
    }
  }

  function Play(env: Env, st: State, steps: seq<Step>): State
    decreases |steps|
  {
    if steps == [] then st else Play(env, Next(env, st, steps[0]), steps[1..])
  }

  const START: State := State(EMPTY, false, 0)

  lemma {:induction false} PlayKeeps(env: Env, st: State, steps: seq<Step>)
    requires Invariant(st)
    ensures Invariant(Play(env, st, steps))
    decreases |steps|
  {
    if steps != [] {
      NextKeeps(env, st, steps[0]);
      PlayKeeps(env, Next(env, st, steps[0]), steps[1..]);
    }
  }

  /**
   * In every reachable state: all buffered upserts share one type; upserts and updates are disjoint but for the key of
   * a message without fields, where the upsert is such a message; deleted chats have no upsert and no update; and
   * nothing but conditional chat updates is held while not buffering.
   */
  lemma ReachableStates(env: Env, steps: seq<Step>, k: string)
    ensures var st := Play(env, START, steps);
      && (forall i :: 0 <= i < |st.data.messageUpserts| ==> st.data.messageUpserts[i].value.kind == BatchKind(st.data))
      && (Lookup(st.data.messageUpserts, k).Some? && Lookup(st.data.messageUpdates, k).Some?
          ==> k == NoFieldsKey() && Lookup(st.data.messageUpserts, k).value.message == map[])
      && (k in st.data.chatDeletes ==> Lookup(st.data.chatUpserts, k).None? && Lookup(st.data.chatUpdates, k).None?)
      && (!st.buffering ==> st.data == EMPTY.(chatUpdates := Waiting(st.data.chatUpdates)))
  {
    hide Lookup, Play;
    StartOk();
    PlayKeeps(env, START, steps);
    var st := Play(env, START, steps);
    assert MessageApart(st.data, k) && ChatApart(st.data, k);
    if Lookup(st.data.messageUpserts, k).Some? {
      EachLookup(st.data.messageUpserts, OfKind(BatchKind(st.data)), k);
    }
    EachIndex(st.data.messageUpserts, BatchKind(st.data));
    if !st.buffering {
      NothingReady(st.data.chatUpdates);
    }
  }

  lemma StartOk()
    ensures Invariant(START)
  {
    forall k
      ensures ChatApart(EMPTY, k) && MessageApart(EMPTY, k)
    {
    }
  }

  lemma {:induction false} EachIndex(s: Ordered<UpsertItem>, kind: string)
    requires Each(s, OfKind(kind))
    ensures forall i :: 0 <= i < |s| ==> s[i].value.kind == kind
  {
    if s != [] {
      EachIndex(s[..|s| - 1], kind);
      assert forall i :: 0 <= i < |s| - 1 ==> s[i] == s[..|s| - 1][i];
    }
  }

  lemma {:induction false} NothingReady(us: Ordered<ChatUpdate>)
    requires Ready(us) == []
    ensures Waiting(us) == us
  {
    if us != [] {
      NothingReady(us[..|us| - 1]);
    }
  }

  /**
   * A flush hands out every chat update except exactly the conditional ones, and keeps exactly those; a second
   * flush straight after, with buffering turned on again, hands out none.
   */
  lemma FlushCarriesOver(env: Env, steps: seq<Step>, id: string)
    requires Play(env, START, steps).buffering
    ensures var st := Play(env, START, steps);
      var after, u := Next(env, st, Flush), Lookup(st.data.chatUpdates, id);
      && Lookup(after.data.chatUpdates, id) == (if u.Some? && u.value.conditional.Some? then u else None)
      && Lookup(Ready(st.data.chatUpdates), id) == (if u.Some? && u.value.conditional.None? then u else None)
      && (Ready(st.data.chatUpdates) != [] ==> ChatsUpdate(Values(Ready(st.data.chatUpdates))) in Out(st, Flush))
      && (forall e :: e in Out(Next(env, after, Buffer), Flush) ==> !e.ChatsUpdate?)
  {
    hide Lookup, Play;
    StartOk();
    PlayKeeps(env, START, steps);
    var st := Play(env, START, steps);
    FlushSplits(st.data.chatUpdates, id);
  }

  /** A conditional update waits for the chat. */
  predicate HoldsBack(data: Data, id: string) {
    Lookup(data.chatUpdates, id).Some? && Lookup(data.chatUpdates, id).value.conditional.Some?
  }

  /**
   * An unconditional update of a chat without a buffered upsert is among what the next flush hands out exactly when
   * no conditional update waits for the chat; otherwise it is held under that condition. With a buffered upsert it
   * goes into that, whatever waits.
   */
  lemma UnconditionalUpdateHandedOut(env: Env, data: Data, u: ChatUpdate)
    requires ChatsOk(data) && u.conditional.None? && IdOf(u.fields) != ""
    ensures var id, d := IdOf(u.fields), UpdateChat(env, data, u);
      if HasUpsert(data, id) then
        && Lookup(d.chatUpserts, id) == Some(Concat(Lookup(data.chatUpserts, id).value, u.fields))
        && d.chatUpdates == data.chatUpdates
      else
        && (Lookup(Ready(d.chatUpdates), id).Some? <==> !HoldsBack(data, id))
        && (HoldsBack(data, id) ==> Lookup(Waiting(d.chatUpdates), id) == Some(MergedUpdate(data, u)))
        && (!HoldsBack(data, id) ==> Lookup(Ready(d.chatUpdates), id) == Some(MergedUpdate(data, u)))
  {
    hide Lookup, Put, Each, Waiting, Ready, Concat;
    var id := IdOf(u.fields);
    UpdateChatOk(env, data, u);
    if HasUpsert(data, id) {
      LookupPut(data.chatUpserts, id, Concat(Lookup(data.chatUpserts, id).value, u.fields), id);
    } else {
      LookupPut(data.chatUpdates, id, MergedUpdate(data, u), id);
      FlushSplits(UpdateChat(env, data, u).chatUpdates, id);
    }
  }

  /** An unconditional update merged into a waiting conditional one waits with it. */
  lemma UnconditionalUpdateWaits(env: Env, data: Data, first: ChatUpdate, second: ChatUpdate)
    requires first.conditional.Some? && second.conditional.None?
    requires IdOf(first.fields) == IdOf(second.fields) != "" && !HasUpsert(data, IdOf(second.fields))
    requires env.verdict(first.conditional.value, data) == None
    ensures var d := UpdateChats(env, data, [first, second]);
      var held := Lookup(d.chatUpdates, IdOf(second.fields));
      && held == Some(ChatUpdate(Concat(first.fields, second.fields), first.conditional))
  {
    hide Put, Concat;
    var id := IdOf(second.fields);
    assert [first, second][..1] == [first] && [first][..0] == [];
    var d := UpdateChat(env, data, first);
    assert UpdateChats(env, data, [first]) == d;
    LookupPut(data.chatUpdates, id, first, id);
    LookupPut(d.chatUpdates, id, MergedUpdate(d, second), id);
  }

  // ---- Events that are not held back ------------------------------------------------------------------

  /** While nothing is buffered, each event is handed out as it came, alone, and nothing is kept of it. */
  lemma UnbufferedPassesOn(env: Env, steps: seq<Step>, e: Event)
    requires !Play(env, START, steps).buffering
    ensures var st := Play(env, START, steps);
      Out(st, Emit(e)) == [e] && Next(env, st, Emit(e)) == st
  {
    hide Play, ChatsOk, MessagesOk;
    StartOk();
    PlayKeeps(env, START, steps);
    assert [] + [e] == [e];
  }

  /** While buffering, an event that cannot be buffered is still handed out as it came, and the buffer stands. */
  lemma NotBufferablePassesOn(env: Env, st: State, name: string)
    ensures Out(st, Emit(NotBufferable(name))) == [NotBufferable(name)] && Next(env, st, Emit(NotBufferable(name))) == st
  {
    assert [] + [NotBufferable(name)] == [NotBufferable(name)];
  }

  /** Bufferings since the last flush, from a count before the steps. */
  function CountFrom(n: nat, steps: seq<Step>): nat
    decreases |steps|
  {
    if steps == [] then n
    else
      match steps[0]
      case Buffer => CountFrom(n + 1, steps[1..])
      case Flush => CountFrom(0, steps[1..])
      case Emit(_) => CountFrom(n, steps[1..])
  }

  /** The count is the number of bufferings since the last flush, and events are held back while there is one. */
  lemma {:induction false} CountsBufferings(env: Env, st: State, steps: seq<Step>)
    requires st.buffering <==> st.count > 0
    ensures var end := Play(env, st, steps);
      end.count == CountFrom(st.count, steps) && (end.buffering <==> end.count > 0)
    decreases |steps|
  {
    hide Append, AfterEarly;
    if steps != [] {
      CountsBufferings(env, Next(env, st, steps[0]), steps[1..]);
    }
  }
}
