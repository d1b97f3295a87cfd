/** The event emitter that can hold events back, merge them, and release them as one batch. */
module EventBuffer {
  import opened Common

  // ---- Records and ordered dictionaries ---------------------------------------------------------------

  datatype KeyObject = KeyObject(remoteJid: Option<string>, id: Option<string>, fromMe: bool, participant: Option<string>)

  datatype Field = Key | Id | UnreadCount | MessageTimestamp | Status | Other(name: string)

  datatype Value = Null | Num(n: int) | Text(text: string) | Ref(key: KeyObject) | Opaque(token: nat)

  type Dict = map<Field, Value>

  function Get(d: Dict, f: Field): Value { if f in d then d[f] else Null }

  const NO_KEY: KeyObject := KeyObject(None, None, false, None)

  function OrNone(o: Option<string>): string { if o.Some? then o.value else "None" }

  function Stringify(k: KeyObject): string {
    OrNone(k.remoteJid) + "," + OrNone(k.id) + "," + if k.fromMe then "1" else "0"
  }

  function KeyObjectOf(message: Dict): KeyObject {
    var k := Get(message, Key);
    if k.Ref? then k.key else NO_KEY
  }

  function KeyOf(message: Dict): string { Stringify(KeyObjectOf(message)) }

  function IdOf(chat: Dict): string {
    var id := Get(chat, Id);
    if id.Text? then id.text else ""
  }

  datatype Entry<V> = Entry(key: string, value: V)

  /** A dictionary in insertion order. */
  type Ordered<V> = seq<Entry<V>>

  function Lookup<V>(s: Ordered<V>, k: string): Option<V> {
    if s == [] then None
    else if s[|s| - 1].key == k then Some(s[|s| - 1].value)
    else Lookup(s[..|s| - 1], k)
  }

  /** A key that is there keeps its place; a new one goes to the end. */
  function Put<V>(s: Ordered<V>, k: string, v: V): Ordered<V> {
    if Lookup(s, k).Some? then Replace(s, k, v) else s + [Entry(k, v)]
  }

  function Replace<V>(s: Ordered<V>, k: string, v: V): Ordered<V> {
    if s == [] then []
    else
      var front, last := s[..|s| - 1], s[|s| - 1];
      if last.key == k then front + [Entry(k, v)] else Replace(front, k, v) + [last]
  }

  function Without<V>(s: Ordered<V>, keys: set<string>): Ordered<V> {
    if s == [] then []
    else
      var front, last := Without(s[..|s| - 1], keys), s[|s| - 1];
      if last.key in keys then front else front + [last]
  }

  function Values<V>(s: Ordered<V>): seq<V> {
    if s == [] then [] else Values(s[..|s| - 1]) + [s[|s| - 1].value]
  }

  // ---- Events and the buffer's data -------------------------------------------------------------------

  datatype Condition = Condition(token: nat)

  datatype UpsertItem = UpsertItem(message: Dict, kind: string)
  datatype UpdateItem = UpdateItem(key: KeyObject, update: Dict)
  datatype ChatUpdate = ChatUpdate(fields: Dict, conditional: Option<Condition>)
  datatype Deletion = Keys(keys: seq<KeyObject>) | AllOf(jid: string)

  datatype Event =
    | MessagesUpsert(messages: seq<Dict>, kind: Option<string>)
    | MessagesUpdate(items: seq<UpdateItem>)
    | MessagesDelete(what: Deletion)
    | ChatsUpsert(chats: seq<Dict>)
    | ChatsUpdate(updates: seq<ChatUpdate>)
    | ChatsDelete(ids: set<string>)
    | NotBufferable(name: string)

  datatype Data = Data(
    messageUpserts: Ordered<UpsertItem>,
    messageUpdates: Ordered<UpdateItem>,
    messageDeletes: Ordered<KeyObject>,
    chatUpserts: Ordered<Dict>,
    chatUpdates: Ordered<ChatUpdate>,
    chatDeletes: set<string>)

  const EMPTY: Data := Data([], [], [], [], [], {})

  /** The closures the buffer calls: a condition's verdict on the buffer, and whether a message counts as unread. */
  datatype Env = Env(verdict: (Condition, Data) -> Option<bool>, unread: Dict -> bool)

  const NOTIFY: string := "notify"
  const READ: int := 4

  function Effective(kind: Option<string>): string { if kind.Some? then kind.value else NOTIFY }

  // ---- Messages ---------------------------------------------------------------------------------------

  /** What is buffered for an upserted message: an earlier one's timestamp and a pending update win over it. */
  function BufferedMessage(data: Data, m: Dict): Dict {
    var existing, update := Lookup(data.messageUpserts, KeyOf(m)), Lookup(data.messageUpdates, KeyOf(m));
    var stamped :=
      if existing.Some? && existing.value.message != map[]
      then m[MessageTimestamp := Get(existing.value.message, MessageTimestamp)] else m;
    if update.Some? then stamped + update.value.update else stamped
  }

  function BufferedKind(data: Data, k: string, kind: string): string {
    var prev := Lookup(data.messageUpserts, k);
    if kind == NOTIFY || (prev.Some? && prev.value.kind == NOTIFY) then NOTIFY else kind
  }

  function UpsertMessage(data: Data, m: Dict, kind: string): Data {
    var k := KeyOf(m);
    data.(messageUpserts := Put(data.messageUpserts, k, UpsertItem(BufferedMessage(data, m), BufferedKind(data, k, kind))),
          messageUpdates := Without(data.messageUpdates, {k}))
  }

  /** A message that is buffered and not empty takes the update in place; any other update waits. */
  function TakesUpdate(data: Data, k: string): bool {
    var found := Lookup(data.messageUpserts, k);
    found.Some? && found.value.message != map[]
  }

  function UpdateMessage(env: Env, data: Data, item: UpdateItem): Data {
    var k := Stringify(item.key);
    if TakesUpdate(data, k) then
      var found := Lookup(data.messageUpserts, k).value;
      var merged := found.message + item.update;
      var d := data.(messageUpserts := Put(data.messageUpserts, k, found.(message := merged)));
      if Get(item.update, Status) == Num(READ) && !item.key.fromMe then CountRead(env, d, merged) else d
    else
      var waiting := Lookup(data.messageUpdates, k);
      data.(messageUpdates := Put(data.messageUpdates, k,
        if waiting.Some? then waiting.value.(update := waiting.value.update + item.update) else item))
  }

  function DeleteMessage(data: Data, key: KeyObject): Data {
    var k := Stringify(key);
    data.(messageDeletes := if Lookup(data.messageDeletes, k).Some? then data.messageDeletes else Put(data.messageDeletes, k, key),
          messageUpserts := Without(data.messageUpserts, {k}),
          messageUpdates := Without(data.messageUpdates, {k}))
  }

  // ---- Chats ------------------------------------------------------------------------------------------

  function OneLessUnread(env: Env, chat: Dict, message: Dict): Dict {
    var count := Get(chat, UnreadCount);
    if !env.unread(message) || !count.Num? || count.n <= 0 then chat
    else if count.n == 1 then chat - {UnreadCount}
    else chat[UnreadCount := Num(count.n - 1)]
  }

  predicate HasUpdate(data: Data, id: string) {
    var u := Lookup(data.chatUpdates, id);
    u.Some? && (u.value.fields != map[] || u.value.conditional.Some?)
  }

  predicate HasUpsert(data: Data, id: string) {
    var c := Lookup(data.chatUpserts, id);
    c.Some? && c.value != map[]
  }

  /** A buffered message was read: its chat, if buffered too, has one unread message less. */
  function CountRead(env: Env, data: Data, message: Dict): Data {
    var jid := KeyObjectOf(message).remoteJid;
    if jid.None? || jid.value == "" then data
    else if HasUpdate(data, jid.value) then
      var u := Lookup(data.chatUpdates, jid.value).value;
      data.(chatUpdates := Put(data.chatUpdates, jid.value, u.(fields := OneLessUnread(env, u.fields, message))))
    else if HasUpsert(data, jid.value) then
      var c := Lookup(data.chatUpserts, jid.value).value;
      data.(chatUpserts := Put(data.chatUpserts, jid.value, OneLessUnread(env, c, message)))
    else data
  }

  function Max(a: int, b: int): int { if a < b then b else a }

  /** Later fields win, except that unread counts add up and a mark as unread is cleared by what has no count. */
  function Concat(a: Dict, b: Dict): Dict {
    var clears := Get(b, UnreadCount).Null? && Get(a, UnreadCount).Num? && Get(a, UnreadCount).n < 0;
    var a1 := if clears then a[UnreadCount := Null] else a;
    var b1 := if clears then b[UnreadCount := Null] else b;
    var x, y := Get(a1, UnreadCount), Get(b1, UnreadCount);
    a1 + if x.Num? && y.Num? && y.n >= 0 then b1[UnreadCount := Num(Max(y.n, 0) + Max(x.n, 0))] else b1
  }

  function Verdict(env: Env, data: Data, u: ChatUpdate): Option<bool> {
    if u.conditional.Some? then env.verdict(u.conditional.value, data) else Some(true)
  }

  /** A chat just upserted takes in the update waiting for it, unless that update's condition cannot be told yet. */
  function AbsorbChatUpdate(env: Env, data: Data, slot: string): Data
    requires Lookup(data.chatUpserts, slot).Some?
  {
    var existing := Lookup(data.chatUpserts, slot).value;
    var id := IdOf(existing);
    if !HasUpdate(data, id) then data
    else
      var u := Lookup(data.chatUpdates, id).value;
      match Verdict(env, data, u)
      case None => data
      case Some(false) => data.(chatUpdates := Without(data.chatUpdates, {id}))
      case Some(true) =>
        data.(chatUpserts := Put(data.chatUpserts, slot, existing + Concat(u.fields, existing)),
              chatUpdates := Without(data.chatUpdates, {id}))
  }

  function MergedUpsert(data: Data, chat: Dict): Dict {
    if HasUpsert(data, IdOf(chat)) then Concat(Lookup(data.chatUpserts, IdOf(chat)).value, chat) else chat
  }

  function UpsertChat(env: Env, data: Data, chat: Dict): Data {
    var id := IdOf(chat);
    var d := data.(chatUpserts := Put(data.chatUpserts, id, MergedUpsert(data, chat)));
    LookupPut(data.chatUpserts, id, MergedUpsert(data, chat), id);
    var e := AbsorbChatUpdate(env, d, id);
    e.(chatDeletes := e.chatDeletes - {id})
  }

  function MergedUpdate(data: Data, u: ChatUpdate): ChatUpdate {
    var pending := Lookup(data.chatUpdates, IdOf(u.fields));
    if pending.Some? then pending.value.(fields := Concat(pending.value.fields, u.fields)) else ChatUpdate(Concat(map[], u.fields), None)
  }

  function UpdateChat(env: Env, data: Data, u: ChatUpdate): Data {
    var id := IdOf(u.fields);
    if id == "" then data
    else
      var d :=
        match Verdict(env, data, u)
        case Some(false) => data
        case None => data.(chatUpdates := Put(data.chatUpdates, id, u))
        case Some(true) =>
          if HasUpsert(data, id)
          then data.(chatUpserts := Put(data.chatUpserts, id, Concat(Lookup(data.chatUpserts, id).value, u.fields)))
          else data.(chatUpdates := Put(data.chatUpdates, id, MergedUpdate(data, u)));
      d.(chatDeletes := d.chatDeletes - {id})
  }

  function DeleteChats(data: Data, ids: set<string>): Data {
    data.(chatDeletes := data.chatDeletes + ids,
          chatUpdates := Without(data.chatUpdates, ids),
          chatUpserts := Without(data.chatUpserts, ids))
  }

  // ---- Whole events -----------------------------------------------------------------------------------

  function UpsertMessages(data: Data, ms: seq<Dict>, kind: string): Data {
    if ms == [] then data else UpsertMessage(UpsertMessages(data, ms[..|ms| - 1], kind), ms[|ms| - 1], kind)
  }

  function UpdateMessages(env: Env, data: Data, items: seq<UpdateItem>): Data {
    if items == [] then data else UpdateMessage(env, UpdateMessages(env, data, items[..|items| - 1]), items[|items| - 1])
  }

  function DeleteMessages(data: Data, keys: seq<KeyObject>): Data {
    if keys == [] then data else DeleteMessage(DeleteMessages(data, keys[..|keys| - 1]), keys[|keys| - 1])
  }

  function UpsertChats(env: Env, data: Data, chats: seq<Dict>): Data {
    if chats == [] then data else UpsertChat(env, UpsertChats(env, data, chats[..|chats| - 1]), chats[|chats| - 1])
  }

  function UpdateChats(env: Env, data: Data, us: seq<ChatUpdate>): Data {
    if us == [] then data else UpdateChat(env, UpdateChats(env, data, us[..|us| - 1]), us[|us| - 1])
  }

  function Append(env: Env, data: Data, e: Event): Data {
    match e
    case MessagesUpsert(ms, kind) => UpsertMessages(data, ms, Effective(kind))
    case MessagesUpdate(items) => UpdateMessages(env, data, items)
    case MessagesDelete(Keys(keys)) => DeleteMessages(data, keys)
    case MessagesDelete(AllOf(_)) => data
    case ChatsUpsert(chats) => UpsertChats(env, data, chats)
    case ChatsUpdate(us) => UpdateChats(env, data, us)
    case ChatsDelete(ids) => DeleteChats(data, ids)
    case NotBufferable(_) => data
  }

  function Messages(items: Ordered<UpsertItem>): seq<Dict> {
    if items == [] then [] else Messages(items[..|items| - 1]) + [items[|items| - 1].value.message]
  }

  /** The buffered upserts as one event, under the first one's type. */
  function UpsertBatch(items: Ordered<UpsertItem>): seq<Event> {
    if items == [] then [] else [MessagesUpsert(Messages(items), Some(items[0].value.kind))]
  }

  function Consolidate(data: Data): seq<Event> {
    (if data.chatUpserts == [] then [] else [ChatsUpsert(Values(data.chatUpserts))])
    + (if data.chatUpdates == [] then [] else [ChatsUpdate(Values(data.chatUpdates))])
    + (if data.chatDeletes == {} then [] else [ChatsDelete(data.chatDeletes)])
    + UpsertBatch(data.messageUpserts)
    + (if data.messageUpdates == [] then [] else [MessagesUpdate(Values(data.messageUpdates))])
    + (if data.messageDeletes == [] then [] else [MessagesDelete(Keys(Values(data.messageDeletes)))])
  }

  // ---- The emitter as a step system -------------------------------------------------------------------

  datatype State = State(data: Data, buffering: bool, count: nat)

  datatype Step = Buffer | Flush | Emit(event: Event)

  /** Upserts of another type than the buffered ones push those out first, buffering or not. */
  predicate Mismatch(data: Data, e: Event) {
    e.MessagesUpsert? && data.messageUpserts != [] && e.kind != Some(data.messageUpserts[0].value.kind)
  }

  function Waiting(us: Ordered<ChatUpdate>): Ordered<ChatUpdate> {
    if us == [] then []
    else
      var front, last := Waiting(us[..|us| - 1]), us[|us| - 1];
      if last.value.conditional.Some? then front + [last] else front
  }

  function Ready(us: Ordered<ChatUpdate>): Ordered<ChatUpdate> {
    if us == [] then []
    else
      var front, last := Ready(us[..|us| - 1]), us[|us| - 1];
      if last.value.conditional.Some? then front else front + [last]
  }

  function EarlyOut(data: Data, e: Event): seq<Event> {
    if Mismatch(data, e) then UpsertBatch(data.messageUpserts) else []
  }

  function AfterEarly(data: Data, e: Event): Data {
    if Mismatch(data, e) then data.(messageUpserts := []) else data
  }

  function Next(env: Env, st: State, step: Step): State {
    match step
    case Buffer => if st.buffering then st.(count := st.count + 1) else State(st.data, true, 1)
    case Flush => if st.buffering then State(EMPTY.(chatUpdates := Waiting(st.data.chatUpdates)), false, 0) else st
    case Emit(e) =>
      var d := AfterEarly(st.data, e);
      st.(data := if st.buffering && !e.NotBufferable? then Append(env, d, e) else d)
  }

  /** What listeners are given, in order. */
  function Out(st: State, step: Step): seq<Event> {
    match step
    case Buffer => []
    case Flush => if st.buffering then Consolidate(st.data.(chatUpdates := Ready(st.data.chatUpdates))) else []
    case Emit(e) => EarlyOut(st.data, e) + if st.buffering && !e.NotBufferable? then [] else [e]
  }

  // ---- Facts about ordered dictionaries ---------------------------------------------------------------

  lemma {:induction false} LookupReplace<V>(s: Ordered<V>, k: string, v: V, j: string)
    ensures Lookup(Replace(s, k, v), j) == if j == k && Lookup(s, k).Some? then Some(v) else Lookup(s, j)
  {
    if s != [] {
      var front, last := s[..|s| - 1], s[|s| - 1];
      assert Replace(s, k, v)[..|Replace(s, k, v)| - 1] == if last.key == k then front else Replace(front, k, v);
      if last.key != k {
        LookupReplace(front, k, v, j);
      }
    }
  }

  lemma LookupSnoc<V>(s: Ordered<V>, x: Entry<V>, j: string)
    ensures Lookup(s + [x], j) == if j == x.key then Some(x.value) else Lookup(s, j)
  {
    assert (s + [x])[..|s|] == s;
  }

  lemma LookupPut<V>(s: Ordered<V>, k: string, v: V, j: string)
    ensures Lookup(Put(s, k, v), j) == if j == k then Some(v) else Lookup(s, j)
  {
    LookupReplace(s, k, v, j);
    LookupSnoc(s, Entry(k, v), j);
  }

  lemma {:induction false} LookupWithout<V>(s: Ordered<V>, keys: set<string>, j: string)
    ensures Lookup(Without(s, keys), j) == if j in keys then None else Lookup(s, j)
  {
    if s != [] {
      var front, last := s[..|s| - 1], s[|s| - 1];
      LookupWithout(front, keys, j);
      LookupSnoc(Without(front, keys), last, j);
    }
  }

  /** No key twice, and every entry passes the test. */
  ghost predicate Each<V>(s: Ordered<V>, ok: (string, V) -> bool) {
    s == []
    || (var front, last := s[..|s| - 1], s[|s| - 1];
        Lookup(front, last.key).None? && ok(last.key, last.value) && Each(front, ok))
  }

  lemma {:induction false} EachLookup<V>(s: Ordered<V>, ok: (string, V) -> bool, k: string)
    requires Each(s, ok) && Lookup(s, k).Some?
    ensures ok(k, Lookup(s, k).value)
  {
    if s[|s| - 1].key != k {
      EachLookup(s[..|s| - 1], ok, k);
    }
  }

  lemma EachSnoc<V>(s: Ordered<V>, ok: (string, V) -> bool, x: Entry<V>)
    ensures Each(s + [x], ok) <==> Each(s, ok) && Lookup(s, x.key).None? && ok(x.key, x.value)
  {
    assert (s + [x])[..|s|] == s;
  }

  lemma {:induction false} EachReplace<V>(s: Ordered<V>, ok: (string, V) -> bool, k: string, v: V)
    requires Each(s, ok) && ok(k, v)
    ensures Each(Replace(s, k, v), ok)
  {
    if s != [] {
      var front, last := s[..|s| - 1], s[|s| - 1];
      if last.key == k {
        EachSnoc(front, ok, Entry(k, v));
      } else {
        EachReplace(front, ok, k, v);
        LookupReplace(front, k, v, last.key);
        EachSnoc(Replace(front, k, v), ok, last);
      }
    }
  }

  lemma EachPut<V>(s: Ordered<V>, ok: (string, V) -> bool, k: string, v: V)
    requires Each(s, ok) && ok(k, v)
    ensures Each(Put(s, k, v), ok)
  {
    if Lookup(s, k).Some? {
      EachReplace(s, ok, k, v);
    } else {
      EachSnoc(s, ok, Entry(k, v));
    }
  }

  lemma {:induction false} EachWithout<V>(s: Ordered<V>, ok: (string, V) -> bool, keys: set<string>)
    requires Each(s, ok)
    ensures Each(Without(s, keys), ok)
  {
    if s != [] {
      var front, last := s[..|s| - 1], s[|s| - 1];
      EachWithout(front, ok, keys);
      LookupWithout(front, keys, last.key);
      EachSnoc(Without(front, keys), ok, last);
    }
  }

  lemma {:induction false} WithoutTwice<V>(s: Ordered<V>, a: set<string>, b: set<string>)
    ensures Without(Without(s, a), b) == Without(s, a + b)
  {
    if s != [] {
      var front, last := s[..|s| - 1], s[|s| - 1];
      WithoutTwice(front, a, b);
      var kept := Without(front, a);
      assert (kept + [last])[..|kept|] == kept;
    }
  }

  lemma {:induction false} WithoutNone<V>(s: Ordered<V>)
    ensures Without(s, {}) == s
  {
    if s != [] {
      WithoutNone(s[..|s| - 1]);
    }
  }
}
