/** A listener that keeps chats: what a flush leaves it with, and which chats it knows over whole runs. */
module EventChats {
  import opened Common
  import opened EventBuffer
  import opened EventEffects
  import opened EventInvariants

  // ---- The events of a flush --------------------------------------------------------------------------

  /** The payload of a flush's event: everything buffered of its kind, in order, and never nothing. */
  ghost predicate Handed(data: Data, e: Event) {
    match e
    case ChatsUpsert(cs) =>
      cs != [] && |cs| == |data.chatUpserts| && forall i :: 0 <= i < |cs| ==> cs[i] == data.chatUpserts[i].value
    case ChatsUpdate(us) =>
      var ready := Ready(data.chatUpdates);
      us != [] && |us| == |ready| && forall i :: 0 <= i < |us| ==> us[i] == ready[i].value
    case ChatsDelete(ids) => ids != {} && ids == data.chatDeletes
    case MessagesUpsert(ms, kind) =>
      && ms != [] && |ms| == |data.messageUpserts| && kind == Some(data.messageUpserts[0].value.kind)
      && forall i :: 0 <= i < |ms| ==> ms[i] == data.messageUpserts[i].value.message
    case MessagesUpdate(items) =>
      && items != [] && |items| == |data.messageUpdates|
      && forall i :: 0 <= i < |items| ==> items[i] == data.messageUpdates[i].value
    case MessagesDelete(Keys(keys)) =>
      && keys != [] && |keys| == |data.messageDeletes|
      && forall i :: 0 <= i < |keys| ==> keys[i] == data.messageDeletes[i].value
    case _ => false
  }

  lemma {:induction false} ValuesAre<V>(s: Ordered<V>)
    ensures |Values(s)| == |s|
    ensures forall i :: 0 <= i < |s| ==> Values(s)[i] == s[i].value
  {
    if s != [] {
      ValuesAre(s[..|s| - 1]);
    }
  }

  lemma {:induction false} MessagesAre(s: Ordered<UpsertItem>)
    ensures |Messages(s)| == |s|
    ensures forall i :: 0 <= i < |s| ==> Messages(s)[i] == s[i].value.message
  {
    if s != [] {
      MessagesAre(s[..|s| - 1]);
    }
  }

  predicate Quiet(e: Event) { !e.ChatsUpsert? && !e.ChatsUpdate? && !e.ChatsDelete? }

  /** The place of an event among those of a flush. */
  function Rank(e: Event): nat {
    match e
    case ChatsUpsert(_) => 0
    case ChatsUpdate(_) => 1
    case ChatsDelete(_) => 2
    case MessagesUpsert(_, _) => 3
    case MessagesUpdate(_) => 4
    case _ => 5
  }

  ghost predicate Ranked(es: seq<Event>, below: nat) {
    && (forall i :: 0 <= i < |es| ==> Rank(es[i]) < below)
    && (forall i, j :: 0 <= i < j < |es| ==> Rank(es[i]) < Rank(es[j]))
  }

  /** At most one event of a kind, after those before it. */
  function Optionally(wanted: bool, e: Event): seq<Event> { if wanted then [e] else [] }

  lemma RankedSnoc(es: seq<Event>, wanted: bool, e: Event)
    requires Ranked(es, Rank(e))
    ensures Ranked(es + Optionally(wanted, e), Rank(e) + 1)
    ensures forall x :: x in es + Optionally(wanted, e) <==> x in es || (wanted && x == e)
  {
  }

  /** The chat events of a flush, in order. */
  function ChatEvents(data: Data): seq<Event> {
    Optionally(data.chatUpserts != [], ChatsUpsert(Values(data.chatUpserts)))
    + Optionally(Ready(data.chatUpdates) != [], ChatsUpdate(Values(Ready(data.chatUpdates))))
    + Optionally(data.chatDeletes != {}, ChatsDelete(data.chatDeletes))
  }

  lemma FlushParts(st: State)
    requires st.buffering
    ensures var data := st.data;
      Out(st, Flush)
        == ChatEvents(data)
          + Optionally(data.messageUpserts != [], MessagesUpsert(Messages(data.messageUpserts), Some(BatchKind(data))))
          + Optionally(data.messageUpdates != [], MessagesUpdate(Values(data.messageUpdates)))
          + Optionally(data.messageDeletes != [], MessagesDelete(Keys(Values(data.messageDeletes))))
  {
    hide Values, Messages, Ready;
  }

  /** A flush hands out exactly the events that carry all that is buffered of their kind, one of each kind. */
  lemma FlushHandsOut(st: State, e: Event)
    requires st.buffering
    ensures e in Out(st, Flush) <==> Handed(st.data, e)
    ensures Ranked(Out(st, Flush), 6)
  {
    hide Values, Messages, Ready, Out, Optionally, Handed, Ranked;
    var data := st.data;
    var messages := MessagesUpsert(Messages(data.messageUpserts), Some(BatchKind(data)));
    var changes, gone := MessagesUpdate(Values(data.messageUpdates)), MessagesDelete(Keys(Values(data.messageDeletes)));
    FlushParts(st);
    ChatEventsRanked(data, e);
    var third := ChatEvents(data);
    RankedSnoc(third, data.messageUpserts != [], messages);
    var fourth := third + Optionally(data.messageUpserts != [], messages);
    RankedSnoc(fourth, data.messageUpdates != [], changes);
    var fifth := fourth + Optionally(data.messageUpdates != [], changes);
    RankedSnoc(fifth, data.messageDeletes != [], gone);
    HandedChats(data, e);
    HandedMessages(data, e);
  }

  lemma ChatEventsRanked(data: Data, e: Event)
    ensures Ranked(ChatEvents(data), 3)
    ensures e in ChatEvents(data) <==> !Quiet(e) && Handed(data, e)
  {
    hide Values, Ready, Optionally, Handed, Ranked;
    var ready := Ready(data.chatUpdates);
    var chats, updates, deletes := ChatsUpsert(Values(data.chatUpserts)), ChatsUpdate(Values(ready)), ChatsDelete(data.chatDeletes);
    NoneRanked();
    RankedSnoc([], data.chatUpserts != [], chats);
    var first := Optionally(data.chatUpserts != [], chats);
    assert [] + first == first;
    RankedSnoc(first, ready != [], updates);
    RankedSnoc(first + Optionally(ready != [], updates), data.chatDeletes != {}, deletes);
    HandedChats(data, e);
  }

  lemma NoneRanked()
    ensures Ranked([], 0)
  {
  }

  lemma HandedChats(data: Data, e: Event)
    ensures e.ChatsUpsert? ==> (Handed(data, e) <==> data.chatUpserts != [] && e.chats == Values(data.chatUpserts))
    ensures e.ChatsUpdate? ==>
      (Handed(data, e) <==> Ready(data.chatUpdates) != [] && e.updates == Values(Ready(data.chatUpdates)))
    ensures e.ChatsDelete? ==> (Handed(data, e) <==> data.chatDeletes != {} && e.ids == data.chatDeletes)
    ensures e.NotBufferable? ==> !Handed(data, e)
  {
    hide Values, Ready;
    ValuesAre(data.chatUpserts);
    ValuesAre(Ready(data.chatUpdates));
  }

  lemma HandedMessages(data: Data, e: Event)
    ensures e.MessagesUpsert? ==>
      (Handed(data, e) <==>
        data.messageUpserts != [] && e.messages == Messages(data.messageUpserts) && e.kind == Some(BatchKind(data)))
    ensures e.MessagesUpdate? ==> (Handed(data, e) <==> data.messageUpdates != [] && e.items == Values(data.messageUpdates))
    ensures e.MessagesDelete? ==>
      (Handed(data, e) <==> data.messageDeletes != [] && e.what == Keys(Values(data.messageDeletes)))
  {
    hide Values, Messages;
    MessagesAre(data.messageUpserts);
    ValuesAre(data.messageUpdates);
    ValuesAre(data.messageDeletes);
  }

  // ---- The listener's chats ---------------------------------------------------------------------------

  type Chats = map<string, Dict>

  function ChatAt(s: Chats, id: string): Option<Dict> { if id in s then Some(s[id]) else None }

  function Revise(s: Chats, u: ChatUpdate): Chats {
    var id := IdOf(u.fields);
    if id in s then s[id := s[id] + u.fields] else s
  }

  function KeepAll(s: Chats, cs: seq<Dict>): Chats {
    if cs == [] then s else var last := cs[|cs| - 1]; KeepAll(s, cs[..|cs| - 1])[IdOf(last) := last]
  }

  function ReviseAll(s: Chats, us: seq<ChatUpdate>): Chats {
    if us == [] then s else Revise(ReviseAll(s, us[..|us| - 1]), us[|us| - 1])
  }

  /** An upsert replaces, an update merges into what is there, a delete removes. */
  function Hear(s: Chats, e: Event): Chats {
    match e
    case ChatsUpsert(cs) => KeepAll(s, cs)
    case ChatsUpdate(us) => ReviseAll(s, us)
    case ChatsDelete(ids) => s - ids
    case _ => s
  }

  function HearAll(s: Chats, es: seq<Event>): Chats {
    if es == [] then s else Hear(HearAll(s, es[..|es| - 1]), es[|es| - 1])
  }

  lemma {:induction false} HearConcat(s: Chats, a: seq<Event>, b: seq<Event>)
    ensures HearAll(s, a + b) == HearAll(HearAll(s, a), b)
  {
    if b == [] {
      assert a + b == a;
    } else {
      assert (a + b)[..|a + b| - 1] == a + b[..|b| - 1];
      HearConcat(s, a, b[..|b| - 1]);
    }
  }

  lemma {:induction false} QuietUnheard(s: Chats, es: seq<Event>)
    requires forall e :: e in es ==> Quiet(e)
    ensures HearAll(s, es) == s
  {
    if es != [] {
      QuietUnheard(s, es[..|es| - 1]);
      assert es[|es| - 1] in es;
    }
  }

  lemma HearOne(s: Chats, e: Event)
    ensures HearAll(s, [e]) == Hear(s, e) && HearAll(s, []) == s
  {
    assert [e][..0] == [];
  }

  lemma KeepSnoc(s: Chats, cs: seq<Dict>, c: Dict, id: string)
    ensures ChatAt(KeepAll(s, cs + [c]), id) == if id == IdOf(c) then Some(c) else ChatAt(KeepAll(s, cs), id)
  {
    assert (cs + [c])[..|cs|] == cs;
  }

  function Revised(had: Option<Dict>, u: Option<ChatUpdate>): Option<Dict> {
    if had.Some? && u.Some? then Some(had.value + u.value.fields) else had
  }

  lemma ReviseSnoc(s: Chats, us: seq<ChatUpdate>, u: ChatUpdate, id: string)
    ensures var had := ChatAt(ReviseAll(s, us), id);
      ChatAt(ReviseAll(s, us + [u]), id) == if id == IdOf(u.fields) then Revised(had, Some(u)) else had
  {
    assert (us + [u])[..|us|] == us;
  }

  lemma {:induction false} KeepsAt(s: Chats, items: Ordered<Dict>, id: string)
    requires Each(items, ChatNamed())
    ensures ChatAt(KeepAll(s, Values(items)), id) == if Lookup(items, id).Some? then Lookup(items, id) else ChatAt(s, id)
  {
    hide KeepAll, IdOf;
    if items == [] {
      assert KeepAll(s, []) == s by { KeepNone(s); }
    } else {
      var front, last := items[..|items| - 1], items[|items| - 1];
      KeepsAt(s, front, id);
      KeepSnoc(s, Values(front), last.value, id);
    }
  }

  lemma KeepNone(s: Chats)
    ensures KeepAll(s, []) == s && ReviseAll(s, []) == s
  {
  }

  lemma {:induction false} RevisesAt(s: Chats, items: Ordered<ChatUpdate>, id: string)
    requires Each(items, UpdateNamed())
    ensures ChatAt(ReviseAll(s, Values(items)), id) == Revised(ChatAt(s, id), Lookup(items, id))
  {
    hide ReviseAll, IdOf, ChatAt;
    if items == [] {
      KeepNone(s);
    } else {
      var front, last := items[..|items| - 1], items[|items| - 1];
      RevisesAt(s, front, id);
      ReviseSnoc(s, Values(front), last.value, id);
    }
  }

  // ---- A flush ----------------------------------------------------------------------------------------

  /** What a flush makes of one chat. */
  function Flushed(had: Option<Dict>, data: Data, id: string): Option<Dict> {
    var up, update := Lookup(data.chatUpserts, id), Lookup(data.chatUpdates, id);
    if id in data.chatDeletes then None
    else Revised(if up.Some? then up else had, if update.Some? && update.value.conditional.None? then update else None)
  }

  /** The three chat events of a flush, one after the other. */
  lemma ChatsHeard(st: State, s: Chats)
    requires st.buffering
    ensures HearAll(s, Out(st, Flush))
      == ReviseAll(KeepAll(s, Values(st.data.chatUpserts)), Values(Ready(st.data.chatUpdates))) - st.data.chatDeletes
  {
    hide KeepAll, ReviseAll, Values, HearAll, Ready, Out, Optionally, Messages, BatchKind;
    var data, ready := st.data, Ready(st.data.chatUpdates);
    var ups := Optionally(data.chatUpserts != [], ChatsUpsert(Values(data.chatUpserts)));
    var updates := Optionally(ready != [], ChatsUpdate(Values(ready)));
    var deletes := Optionally(data.chatDeletes != {}, ChatsDelete(data.chatDeletes));
    FlushParts(st);
    RestUnheard(s, ups + updates + deletes, data);
    HearConcat(s, ups + updates, deletes);
    HearConcat(s, ups, updates);
    var kept := HearAll(s, ups);
    OneEach(s, kept, HearAll(kept, updates), data.chatUpserts, ready, data.chatDeletes);
  }

  lemma FlushHeard(st: State, s: Chats, id: string)
    requires st.buffering && ChatsOk(st.data)
    ensures ChatAt(HearAll(s, Out(st, Flush)), id) == Flushed(ChatAt(s, id), st.data, id)
  {
    hide Lookup, Each, KeepAll, ReviseAll, Values, HearAll, Ready, Out, ChatApart;
    var data := st.data;
    ChatsHeard(st, s);
    FlushSplits(data.chatUpdates, id);
    ReadyDistinct(data.chatUpdates);
    KeepsAt(s, data.chatUpserts, id);
    RevisesAt(KeepAll(s, Values(data.chatUpserts)), Ready(data.chatUpdates), id);
  }

  /** The message events after the chat events leave the chats alone. */
  lemma RestUnheard(s: Chats, es: seq<Event>, data: Data)
    ensures HearAll(s, es
      + Optionally(data.messageUpserts != [], MessagesUpsert(Messages(data.messageUpserts), Some(BatchKind(data))))
      + Optionally(data.messageUpdates != [], MessagesUpdate(Values(data.messageUpdates)))
      + Optionally(data.messageDeletes != [], MessagesDelete(Keys(Values(data.messageDeletes))))) == HearAll(s, es)
  {
    hide HearAll, Messages, Values;
    var a := Optionally(data.messageUpserts != [], MessagesUpsert(Messages(data.messageUpserts), Some(BatchKind(data))));
    var b := Optionally(data.messageUpdates != [], MessagesUpdate(Values(data.messageUpdates)));
    var c := Optionally(data.messageDeletes != [], MessagesDelete(Keys(Values(data.messageDeletes))));
    HearConcat(s, es + a + b, c);
    HearConcat(s, es + a, b);
    HearConcat(s, es, a);
    QuietUnheard(HearAll(s, es), a);
    QuietUnheard(HearAll(s, es), b);
    QuietUnheard(HearAll(s, es), c);
  }

  lemma OneEach(s: Chats, t: Chats, v: Chats, ups: Ordered<Dict>, updates: Ordered<ChatUpdate>, ids: set<string>)
    ensures HearAll(s, Optionally(ups != [], ChatsUpsert(Values(ups)))) == KeepAll(s, Values(ups))
    ensures HearAll(t, Optionally(updates != [], ChatsUpdate(Values(updates)))) == ReviseAll(t, Values(updates))
    ensures HearAll(v, Optionally(ids != {}, ChatsDelete(ids))) == v - ids
  {
    hide HearAll;
    KeepNone(s);
    KeepNone(t);
    HearOne(s, ChatsUpsert(Values(ups)));
    HearOne(t, ChatsUpdate(Values(updates)));
    HearOne(v, ChatsDelete(ids));
  }

  /** A chat with a buffered upsert has no update waiting but a conditional one. */
  predicate Absorbed(data: Data, id: string) {
    Lookup(data.chatUpserts, id).Some? && Lookup(data.chatUpdates, id).Some? ==>
      Lookup(data.chatUpdates, id).value.conditional.Some?
  }

  // ---- One step on one chat ---------------------------------------------------------------------------

  /** Whether a listener that knows the chat, or does not, will know it after the next flush. */
  predicate Expected(had: bool, data: Data, id: string) {
    id !in data.chatDeletes && (had || Lookup(data.chatUpserts, id).Some?)
  }

  lemma UpsertChatAt(env: Env, data: Data, chat: Dict, k: string)
    requires ChatsOk(data)
    ensures var d := UpsertChat(env, data, chat);
      && d.chatDeletes == data.chatDeletes - {IdOf(chat)}
      && (k == IdOf(chat) ==> Lookup(d.chatUpserts, k).Some?)
      && (k != IdOf(chat) ==>
            Lookup(d.chatUpserts, k) == Lookup(data.chatUpserts, k) && Lookup(d.chatUpdates, k) == Lookup(data.chatUpdates, k))
      && (Absorbed(data, k) ==> Absorbed(d, k))
  {
    hide Lookup, Put, Without, Each, Concat, ChatsOkBut;
    var id, merged := IdOf(chat), MergedUpsert(data, chat);
    var d := WithUpsert(data, chat);
    NamesAt(data, {}, id);
    if HasUpsert(data, id) {
      ConcatKeepsId(Lookup(data.chatUpserts, id).value, chat);
    }
    LookupPut(data.chatUpserts, id, merged, id);
    LookupPut(data.chatUpserts, id, merged, k);
    LookupWithout(d.chatUpdates, {id}, k);
    if HasUpdate(data, id) {
      var stored := merged + Concat(Lookup(data.chatUpdates, id).value.fields, merged);
      LookupPut(d.chatUpserts, id, stored, k);
    }
  }

  lemma UpdateChatAt(env: Env, data: Data, u: ChatUpdate, k: string)
    requires ChatsOk(data)
    ensures var d, id := UpdateChat(env, data, u), IdOf(u.fields);
      && d.chatDeletes == (if id == "" then data.chatDeletes else data.chatDeletes - {id})
      && (Lookup(d.chatUpserts, k).Some? <==> Lookup(data.chatUpserts, k).Some?)
      && (k != id ==>
            Lookup(d.chatUpserts, k) == Lookup(data.chatUpserts, k) && Lookup(d.chatUpdates, k) == Lookup(data.chatUpdates, k))
      && (Absorbed(data, k) ==> Absorbed(d, k))
  {
    hide Lookup, Put, Each, Concat, ChatsOkBut;
    var id := IdOf(u.fields);
    NamesAt(data, {}, id);
    LookupPut(data.chatUpdates, id, u, k);
    LookupPut(data.chatUpdates, id, MergedUpdate(data, u), k);
    if HasUpsert(data, id) {
      LookupPut(data.chatUpserts, id, Concat(Lookup(data.chatUpserts, id).value, u.fields), k);
    }
  }

  lemma DeleteChatsAt(data: Data, ids: set<string>, k: string)
    ensures var d := DeleteChats(data, ids);
      && d.chatDeletes == data.chatDeletes + ids
      && Lookup(d.chatUpserts, k) == (if k in ids then None else Lookup(data.chatUpserts, k))
      && Lookup(d.chatUpdates, k) == (if k in ids then None else Lookup(data.chatUpdates, k))
      && (Absorbed(data, k) ==> Absorbed(d, k))
  {
    hide Lookup, Without;
    LookupWithout(data.chatUpserts, ids, k);
    LookupWithout(data.chatUpdates, ids, k);
  }

  /** Messages leave deletions alone and neither add nor remove a chat's upsert or update. */
  ghost predicate ChatStands(data: Data, d: Data, k: string) {
    && d.chatDeletes == data.chatDeletes
    && (Lookup(d.chatUpserts, k).Some? <==> Lookup(data.chatUpserts, k).Some?)
    && (Absorbed(data, k) ==> Absorbed(d, k))
  }

  lemma UpdateMessageAt(env: Env, data: Data, item: UpdateItem, k: string)
    ensures ChatStands(data, UpdateMessage(env, data, item), k)
  {
    hide Lookup, Put, Stringify, OneLessUnread, KeyObjectOf;
    var key := Stringify(item.key);
    if TakesUpdate(data, key) {
      var merged := Lookup(data.messageUpserts, key).value.message + item.update;
      var jid := KeyObjectOf(merged).remoteJid;
      if jid.Some? && HasUpdate(data, jid.value) {
        var u := Lookup(data.chatUpdates, jid.value).value;
        LookupPut(data.chatUpdates, jid.value, u.(fields := OneLessUnread(env, u.fields, merged)), k);
      } else if jid.Some? && HasUpsert(data, jid.value) {
        LookupPut(data.chatUpserts, jid.value, OneLessUnread(env, Lookup(data.chatUpserts, jid.value).value, merged), k);
      }
    }
  }

  lemma {:induction false} MessageEventAt(env: Env, data: Data, e: Event, k: string)
    requires Quiet(e)
    ensures ChatStands(data, Append(env, data, e), k)
    decreases match e
      case MessagesUpsert(ms, _) => |ms|
      case MessagesUpdate(items) => |items|
      case MessagesDelete(Keys(keys)) => |keys|
      case _ => 0
  {
    hide UpsertMessage, UpdateMessage, DeleteMessage, Lookup;
    match e {
      case MessagesUpsert(ms, kind) =>
        if ms != [] {
          MessageEventAt(env, data, MessagesUpsert(ms[..|ms| - 1], kind), k);
          OneMessage(UpsertMessages(data, ms[..|ms| - 1], Effective(kind)), ms[|ms| - 1], Effective(kind), NO_KEY);
        }
      case MessagesUpdate(items) =>
        if items != [] {
          MessageEventAt(env, data, MessagesUpdate(items[..|items| - 1]), k);
          UpdateMessageAt(env, UpdateMessages(env, data, items[..|items| - 1]), items[|items| - 1], k);
        }
      case MessagesDelete(Keys(keys)) =>
        if keys != [] {
          MessageEventAt(env, data, MessagesDelete(Keys(keys[..|keys| - 1])), k);
          OneMessage(DeleteMessages(data, keys[..|keys| - 1]), map[], NOTIFY, keys[|keys| - 1]);
        }
      case _ =>
    }
  }

  function ChatPart(data: Data): (Ordered<Dict>, Ordered<ChatUpdate>, set<string>) {
    (data.chatUpserts, data.chatUpdates, data.chatDeletes)
  }

  lemma OneMessage(data: Data, m: Dict, kind: string, key: KeyObject)
    ensures ChatPart(UpsertMessage(data, m, kind)) == ChatPart(data) == ChatPart(DeleteMessage(data, key))
  {
  }

  predicate Mentions(us: seq<ChatUpdate>, id: string) { exists u :: u in us && IdOf(u.fields) == id }

  /** What an event that is not buffered does to the listener's knowledge of a chat. */
  predicate Learns(had: bool, e: Event, id: string) {
    match e
    case ChatsUpsert(cs) => had || exists c :: c in cs && IdOf(c) == id
    case ChatsDelete(ids) => had && id !in ids
    case _ => had
  }

  /** An update of a chat that the listener knows and whose deletion is buffered: the deletion is forgotten. */
  predicate Revives(had: bool, data: Data, e: Event, id: string) {
    had && id != "" && id in data.chatDeletes && e.ChatsUpdate? && Mentions(e.updates, id)
  }

  lemma {:induction false} UpsertsAt(env: Env, data: Data, cs: seq<Dict>, k: string)
    requires ChatsOk(data)
    ensures var d := UpsertChats(env, data, cs);
      var named := exists c :: c in cs && IdOf(c) == k;
      && (k in d.chatDeletes <==> k in data.chatDeletes && !named)
      && (Lookup(d.chatUpserts, k).Some? <==> Lookup(data.chatUpserts, k).Some? || named)
      && (Absorbed(data, k) ==> Absorbed(d, k))
  {
    hide ChatsOk, UpsertChat, Lookup, IdOf;
    if cs != [] {
      var front, last := cs[..|cs| - 1], cs[|cs| - 1];
      assert cs == front + [last];
      UpsertsAt(env, data, front, k);
      AppendChatsOk(env, data, ChatsUpsert(front));
      UpsertChatAt(env, UpsertChats(env, data, front), last, k);
    }
  }

  lemma {:induction false} UpdatesAt(env: Env, data: Data, us: seq<ChatUpdate>, k: string)
    requires ChatsOk(data)
    ensures var d := UpdateChats(env, data, us);
      && (k in d.chatDeletes <==> k in data.chatDeletes && (k == "" || !Mentions(us, k)))
      && (Lookup(d.chatUpserts, k).Some? <==> Lookup(data.chatUpserts, k).Some?)
      && (Absorbed(data, k) ==> Absorbed(d, k))
  {
    hide ChatsOk, UpdateChat, Lookup, IdOf;
    if us != [] {
      var front, last := us[..|us| - 1], us[|us| - 1];
      assert us == front + [last];
      UpdatesAt(env, data, front, k);
      AppendChatsOk(env, data, ChatsUpdate(front));
      UpdateChatAt(env, UpdateChats(env, data, front), last, k);
      assert Mentions(us, k) <==> Mentions(front, k) || IdOf(last.fields) == k;
    }
  }

  lemma EventAt(env: Env, data: Data, e: Event, had: bool, k: string)
    requires ChatsOk(data)
    ensures Expected(had, Append(env, data, e), k) <==> Learns(Expected(had, data, k), e, k) || Revives(had, data, e, k)
    ensures Absorbed(data, k) ==> Absorbed(Append(env, data, e), k)
  {
    hide Each, Lookup, IdOf, UpsertChats, UpdateChats, DeleteChats, UpsertMessages, UpdateMessages, DeleteMessages;
    assert ChatApart(data, k);
    match e {
      case ChatsUpsert(cs) => UpsertsAt(env, data, cs, k);
      case ChatsUpdate(us) => UpdatesAt(env, data, us, k);
      case ChatsDelete(ids) => DeleteChatsAt(data, ids, k);
      case _ => MessageEventAt(env, data, e, k);
    }
  }

  lemma {:induction false} KeepsKeys(s: Chats, cs: seq<Dict>, k: string)
    ensures k in KeepAll(s, cs) <==> k in s || exists c :: c in cs && IdOf(c) == k
  {
    hide IdOf;
    if cs != [] {
      assert cs == cs[..|cs| - 1] + [cs[|cs| - 1]];
      KeepsKeys(s, cs[..|cs| - 1], k);
    }
  }

  lemma {:induction false} RevisesKeys(s: Chats, us: seq<ChatUpdate>, k: string)
    ensures k in ReviseAll(s, us) <==> k in s
  {
    if us != [] {
      RevisesKeys(s, us[..|us| - 1], k);
    }
  }

  lemma Hears(s: Chats, e: Event, k: string)
    ensures k in Hear(s, e) <==> Learns(k in s, e, k)
  {
    hide KeepAll, ReviseAll, IdOf;
    match e {
      case ChatsUpsert(cs) => KeepsKeys(s, cs, k);
      case ChatsUpdate(us) => RevisesKeys(s, us, k);
      case _ =>
    }
  }

  // ---- Whole runs -------------------------------------------------------------------------------------

  /**
   * One step on one chat, exactly: what the listener will know after the next flush changes as it does for a listener
   * of the raw events, but that an update brings a known chat back whose deletion is buffered.
   */
  lemma ChatStepExactly(env: Env, st: State, s: Chats, step: Step, k: string)
    requires Invariant(st) && Absorbed(st.data, k)
    ensures var t, next := HearAll(s, Out(st, step)), Next(env, st, step);
      var before := Expected(k in s, st.data, k);
      && Absorbed(next.data, k)
      && (Expected(k in t, next.data, k) <==>
            if step.Emit? then
              Learns(before, step.event, k) || (st.buffering && Revives(k in s, st.data, step.event, k))
            else before)
  {
    hide Lookup, Append, HearAll, Hear, Learns, ChatsOk, MessagesOk, Consolidate, IdOf, Waiting, Ready;
    match step {
      case Buffer => HearOne(s, NotBufferable(""));
      case Flush =>
        HearOne(s, NotBufferable(""));
        LookupNone<Dict>(k);
        if st.buffering {
          FlushHeard(st, s, k);
        }
      case Emit(e) =>
        var early := EarlyOut(st.data, e);
        var d := AfterEarly(st.data, e);
        SameChats(st.data, d);
        QuietUnheard(s, early);
        if st.buffering && !e.NotBufferable? {
          assert Out(st, step) == early;
          EventAt(env, d, e, k in s, k);
        } else {
          HearConcat(s, early, [e]);
          HearOne(s, e);
          Hears(s, e, k);
          EmittedAt(st, s, e, k);
          LookupNone<Dict>(k);
          assert Expected(k in Hear(s, e), d, k) == Expected(k in Hear(s, e), st.data, k);
        }
    }
  }

  lemma EmittedAt(st: State, s: Chats, e: Event, k: string)
    requires Invariant(st) && (!st.buffering || e.NotBufferable?)
    ensures !st.buffering ==> (Expected(k in s, st.data, k) <==> k in s)
    ensures e.NotBufferable? ==> forall had :: Learns(had, e, k) <==> had
    ensures !st.buffering ==> st.data.chatUpserts == [] && st.data.chatDeletes == {}
  {
    hide ChatsOk, MessagesOk;
    LookupNone<Dict>(k);
  }

  function Heard(env: Env, st: State, s: Chats, steps: seq<Step>): Chats
    decreases |steps|
  {
    if steps == [] then s else Heard(env, Next(env, st, steps[0]), HearAll(s, Out(st, steps[0])), steps[1..])
  }

  function RawChat(s: Chats, step: Step): Chats { if step.Emit? then Hear(s, step.event) else s }

  /** The listener's chats when every event is handed out as it is emitted. */
  function RawChats(s: Chats, steps: seq<Step>): Chats
    decreases |steps|
  {
    if steps == [] then s else RawChats(RawChat(s, steps[0]), steps[1..])
  }

  /** No step brings a chat back. */
  ghost predicate NoneRevived(env: Env, st: State, s: Chats, steps: seq<Step>)
    decreases |steps|
  {
    steps == []
    || (&& (steps[0].Emit? && st.buffering ==> forall k :: !Revives(k in s, st.data, steps[0].event, k))
        && NoneRevived(env, Next(env, st, steps[0]), HearAll(s, Out(st, steps[0])), steps[1..]))
  }

  lemma {:induction false} RunKnows(env: Env, st: State, s: Chats, raw: Chats, steps: seq<Step>, k: string)
    requires Invariant(st) && Absorbed(st.data, k) && NoneRevived(env, st, s, steps)
    requires Expected(k in s, st.data, k) <==> k in raw
    ensures var end := Play(env, st, steps);
      && Invariant(end) && Absorbed(end.data, k)
      && (Expected(k in Heard(env, st, s, steps), end.data, k) <==> k in RawChats(raw, steps))
    decreases |steps|
  {
    hide Invariant, Expected, Absorbed, Revives, Next, Out, HearAll, Hear;
    if steps != [] {
      NextKeeps(env, st, steps[0]);
      ChatStepExactly(env, st, s, steps[0], k);
      if steps[0].Emit? {
        Hears(raw, steps[0].event, k);
      }
      RunKnows(env, Next(env, st, steps[0]), HearAll(s, Out(st, steps[0])), RawChat(raw, steps[0]), steps[1..], k);
    }
  }

  lemma StartAbsorbed(k: string)
    ensures Absorbed(EMPTY, k) && Lookup(EMPTY.chatUpserts, k) == None
  {
  }

  lemma {:induction false} AlwaysAbsorbed(env: Env, st: State, steps: seq<Step>, k: string)
    requires Invariant(st) && Absorbed(st.data, k)
    ensures Invariant(Play(env, st, steps)) && Absorbed(Play(env, st, steps).data, k)
    decreases |steps|
  {
    hide Invariant, Absorbed, Next, Expected;
    if steps != [] {
      NextKeeps(env, st, steps[0]);
      ChatStepExactly(env, st, map[], steps[0], k);
      AlwaysAbsorbed(env, Next(env, st, steps[0]), steps[1..], k);
    }
  }

  /**
   * What a flush leaves a listener with, in every reachable state: a deleted chat is gone, an upserted one is as
   * buffered, one with an unconditional update has it merged in if the listener has the chat, and all others are as
   * they were. No chat is in two of the flush's events.
   */
  lemma FlushedChats(env: Env, steps: seq<Step>, s: Chats, id: string)
    requires Play(env, START, steps).buffering
    ensures var st := Play(env, START, steps);
      var up, update, had := Lookup(st.data.chatUpserts, id), Lookup(st.data.chatUpdates, id), ChatAt(s, id);
      var ready := update.Some? && update.value.conditional.None?;
      && ChatAt(HearAll(s, Out(st, Flush)), id)
        == (if id in st.data.chatDeletes then None
            else if up.Some? then up
            else if ready && had.Some? then Some(had.value + update.value.fields)
            else had)
      && !(up.Some? && ready) && !(id in st.data.chatDeletes && (up.Some? || ready))
  {
    hide Play, Lookup, Each, HearAll, Out;
    StartOk();
    StartAbsorbed(id);
    AlwaysAbsorbed(env, START, steps, id);
    FlushHeard(Play(env, START, steps), s, id);
    assert ChatApart(Play(env, START, steps).data, id);
  }

  /**
   * Over any run from the start in which no buffered deletion is undone by an update, the chats a listener will know
   * after the next flush are those of a listener to the raw events; so while nothing is buffered they know the same.
   */
  lemma BufferingKeepsChats(env: Env, s: Chats, steps: seq<Step>)
    requires NoneRevived(env, START, s, steps)
    ensures var st, heard := Play(env, START, steps), Heard(env, START, s, steps);
      && (forall k :: Expected(k in heard, st.data, k) <==> k in RawChats(s, steps))
      && (!st.buffering ==> heard.Keys == RawChats(s, steps).Keys)
  {
    hide Play, Heard, RawChats, NoneRevived, ChatsOk, MessagesOk;
    var st, heard := Play(env, START, steps), Heard(env, START, s, steps);
    StartOk();
    forall k
      ensures Expected(k in heard, st.data, k) <==> k in RawChats(s, steps)
      ensures !st.buffering ==> (k in heard <==> k in RawChats(s, steps))
    {
      StartAbsorbed(k);
      RunKnows(env, START, s, s, steps, k);
      if !st.buffering {
        EmittedAt(st, heard, NotBufferable(""), k);
      }
    }
  }

  /**
   * After such a run, a buffered update and a flush leave a listener knowing the chats it would know of the raw
   * events, for exactly the chats the update does not bring back.
   */
  lemma UpdateRevivesExactly(env: Env, s: Chats, steps: seq<Step>, us: seq<ChatUpdate>, id: string)
    requires NoneRevived(env, START, s, steps) && Play(env, START, steps).buffering
    ensures var st, heard, raw := Play(env, START, steps), Heard(env, START, s, steps), RawChats(s, steps);
      var e := ChatsUpdate(us);
      var given := HearAll(HearAll(heard, Out(st, Emit(e))), Out(Next(env, st, Emit(e)), Flush));
      (id in given <==> id in Hear(raw, e)) <==> !Revives(id in heard, st.data, e, id)
  {
    hide Play, Heard, RawChats, NoneRevived, Invariant, Absorbed, HearAll, Hear, Out, Revives, Mentions;
    var st, heard, raw := Play(env, START, steps), Heard(env, START, s, steps), RawChats(s, steps);
    var e := ChatsUpdate(us);
    StartOk();
    StartAbsorbed(id);
    RunKnows(env, START, s, s, steps, id) by { StartKnows(s, id); }
    ChatStepExactly(env, st, heard, Emit(e), id);
    NextKeeps(env, st, Emit(e));
    var after, told := Next(env, st, Emit(e)), HearAll(heard, Out(st, Emit(e)));
    ChatStepExactly(env, after, told, Flush, id);
    NextKeeps(env, after, Flush);
    EmittedAt(Next(env, after, Flush), HearAll(told, Out(after, Flush)), e, id);
    Hears(raw, e, id);
    RevivesOnlyDeleted(heard, st.data, e, id);
  }

  lemma StartKnows(s: Chats, k: string)
    ensures Expected(k in s, START.data, k) <==> k in s
    ensures Absorbed(START.data, k)
  {
  }

  lemma RevivesOnlyDeleted(s: Chats, data: Data, e: Event, k: string)
    ensures Revives(k in s, data, e, k) ==> !Expected(k in s, data, k)
  {
  }

  /** So a known chat that is deleted and then updated while buffering stays with the listener. */
  lemma DeletedChatRevived(env: Env, chat: Dict, u: ChatUpdate)
    requires IdOf(chat) == IdOf(u.fields) != ""
    ensures var id := IdOf(chat);
      var s, steps, e := map[id := chat], [Buffer, Emit(ChatsDelete({id}))], ChatsUpdate([u]);
      var st, heard := Play(env, START, steps), Heard(env, START, s, steps);
      && id !in Hear(RawChats(s, steps), e)
      && id in HearAll(HearAll(heard, Out(st, Emit(e))), Out(Next(env, st, Emit(e)), Flush))
  {
    hide IdOf, Expected;
    var id := IdOf(chat);
    var s, steps, e := map[id := chat], [Buffer, Emit(ChatsDelete({id}))], ChatsUpdate([u]);
    var buffering := Next(env, START, Buffer);
    assert steps[1..] == [Emit(ChatsDelete({id}))] && steps[1..][1..] == [];
    HearOne(s, e);
    var st := Next(env, buffering, steps[1]);
    assert Play(env, START, steps) == st by { assert Play(env, buffering, steps[1..]) == st; }
    assert Heard(env, START, s, steps) == s by { assert Heard(env, buffering, s, steps[1..]) == s; }
    assert RawChats(s, steps) == Hear(s, ChatsDelete({id})) by { assert RawChats(s, steps[1..]) == Hear(s, ChatsDelete({id})); }
    assert NoneRevived(env, START, s, steps) by { assert NoneRevived(env, buffering, s, steps[1..]); }
    assert Mentions([u], id) by { assert u in [u]; }
    UpdateRevivesExactly(env, s, steps, [u], id);
    Hears(RawChats(s, steps), e, id);
  }
}
