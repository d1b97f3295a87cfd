/** The emitter object: each method takes exactly the step the step system says. */
module EventEmitter {
  import opened Common
  import opened EventBuffer
  import opened EventInvariants

  lemma {:induction false} WithoutAbsent<V>(s: Ordered<V>, k: string)
    requires Lookup(s, k).None?
    ensures Without(s, {k}) == s
  {
    if s != [] {
      WithoutAbsent(s[..|s| - 1], k);
    }
  }

  /** Taking the first of several distinct entries out leaves the ones after it. */
  lemma {:induction false} WithoutFirst<V>(a: Ordered<V>, x: Entry<V>, b: Ordered<V>, ok: (string, V) -> bool)
    requires Each(a + [x] + b, ok) && Lookup(a, x.key).None?
    ensures Without(a + [x] + b, {x.key}) == a + b
  {
    if b == [] {
      assert a + [x] + b == a + [x] && (a + [x])[..|a|] == a && a + b == a;
      WithoutAbsent(a, x.key);
    } else {
      var front, last := b[..|b| - 1], b[|b| - 1];
      assert a + [x] + b == (a + [x] + front) + [last] && a + b == (a + front) + [last];
      EachSnoc(a + [x] + front, ok, last);
      LookupHere(a, x, front);
      WithoutFirst(a, x, front, ok);
      assert ((a + [x] + front) + [last])[..|a + [x] + front|] == a + [x] + front;
    }
  }

  lemma {:induction false} LookupHere<V>(a: Ordered<V>, x: Entry<V>, b: Ordered<V>)
    ensures Lookup(a + [x] + b, x.key).Some?
  {
    if b == [] {
      assert a + [x] + b == a + [x];
    } else {
      var front := b[..|b| - 1];
      assert a + [x] + b == (a + [x] + front) + [b[|b| - 1]];
      LookupHere(a, x, front);
      LookupSnoc(a + [x] + front, b[|b| - 1], x.key);
    }
  }

  /** Handing some of the earlier updates out keeps what is left distinct. */
  lemma {:induction false} LeftDistinct(a: Ordered<ChatUpdate>, b: Ordered<ChatUpdate>, k: string)
    requires Each(a + b, UpdateNamed())
    ensures Each(Ready(a) + b, UpdateNamed())
    ensures Lookup(a + b, k).None? ==> Lookup(Ready(a) + b, k).None?
  {
    hide Lookup, Each, Ready;
    if b == [] {
      assert a + b == a && Ready(a) + b == Ready(a);
      ReadyDistinct(a);
      FlushSplits(a, k);
    } else {
      var front, last := b[..|b| - 1], b[|b| - 1];
      assert a + b == (a + front) + [last] && Ready(a) + b == (Ready(a) + front) + [last];
      EachSnoc(a + front, UpdateNamed(), last);
      LeftDistinct(a, front, last.key);
      LeftDistinct(a, front, k);
      EachSnoc(Ready(a) + front, UpdateNamed(), last);
      LookupSnoc(a + front, last, k);
      LookupSnoc(Ready(a) + front, last, k);
    }
  }

  lemma {:induction false} EachPrefix<V>(a: Ordered<V>, x: Entry<V>, b: Ordered<V>, ok: (string, V) -> bool)
    requires Each(a + [x] + b, ok)
    ensures Each(a, ok) && Lookup(a, x.key).None? && ok(x.key, x.value)
  {
    if b == [] {
      assert a + [x] + b == a + [x];
      EachSnoc(a, ok, x);
    } else {
      var front := b[..|b| - 1];
      assert a + [x] + b == (a + [x] + front) + [b[|b| - 1]];
      EachSnoc(a + [x] + front, ok, b[|b| - 1]);
      EachPrefix(a, x, front, ok);
    }
  }

  /** One round of the loop in flush, on x, after a and before b. */
  lemma FlushRound(a: Ordered<ChatUpdate>, x: Entry<ChatUpdate>, b: Ordered<ChatUpdate>)
    requires Each(a + [x] + b, UpdateNamed())
    ensures IdOf(x.value.fields) == x.key && Lookup(Waiting(a), x.key).None?
    ensures if x.value.conditional.Some?
      then Waiting(a + [x]) == Waiting(a) + [x] && Ready(a + [x]) == Ready(a)
           && Without(Ready(a) + [x] + b, {x.key}) == Ready(a) + b
      else Waiting(a + [x]) == Waiting(a) && Ready(a + [x]) == Ready(a) + [x]
  {
    hide Lookup, Without, Each, Waiting, Ready, IdOf;
    EachPrefix(a, x, b, UpdateNamed());
    FlushSplits(a, x.key);
    SplitSnoc(a, x);
    assert a + ([x] + b) == a + [x] + b && Ready(a) + ([x] + b) == Ready(a) + [x] + b;
    LeftDistinct(a, [x] + b, x.key);
    if x.value.conditional.Some? {
      WithoutFirst(Ready(a), x, b, UpdateNamed());
    }
  }

  lemma FlushRoundAt(us: Ordered<ChatUpdate>, n: nat)
    requires Each(us, UpdateNamed()) && n < |us|
    ensures var x := us[n];
      && IdOf(x.value.fields) == x.key
      && (if x.value.conditional.Some?
          then Put(Waiting(us[..n]), x.key, x.value) == Waiting(us[..n + 1])
               && Without(Ready(us[..n]) + us[n..], {x.key}) == Ready(us[..n + 1]) + us[n + 1..]
          else Waiting(us[..n + 1]) == Waiting(us[..n]) && Ready(us[..n]) + us[n..] == Ready(us[..n + 1]) + us[n + 1..])
  {
    hide Lookup, Without, Each, Waiting, Ready, IdOf;
    var a, x, b := us[..n], us[n], us[n + 1..];
    assert us == a + [x] + b && us[..n + 1] == a + [x];
    FlushRound(a, x, b);
    assert Ready(a) + us[n..] == Ready(a) + [x] + b;
  }

  lemma SplitSnoc(us: Ordered<ChatUpdate>, x: Entry<ChatUpdate>)
    ensures Waiting(us + [x]) == if x.value.conditional.Some? then Waiting(us) + [x] else Waiting(us)
    ensures Ready(us + [x]) == if x.value.conditional.Some? then Ready(us) else Ready(us) + [x]
  {
    assert (us + [x])[..|us|] == us;
  }

  lemma NoneSplit()
    ensures Waiting([]) == [] && Ready([]) == []
  {
  }

  class BufferableEventEmitter {
    const env: Env
    var data: Data
    var isBuffering: bool
    var bufferCount: nat
    var given: seq<Event>

    ghost function Now(): State reads this { State(data, isBuffering, bufferCount) }

    ghost predicate Valid() reads this { Invariant(Now()) }

    constructor (env: Env)
      ensures this.env == env && Valid() && Now() == START && given == []
    {
      this.env, data, isBuffering, bufferCount, given := env, EMPTY, false, 0, [];
      new;
      StartOk();
    }

    method Buffer()
      requires Valid()
      modifies this`isBuffering, this`bufferCount
      ensures Valid() && Now() == Next(env, old(Now()), Step.Buffer)
    {
      NextKeeps(env, Now(), Step.Buffer);
      if !isBuffering {
        isBuffering := true;
        bufferCount := 0;
      }
      bufferCount := bufferCount + 1;
    }

    /** Moves the conditional chat updates out of the buffer, one by one. */
    method KeepBack() returns (newUpdates: Ordered<ChatUpdate>)
      requires ChatsOk(data)
      modifies this`data
      ensures data == old(data).(chatUpdates := Ready(old(data).chatUpdates))
      ensures newUpdates == Waiting(old(data).chatUpdates)
    {
      hide Lookup, Without, Each, Waiting, Ready, Put, IdOf;
      newUpdates := [];
      var us := data.chatUpdates;
      NoneSplit();
      assert us[..0] == [] && [] + us[0..] == us;
      for n := 0 to |us|
        invariant data == old(data).(chatUpdates := Ready(us[..n]) + us[n..]) && newUpdates == Waiting(us[..n])
      {
        FlushRoundAt(us, n);
        var u := us[n].value;
        if u.conditional.Some? {
          newUpdates := Put(newUpdates, IdOf(u.fields), u);
          data := data.(chatUpdates := Without(data.chatUpdates, {IdOf(u.fields)}));
        }
      }
      assert us[..|us|] == us && Ready(us) + us[|us|..] == Ready(us);
    }

    /** Keeps back the conditional chat updates, then hands out the rest of the buffer. */
    method Flush() returns (flushed: bool)
      requires Valid()
      modifies this
      ensures Valid() && flushed == old(isBuffering)
      ensures Now() == Next(env, old(Now()), Step.Flush) && given == old(given) + Out(old(Now()), Step.Flush)
    {
      hide Lookup, Without, Each, Consolidate, Waiting, Ready, ChatsOk, MessagesOk;
      NextKeeps(env, Now(), Step.Flush);
      if !isBuffering {
        return false;
      }
      isBuffering, bufferCount := false, 0;
      var newUpdates := KeepBack();
      given := given + Consolidate(data);
      data := EMPTY.(chatUpdates := newUpdates);
      flushed := true;
    }

    method Emit(e: Event)
      requires Valid()
      modifies this`data, this`given
      ensures Valid()
      ensures Now() == Next(env, old(Now()), Step.Emit(e)) && given == old(given) + Out(old(Now()), Step.Emit(e))
    {
      NextKeeps(env, Now(), Step.Emit(e));
      if e.MessagesUpsert? && data.messageUpserts != [] {
        var bufferedKind := data.messageUpserts[0].value.kind;
        if Some(bufferedKind) != e.kind {
          given := given + [MessagesUpsert(Messages(data.messageUpserts), Some(bufferedKind))];
          data := data.(messageUpserts := []);
        }
      }
      if isBuffering && !e.NotBufferable? {
        AppendEvent(e);
      } else {
        given := given + [e];
      }
    }

    method AppendEvent(e: Event)
      requires !e.NotBufferable?
      modifies this`data
      ensures data == Append(env, old(data), e)
    {
      match e {
        case MessagesUpsert(ms, kind) => AppendMessages(ms, Effective(kind));
        case MessagesUpdate(items) => AppendUpdates(items);
        case MessagesDelete(Keys(keys)) => AppendDeletes(keys);
        case MessagesDelete(AllOf(_)) =>
        case ChatsUpsert(chats) => AppendChats(chats);
        case ChatsUpdate(us) => AppendChatUpdates(us);
        case ChatsDelete(ids) => AppendChatDeletes(ids);
      }
    }

    method AppendMessages(ms: seq<Dict>, kind: string)
      modifies this`data
      ensures data == UpsertMessages(old(data), ms, kind)
    {
      for n := 0 to |ms|
        invariant data == UpsertMessages(old(data), ms[..n], kind)
      {
        assert ms[..n + 1][..n] == ms[..n];
        AppendMessage(ms[n], kind);
      }
      assert ms[..|ms|] == ms;
    }

    method AppendMessage(m: Dict, kind: string)
      modifies this`data
      ensures data == UpsertMessage(old(data), m, kind)
    {
      var key, message := KeyOf(m), m;
      var existing := Lookup(data.messageUpserts, key);
      if existing.Some? && existing.value.message != map[] {
        message := message[MessageTimestamp := Get(existing.value.message, MessageTimestamp)];
      }
      var update := Lookup(data.messageUpdates, key);
      if update.Some? {
        message := message + update.value.update;
        data := data.(messageUpdates := Without(data.messageUpdates, {key}));
      } else {
        WithoutAbsent(data.messageUpdates, key);
      }
      var wasNotify := existing.Some? && existing.value.kind == NOTIFY;
      var item := UpsertItem(message, if kind == NOTIFY || wasNotify then NOTIFY else kind);
      data := data.(messageUpserts := Put(data.messageUpserts, key, item));
    }

    method AppendUpdates(items: seq<UpdateItem>)
      modifies this`data
      ensures data == UpdateMessages(env, old(data), items)
    {
      for n := 0 to |items|
        invariant data == UpdateMessages(env, old(data), items[..n])
      {
        assert items[..n + 1][..n] == items[..n];
        AppendUpdate(items[n]);
      }
      assert items[..|items|] == items;
    }

    method AppendUpdate(item: UpdateItem)
      modifies this`data
      ensures data == UpdateMessage(env, old(data), item)
    {
      var key := Stringify(item.key);
      var found := Lookup(data.messageUpserts, key);
      if found.Some? && found.value.message != map[] {
        var merged := found.value.message + item.update;
        data := data.(messageUpserts := Put(data.messageUpserts, key, found.value.(message := merged)));
        if Get(item.update, Status) == Num(READ) && !item.key.fromMe {
          CountReadMessage(merged);
        }
      } else {
        var waiting := Lookup(data.messageUpdates, key);
        var next := UpdateItem(item.key, map[]);
        if waiting.Some? {
          next := waiting.value;
        }
        assert map[] + item.update == item.update;
        next := next.(update := next.update + item.update);
        data := data.(messageUpdates := Put(data.messageUpdates, key, next));
      }
    }

    /** The chat record found first, its update before its upsert, has its count lowered in place. */
    method CountReadMessage(message: Dict)
      modifies this`data
      ensures data == CountRead(env, old(data), message)
    {
      var jid := KeyObjectOf(message).remoteJid;
      if jid.None? || jid.value == "" {
        return;
      }
      var update, upsert := Lookup(data.chatUpdates, jid.value), Lookup(data.chatUpserts, jid.value);
      var inUpdates := update.Some? && (update.value.fields != map[] || update.value.conditional.Some?);
      var chat: Dict := map[];
      if inUpdates {
        chat := update.value.fields;
      } else if upsert.Some? {
        chat := upsert.value;
      }
      if !inUpdates && chat == map[] {
        return;
      }
      var count := Get(chat, UnreadCount);
      if env.unread(message) && count.Num? && count.n > 0 {
        chat := chat[UnreadCount := Num(count.n - 1)];
        if count.n - 1 == 0 {
          chat := chat - {UnreadCount};
        }
      }
      assert chat == OneLessUnread(env, if inUpdates then update.value.fields else upsert.value, message);
      if inUpdates {
        data := data.(chatUpdates := Put(data.chatUpdates, jid.value, update.value.(fields := chat)));
      } else {
        data := data.(chatUpserts := Put(data.chatUpserts, jid.value, chat));
      }
    }

    method AppendDeletes(keys: seq<KeyObject>)
      modifies this`data
      ensures data == DeleteMessages(old(data), keys)
    {
      for n := 0 to |keys|
        invariant data == DeleteMessages(old(data), keys[..n])
      {
        assert keys[..n + 1][..n] == keys[..n];
        var key := Stringify(keys[n]);
        if Lookup(data.messageDeletes, key).None? {
          data := data.(messageDeletes := Put(data.messageDeletes, key, keys[n]));
        }
        data := data.(messageUpserts := Without(data.messageUpserts, {key}));
        data := data.(messageUpdates := Without(data.messageUpdates, {key}));
      }
      assert keys[..|keys|] == keys;
    }

    method AppendChats(chats: seq<Dict>)
      modifies this`data
      ensures data == UpsertChats(env, old(data), chats)
    {
      for n := 0 to |chats|
        invariant data == UpsertChats(env, old(data), chats[..n])
      {
        assert chats[..n + 1][..n] == chats[..n];
        AppendChat(chats[n]);
      }
      assert chats[..|chats|] == chats;
    }

    method AppendChat(chat: Dict)
      modifies this`data
      ensures data == UpsertChat(env, old(data), chat)
    {
      var id := IdOf(chat);
      var upsert := Lookup(data.chatUpserts, id);
      var merged := chat;
      if upsert.Some? && upsert.value != map[] {
        merged := Concat(upsert.value, chat);
      }
      LookupPut(data.chatUpserts, id, merged, id);
      data := data.(chatUpserts := Put(data.chatUpserts, id, merged));
      AbsorbUpdate(id);
      if id in data.chatDeletes {
        data := data.(chatDeletes := data.chatDeletes - {id});
      }
    }

    /** The waiting update is merged under the chat, dropped or left, by its condition. */
    method AbsorbUpdate(slot: string)
      requires Lookup(data.chatUpserts, slot).Some?
      modifies this`data
      ensures data == AbsorbChatUpdate(env, old(data), slot)
    {
      var existing := Lookup(data.chatUpserts, slot).value;
      var id := IdOf(existing);
      var waiting := Lookup(data.chatUpdates, id);
      if waiting.None? || (waiting.value.fields == map[] && waiting.value.conditional.None?) {
        return;
      }
      var update := waiting.value;
      var matches := if update.conditional.Some? then env.verdict(update.conditional.value, data) else Some(true);
      if matches == Some(true) {
        existing := existing + Concat(update.fields, existing);
        data := data.(chatUpserts := Put(data.chatUpserts, slot, existing));
        data := data.(chatUpdates := Without(data.chatUpdates, {id}));
      } else if matches == Some(false) {
        data := data.(chatUpdates := Without(data.chatUpdates, {id}));
      }
    }

    method AppendChatUpdates(us: seq<ChatUpdate>)
      modifies this`data
      ensures data == UpdateChats(env, old(data), us)
    {
      for n := 0 to |us|
        invariant data == UpdateChats(env, old(data), us[..n])
      {
        assert us[..n + 1][..n] == us[..n];
        AppendChatUpdate(us[n]);
      }
      assert us[..|us|] == us;
    }

    method AppendChatUpdate(u: ChatUpdate)
      modifies this`data
      ensures data == UpdateChat(env, old(data), u)
    {
      var id := IdOf(u.fields);
      if id == "" {
        return;
      }
      var matches := if u.conditional.Some? then env.verdict(u.conditional.value, data) else Some(true);
      if matches == Some(true) {
        var upsert := Lookup(data.chatUpserts, id);
        if upsert.Some? && upsert.value != map[] {
          data := data.(chatUpserts := Put(data.chatUpserts, id, Concat(upsert.value, u.fields)));
        } else {
          var pending := ChatUpdate(map[], None);
          var earlier := Lookup(data.chatUpdates, id);
          if earlier.Some? {
            pending := earlier.value;
          }
          data := data.(chatUpdates := Put(data.chatUpdates, id, pending.(fields := Concat(pending.fields, u.fields))));
        }
      } else if matches.None? {
        data := data.(chatUpdates := Put(data.chatUpdates, id, u));
      }
      if id in data.chatDeletes {
        data := data.(chatDeletes := data.chatDeletes - {id});
      }
    }

    method AppendChatDeletes(ids: set<string>)
      modifies this`data
      ensures data == DeleteChats(old(data), ids)
    {
      ghost var done: set<string> := {};
      var rest := ids;
      WithoutNone(data.chatUpdates);
      WithoutNone(data.chatUpserts);
      while rest != {}
        invariant done + rest == ids && data == DeleteChats(old(data), done)
        decreases rest
      {
        var id :| id in rest;
        WithoutTwice(old(data).chatUpdates, done, {id});
        WithoutTwice(old(data).chatUpserts, done, {id});
        data := data.(chatDeletes := data.chatDeletes + {id});
        data := data.(chatUpdates := Without(data.chatUpdates, {id}));
        data := data.(chatUpserts := Without(data.chatUpserts, {id}));
        rest, done := rest - {id}, done + {id};
      }
      assert done == ids;
    }
  }
}
