/** A listener that keeps messages cannot tell buffered from unbuffered emission, and exactly when it can. */
module EventRefinement {
  import opened Common
  import opened EventBuffer
  import opened EventInvariants

  // ---- The listener's store ---------------------------------------------------------------------------

  /** A message and the type it came under. */
  datatype Stored = Stored(message: Dict, kind: string)

  type Store = map<string, Stored>

  function At(s: Store, k: string): Option<Stored> { if k in s then Some(s[k]) else None }

  function Insert(s: Store, m: Dict, kind: string): Store { s[KeyOf(m) := Stored(m, kind)] }

  function Amend(s: Store, item: UpdateItem): Store {
    var k := Stringify(item.key);
    if k in s then s[k := s[k].(message := s[k].message + item.update)] else s
  }

  function Erase(s: Store, key: KeyObject): Store { s - {Stringify(key)} }

  function EraseChat(s: Store, jid: string): Store {
    map k | k in s && KeyObjectOf(s[k].message).remoteJid != Some(jid) :: s[k]
  }

  function Inserts(s: Store, ms: seq<Dict>, kind: string): Store {
    if ms == [] then s else Insert(Inserts(s, ms[..|ms| - 1], kind), ms[|ms| - 1], kind)
  }

  function Amends(s: Store, items: seq<UpdateItem>): Store {
    if items == [] then s else Amend(Amends(s, items[..|items| - 1]), items[|items| - 1])
  }

  function Erases(s: Store, keys: seq<KeyObject>): Store {
    if keys == [] then s else Erase(Erases(s, keys[..|keys| - 1]), keys[|keys| - 1])
  }

  /** An upsert replaces, an update merges into what is there, a delete removes. */
  function Receive(s: Store, e: Event): Store {
    match e
    case MessagesUpsert(ms, kind) => Inserts(s, ms, Effective(kind))
    case MessagesUpdate(items) => Amends(s, items)
    case MessagesDelete(Keys(keys)) => Erases(s, keys)
    case MessagesDelete(AllOf(jid)) => EraseChat(s, jid)
    case _ => s
  }

  function ReceiveAll(s: Store, es: seq<Event>): Store {
    if es == [] then s else Receive(ReceiveAll(s, es[..|es| - 1]), es[|es| - 1])
  }

  lemma SameStore(s: Store, t: Store)
    requires forall k :: At(s, k) == At(t, k)
    ensures s == t
  {
    forall k
      ensures k in s <==> k in t
      ensures k in s ==> s[k] == t[k]
    {
      assert At(s, k) == At(t, k);
    }
    assert s.Keys == t.Keys;
  }

  lemma {:induction false} ReceiveConcat(s: Store, a: seq<Event>, b: seq<Event>)
    ensures ReceiveAll(s, a + b) == ReceiveAll(ReceiveAll(s, a), b)
  {
    if b == [] {
      assert a + b == a;
    } else {
      assert (a + b)[..|a + b| - 1] == a + b[..|b| - 1];
      ReceiveConcat(s, a, b[..|b| - 1]);
    }
  }

  // ---- What a flush would leave -----------------------------------------------------------------------

  /** The buffered upserts, then the updates, then the deletes. */
  function Deliver(s: Store, data: Data): Store {
    Erases(Amends(Inserts(s, Messages(data.messageUpserts), BatchKind(data)), Values(data.messageUpdates)),
           Values(data.messageDeletes))
  }

  /** What that does to one key. */
  function Seen(had: Option<Stored>, data: Data, k: string): Option<Stored> {
    var up, update := Lookup(data.messageUpserts, k), Lookup(data.messageUpdates, k);
    var base := if up.Some? then Some(Stored(up.value.message, up.value.kind)) else had;
    if Lookup(data.messageDeletes, k).Some? then None
    else if base.Some? && update.Some? then Some(base.value.(message := base.value.message + update.value.update))
    else base
  }

  function Own(kind: string): (string, UpsertItem) -> bool {
    (k: string, item: UpsertItem) => item.kind == kind && KeyOf(item.message) == k
  }

  /** The update does not give the message another message's key, as the update for a revoked message does. */
  predicate KeepsKey(item: UpdateItem) { Key in item.update ==> KeyOf(item.update) == Stringify(item.key) }

  /** Only a buffered message that takes the update can be renamed; an update that waits is handed out as it came. */
  predicate Fine(data: Data, item: UpdateItem) { KeepsKey(item) || !TakesUpdate(data, Stringify(item.key)) }

  /** Everything that is buffered is under its own key. */
  ghost predicate KeyedAs(data: Data, kind: string) {
    && Each(data.messageUpserts, Own(kind))
    && Each(data.messageUpdates, UpdateKeyed())
    && Each(data.messageDeletes, DeleteKeyed())
  }

  ghost predicate Keyed(data: Data) { KeyedAs(data, BatchKind(data)) }

  lemma InsertsSnoc(s: Store, ms: seq<Dict>, kind: string, m: Dict, k: string)
    ensures At(Inserts(s, ms + [m], kind), k) == if k == KeyOf(m) then Some(Stored(m, kind)) else At(Inserts(s, ms, kind), k)
  {
    hide KeyOf;
    assert (ms + [m])[..|ms|] == ms;
  }

  lemma {:induction false} InsertsAt(s: Store, items: Ordered<UpsertItem>, kind: string, k: string)
    requires Each(items, Own(kind))
    ensures At(Inserts(s, Messages(items), kind), k)
      == if Lookup(items, k).Some? then Some(Stored(Lookup(items, k).value.message, Lookup(items, k).value.kind)) else At(s, k)
  {
    hide KeyOf, Inserts, At;
    if items == [] {
      InsertNone(s, kind);
    } else {
      var front, last := items[..|items| - 1], items[|items| - 1];
      InsertsAt(s, front, kind, k);
      InsertsSnoc(s, Messages(front), kind, last.value.message, k);
    }
  }

  lemma InsertNone(s: Store, kind: string)
    ensures Inserts(s, [], kind) == s && Amends(s, []) == s && Erases(s, []) == s
  {
  }

  lemma AmendsSnoc(s: Store, items: seq<UpdateItem>, item: UpdateItem, k: string)
    ensures At(Amends(s, items + [item]), k) == Amended(At(Amends(s, items), k), item, k)
  {
    hide Stringify;
    assert (items + [item])[..|items|] == items;
  }

  function Amended(had: Option<Stored>, item: UpdateItem, k: string): Option<Stored> {
    if had.Some? && k == Stringify(item.key) then Some(had.value.(message := had.value.message + item.update)) else had
  }

  lemma {:induction false} AmendsAt(s: Store, items: Ordered<UpdateItem>, k: string)
    requires Each(items, UpdateKeyed())
    ensures At(Amends(s, Values(items)), k)
      == if At(s, k).Some? && Lookup(items, k).Some? then Amended(At(s, k), Lookup(items, k).value, k) else At(s, k)
  {
    hide Stringify, Amends, At;
    if items == [] {
      InsertNone(s, NOTIFY);
    } else {
      var front, last := items[..|items| - 1], items[|items| - 1];
      AmendsAt(s, front, k);
      AmendsSnoc(s, Values(front), last.value, k);
    }
  }

  lemma ErasesSnoc(s: Store, keys: seq<KeyObject>, key: KeyObject, k: string)
    ensures At(Erases(s, keys + [key]), k) == if k == Stringify(key) then None else At(Erases(s, keys), k)
  {
    hide Stringify;
    assert (keys + [key])[..|keys|] == keys;
  }

  lemma {:induction false} ErasesAt(s: Store, items: Ordered<KeyObject>, k: string)
    requires Each(items, DeleteKeyed())
    ensures At(Erases(s, Values(items)), k) == if Lookup(items, k).Some? then None else At(s, k)
  {
    hide Stringify, Erases, At;
    if items == [] {
      InsertNone(s, NOTIFY);
    } else {
      var front, last := items[..|items| - 1], items[|items| - 1];
      ErasesAt(s, front, k);
      ErasesSnoc(s, Values(front), last.value, k);
    }
  }

  lemma DeliverAt(s: Store, data: Data, k: string)
    requires Keyed(data)
    ensures At(Deliver(s, data), k) == Seen(At(s, k), data, k)
  {
    hide Lookup, Each, Inserts, Amends, Erases, Messages, Values, At, Stringify;
    if Lookup(data.messageUpdates, k).Some? {
      EachLookup(data.messageUpdates, UpdateKeyed(), k);
    }
    var inserted := Inserts(s, Messages(data.messageUpserts), BatchKind(data));
    InsertsAt(s, data.messageUpserts, BatchKind(data), k);
    AmendsAt(inserted, data.messageUpdates, k);
    ErasesAt(Amends(inserted, Values(data.messageUpdates)), data.messageDeletes, k);
  }

  /** The events of a flush do to the store what Deliver says. */
  lemma ConsolidatedDelivers(s: Store, data: Data)
    ensures ReceiveAll(s, Consolidate(data)) == Deliver(s, data)
  {
    hide Inserts, Amends, Erases, Messages, Values, ReceiveAll;
    var chats := (if data.chatUpserts == [] then [] else [ChatsUpsert(Values(data.chatUpserts))])
      + (if data.chatUpdates == [] then [] else [ChatsUpdate(Values(data.chatUpdates))])
      + (if data.chatDeletes == {} then [] else [ChatsDelete(data.chatDeletes)]);
    var ups := UpsertBatch(data.messageUpserts);
    var updates := if data.messageUpdates == [] then [] else [MessagesUpdate(Values(data.messageUpdates))];
    var deletes := if data.messageDeletes == [] then [] else [MessagesDelete(Keys(Values(data.messageDeletes)))];
    assert Consolidate(data) == ((chats + ups) + updates) + deletes;
    ReceiveConcat(s, chats + ups + updates, deletes);
    ReceiveConcat(s, chats + ups, updates);
    ReceiveConcat(s, chats, ups);
    ChatsUnseen(s, chats);
    UpsertsReceived(s, data);
    UpdatesReceived(ReceiveAll(s, ups), data.messageUpdates);
    DeletesReceived(ReceiveAll(ReceiveAll(s, ups), updates), data.messageDeletes);
  }

  lemma {:induction false} ChatsUnseen(s: Store, es: seq<Event>)
    requires forall e :: e in es ==> e.ChatsUpsert? || e.ChatsUpdate? || e.ChatsDelete?
    ensures ReceiveAll(s, es) == s
  {
    if es != [] {
      ChatsUnseen(s, es[..|es| - 1]);
      assert es[|es| - 1] in es;
    }
  }

  lemma ReceiveOne(s: Store, e: Event)
    ensures ReceiveAll(s, [e]) == Receive(s, e) && ReceiveAll(s, []) == s
  {
    assert [e][..0] == [];
  }

  lemma UpsertsReceived(s: Store, data: Data)
    ensures ReceiveAll(s, UpsertBatch(data.messageUpserts)) == Inserts(s, Messages(data.messageUpserts), BatchKind(data))
  {
    hide ReceiveAll;
    InsertNone(s, NOTIFY);
    ReceiveOne(s, MessagesUpsert(Messages(data.messageUpserts), Some(BatchKind(data))));
  }

  lemma UpdatesReceived(s: Store, items: Ordered<UpdateItem>)
    ensures ReceiveAll(s, if items == [] then [] else [MessagesUpdate(Values(items))]) == Amends(s, Values(items))
  {
    hide ReceiveAll;
    InsertNone(s, NOTIFY);
    ReceiveOne(s, MessagesUpdate(Values(items)));
  }

  lemma DeletesReceived(s: Store, items: Ordered<KeyObject>)
    ensures ReceiveAll(s, if items == [] then [] else [MessagesDelete(Keys(Values(items)))]) == Erases(s, Values(items))
  {
    hide ReceiveAll;
    InsertNone(s, NOTIFY);
    ReceiveOne(s, MessagesDelete(Keys(Values(items))));
  }

  // ---- One message at a time --------------------------------------------------------------------------

  /**
   * What the buffer would add to an upserted message is there already: the timestamp of an earlier upsert of the
   * same key, and every field of a waiting update.
   */
  predicate Untouched(data: Data, m: Dict) {
    && (TakesUpdate(data, KeyOf(m)) ==>
          && MessageTimestamp in m
          && m[MessageTimestamp] == Get(Lookup(data.messageUpserts, KeyOf(m)).value.message, MessageTimestamp))
    && (Lookup(data.messageUpdates, KeyOf(m)).Some? ==>
          forall f :: f in Lookup(data.messageUpdates, KeyOf(m)).value.update ==>
            f in m && m[f] == Lookup(data.messageUpdates, KeyOf(m)).value.update[f])
  }

  predicate Tame(data: Data, m: Dict) { Lookup(data.messageDeletes, KeyOf(m)).None? && Untouched(data, m) }

  lemma UntouchedExactly(data: Data, m: Dict)
    requires MessageApart(data, KeyOf(m))
    ensures BufferedMessage(data, m) == m <==> Untouched(data, m)
  {
    hide Lookup, KeyOf;
    var update := Lookup(data.messageUpdates, KeyOf(m));
    if update.Some? {
      var u := update.value.update;
      if Untouched(data, m) {
        assert m + u == m;
      } else {
        var f :| f in u && !(f in m && m[f] == u[f]);
        assert (m + u)[f] == u[f];
      }
    }
  }

  lemma MergeKeepsKey(m: Dict, item: UpdateItem)
    requires KeepsKey(item) && KeyOf(m) == Stringify(item.key)
    ensures KeyOf(m + item.update) == KeyOf(m)
  {
    hide Stringify;
  }

  lemma TameKeepsKey(data: Data, m: Dict)
    requires MessageApart(data, KeyOf(m)) && Tame(data, m)
    ensures KeyOf(BufferedMessage(data, m)) == KeyOf(m)
  {
    hide Lookup, KeyOf, BufferedMessage, Untouched;
    UntouchedExactly(data, m);
  }

  lemma UpsertKeyed(data: Data, m: Dict, kind: string)
    requires KeyedAs(data, kind) && KeyOf(BufferedMessage(data, m)) == KeyOf(m)
    ensures KeyedAs(UpsertMessage(data, m, kind), kind)
    ensures BufferedKind(data, KeyOf(m), kind) == kind
  {
    hide Lookup, Each, Put, Without, KeyOf, BufferedMessage;
    var k := KeyOf(m);
    if Lookup(data.messageUpserts, k).Some? {
      EachLookup(data.messageUpserts, Own(kind), k);
    }
    EachPut(data.messageUpserts, Own(kind), k, UpsertItem(BufferedMessage(data, m), kind));
    EachWithout(data.messageUpdates, UpdateKeyed(), {k});
  }

  lemma UpsertSeen(had: Option<Stored>, data: Data, m: Dict, kind: string, k: string)
    requires KeyedAs(data, kind) && KeyOf(BufferedMessage(data, m)) == KeyOf(m)
    ensures Seen(had, UpsertMessage(data, m, kind), k)
      == if k == KeyOf(m)
         then if Lookup(data.messageDeletes, k).Some? then None else Some(Stored(BufferedMessage(data, m), kind))
         else Seen(had, data, k)
  {
    hide Lookup, Each, Put, Without, KeyOf, BufferedMessage;
    UpsertKeyed(data, m, kind);
    LookupPut(data.messageUpserts, KeyOf(m), UpsertItem(BufferedMessage(data, m), kind), k);
    LookupWithout(data.messageUpdates, {KeyOf(m)}, k);
  }

  lemma Relabel(data: Data, kind: string)
    requires KeyedAs(data, kind)
    ensures Keyed(data)
  {
    if data.messageUpserts != [] {
      EachFirst(data.messageUpserts, Own(kind));
    }
  }

  ghost predicate NoneUnder(items: Ordered<UpsertItem>, k: string) {
    items == [] || (KeyOf(items[|items| - 1].value.message) != k && NoneUnder(items[..|items| - 1], k))
  }

  lemma {:induction false} AbsentIsNoneUnder(items: Ordered<UpsertItem>, kind: string, k: string)
    requires Each(items, Own(kind)) && Lookup(items, k).None?
    ensures NoneUnder(items, k)
  {
    hide KeyOf;
    if items != [] {
      AbsentIsNoneUnder(items[..|items| - 1], kind, k);
    }
  }

  /** Once its only message has another key, nothing in the buffer comes out under k. */
  lemma {:induction false} RenamedIsNoneUnder(items: Ordered<UpsertItem>, kind: string, k: string, item: UpsertItem)
    requires Each(items, Own(kind)) && KeyOf(item.message) != k
    ensures NoneUnder(Put(items, k, item), k)
  {
    hide KeyOf;
    if Lookup(items, k).None? {
      AbsentIsNoneUnder(items, kind, k);
      assert (items + [Entry(k, item)])[..|items|] == items;
      return;
    }
    var front, last := items[..|items| - 1], items[|items| - 1];
    if last.key == k {
      AbsentIsNoneUnder(front, kind, k);
      assert (front + [Entry(k, item)])[..|front|] == front;
    } else {
      RenamedIsNoneUnder(front, kind, k, item);
      var before := Replace(front, k, item);
      assert (before + [last])[..|before|] == before;
    }
  }

  lemma {:induction false} InsertsElsewhere(s: Store, items: Ordered<UpsertItem>, kind: string, k: string)
    requires NoneUnder(items, k)
    ensures At(Inserts(s, Messages(items), kind), k) == At(s, k)
  {
    hide KeyOf, Inserts, At;
    if items == [] {
      InsertNone(s, kind);
    } else {
      var front, last := items[..|items| - 1], items[|items| - 1];
      InsertsElsewhere(s, front, kind, k);
      InsertsSnoc(s, Messages(front), kind, last.value.message, k);
    }
  }

  lemma RenamedUpsertAt(s: Store, data: Data, m: Dict, kind: string)
    requires KeyedAs(data, kind) && KeyOf(BufferedMessage(data, m)) != KeyOf(m)
    ensures At(Deliver(s, UpsertMessage(data, m, kind)), KeyOf(m))
      == if Lookup(data.messageDeletes, KeyOf(m)).Some? then None else At(s, KeyOf(m))
  {
    hide Lookup, Each, Put, Without, BufferedMessage, KeyOf, Stringify, Inserts, Amends, Erases, Messages, Values, At;
    var k, d := KeyOf(m), UpsertMessage(data, m, kind);
    RenamedIsNoneUnder(data.messageUpserts, kind, k, UpsertItem(BufferedMessage(data, m), BufferedKind(data, k, kind)));
    InsertsElsewhere(s, d.messageUpserts, BatchKind(d), k);
    var inserted := Inserts(s, Messages(d.messageUpserts), BatchKind(d));
    EachWithout(data.messageUpdates, UpdateKeyed(), {k});
    LookupWithout(data.messageUpdates, {k}, k);
    AmendsAt(inserted, d.messageUpdates, k);
    ErasesAt(Amends(inserted, Values(d.messageUpdates)), d.messageDeletes, k);
  }

  /**
   * Buffering an upserted message means what emitting it does, exactly when it is tame; only where a waiting update
   * would rename it may the listener hold the very message beforehand by chance.
   */
  lemma UpsertExactly(s: Store, data: Data, m: Dict, kind: string)
    requires KeyedAs(data, kind) && MessageApart(data, KeyOf(m))
    requires KeyOf(BufferedMessage(data, m)) != KeyOf(m) ==> At(s, KeyOf(m)) != Some(Stored(m, kind))
    ensures Deliver(s, UpsertMessage(data, m, kind)) == Insert(Deliver(s, data), m, kind) <==> Tame(data, m)
  {
    hide Lookup, Each, UpsertMessage, KeyOf, BufferedMessage, Deliver, Seen, Untouched;
    var d, r := Deliver(s, UpsertMessage(data, m, kind)), Insert(Deliver(s, data), m, kind);
    UntouchedExactly(data, m);
    assert At(r, KeyOf(m)) == Some(Stored(m, kind));
    if KeyOf(BufferedMessage(data, m)) != KeyOf(m) {
      RenamedUpsertAt(s, data, m, kind);
    } else {
      UpsertKeyed(data, m, kind);
      Relabel(data, kind);
      Relabel(UpsertMessage(data, m, kind), kind);
      forall k
        ensures At(d, k) == if k != KeyOf(m) then At(r, k)
          else if Lookup(data.messageDeletes, k).Some? then None else Some(Stored(BufferedMessage(data, m), kind))
      {
        DeliverAt(s, data, k);
        DeliverAt(s, UpsertMessage(data, m, kind), k);
        UpsertSeen(At(s, k), data, m, kind, k);
      }
      if Tame(data, m) {
        SameStore(d, r);
      }
    }
  }

  lemma UpdateKeepsKeyed(env: Env, data: Data, item: UpdateItem, kind: string)
    requires KeyedAs(data, kind) && ChatsOk(data) && Fine(data, item)
    ensures KeyedAs(UpdateMessage(env, data, item), kind)
  {
    hide Lookup, Each, Put, ChatsOk, CountRead, Stringify, KeyOf;
    var k := Stringify(item.key);
    if TakesUpdate(data, k) {
      var found := Lookup(data.messageUpserts, k).value;
      var merged := found.(message := found.message + item.update);
      EachLookup(data.messageUpserts, Own(kind), k);
      MergeKeepsKey(found.message, item);
      EachPut(data.messageUpserts, Own(kind), k, merged);
      var put := data.(messageUpserts := Put(data.messageUpserts, k, merged));
      SameChats(data, put);
      CountReadOk(env, put, merged.message);
    } else {
      var waiting := Lookup(data.messageUpdates, k);
      var next := if waiting.Some? then waiting.value.(update := waiting.value.update + item.update) else item;
      if waiting.Some? {
        EachLookup(data.messageUpdates, UpdateKeyed(), k);
      }
      EachPut(data.messageUpdates, UpdateKeyed(), k, next);
    }
  }

  lemma LaterKey(a: Dict, b: Dict)
    ensures KeyOf(a + b) == if Key in b then KeyOf(b) else KeyOf(a)
  {
    hide Stringify;
  }

  lemma UpdateSeen(env: Env, had: Option<Stored>, data: Data, item: UpdateItem, k: string)
    requires ChatsOk(data) && MessageApart(data, Stringify(item.key))
    ensures Seen(had, UpdateMessage(env, data, item), k) == Amended(Seen(had, data, k), item, k)
  {
    hide Lookup, Each, Put, ChatsOk, CountRead, Stringify;
    var j := Stringify(item.key);
    if TakesUpdate(data, j) {
      var found := Lookup(data.messageUpserts, j).value;
      var merged := found.(message := found.message + item.update);
      var put := data.(messageUpserts := Put(data.messageUpserts, j, merged));
      LookupPut(data.messageUpserts, j, merged, k);
      SameChats(data, put);
      CountReadOk(env, put, merged.message);
    } else {
      var waiting := Lookup(data.messageUpdates, j);
      LookupPut(data.messageUpdates, j,
        if waiting.Some? then waiting.value.(update := waiting.value.update + item.update) else item, k);
      if waiting.Some? {
        MergeTwice(waiting.value.update, item.update);
      }
    }
  }

  lemma MergeTwice(u: Dict, v: Dict)
    ensures forall m: Dict :: m + (u + v) == (m + u) + v
  {
  }

  /** Buffering an update that keeps the key, or that no buffered message takes, always means what emitting it does. */
  lemma UpdateExact(env: Env, s: Store, data: Data, item: UpdateItem, kind: string)
    requires KeyedAs(data, kind) && ChatsOk(data) && Fine(data, item) && MessageApart(data, Stringify(item.key))
    ensures Deliver(s, UpdateMessage(env, data, item)) == Amend(Deliver(s, data), item)
  {
    hide Lookup, Each, UpdateMessage, Fine, ChatsOk, Stringify, Deliver, Seen;
    UpdateKeepsKeyed(env, data, item, kind);
    Relabel(data, kind);
    Relabel(UpdateMessage(env, data, item), kind);
    forall k
      ensures At(Deliver(s, UpdateMessage(env, data, item)), k) == At(Amend(Deliver(s, data), item), k)
    {
      DeliverAt(s, data, k);
      DeliverAt(s, UpdateMessage(env, data, item), k);
      UpdateSeen(env, At(s, k), data, item, k);
    }
    SameStore(Deliver(s, UpdateMessage(env, data, item)), Amend(Deliver(s, data), item));
  }

  lemma DeleteKeepsKeyed(data: Data, key: KeyObject, kind: string)
    requires KeyedAs(data, kind)
    ensures KeyedAs(DeleteMessage(data, key), kind)
  {
    hide Lookup, Each, Put, Without, Stringify;
    var k := Stringify(key);
    EachPut(data.messageDeletes, DeleteKeyed(), k, key);
    EachWithout(data.messageUpserts, Own(kind), {k});
    EachWithout(data.messageUpdates, UpdateKeyed(), {k});
  }

  /** Buffering a deletion always means what emitting it does. */
  lemma DeleteExact(s: Store, data: Data, key: KeyObject, kind: string)
    requires KeyedAs(data, kind)
    ensures Deliver(s, DeleteMessage(data, key)) == Erase(Deliver(s, data), key)
  {
    hide Lookup, Each, Put, Without, Stringify, Deliver;
    DeleteKeepsKeyed(data, key, kind);
    Relabel(data, kind);
    Relabel(DeleteMessage(data, key), kind);
    forall k
      ensures At(Deliver(s, DeleteMessage(data, key)), k) == At(Erase(Deliver(s, data), key), k)
    {
      DeliverAt(s, data, k);
      DeliverAt(s, DeleteMessage(data, key), k);
      LookupPut(data.messageDeletes, Stringify(key), key, k);
      LookupWithout(data.messageUpserts, {Stringify(key)}, k);
      LookupWithout(data.messageUpdates, {Stringify(key)}, k);
    }
    SameStore(Deliver(s, DeleteMessage(data, key)), Erase(Deliver(s, data), key));
  }

  lemma RenamedAt(env: Env, s: Store, data: Data, item: UpdateItem, kind: string)
    requires KeyedAs(data, kind) && ChatsOk(data) && !KeepsKey(item)
    requires TakesUpdate(data, Stringify(item.key)) && MessageApart(data, Stringify(item.key))
    requires Lookup(data.messageDeletes, Stringify(item.key)).None?
    ensures At(Deliver(s, UpdateMessage(env, data, item)), Stringify(item.key)) == At(s, Stringify(item.key))
  {
    hide Lookup, Each, Put, ChatsOk, CountRead, Stringify, KeyOf, Inserts, Amends, Erases, Messages, Values, At;
    var k, d := Stringify(item.key), UpdateMessage(env, data, item);
    var found := Lookup(data.messageUpserts, k).value;
    var merged := found.(message := found.message + item.update);
    LaterKey(found.message, item.update);
    RenamedIsNoneUnder(data.messageUpserts, kind, k, merged);
    var put := data.(messageUpserts := Put(data.messageUpserts, k, merged));
    SameChats(data, put);
    CountReadOk(env, put, merged.message);
    InsertsElsewhere(s, d.messageUpserts, BatchKind(d), k);
    var inserted := Inserts(s, Messages(d.messageUpserts), BatchKind(d));
    AmendsAt(inserted, d.messageUpdates, k);
    ErasesAt(Amends(inserted, Values(d.messageUpdates)), d.messageDeletes, k);
  }

  /** What an update makes of the buffered message that takes it. */
  function Taken(data: Data, item: UpdateItem): Stored
    requires TakesUpdate(data, Stringify(item.key))
  {
    var found := Lookup(data.messageUpserts, Stringify(item.key)).value;
    Stored(found.message + item.update, found.kind)
  }

  /**
   * Buffering an update means what emitting it does exactly when it keeps the key or no buffered message takes it: a
   * message renamed in the buffer comes out under its new key alone. Only where one does take it, it must not be
   * deleted, and the listener not hold the updated message under the old key by chance already.
   */
  lemma UpdateExactly(env: Env, s: Store, data: Data, item: UpdateItem, kind: string)
    requires KeyedAs(data, kind) && ChatsOk(data) && MessageApart(data, Stringify(item.key))
    requires TakesUpdate(data, Stringify(item.key)) ==>
      Lookup(data.messageDeletes, Stringify(item.key)).None? && At(s, Stringify(item.key)) != Some(Taken(data, item))
    ensures Deliver(s, UpdateMessage(env, data, item)) == Amend(Deliver(s, data), item) <==> Fine(data, item)
  {
    hide Lookup, Each, UpdateMessage, KeepsKey, ChatsOk, Stringify, Deliver;
    var k := Stringify(item.key);
    if Fine(data, item) {
      UpdateExact(env, s, data, item, kind);
    } else {
      RenamedAt(env, s, data, item, kind);
      Relabel(data, kind);
      DeliverAt(s, data, k);
      assert At(Amend(Deliver(s, data), item), k) == Some(Taken(data, item));
    }
  }

  /** No message of the chat is held. */
  predicate NoneOf(s: Store, jid: string) {
    forall k :: k in s ==> KeyObjectOf(s[k].message).remoteJid != Some(jid)
  }

  lemma EraseChatExactly(s: Store, jid: string)
    ensures EraseChat(s, jid) == s <==> NoneOf(s, jid)
  {
    hide KeyObjectOf;
    if EraseChat(s, jid) == s {
      forall k | k in s
        ensures KeyObjectOf(s[k].message).remoteJid != Some(jid)
      {
        assert k in EraseChat(s, jid);
      }
    }
    if NoneOf(s, jid) {
      SameStore(EraseChat(s, jid), s);
    }
  }

  /**
   * Buffering the deletion of a whole chat means what emitting it does exactly when neither the listener nor the
   * buffer would show a message of that chat.
   */
  lemma DeleteAllExactly(env: Env, s: Store, data: Data, jid: string)
    requires Keyed(data)
    ensures var e := MessagesDelete(AllOf(jid));
      && Append(env, data, e) == data
      && (Deliver(s, Append(env, data, e)) == Receive(Deliver(s, data), e)
          <==> forall k :: Seen(At(s, k), data, k).Some? ==>
                 KeyObjectOf(Seen(At(s, k), data, k).value.message).remoteJid != Some(jid))
  {
    hide Deliver, Seen, KeyObjectOf, EraseChat, Keyed;
    EraseChatExactly(Deliver(s, data), jid);
    forall k
      ensures At(Deliver(s, data), k) == Seen(At(s, k), data, k)
    {
      DeliverAt(s, data, k);
    }
    if NoneOf(Deliver(s, data), jid) {
      forall k | Seen(At(s, k), data, k).Some?
        ensures KeyObjectOf(Seen(At(s, k), data, k).value.message).remoteJid != Some(jid)
      {
        assert k in Deliver(s, data);
      }
    } else {
      var k :| k in Deliver(s, data) && KeyObjectOf(Deliver(s, data)[k].message).remoteJid == Some(jid);
      assert At(Deliver(s, data), k) == Seen(At(s, k), data, k);
    }
  }

  // ---- Whole events and runs --------------------------------------------------------------------------

  predicate AllTame(data: Data, ms: seq<Dict>, kind: string) {
    ms == []
    || (AllTame(data, ms[..|ms| - 1], kind) && Tame(UpsertMessages(data, ms[..|ms| - 1], kind), ms[|ms| - 1]))
  }

  /**
   * What a listener needs of an event that is buffered: tame upserts, updates that keep the key or that no buffered
   * message takes, whole-chat deletions of chats that raw events have left no message of.
   */
  predicate TameEvent(data: Data, raw: Store, e: Event) {
    match e
    case MessagesUpsert(ms, kind) => AllTame(data, ms, Effective(kind))
    case MessagesUpdate(items) => forall item :: item in items ==> Fine(data, item)
    case MessagesDelete(Keys(_)) => true
    case MessagesDelete(AllOf(jid)) => NoneOf(raw, jid)
    case _ => true
  }

  lemma {:induction false} UpsertsExact(s: Store, data: Data, ms: seq<Dict>, kind: string)
    requires KeyedAs(data, kind) && MessagesOk(data, kind) && AllTame(data, ms, kind)
    ensures KeyedAs(UpsertMessages(data, ms, kind), kind) && MessagesOk(UpsertMessages(data, ms, kind), kind)
    ensures Deliver(s, UpsertMessages(data, ms, kind)) == Inserts(Deliver(s, data), ms, kind)
  {
    hide KeyedAs, Tame, UpsertMessage, Insert, Deliver, Lookup, BufferedMessage, KeyOf;
    if ms != [] {
      var front, m := ms[..|ms| - 1], ms[|ms| - 1];
      UpsertsExact(s, data, front, kind);
      var d := UpsertMessages(data, front, kind);
      assert MessageApart(d, KeyOf(m));
      TameKeepsKey(d, m);
      UpsertExactly(s, d, m, kind);
      UpsertKeyed(d, m, kind);
      UpsertMessageOk(d, m, kind);
    }
  }

  /** An update makes no message take others, nor stop taking them. */
  lemma TakesAfterUpdate(env: Env, data: Data, item: UpdateItem, k: string)
    ensures TakesUpdate(UpdateMessage(env, data, item), k) <==> TakesUpdate(data, k)
    ensures UpdateMessage(env, data, item).messageDeletes == data.messageDeletes
    ensures Lookup(UpdateMessage(env, data, item).messageUpserts, k).Some? <==> Lookup(data.messageUpserts, k).Some?
  {
    hide Lookup, Put, Stringify;
    var j := Stringify(item.key);
    if TakesUpdate(data, j) {
      var found := Lookup(data.messageUpserts, j).value;
      LookupPut(data.messageUpserts, j, found.(message := found.message + item.update), k);
    }
  }

  lemma {:induction false} FineLater(env: Env, data: Data, items: seq<UpdateItem>, item: UpdateItem)
    requires Fine(data, item)
    ensures Fine(UpdateMessages(env, data, items), item)
  {
    hide TakesUpdate, UpdateMessage, Stringify, KeepsKey;
    if items != [] {
      var front := items[..|items| - 1];
      FineLater(env, data, front, item);
      TakesAfterUpdate(env, UpdateMessages(env, data, front), items[|items| - 1], Stringify(item.key));
    }
  }

  lemma {:induction false} UpdatesExact(env: Env, s: Store, data: Data, items: seq<UpdateItem>, kind: string)
    requires KeyedAs(data, kind) && MessagesOk(data, kind) && ChatsOk(data)
    requires forall item :: item in items ==> Fine(data, item)
    ensures var d := UpdateMessages(env, data, items); KeyedAs(d, kind) && MessagesOk(d, kind) && ChatsOk(d)
    ensures Deliver(s, UpdateMessages(env, data, items)) == Amends(Deliver(s, data), items)
  {
    hide KeyedAs, UpdateMessage, Amend, Deliver, Lookup, ChatsOk, Fine;
    if items != [] {
      var front, item := items[..|items| - 1], items[|items| - 1];
      UpdatesExact(env, s, data, front, kind);
      var d := UpdateMessages(env, data, front);
      assert item in items && MessageApart(d, Stringify(item.key));
      FineLater(env, data, front, item);
      UpdateExact(env, s, d, item, kind);
      UpdateKeepsKeyed(env, d, item, kind);
      UpdateMessageOk(env, d, item, kind);
    }
  }

  lemma {:induction false} DeletesExact(s: Store, data: Data, keys: seq<KeyObject>, kind: string)
    requires KeyedAs(data, kind)
    ensures KeyedAs(DeleteMessages(data, keys), kind)
    ensures Deliver(s, DeleteMessages(data, keys)) == Erases(Deliver(s, data), keys)
  {
    hide KeyedAs, DeleteMessage, Erase, Deliver;
    if keys != [] {
      var front, key := keys[..|keys| - 1], keys[|keys| - 1];
      DeletesExact(s, data, front, kind);
      DeleteExact(s, DeleteMessages(data, front), key, kind);
      DeleteKeepsKeyed(DeleteMessages(data, front), key, kind);
    }
  }

  lemma AppendExact(env: Env, s: Store, data: Data, e: Event, kind: string)
    requires KeyedAs(data, kind) && MessagesOk(data, kind) && ChatsOk(data) && !e.NotBufferable?
    requires TameEvent(data, Deliver(s, data), e)
    requires e.MessagesUpsert? ==> Effective(e.kind) == kind
    ensures KeyedAs(Append(env, data, e), kind)
    ensures Deliver(s, Append(env, data, e)) == Receive(Deliver(s, data), e)
  {
    hide KeyedAs, MessagesOk, ChatsOk, Deliver, Lookup, Fine, UpsertMessages, UpdateMessages, DeleteMessages;
    match e {
      case MessagesUpsert(ms, _) => UpsertsExact(s, data, ms, kind);
      case MessagesUpdate(items) => UpdatesExact(env, s, data, items, kind);
      case MessagesDelete(Keys(keys)) => DeletesExact(s, data, keys, kind);
      case MessagesDelete(AllOf(jid)) => EraseChatExactly(Deliver(s, data), jid);
      case _ =>
        AppendChatsOk(env, data, e);
        SameDelivery(s, data, Append(env, data, e), kind);
    }
  }

  lemma SameDelivery(s: Store, a: Data, b: Data, kind: string)
    requires MessagePart(a) == MessagePart(b)
    ensures Deliver(s, a) == Deliver(s, b)
    ensures KeyedAs(a, kind) ==> KeyedAs(b, kind)
  {
  }

  /** The listener with the buffer's contents delivered on top is where the listener of raw events is. */
  ghost predicate InStep(st: State, s: Store, raw: Store) {
    && Invariant(st) && Keyed(st.data)
    && raw == Deliver(s, st.data)
    && (!st.buffering ==> raw == s)
  }

  function RawStep(raw: Store, step: Step): Store { if step.Emit? then Receive(raw, step.event) else raw }

  predicate TameStep(st: State, raw: Store, step: Step) {
    step.Emit? && st.buffering ==> TameEvent(AfterEarly(st.data, step.event), raw, step.event)
  }

  lemma EarlyDelivery(s: Store, data: Data, e: Event)
    requires Keyed(data)
    ensures Deliver(ReceiveAll(s, EarlyOut(data, e)), AfterEarly(data, e)) == Deliver(s, data)
    ensures KeyedAs(AfterEarly(data, e), if e.MessagesUpsert? then Effective(e.kind) else BatchKind(data))
  {
    hide Inserts, Amends, Erases, Lookup;
    if Mismatch(data, e) {
      UpsertsReceived(s, data);
      InsertNone(ReceiveAll(s, EarlyOut(data, e)), NOTIFY);
      EachNone(Own(Effective(e.kind)));
    } else {
      ReceiveOne(s, e);
      if data.messageUpserts == [] {
        EachNone(Own(if e.MessagesUpsert? then Effective(e.kind) else BatchKind(data)));
      }
    }
  }

  lemma EmitInStep(env: Env, st: State, s: Store, raw: Store, e: Event)
    requires InStep(st, s, raw) && TameStep(st, raw, Emit(e))
    ensures InStep(Next(env, st, Emit(e)), ReceiveAll(s, Out(st, Emit(e))), Receive(raw, e))
  {
    hide Invariant, KeyedAs, Deliver, Receive, MessagesOk, ChatsOk, TameEvent, Append, ReceiveAll;
    EmitKeeps(env, st, e);
    var d, out := AfterEarly(st.data, e), EarlyOut(st.data, e);
    var kind := if e.MessagesUpsert? then Effective(e.kind) else BatchKind(st.data);
    EarlyDelivery(s, st.data, e);
    Relabel(d, kind);
    ReceiveConcat(s, out, [e]);
    ReceiveOne(ReceiveAll(s, out), e);
    assert out + [] == out;
    if st.buffering && !e.NotBufferable? {
      EmitBuffered(env, st, ReceiveAll(s, out), e, kind);
    } else if st.buffering {
      UnseenByListeners(e, ReceiveAll(s, out), d);
    } else {
      Quiet(st, s, e);
    }
  }

  lemma EmitBuffered(env: Env, st: State, s: Store, e: Event, kind: string)
    requires Invariant(st) && !e.NotBufferable?
    requires TameEvent(AfterEarly(st.data, e), Deliver(s, AfterEarly(st.data, e)), e)
    requires kind == if e.MessagesUpsert? then Effective(e.kind) else BatchKind(st.data)
    requires KeyedAs(AfterEarly(st.data, e), kind)
    ensures Keyed(Append(env, AfterEarly(st.data, e), e))
    ensures Deliver(s, Append(env, AfterEarly(st.data, e), e)) == Receive(Deliver(s, AfterEarly(st.data, e)), e)
  {
    hide KeyedAs, Deliver, Receive, MessagesOk, ChatsOk, TameEvent, Append;
    EarlyOk(st.data, e, kind);
    AppendExact(env, s, AfterEarly(st.data, e), e, kind);
    Relabel(Append(env, AfterEarly(st.data, e), e), kind);
  }

  lemma UnseenByListeners(e: Event, s: Store, d: Data)
    requires e.NotBufferable?
    ensures Receive(s, e) == s && Receive(Deliver(s, d), e) == Deliver(s, d)
  {
  }

  lemma Quiet(st: State, s: Store, e: Event)
    requires Invariant(st) && !st.buffering
    ensures AfterEarly(st.data, e) == st.data && EarlyOut(st.data, e) == []
    ensures Deliver(s, st.data) == s && Deliver(Receive(s, e), st.data) == Receive(s, e) && ReceiveAll(s, []) == s
  {
    hide ChatsOk, MessagesOk, Receive;
  }

  lemma FlushInStep(env: Env, st: State, s: Store, raw: Store)
    requires InStep(st, s, raw)
    ensures InStep(Next(env, st, Flush), ReceiveAll(s, Out(st, Flush)), raw)
  {
    hide Invariant, KeyedAs, Deliver, ReceiveAll, Consolidate, Waiting, Ready;
    FlushKeeps(env, st);
    var d := st.data.(chatUpdates := Ready(st.data.chatUpdates));
    SameDelivery(s, st.data, d, NOTIFY);
    ConsolidatedDelivers(s, d);
    ReceiveOne(s, NotBufferable(""));
    if st.buffering {
      NothingBuffered(raw, EMPTY.(chatUpdates := Waiting(st.data.chatUpdates)));
    }
  }

  lemma NothingBuffered(s: Store, data: Data)
    requires data.messageUpserts == [] && data.messageUpdates == [] && data.messageDeletes == []
    ensures Deliver(s, data) == s && Keyed(data)
  {
  }

  function Given(env: Env, st: State, s: Store, steps: seq<Step>): Store
    decreases |steps|
  {
    if steps == [] then s else Given(env, Next(env, st, steps[0]), ReceiveAll(s, Out(st, steps[0])), steps[1..])
  }

  function Raw(raw: Store, steps: seq<Step>): Store
    decreases |steps|
  {
    if steps == [] then raw else Raw(RawStep(raw, steps[0]), steps[1..])
  }

  predicate TameRun(env: Env, st: State, raw: Store, steps: seq<Step>)
    decreases |steps|
  {
    steps == []
    || (TameStep(st, raw, steps[0]) && TameRun(env, Next(env, st, steps[0]), RawStep(raw, steps[0]), steps[1..]))
  }

  lemma {:induction false} RunInStep(env: Env, st: State, s: Store, raw: Store, steps: seq<Step>)
    requires InStep(st, s, raw) && TameRun(env, st, raw, steps)
    ensures InStep(Play(env, st, steps), Given(env, st, s, steps), Raw(raw, steps))
    decreases |steps|
  {
    hide InStep, Receive, ReceiveAll, TameStep, Out;
    if steps != [] {
      StepInStep(env, st, s, raw, steps[0]);
      RunInStep(env, Next(env, st, steps[0]), ReceiveAll(s, Out(st, steps[0])), RawStep(raw, steps[0]), steps[1..]);
    }
  }

  lemma StepInStep(env: Env, st: State, s: Store, raw: Store, step: Step)
    requires InStep(st, s, raw) && TameStep(st, raw, step)
    ensures InStep(Next(env, st, step), ReceiveAll(s, Out(st, step)), RawStep(raw, step))
  {
    hide Invariant, Keyed, Deliver, Receive, TameEvent, Append;
    match step {
      case Buffer =>
        NextKeeps(env, st, step);
        ReceiveOne(s, NotBufferable(""));
      case Flush => FlushInStep(env, st, s, raw);
      case Emit(e) => EmitInStep(env, st, s, raw, e);
    }
  }

  /**
   * Buffered emission refines unbuffered emission. Over any tame run of events, bufferings and flushes from the
   * start, delivering what is still buffered brings the listener to the store raw events in order give; so
   * whenever nothing is being buffered, the listener is there.
   */
  lemma BufferingRefinesEmission(env: Env, s: Store, steps: seq<Step>)
    requires TameRun(env, START, s, steps)
    ensures var st := Play(env, START, steps);
      && Deliver(Given(env, START, s, steps), st.data) == Raw(s, steps)
      && (!st.buffering ==> Given(env, START, s, steps) == Raw(s, steps))
  {
    hide Deliver, Play, Given, Raw, TameRun;
    StartOk();
    NothingBuffered(s, EMPTY);
    RunInStep(env, START, s, s, steps);
  }

  // ---- Where runs come apart --------------------------------------------------------------------------

  lemma {:induction false} PlaySnoc(env: Env, st: State, steps: seq<Step>, last: Step)
    ensures Play(env, st, steps + [last]) == Next(env, Play(env, st, steps), last)
    decreases |steps|
  {
    hide Next;
    if steps == [] {
      assert [] + [last] == [last];
    } else {
      assert (steps + [last])[1..] == steps[1..] + [last];
      PlaySnoc(env, Next(env, st, steps[0]), steps[1..], last);
    }
  }

  lemma {:induction false} RawSnoc(raw: Store, steps: seq<Step>, last: Step)
    ensures Raw(raw, steps + [last]) == RawStep(Raw(raw, steps), last)
    decreases |steps|
  {
    hide RawStep;
    if steps == [] {
      assert [] + [last] == [last];
    } else {
      assert (steps + [last])[1..] == steps[1..] + [last];
      RawSnoc(RawStep(raw, steps[0]), steps[1..], last);
    }
  }

  /** One event more, of whatever bufferable kind, and a flush, after a run that ends in buffering. */
  lemma OneEventMore(env: Env, s: Store, steps: seq<Step>, e: Event)
    requires TameRun(env, START, s, steps) && Play(env, START, steps).buffering && !e.NotBufferable?
    ensures var st, given := Play(env, START, steps), Given(env, START, s, steps);
      var before, d := ReceiveAll(given, EarlyOut(st.data, e)), AfterEarly(st.data, e);
      && InStep(st, given, Raw(s, steps))
      && Deliver(before, d) == Deliver(given, st.data)
      && Given(env, START, s, steps + [Emit(e), Flush]) == Deliver(before, Append(env, d, e))
      && Raw(s, steps + [Emit(e), Flush]) == Receive(Deliver(given, st.data), e)
  {
    hide Deliver, Play, Given, Raw, TameRun, Receive, ReceiveAll, Append, Invariant, KeyedAs, Consolidate, EarlyOut, AfterEarly;
    StartOk();
    NothingBuffered(s, EMPTY);
    RunInStep(env, START, s, s, steps);
    var st, given := Play(env, START, steps), Given(env, START, s, steps);
    assert steps + [Emit(e), Flush] == (steps + [Emit(e)]) + [Flush];
    GivenSnoc(env, START, s, steps + [Emit(e)], Flush);
    GivenSnoc(env, START, s, steps, Emit(e));
    PlaySnoc(env, START, steps, Emit(e));
    RawSnoc(s, steps + [Emit(e)], Flush);
    RawSnoc(s, steps, Emit(e));
    EarlyDelivery(given, st.data, e);
    var before, d := ReceiveAll(given, EarlyOut(st.data, e)), Append(env, AfterEarly(st.data, e), e);
    assert Out(st, Emit(e)) == EarlyOut(st.data, e) + [] == EarlyOut(st.data, e);
    assert Next(env, st, Emit(e)) == st.(data := d);
    assert Out(st.(data := d), Flush) == Consolidate(d.(chatUpdates := Ready(d.chatUpdates)));
    ConsolidatedDelivers(before, d.(chatUpdates := Ready(d.chatUpdates)));
    SameDelivery(before, d, d.(chatUpdates := Ready(d.chatUpdates)), NOTIFY);
  }

  lemma NothingEarly(given: Store, data: Data, e: Event)
    requires !e.MessagesUpsert?
    ensures ReceiveAll(given, EarlyOut(data, e)) == given && AfterEarly(data, e) == data
  {
    ReceiveOne(given, e);
  }

  /**
   * After any tame run that ends in buffering, a whole-chat deletion and a flush leave the listener with the store
   * of raw events exactly when those had left no message of the chat.
   */
  lemma WholeChatDeletionSeen(env: Env, s: Store, steps: seq<Step>, jid: string)
    requires TameRun(env, START, s, steps) && Play(env, START, steps).buffering
    ensures var more := steps + [Emit(MessagesDelete(AllOf(jid))), Flush];
      && Given(env, START, s, more) == Raw(s, steps)
      && Raw(s, more) == EraseChat(Raw(s, steps), jid)
      && (Given(env, START, s, more) == Raw(s, more) <==> NoneOf(Raw(s, steps), jid))
  {
    hide Deliver, Play, Given, Raw, TameRun, EraseChat, NoneOf, Invariant, Keyed, ReceiveAll, EarlyOut, AfterEarly;
    OneEventMore(env, s, steps, MessagesDelete(AllOf(jid)));
    NothingEarly(Given(env, START, s, steps), Play(env, START, steps).data, MessagesDelete(AllOf(jid)));
    EraseChatExactly(Raw(s, steps), jid);
  }

  /** So one message buffered, and its chat deleted, survives in the listener's store. */
  lemma DeletedChatSurvives(env: Env, m: Dict, jid: string)
    requires KeyObjectOf(m).remoteJid == Some(jid)
    ensures var run := [Buffer, Emit(MessagesUpsert([m], Some(NOTIFY))), Emit(MessagesDelete(AllOf(jid))), Flush];
      Raw(map[], run) == map[] && Given(env, START, map[], run) == map[KeyOf(m) := Stored(m, NOTIFY)]
  {
    hide KeyObjectOf, Play, Given, Raw, Disciplined, TameRun, Stringify;
    var e := MessagesUpsert([m], Some(NOTIFY));
    var steps := [Buffer, Emit(e)];
    TwoSteps(env, e);
    StartOk();
    NothingCovered(EMPTY);
    DisciplinedIsTame(env, START, map[], NO_HISTORY, steps);
    WholeChatDeletionSeen(env, map[], steps, jid);
    assert steps + [Emit(MessagesDelete(AllOf(jid))), Flush]
      == [Buffer, Emit(e), Emit(MessagesDelete(AllOf(jid))), Flush];
    var empty: Store := map[];
    InsertNone(empty, NOTIFY);
    assert [m][..0] == [];
    assert Inserts(empty, [m], NOTIFY) == Insert(Inserts(empty, [], NOTIFY), m, NOTIFY);
    assert Receive(empty, e) == map[KeyOf(m) := Stored(m, NOTIFY)];
    assert EraseChat(map[KeyOf(m) := Stored(m, NOTIFY)], jid) == map[];
  }

  lemma TwoSteps(env: Env, e: Event)
    requires e.MessagesUpsert? && |e.messages| == 1
    ensures var steps := [Buffer, Emit(e)];
      Disciplined(false, NO_HISTORY, steps) && Play(env, START, steps).buffering && Raw(map[], steps) == Receive(map[], e)
  {
    hide Receive, Append, KeyOf;
    var steps := [Buffer, Emit(e)];
    var st := Next(env, START, Buffer);
    assert steps[1..] == [Emit(e)] && [Emit(e)][1..] == [];
    assert FirstUpserts(NO_HISTORY, e.messages) by {
      assert e.messages[..0] == [];
    }
    assert Disciplined(true, NO_HISTORY, [Emit(e)]);
    assert Play(env, st, [Emit(e)]) == Next(env, st, Emit(e));
    assert Raw(map[], [Emit(e)]) == Receive(map[], e);
  }

  ghost predicate Undeleted(data: Data, k: string) {
    Lookup(data.messageUpserts, k).Some? ==> Lookup(data.messageDeletes, k).None?
  }

  ghost predicate AllUndeleted(data: Data) { forall k :: Undeleted(data, k) }

  lemma {:induction false} UpsertsUndeleted(data: Data, ms: seq<Dict>, kind: string)
    requires AllUndeleted(data) && AllTame(data, ms, kind)
    ensures AllUndeleted(UpsertMessages(data, ms, kind))
  {
    hide Undeleted, Tame, UpsertMessage;
    if ms != [] {
      var front := ms[..|ms| - 1];
      UpsertsUndeleted(data, front, kind);
      UpsertUndeleted(UpsertMessages(data, front, kind), ms[|ms| - 1], kind);
    }
  }

  lemma UpsertUndeleted(data: Data, m: Dict, kind: string)
    requires AllUndeleted(data) && Tame(data, m)
    ensures AllUndeleted(UpsertMessage(data, m, kind))
  {
    hide Lookup, Put, KeyOf, BufferedMessage, Untouched;
    forall k
      ensures Undeleted(UpsertMessage(data, m, kind), k)
    {
      assert Undeleted(data, k);
      LookupPut(data.messageUpserts, KeyOf(m), UpsertItem(BufferedMessage(data, m), BufferedKind(data, KeyOf(m), kind)), k);
    }
  }

  lemma {:induction false} UpdatesUndeleted(env: Env, data: Data, items: seq<UpdateItem>)
    requires AllUndeleted(data)
    ensures AllUndeleted(UpdateMessages(env, data, items))
  {
    hide Lookup, UpdateMessage;
    if items != [] {
      var front, item := items[..|items| - 1], items[|items| - 1];
      UpdatesUndeleted(env, data, front);
      var d := UpdateMessages(env, data, front);
      forall k
        ensures Undeleted(UpdateMessage(env, d, item), k)
      {
        assert Undeleted(d, k);
        TakesAfterUpdate(env, d, item, k);
      }
    }
  }

  lemma {:induction false} DeletesUndeleted(data: Data, keys: seq<KeyObject>)
    requires AllUndeleted(data)
    ensures AllUndeleted(DeleteMessages(data, keys))
  {
    hide Lookup, Put, Without, Stringify;
    if keys != [] {
      var front, key := keys[..|keys| - 1], keys[|keys| - 1];
      DeletesUndeleted(data, front);
      var d := DeleteMessages(data, front);
      forall k
        ensures Undeleted(DeleteMessage(d, key), k)
      {
        assert Undeleted(d, k);
        LookupPut(d.messageDeletes, Stringify(key), key, k);
        LookupWithout(d.messageUpserts, {Stringify(key)}, k);
      }
    }
  }

  /** In a tame run no message is buffered and deleted at once. */
  lemma StepUndeleted(env: Env, st: State, raw: Store, step: Step)
    requires Invariant(st) && AllUndeleted(st.data) && TameStep(st, raw, step)
    ensures AllUndeleted(Next(env, st, step).data)
  {
    hide Undeleted, Append, MessagesOk, ChatsOk, AllTame, Fine, NoneOf;
    match step {
      case Buffer =>
      case Flush => NothingUpserted(EMPTY.(chatUpdates := Waiting(st.data.chatUpdates)));
      case Emit(e) =>
        var d := AfterEarly(st.data, e);
        if d.messageUpserts == [] {
          NothingUpserted(d);
        }
        EarlyOk(st.data, e, if e.MessagesUpsert? then Effective(e.kind) else BatchKind(st.data));
        if st.buffering && !e.NotBufferable? {
          AppendUndeleted(env, d, raw, e);
        }
    }
  }

  lemma NothingUpserted(data: Data)
    requires data.messageUpserts == []
    ensures AllUndeleted(data)
  {
    forall k
      ensures Undeleted(data, k)
    {
    }
  }

  lemma AppendUndeleted(env: Env, data: Data, raw: Store, e: Event)
    requires ChatsOk(data) && AllUndeleted(data) && TameEvent(data, raw, e)
    ensures AllUndeleted(Append(env, data, e))
  {
    hide Undeleted, ChatsOk, AllTame, Fine, NoneOf, UpsertMessages, UpdateMessages, DeleteMessages;
    match e {
      case MessagesUpsert(ms, kind) => UpsertsUndeleted(data, ms, Effective(kind));
      case MessagesUpdate(items) => UpdatesUndeleted(env, data, items);
      case MessagesDelete(Keys(keys)) => DeletesUndeleted(data, keys);
      case MessagesDelete(AllOf(_)) =>
      case NotBufferable(_) =>
      case _ =>
        AppendChatsOk(env, data, e);
        SameUndeleted(data, Append(env, data, e));
    }
  }

  lemma SameUndeleted(a: Data, b: Data)
    requires AllUndeleted(a) && a.messageUpserts == b.messageUpserts && a.messageDeletes == b.messageDeletes
    ensures AllUndeleted(b)
  {
    forall k
      ensures Undeleted(b, k)
    {
      assert Undeleted(a, k);
    }
  }

  lemma {:induction false} PlayUndeleted(env: Env, st: State, raw: Store, steps: seq<Step>)
    requires Invariant(st) && AllUndeleted(st.data) && TameRun(env, st, raw, steps)
    ensures AllUndeleted(Play(env, st, steps).data)
    decreases |steps|
  {
    hide AllUndeleted, Invariant, TameStep, Next, RawStep;
    if steps != [] {
      NextKeeps(env, st, steps[0]);
      StepUndeleted(env, st, raw, steps[0]);
      PlayUndeleted(env, Next(env, st, steps[0]), RawStep(raw, steps[0]), steps[1..]);
    }
  }

  /**
   * After any tame run that ends in buffering, an update and a flush leave the listener with the store of raw events
   * exactly when the update keeps the key or no buffered message takes it.
   */
  lemma BufferedUpdateSeen(env: Env, s: Store, steps: seq<Step>, item: UpdateItem)
    requires TameRun(env, START, s, steps) && Play(env, START, steps).buffering
    requires var data := Play(env, START, steps).data;
      TakesUpdate(data, Stringify(item.key)) ==>
        At(Given(env, START, s, steps), Stringify(item.key)) != Some(Taken(data, item))
    ensures var more := steps + [Emit(MessagesUpdate([item])), Flush];
      Given(env, START, s, more) == Raw(s, more) <==> Fine(Play(env, START, steps).data, item)
  {
    hide Deliver, Play, Given, Raw, TameRun, Lookup, Stringify, Fine, UpdateMessage, Amend, Keyed, ChatsOk, Taken,
      ReceiveAll, EarlyOut, AfterEarly;
    var st, given := Play(env, START, steps), Given(env, START, s, steps);
    OneEventMore(env, s, steps, MessagesUpdate([item]));
    NothingEarly(given, st.data, MessagesUpdate([item]));
    OneUpdate(env, st.data, Deliver(given, st.data), item);
    assert MessageApart(st.data, Stringify(item.key));
    StartOk();
    NothingUpserted(EMPTY);
    PlayUndeleted(env, START, s, steps);
    assert Undeleted(st.data, Stringify(item.key));
    KeyedByBatch(st.data);
    UpdateExactly(env, given, st.data, item, BatchKind(st.data));
  }

  /** So an update of a message that is not buffered, a revocation among others, is always seen as emitted. */
  lemma UnbufferedUpdateSeen(env: Env, s: Store, item: UpdateItem)
    ensures var run := [Buffer, Emit(MessagesUpdate([item])), Flush];
      TameRun(env, START, s, run) && Given(env, START, s, run) == Raw(s, run)
  {
    hide Play, Given, Raw, TameRun, Stringify, KeepsKey, Note, Next;
    var run := [Buffer, Emit(MessagesUpdate([item])), Flush];
    assert run[1..] == [Emit(MessagesUpdate([item])), Flush] && run[1..][1..] == [Flush] && [Flush][1..] == [];
    var h := Note(NO_HISTORY, MessagesUpdate([item]));
    assert Disciplined(true, h, [Flush]);
    assert Allowed(NO_HISTORY, MessagesUpdate([item]));
    assert Disciplined(true, NO_HISTORY, run[1..]);
    assert Disciplined(false, NO_HISTORY, run);
    StartOk();
    NothingCovered(EMPTY);
    DisciplinedIsTame(env, START, s, NO_HISTORY, run);
    EndsQuiet(env, run[..2]);
    assert run == run[..2] + [Flush];
    BufferingRefinesEmission(env, s, run);
  }

  lemma EndsQuiet(env: Env, steps: seq<Step>)
    ensures !Play(env, START, steps + [Flush]).buffering
  {
    hide Play;
    PlaySnoc(env, START, steps, Flush);
  }

  /**
   * After any tame run that ends in buffering, an upserted message and a flush leave the listener with the store of
   * raw events exactly when the message is tame in what the early emission leaves buffered.
   */
  lemma BufferedUpsertSeen(env: Env, s: Store, steps: seq<Step>, m: Dict, kind: Option<string>)
    requires TameRun(env, START, s, steps) && Play(env, START, steps).buffering
    requires var e, data := MessagesUpsert([m], kind), Play(env, START, steps).data;
      KeyOf(BufferedMessage(AfterEarly(data, e), m)) != KeyOf(m) ==>
        At(ReceiveAll(Given(env, START, s, steps), EarlyOut(data, e)), KeyOf(m)) != Some(Stored(m, Effective(kind)))
    ensures var e := MessagesUpsert([m], kind);
      var more := steps + [Emit(e), Flush];
      Given(env, START, s, more) == Raw(s, more) <==> Tame(AfterEarly(Play(env, START, steps).data, e), m)
  {
    hide Deliver, Play, Given, Raw, TameRun, Lookup, KeyOf, BufferedMessage, Tame, UpsertMessage, Insert, ChatsOk, KeyedAs,
      ReceiveAll, EarlyOut, AfterEarly;
    var e := MessagesUpsert([m], kind);
    var st, given := Play(env, START, steps), Given(env, START, s, steps);
    OneEventMore(env, s, steps, e);
    var before, d := ReceiveAll(given, EarlyOut(st.data, e)), AfterEarly(st.data, e);
    EarlyDelivery(given, st.data, e);
    EarlyOk(st.data, e, Effective(kind));
    OneUpsert(env, d, Deliver(before, d), m, kind);
    assert MessageApart(d, KeyOf(m));
    UpsertExactly(before, d, m, Effective(kind));
  }

  lemma OneUpsert(env: Env, data: Data, s: Store, m: Dict, kind: Option<string>)
    ensures Append(env, data, MessagesUpsert([m], kind)) == UpsertMessage(data, m, Effective(kind))
    ensures Receive(s, MessagesUpsert([m], kind)) == Insert(s, m, Effective(kind))
  {
    hide UpsertMessage, Insert;
    var k := Effective(kind);
    assert [m][..0] == [];
    assert UpsertMessages(data, [m], k) == UpsertMessage(UpsertMessages(data, [], k), m, k);
    assert Inserts(s, [m], k) == Insert(Inserts(s, [], k), m, k);
  }

  /** So a message deleted and upserted again while buffering is lost: raw events keep it, the listener does not get it. */
  lemma UpsertAfterDeleteIsLost(env: Env, m: Dict, key: KeyObject)
    requires KeyOf(m) == Stringify(key)
    ensures var run := [Buffer, Emit(MessagesDelete(Keys([key]))), Emit(MessagesUpsert([m], Some(NOTIFY))), Flush];
      Raw(map[], run) == map[KeyOf(m) := Stored(m, NOTIFY)] && Given(env, START, map[], run) == map[]
  {
    hide Play, Given, Raw, TameRun, Disciplined, Stringify, KeyOf, ReceiveAll, Deliver, Insert, UpsertMessage;
    var none: Store := map[];
    var e, steps := MessagesUpsert([m], Some(NOTIFY)), [Buffer, Emit(MessagesDelete(Keys([key])))];
    DeletedBefore(env, key);
    StartOk();
    NothingCovered(EMPTY);
    DisciplinedIsTame(env, START, none, NO_HISTORY, steps);
    OneEventMore(env, none, steps, e);
    assert steps + [Emit(e), Flush] == [Buffer, Emit(MessagesDelete(Keys([key]))), Emit(e), Flush];
    var data := DeleteMessage(EMPTY, key);
    ReceiveOne(none, e);
    assert data.messageUpserts == [] && EarlyOut(data, e) == [] && AfterEarly(data, e) == data;
    OneUpsert(env, data, none, m, Some(NOTIFY));
    LostUnder(none, key, m);
    InsertOne(m);
  }

  lemma InsertOne(m: Dict)
    ensures Insert(map[], m, NOTIFY) == map[KeyOf(m) := Stored(m, NOTIFY)]
  {
  }

  lemma DeletedBefore(env: Env, key: KeyObject)
    ensures var steps := [Buffer, Emit(MessagesDelete(Keys([key])))];
      && Disciplined(false, NO_HISTORY, steps)
      && Play(env, START, steps) == State(DeleteMessage(EMPTY, key), true, 1)
      && Given(env, START, map[], steps) == map[]
  {
    hide DeleteMessage, Stringify;
    var none: Store := map[];
    var e := MessagesDelete(Keys([key]));
    var st := Next(env, START, Buffer);
    assert [Buffer, Emit(e)][1..] == [Emit(e)] && [Emit(e)][1..] == [];
    assert [key][..0] == [];
    assert DeleteMessages(EMPTY, [key]) == DeleteMessage(DeleteMessages(EMPTY, []), key);
    assert Play(env, st, [Emit(e)]) == Next(env, st, Emit(e));
    assert Out(START, Buffer) == [] && Out(st, Emit(e)) == [];
    assert Given(env, st, none, [Emit(e)]) == none;
    assert Disciplined(true, NO_HISTORY, [Emit(e)]);
  }

  lemma LostUnder(none: Store, key: KeyObject, m: Dict)
    requires none == map[] && KeyOf(m) == Stringify(key)
    ensures var data := DeleteMessage(EMPTY, key);
      Deliver(none, data) == none && Deliver(none, UpsertMessage(data, m, NOTIFY)) == none
  {
    hide Lookup, Put, Without, Stringify, KeyOf, Deliver, UpsertMessage;
    var data := DeleteMessage(EMPTY, key);
    NothingBuffered(none, EMPTY);
    DeleteKeepsKeyed(EMPTY, key, NOTIFY);
    LookupPut([], Stringify(key), key, Stringify(key));
    WithoutNothing({Stringify(key)});
    assert BufferedMessage(data, m) == m by {
      LookupNone<UpsertItem>(KeyOf(m));
      LookupNone<UpdateItem>(KeyOf(m));
    }
    UpsertKeyed(data, m, NOTIFY);
    Relabel(data, NOTIFY);
    Relabel(UpsertMessage(data, m, NOTIFY), NOTIFY);
    forall k
      ensures At(Deliver(none, data), k) == None && At(Deliver(none, UpsertMessage(data, m, NOTIFY)), k) == None
    {
      DeliverAt(none, data, k);
      DeliverAt(none, UpsertMessage(data, m, NOTIFY), k);
      UpsertSeen(None, data, m, NOTIFY, k);
      LookupNone<UpsertItem>(k);
      LookupNone<UpdateItem>(k);
      LookupPut([], Stringify(key), key, k);
    }
    SameStore(Deliver(none, data), none);
    SameStore(Deliver(none, UpsertMessage(data, m, NOTIFY)), none);
  }

  lemma WithoutNothing(keys: set<string>)
    ensures Without<UpsertItem>([], keys) == [] && Without<UpdateItem>([], keys) == []
  {
  }

  /** So a message buffered and then updated reaches a listener that holds nothing as emitted exactly when it keeps its key. */
  lemma UpdatedWhileBuffered(env: Env, m: Dict, item: UpdateItem)
    requires m != map[] && KeyOf(m) == Stringify(item.key)
    ensures var run := [Buffer, Emit(MessagesUpsert([m], Some(NOTIFY))), Emit(MessagesUpdate([item])), Flush];
      Given(env, START, map[], run) == Raw(map[], run) <==> KeepsKey(item)
  {
    hide Play, Given, Raw, Disciplined, TameRun, Stringify, KeyOf, KeepsKey, Lookup;
    var e := MessagesUpsert([m], Some(NOTIFY));
    var steps := [Buffer, Emit(e)];
    TwoSteps(env, e);
    OneBuffered(env, m);
    StartOk();
    NothingCovered(EMPTY);
    DisciplinedIsTame(env, START, map[], NO_HISTORY, steps);
    BufferedUpdateSeen(env, map[], steps, item);
    assert steps + [Emit(MessagesUpdate([item])), Flush] == [Buffer, Emit(e), Emit(MessagesUpdate([item])), Flush];
  }

  lemma OneBuffered(env: Env, m: Dict)
    requires m != map[]
    ensures var steps := [Buffer, Emit(MessagesUpsert([m], Some(NOTIFY)))];
      var data := Play(env, START, steps).data;
      && Given(env, START, map[], steps) == map[]
      && Lookup(data.messageUpserts, KeyOf(m)) == Some(UpsertItem(m, NOTIFY))
      && Lookup(data.messageDeletes, KeyOf(m)).None?
  {
    hide KeyOf, Put;
    var e := Emit(MessagesUpsert([m], Some(NOTIFY)));
    var st := Next(env, START, Buffer);
    assert [Buffer, e][1..] == [e] && [e][1..] == [];
    assert Play(env, st, [e]) == Next(env, st, e);
    assert [m][..0] == [];
    assert UpsertMessages(EMPTY, [m], NOTIFY) == UpsertMessage(UpsertMessages(EMPTY, [], NOTIFY), m, NOTIFY);
    LookupPut([], KeyOf(m), UpsertItem(m, NOTIFY), KeyOf(m));
    var none: Store := map[];
    assert Out(START, Buffer) == [] && Out(st, e) == [];
    assert Given(env, st, none, [e]) == none;
  }

  lemma OneUpdate(env: Env, data: Data, s: Store, item: UpdateItem)
    ensures Append(env, data, MessagesUpdate([item])) == UpdateMessage(env, data, item)
    ensures Receive(s, MessagesUpdate([item])) == Amend(s, item)
  {
    hide UpdateMessage, Amend;
    assert [item][..0] == [];
    assert UpdateMessages(env, data, [item]) == UpdateMessage(env, UpdateMessages(env, data, []), item);
    assert Amends(s, [item]) == Amend(Amends(s, []), item);
  }

  lemma KeyedByBatch(data: Data)
    requires Keyed(data)
    ensures KeyedAs(data, BatchKind(data))
  {
  }

  // ---- A discipline on the events alone ---------------------------------------------------------------

  /** The keys upserted, updated and deleted since buffering began. */
  datatype History = History(upserted: set<string>, updated: set<string>, deleted: set<string>)

  const NO_HISTORY: History := History({}, {}, {})

  function UpsertedIn(ms: seq<Dict>): set<string> {
    if ms == [] then {} else UpsertedIn(ms[..|ms| - 1]) + {KeyOf(ms[|ms| - 1])}
  }

  function UpdatedIn(items: seq<UpdateItem>): set<string> {
    if items == [] then {} else UpdatedIn(items[..|items| - 1]) + {Stringify(items[|items| - 1].key)}
  }

  function DeletedIn(keys: seq<KeyObject>): set<string> {
    if keys == [] then {} else DeletedIn(keys[..|keys| - 1]) + {Stringify(keys[|keys| - 1])}
  }

  function Note(h: History, e: Event): History {
    match e
    case MessagesUpsert(ms, _) => h.(upserted := h.upserted + UpsertedIn(ms))
    case MessagesUpdate(items) => h.(updated := h.updated + UpdatedIn(items))
    case MessagesDelete(Keys(keys)) => h.(deleted := h.deleted + DeletedIn(keys))
    case _ => h
  }

  predicate FirstUpserts(h: History, ms: seq<Dict>) {
    ms == []
    || (var front, k := ms[..|ms| - 1], KeyOf(ms[|ms| - 1]);
        FirstUpserts(h, front) && k !in h.upserted + UpsertedIn(front) && k !in h.updated && k !in h.deleted)
  }

  /**
   * A key is upserted at most once, before any update of it and before any delete; once it is, its updates keep the
   * key. Other updates may change it.
   */
  predicate Allowed(h: History, e: Event) {
    match e
    case MessagesUpsert(ms, _) => FirstUpserts(h, ms)
    case MessagesUpdate(items) => forall item :: item in items ==> KeepsKey(item) || Stringify(item.key) !in h.upserted
    case MessagesDelete(what) => what.Keys?
    case _ => true
  }

  predicate Disciplined(buffering: bool, h: History, steps: seq<Step>)
    decreases |steps|
  {
    steps == []
    || match steps[0]
       case Buffer => Disciplined(true, if buffering then h else NO_HISTORY, steps[1..])
       case Flush => Disciplined(false, NO_HISTORY, steps[1..])
       case Emit(e) => (buffering ==> Allowed(h, e)) && Disciplined(buffering, Note(h, e), steps[1..])
  }

  ghost predicate Covered(h: History, data: Data, k: string) {
    && (Lookup(data.messageUpserts, k).Some? ==> k in h.upserted)
    && (Lookup(data.messageUpdates, k).Some? ==> k in h.updated)
    && (Lookup(data.messageDeletes, k).Some? ==> k in h.deleted)
  }

  ghost predicate Covers(h: History, data: Data) { forall k :: Covered(h, data, k) }

  lemma {:induction false} UpsertsCovered(h: History, data: Data, ms: seq<Dict>, kind: string)
    requires Covers(h, data) && FirstUpserts(h, ms)
    ensures AllTame(data, ms, kind)
    ensures Covers(h.(upserted := h.upserted + UpsertedIn(ms)), UpsertMessages(data, ms, kind))
  {
    hide Lookup, KeyOf, Covered, UpsertMessage;
    if ms == [] {
      assert h.upserted + UpsertedIn(ms) == h.upserted;
    } else {
      var front, m := ms[..|ms| - 1], ms[|ms| - 1];
      UpsertsCovered(h, data, front, kind);
      var d, g := UpsertMessages(data, front, kind), h.(upserted := h.upserted + UpsertedIn(front));
      UpsertCovered(g, d, m, kind);
      assert g.upserted + {KeyOf(m)} == h.upserted + UpsertedIn(ms);
    }
  }

  lemma UpsertCovered(h: History, data: Data, m: Dict, kind: string)
    requires Covers(h, data)
    ensures Covers(h.(upserted := h.upserted + {KeyOf(m)}), UpsertMessage(data, m, kind))
    ensures KeyOf(m) !in h.upserted && KeyOf(m) !in h.updated && KeyOf(m) !in h.deleted ==> Tame(data, m)
  {
    hide Lookup, KeyOf, Put, Without, BufferedMessage;
    assert Covered(h, data, KeyOf(m));
    forall k
      ensures Covered(h.(upserted := h.upserted + {KeyOf(m)}), UpsertMessage(data, m, kind), k)
    {
      assert Covered(h, data, k);
      LookupPut(data.messageUpserts, KeyOf(m), UpsertItem(BufferedMessage(data, m), BufferedKind(data, KeyOf(m), kind)), k);
      LookupWithout(data.messageUpdates, {KeyOf(m)}, k);
    }
  }

  lemma {:induction false} UpdatesCovered(env: Env, h: History, data: Data, items: seq<UpdateItem>)
    requires Covers(h, data) && ChatsOk(data)
    ensures Covers(h.(updated := h.updated + UpdatedIn(items)), UpdateMessages(env, data, items))
    ensures ChatsOk(UpdateMessages(env, data, items))
  {
    hide Lookup, Stringify, Covered, UpdateMessage, ChatsOk;
    if items == [] {
      assert h.updated + UpdatedIn(items) == h.updated;
    } else {
      var front, item := items[..|items| - 1], items[|items| - 1];
      UpdatesCovered(env, h, data, front);
      var g := h.(updated := h.updated + UpdatedIn(front));
      UpdateCovered(env, g, UpdateMessages(env, data, front), item);
      assert g.updated + {Stringify(item.key)} == h.updated + UpdatedIn(items);
    }
  }

  lemma UpdateCovered(env: Env, h: History, data: Data, item: UpdateItem)
    requires Covers(h, data) && ChatsOk(data)
    ensures Covers(h.(updated := h.updated + {Stringify(item.key)}), UpdateMessage(env, data, item))
    ensures ChatsOk(UpdateMessage(env, data, item))
  {
    hide Lookup, Stringify, Put, ChatsOk, CountRead;
    var j := Stringify(item.key);
    var found, waiting := Lookup(data.messageUpserts, j), Lookup(data.messageUpdates, j);
    if TakesUpdate(data, j) {
      var merged := found.value.(message := found.value.message + item.update);
      var put := data.(messageUpserts := Put(data.messageUpserts, j, merged));
      SameChats(data, put);
      CountReadOk(env, put, merged.message);
    } else {
      SameChats(data, UpdateMessage(env, data, item));
    }
    forall k
      ensures Covered(h.(updated := h.updated + {j}), UpdateMessage(env, data, item), k)
    {
      assert Covered(h, data, k) && Covered(h, data, j);
      if TakesUpdate(data, j) {
        LookupPut(data.messageUpserts, j, found.value.(message := found.value.message + item.update), k);
      } else {
        LookupPut(data.messageUpdates, j,
          if waiting.Some? then waiting.value.(update := waiting.value.update + item.update) else item, k);
      }
    }
  }

  lemma {:induction false} DeletesCovered(h: History, data: Data, keys: seq<KeyObject>)
    requires Covers(h, data)
    ensures Covers(h.(deleted := h.deleted + DeletedIn(keys)), DeleteMessages(data, keys))
  {
    hide Lookup, Stringify, Covered, DeleteMessage;
    if keys == [] {
      assert h.deleted + DeletedIn(keys) == h.deleted;
    } else {
      var front, key := keys[..|keys| - 1], keys[|keys| - 1];
      DeletesCovered(h, data, front);
      var g := h.(deleted := h.deleted + DeletedIn(front));
      DeleteCovered(g, DeleteMessages(data, front), key);
      assert g.deleted + {Stringify(key)} == h.deleted + DeletedIn(keys);
    }
  }

  lemma DeleteCovered(h: History, data: Data, key: KeyObject)
    requires Covers(h, data)
    ensures Covers(h.(deleted := h.deleted + {Stringify(key)}), DeleteMessage(data, key))
  {
    hide Lookup, Stringify, Put, Without;
    forall k
      ensures Covered(h.(deleted := h.deleted + {Stringify(key)}), DeleteMessage(data, key), k)
    {
      assert Covered(h, data, k);
      LookupPut(data.messageDeletes, Stringify(key), key, k);
      LookupWithout(data.messageUpserts, {Stringify(key)}, k);
      LookupWithout(data.messageUpdates, {Stringify(key)}, k);
    }
  }

  lemma EarlyCovered(h: History, data: Data, e: Event)
    requires Covers(h, data)
    ensures Covers(h, AfterEarly(data, e))
  {
    forall k
      ensures Covered(h, AfterEarly(data, e), k)
    {
      assert Covered(h, data, k);
    }
  }

  lemma FineIfNotUpserted(h: History, data: Data, item: UpdateItem)
    requires Covers(h, data) && (KeepsKey(item) || Stringify(item.key) !in h.upserted)
    ensures Fine(data, item)
  {
    hide Lookup, Stringify, KeepsKey;
    assert Covered(h, data, Stringify(item.key));
  }

  lemma EventCovered(env: Env, h: History, data: Data, e: Event)
    requires Covers(h, data) && ChatsOk(data) && Allowed(h, e)
    ensures forall raw :: TameEvent(data, raw, e)
    ensures Covers(Note(h, e), Append(env, data, e))
  {
    hide Lookup, Covered, ChatsOk, UpsertMessages, UpdateMessages, DeleteMessages, Fine, KeepsKey, FirstUpserts, AllTame;
    match e {
      case MessagesUpsert(ms, kind) => UpsertsCovered(h, data, ms, Effective(kind));
      case MessagesUpdate(items) =>
        UpdatesCovered(env, h, data, items);
        forall item | item in items
          ensures Fine(data, item)
        {
          FineIfNotUpserted(h, data, item);
        }
      case MessagesDelete(Keys(keys)) => DeletesCovered(h, data, keys);
      case MessagesDelete(AllOf(_)) =>
      case NotBufferable(_) =>
      case _ =>
        AppendChatsOk(env, data, e);
        SameCover(h, data, Append(env, data, e));
    }
  }

  lemma SameCover(h: History, a: Data, b: Data)
    requires Covers(h, a) && MessagePart(a) == MessagePart(b)
    ensures Covers(h, b)
  {
    forall k
      ensures Covered(h, b, k)
    {
      assert Covered(h, a, k);
    }
  }

  lemma {:induction false} DisciplinedIsTame(env: Env, st: State, raw: Store, h: History, steps: seq<Step>)
    requires Invariant(st) && Covers(h, st.data) && Disciplined(st.buffering, h, steps)
    ensures TameRun(env, st, raw, steps)
    decreases |steps|
  {
    hide Lookup, Covered, ChatsOk, MessagesOk, TameEvent, Append, Allowed, Note;
    if steps != [] {
      var next := Next(env, st, steps[0]);
      NextKeeps(env, st, steps[0]);
      match steps[0] {
        case Buffer =>
          if !st.buffering {
            NothingCovered(st.data);
          }
          DisciplinedIsTame(env, next, raw, if st.buffering then h else NO_HISTORY, steps[1..]);
        case Flush =>
          NothingCovered(next.data);
          DisciplinedIsTame(env, next, raw, NO_HISTORY, steps[1..]);
        case Emit(e) =>
          EmitCovered(env, st, h, e);
          DisciplinedIsTame(env, next, Receive(raw, e), Note(h, e), steps[1..]);
      }
    }
  }

  lemma NothingCovered(data: Data)
    requires data.messageUpserts == [] && data.messageUpdates == [] && data.messageDeletes == []
    ensures Covers(NO_HISTORY, data)
  {
    forall k
      ensures Covered(NO_HISTORY, data, k)
    {
    }
  }

  lemma EmitCovered(env: Env, st: State, h: History, e: Event)
    requires Invariant(st) && Covers(h, st.data) && (st.buffering ==> Allowed(h, e))
    ensures forall raw :: TameStep(st, raw, Emit(e))
    ensures Covers(Note(h, e), Next(env, st, Emit(e)).data)
  {
    hide Lookup, Covered, MessagesOk, ChatsOk, TameEvent, Append, Allowed;
    EarlyCovered(h, st.data, e);
    EarlyOk(st.data, e, if e.MessagesUpsert? then Effective(e.kind) else BatchKind(st.data));
    if st.buffering {
      EventCovered(env, h, AfterEarly(st.data, e), e);
    } else {
      Quiet(st, map[], e);
      NothingCovered(st.data);
      MoreHistory(Note(h, e), st.data);
    }
  }

  lemma MoreHistory(h: History, data: Data)
    requires Covers(NO_HISTORY, data)
    ensures Covers(h, data)
  {
    forall k
      ensures Covered(h, data, k)
    {
      assert Covered(NO_HISTORY, data, k);
    }
  }

  /**
   * The refinement for a discipline read off the events: where each buffer sees a key upserted at most once, never
   * after an update or a delete of it, updates after the upsert keep the key and there is no whole-chat deletion, a
   * listener ends with the same store as from raw events in order.
   */
  lemma DisciplinedBufferingRefinesEmission(env: Env, s: Store, steps: seq<Step>)
    requires Disciplined(false, NO_HISTORY, steps)
    ensures var st := Play(env, START, steps);
      && Deliver(Given(env, START, s, steps), st.data) == Raw(s, steps)
      && (!st.buffering ==> Given(env, START, s, steps) == Raw(s, steps))
      && Given(env, START, s, steps + [Flush]) == Raw(s, steps)
  {
    hide Deliver, Play, Given, Raw, TameRun, Disciplined;
    StartOk();
    NothingCovered(EMPTY);
    DisciplinedIsTame(env, START, s, NO_HISTORY, steps);
    BufferingRefinesEmission(env, s, steps);
    GivenSnoc(env, START, s, steps, Flush);
    StartOk();
    PlayKeeps(env, START, steps);
    NothingBuffered(s, EMPTY);
    RunInStep(env, START, s, s, steps);
    FlushInStep(env, Play(env, START, steps), Given(env, START, s, steps), Raw(s, steps));
  }

  lemma {:induction false} GivenSnoc(env: Env, st: State, s: Store, steps: seq<Step>, last: Step)
    ensures Given(env, st, s, steps + [last]) == ReceiveAll(Given(env, st, s, steps), Out(Play(env, st, steps), last))
    decreases |steps|
  {
    hide ReceiveAll, Next, Out;
    if steps == [] {
      assert [] + [last] == [last];
    } else {
      assert (steps + [last])[1..] == steps[1..] + [last];
      GivenSnoc(env, Next(env, st, steps[0]), ReceiveAll(s, Out(st, steps[0])), steps[1..], last);
    }
  }
}
