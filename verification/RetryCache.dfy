/** The bounded cache with time to live, and the retry counters kept in one. */
module RetryCache {
  import opened Common

  datatype Key = Key(text: string)

  /** An expiry that no clock reaches. */
  const FOREVER: int := 0x7fff_ffff_ffff_ffff

  datatype Item<V> = Item(key: Key, value: V, expiry: int)

  /** Limit on the number of items, if any, and the time to live, zero or less for none. */
  datatype Config = Config(maxItems: Option<nat>, ttl: int)

  // ---- The store as a list, least recently touched first --------------------------------------------

  function Purge<V>(cfg: Config, s: seq<Item<V>>, now: int): seq<Item<V>> {
    if cfg.ttl <= 0 then s else Unexpired(s, now)
  }

  function Unexpired<V>(s: seq<Item<V>>, now: int): seq<Item<V>> {
    if s == [] then []
    else
      var front, last := Unexpired(s[..|s| - 1], now), s[|s| - 1];
      if last.expiry <= now then front else front + [last]
  }

  function Remove<V>(s: seq<Item<V>>, k: Key): seq<Item<V>> {
    if s == [] then []
    else
      var front, last := Remove(s[..|s| - 1], k), s[|s| - 1];
      if last.key == k then front else front + [last]
  }

  function Evict<V>(cfg: Config, s: seq<Item<V>>): seq<Item<V>> {
    if cfg.maxItems.Some? && |s| > cfg.maxItems.value then s[|s| - cfg.maxItems.value..] else s
  }

  function Find<V>(s: seq<Item<V>>, k: Key): Option<Item<V>> {
    if s == [] then None
    else if s[|s| - 1].key == k then Some(s[|s| - 1])
    else Find(s[..|s| - 1], k)
  }

  function ExpiryAt(cfg: Config, now: int): int { if cfg.ttl > 0 then now + cfg.ttl else FOREVER }

  /** Each operation reads the clock twice. */
  datatype Op<V> = Set(key: Key, value: V, now: int, later: int) | Get(key: Key, now: int, later: int) | Delete(key: Key, now: int, later: int)

  /** What a get finds after purging, if it is still alive at the second reading of the clock. */
  function Answer<V>(cfg: Config, s: seq<Item<V>>, op: Op<V>): Option<V>
    requires op.Get?
  {
    var found := Find(Purge(cfg, s, op.now), op.key);
    if found.None? || found.value.expiry <= op.later then None else Some(found.value.value)
  }

  function Next<V>(cfg: Config, s: seq<Item<V>>, op: Op<V>): seq<Item<V>> {
    match op
    case Set(k, v, now, later) =>
      Evict(cfg, Remove(Purge(cfg, s, now), k) + [Item(k, v, ExpiryAt(cfg, later))])
    case Get(k, now, later) =>
      var p := Purge(cfg, s, now);
      var found := Find(p, k);
      if found.None? then p
      else if found.value.expiry <= later then Remove(p, k)
      else Remove(p, k) + [found.value]
    case Delete(k, _, _) => Remove(s, k)
  }

  // ---- The cache object -----------------------------------------------------------------------------

  class TtlOrderedCache<V> {
    const cfg: Config
    var store: seq<Item<V>>

    constructor (cfg: Config)
      ensures this.cfg == cfg && store == []
    {
      this.cfg, store := cfg, [];
    }

    method PurgeExpired(now: int)
      modifies this
      ensures store == Purge(cfg, old(store), now)
    {
      if cfg.ttl <= 0 {
        return;
      }
      var kept: seq<Item<V>> := [];
      for n := 0 to |store|
        invariant store == old(store) && kept == Unexpired(store[..n], now)
      {
        assert store[..n + 1][..n] == store[..n];
        if store[n].expiry > now {
          kept := kept + [store[n]];
        }
      }
      assert store[..|store|] == store;
      store := kept;
    }

    method EvictIfNeeded()
      modifies this
      ensures store == Evict(cfg, old(store))
    {
      if cfg.maxItems.None? {
        return;
      }
      while |store| > cfg.maxItems.value
        invariant |store| <= |old(store)| && store == old(store)[|old(store)| - |store|..]
        invariant |old(store)| > cfg.maxItems.value ==> |store| >= cfg.maxItems.value
        invariant |old(store)| <= cfg.maxItems.value ==> store == old(store)
        decreases |store|
      {
        store := store[1..];
      }
    }

    method Set(k: Key, v: V, now: int, later: int)
      modifies this
      ensures store == Next(cfg, old(store), Op.Set(k, v, now, later))
      ensures cfg.maxItems.Some? ==> |store| <= cfg.maxItems.value
    {
      PurgeExpired(now);
      var expiry := ExpiryAt(cfg, later);
      store := Remove(store, k);
      store := store + [Item(k, v, expiry)];
      EvictIfNeeded();
    }

    method Get(k: Key, now: int, later: int) returns (r: Option<V>)
      modifies this
      ensures store == Next(cfg, old(store), Op.Get(k, now, later))
      ensures r == Answer(cfg, old(store), Op.Get(k, now, later))
    {
      PurgeExpired(now);
      var found := Find(store, k);
      if found.None? {
        return None;
      }
      store := Remove(store, k);
      if found.value.expiry <= later {
        return None;
      }
      store := store + [found.value];
      r := Some(found.value.value);
    }

    method Delete(k: Key, now: int, later: int)
      modifies this
      ensures store == Next(cfg, old(store), Op.Delete(k, now, later))
    {
      store := Remove(store, k);
    }
  }

  // ---- What one key should be -----------------------------------------------------------------------

  /** The plain map's view of one key: its last value and expiry, and the other keys touched since it was. */
  datatype Ideal<V> = Gone | Live(value: V, expiry: int, others: set<Key>)

  predicate WithinLimit<V>(cfg: Config, i: Ideal<V>) {
    i.Live? && (cfg.maxItems.None? || |i.others| < cfg.maxItems.value)
  }

  /** A key is touched by a set, or by a get that finds it. */
  function Touches<V>(cfg: Config, s: seq<Item<V>>, op: Op<V>): bool {
    op.Set? || (op.Get? && Answer(cfg, s, op).Some?)
  }

  function Track<V>(cfg: Config, s: seq<Item<V>>, i: Ideal<V>, k: Key, op: Op<V>): Ideal<V> {
    if op.key != k then
      if i.Live? && Touches(cfg, s, op) then i.(others := i.others + {op.key}) else i
    else
      match op
      case Set(_, v, _, later) => Live(v, ExpiryAt(cfg, later), {})
      case Get(_, _, _) => if i.Live? && Touches(cfg, s, op) then i.(others := {}) else i
      case Delete(_, _, _) => Gone
  }

  ghost function Keys<V>(s: seq<Item<V>>): set<Key> {
    if s == [] then {} else Keys(s[..|s| - 1]) + {s[|s| - 1].key}
  }

  ghost predicate Distinct<V>(s: seq<Item<V>>) {
    s == [] || (s[|s| - 1].key !in Keys(s[..|s| - 1]) && Distinct(s[..|s| - 1]))
  }

  ghost function KeysAfter<V>(s: seq<Item<V>>, k: Key): set<Key> {
    if s == [] then {}
    else
      var last := s[|s| - 1].key;
      if last == k then {} else KeysAfter(s[..|s| - 1], k) + {last}
  }

  /** What the cache has of a key is the last value set; it has it while it is alive and within the limit. */
  ghost predicate Faithful<V>(cfg: Config, s: seq<Item<V>>, i: Ideal<V>, k: Key, clock: int) {
    && Distinct(s)
    && (Find(s, k).Some? ==>
          && i.Live?
          && Find(s, k).value.value == i.value && Find(s, k).value.expiry == i.expiry
          && KeysAfter(s, k) <= i.others)
    && (WithinLimit(cfg, i) && i.expiry > clock ==> Find(s, k).Some?)
  }

  // ---- List facts -----------------------------------------------------------------------------------

  lemma {:induction false} FindIsKey<V>(s: seq<Item<V>>, k: Key)
    ensures Find(s, k).Some? <==> k in Keys(s)
    ensures Find(s, k).Some? ==> Find(s, k).value.key == k
  {
    if s != [] && s[|s| - 1].key != k {
      FindIsKey(s[..|s| - 1], k);
    }
  }

  lemma {:induction false} AfterAreKeys<V>(s: seq<Item<V>>, k: Key)
    ensures KeysAfter(s, k) <= Keys(s)
  {
    if s != [] && s[|s| - 1].key != k {
      AfterAreKeys(s[..|s| - 1], k);
    }
  }

  lemma Snoc<V>(s: seq<Item<V>>, x: Item<V>, j: Key)
    ensures Find(s + [x], j) == if x.key == j then Some(x) else Find(s, j)
    ensures KeysAfter(s + [x], j) == if x.key == j then {} else KeysAfter(s, j) + {x.key}
    ensures Keys(s + [x]) == Keys(s) + {x.key}
    ensures Distinct(s + [x]) <==> Distinct(s) && x.key !in Keys(s)
  {
    assert (s + [x])[..|s|] == s;
  }

  lemma {:induction false} RemoveKeys<V>(s: seq<Item<V>>, k: Key)
    ensures Keys(Remove(s, k)) == Keys(s) - {k}
    ensures Distinct(s) ==> Distinct(Remove(s, k))
    ensures |Remove(s, k)| <= |s|
  {
    if s != [] {
      var front, last := s[..|s| - 1], s[|s| - 1];
      RemoveKeys(front, k);
      Snoc(Remove(front, k), last, k);
    }
  }

  lemma {:induction false} RemoveFind<V>(s: seq<Item<V>>, k: Key, j: Key)
    ensures Find(Remove(s, k), j) == if j == k then None else Find(s, j)
    ensures j != k ==> KeysAfter(Remove(s, k), j) <= KeysAfter(s, j)
  {
    if s != [] {
      var front, last := s[..|s| - 1], s[|s| - 1];
      RemoveFind(front, k, j);
      Snoc(Remove(front, k), last, j);
    }
  }

  lemma {:induction false} UnexpiredKeys<V>(s: seq<Item<V>>, now: int)
    ensures Keys(Unexpired(s, now)) <= Keys(s)
    ensures Distinct(s) ==> Distinct(Unexpired(s, now))
    ensures |Unexpired(s, now)| <= |s|
  {
    if s != [] {
      var front, last := s[..|s| - 1], s[|s| - 1];
      UnexpiredKeys(front, now);
      Snoc(Unexpired(front, now), last, last.key);
    }
  }

  lemma {:induction false} UnexpiredFind<V>(s: seq<Item<V>>, now: int, j: Key)
    requires Distinct(s)
    ensures Find(Unexpired(s, now), j)
      == if Find(s, j).Some? && Find(s, j).value.expiry <= now then None else Find(s, j)
    ensures Find(Unexpired(s, now), j).Some? ==> KeysAfter(Unexpired(s, now), j) <= KeysAfter(s, j)
  {
    if s != [] {
      var front, last := s[..|s| - 1], s[|s| - 1];
      UnexpiredFind(front, now, j);
      FindIsKey(front, j);
      Snoc(Unexpired(front, now), last, j);
    }
  }

  /** Dropping the oldest items: what is lost had at least as many keys after it as are kept. */
  lemma {:induction false} EvictedKeys<V>(s: seq<Item<V>>, n: nat, j: Key)
    requires Distinct(s) && n <= |s|
    ensures Distinct(s[n..])
    ensures Find(s[n..], j).Some? ==> Find(s, j) == Find(s[n..], j) && KeysAfter(s[n..], j) == KeysAfter(s, j)
    ensures Find(s, j).Some? && Find(s[n..], j).None? ==> |s| - n <= |KeysAfter(s, j)|
    ensures Keys(s[n..]) <= Keys(s)
    decreases |s| - n
  {
    if n < |s| {
      var front, last := s[..|s| - 1], s[|s| - 1];
      assert s[n..] == front[n..] + [last] && s == front + [last];
      EvictedKeys(front, n, j);
      Snoc(front[n..], last, j);
      AfterAreKeys(front, j);
    } else {
      assert s[n..] == [];
    }
  }

  // ---- Every operation is faithful ------------------------------------------------------------------

  lemma PurgeFaithful<V>(cfg: Config, s: seq<Item<V>>, i: Ideal<V>, k: Key, clock: int, now: int)
    requires Faithful(cfg, s, i, k, clock) && clock <= now
    ensures Faithful(cfg, Purge(cfg, s, now), i, k, now)
    ensures |Purge(cfg, s, now)| <= |s|
  {
    hide Find, Keys, KeysAfter, Unexpired, Distinct, WithinLimit;
    if cfg.ttl > 0 {
      UnexpiredKeys(s, now);
      UnexpiredFind(s, now, k);
    }
  }

  /** Moving or putting an item at the recent end. */
  lemma PutFaithful<V>(s: seq<Item<V>>, x: Item<V>, k: Key)
    requires Distinct(s)
    ensures var r := Remove(s, x.key) + [x];
      && Distinct(r)
      && Find(r, k) == (if x.key == k then Some(x) else Find(s, k))
      && KeysAfter(r, k) <= (if x.key == k then {} else KeysAfter(s, k) + {x.key})
  {
    hide Find, Keys, KeysAfter, Remove, Distinct;
    RemoveKeys(s, x.key);
    RemoveFind(s, x.key, k);
    Snoc(Remove(s, x.key), x, k);
  }

  lemma SetFaithful<V>(cfg: Config, s: seq<Item<V>>, i: Ideal<V>, k: Key, clock: int, op: Op<V>)
    requires op.Set? && clock <= op.now <= op.later && Faithful(cfg, s, i, k, clock)
    ensures Faithful(cfg, Next(cfg, s, op), Track(cfg, s, i, k, op), k, op.later)
    ensures cfg.maxItems.Some? ==> |Next(cfg, s, op)| <= cfg.maxItems.value
  {
    hide Find, Keys, KeysAfter, Remove, Purge, Distinct;
    var p := Purge(cfg, s, op.now);
    var x := Item(op.key, op.value, ExpiryAt(cfg, op.later));
    PurgeFaithful(cfg, s, i, k, clock, op.now);
    PutFaithful(p, x, k);
    var q, j := Remove(p, op.key) + [x], Track(cfg, s, i, k, op);
    if i.Live? {
      SubsetSize(i.others, i.others + {op.key});
    }
    if Find(q, k).Some? {
      SubsetSize(KeysAfter(q, k), j.others);
    }
    if cfg.maxItems.Some? && |q| > cfg.maxItems.value {
      EvictedKeys(q, |q| - cfg.maxItems.value, k);
    }
  }

  lemma GetFaithful<V>(cfg: Config, s: seq<Item<V>>, i: Ideal<V>, k: Key, clock: int, op: Op<V>)
    requires op.Get? && clock <= op.now <= op.later && Faithful(cfg, s, i, k, clock)
    ensures Faithful(cfg, Next(cfg, s, op), Track(cfg, s, i, k, op), k, op.later)
    ensures |Next(cfg, s, op)| <= |s|
  {
    hide Find, Keys, KeysAfter, Remove, Purge, Distinct;
    var p := Purge(cfg, s, op.now);
    PurgeFaithful(cfg, s, i, k, clock, op.now);
    var found := Find(p, op.key);
    FindIsKey(p, op.key);
    RemoveKeys(p, op.key);
    RemoveFind(p, op.key, k);
    if found.Some? {
      RemoveShrinks(p, op.key);
      PutFaithful(p, found.value, k);
    }
    if i.Live? {
      SubsetSize(i.others, i.others + {op.key});
    }
  }

  lemma DeleteFaithful<V>(cfg: Config, s: seq<Item<V>>, i: Ideal<V>, k: Key, clock: int, op: Op<V>)
    requires op.Delete? && clock <= op.now <= op.later && Faithful(cfg, s, i, k, clock)
    ensures Faithful(cfg, Next(cfg, s, op), Track(cfg, s, i, k, op), k, op.later)
    ensures |Next(cfg, s, op)| <= |s|
  {
    hide Find, Keys, KeysAfter, Remove, Distinct;
    RemoveKeys(s, op.key);
    RemoveFind(s, op.key, k);
  }

  lemma {:induction false} RemoveShrinks<V>(s: seq<Item<V>>, k: Key)
    requires Find(s, k).Some?
    ensures |Remove(s, k)| < |s|
  {
    if s[|s| - 1].key == k {
      RemoveKeys(s[..|s| - 1], k);
    } else {
      RemoveShrinks(s[..|s| - 1], k);
    }
  }

  // ---- Whole runs -----------------------------------------------------------------------------------

  datatype Run<V> = Run(store: seq<Item<V>>, ideal: Ideal<V>, clock: int)

  function Play<V>(cfg: Config, r: Run<V>, k: Key, ops: seq<Op<V>>): Run<V>
    decreases |ops|
  {
    if ops == [] then r
    else Play(cfg, Run(Next(cfg, r.store, ops[0]), Track(cfg, r.store, r.ideal, k, ops[0]), ops[0].later), k, ops[1..])
  }

  /** The clock never goes back, between operations or within one. */
  ghost predicate Monotone<V>(clock: int, ops: seq<Op<V>>)
    decreases |ops|
  {
    ops == [] || (clock <= ops[0].now <= ops[0].later && Monotone(ops[0].later, ops[1..]))
  }

  lemma {:induction false} PlayFaithful<V>(cfg: Config, r: Run<V>, k: Key, ops: seq<Op<V>>)
    requires Monotone(r.clock, ops) && Faithful(cfg, r.store, r.ideal, k, r.clock)
    requires cfg.maxItems.Some? ==> |r.store| <= cfg.maxItems.value
    ensures var e := Play(cfg, r, k, ops);
      && Faithful(cfg, e.store, e.ideal, k, e.clock)
      && (cfg.maxItems.Some? ==> |e.store| <= cfg.maxItems.value)
    decreases |ops|
  {
    if ops != [] {
      match ops[0] {
        case Set(_, _, _, _) => SetFaithful(cfg, r.store, r.ideal, k, r.clock, ops[0]);
        case Get(_, _, _) => GetFaithful(cfg, r.store, r.ideal, k, r.clock, ops[0]);
        case Delete(_, _, _) => DeleteFaithful(cfg, r.store, r.ideal, k, r.clock, ops[0]);
      }
      PlayFaithful(cfg, Run(Next(cfg, r.store, ops[0]), Track(cfg, r.store, r.ideal, k, ops[0]), ops[0].later), k, ops[1..]);
    }
  }

  /**
   * After any run from an empty cache: the size stays within the limit; a get never answers anything but the last
   * value set, undeleted and unexpired; and it does answer it if fewer than the limit of other keys were touched
   * since the key was.
   */
  lemma CacheAgreesWithMap<V>(cfg: Config, k: Key, clock: int, ops: seq<Op<V>>, get: Op<V>)
    requires Monotone(clock, ops + [get]) && get.Get? && get.key == k
    ensures var e := Play(cfg, Run([], Gone, clock), k, ops);
      && (cfg.maxItems.Some? ==> |e.store| <= cfg.maxItems.value)
      && (Answer(cfg, e.store, get).Some? ==>
            e.ideal.Live? && Answer(cfg, e.store, get).value == e.ideal.value && e.ideal.expiry > get.later)
      && (WithinLimit(cfg, e.ideal) && e.ideal.expiry > get.later ==> Answer(cfg, e.store, get) == Some(e.ideal.value))
  {
    MonotoneSplit(cfg, Run([], Gone, clock), k, ops, get);
    PlayFaithful(cfg, Run([], Gone, clock), k, ops);
    var e := Play(cfg, Run([], Gone, clock), k, ops);
    PurgeFaithful(cfg, e.store, e.ideal, k, e.clock, get.now);
  }

  lemma {:induction false} MonotoneSplit<V>(cfg: Config, r: Run<V>, k: Key, ops: seq<Op<V>>, last: Op<V>)
    requires Monotone(r.clock, ops + [last])
    ensures Monotone(r.clock, ops) && Play(cfg, r, k, ops).clock <= last.now <= last.later
    decreases |ops|
  {
    if ops == [] {
      assert [] + [last] == [last];
    } else {
      assert (ops + [last])[1..] == ops[1..] + [last];
      MonotoneSplit(cfg, Run(Next(cfg, r.store, ops[0]), Track(cfg, r.store, r.ideal, k, ops[0]), ops[0].later), k, ops[1..], last);
    }
  }

  /** A get moves the key to the recent end and leaves its expiry as it was. */
  lemma GetRefreshesRecencyOnly<V>(cfg: Config, s: seq<Item<V>>, get: Op<V>)
    requires get.Get? && Distinct(s) && Answer(cfg, s, get).Some?
    ensures var r := Next(cfg, s, get);
      && Find(s, get.key).Some? && Find(r, get.key) == Find(s, get.key)
      && KeysAfter(r, get.key) == {}
  {
    hide Keys, KeysAfter, Remove, Unexpired, Distinct;
    var p := Purge(cfg, s, get.now);
    if cfg.ttl > 0 {
      UnexpiredKeys(s, get.now);
      UnexpiredFind(s, get.now, get.key);
    }
    FindIsKey(p, get.key);
    PutFaithful(p, Find(p, get.key).value, get.key);
  }

  // ---- Retry counters -------------------------------------------------------------------------------

  /** The counters are a cache without a size limit; the rest of the manager's state is not kept here. */
  class MessageRetryManager {
    const retryCounters: TtlOrderedCache<nat>
    const maxMsgRetryCount: nat

    constructor (ttl: int, maxMsgRetryCount: nat)
      ensures retryCounters.cfg == Config(None, ttl) && retryCounters.store == [] && fresh(retryCounters)
      ensures this.maxMsgRetryCount == maxMsgRetryCount
    {
      retryCounters := new TtlOrderedCache(Config(None, ttl));
      this.maxMsgRetryCount := maxMsgRetryCount;
    }

    method GetRetryCount(id: Key, now: int, later: int) returns (n: nat)
      modifies retryCounters
      ensures retryCounters.store == Next(retryCounters.cfg, old(retryCounters.store), Get(id, now, later))
      ensures n == CountOf(Answer(retryCounters.cfg, old(retryCounters.store), Get(id, now, later)))
    {
      var found := retryCounters.Get(id, now, later);
      n := CountOf(found);
    }

    method IncrementRetryCount(id: Key, t: (int, int, int, int)) returns (n: nat)
      modifies retryCounters
      ensures n == CountOf(Answer(retryCounters.cfg, old(retryCounters.store), Get(id, t.0, t.1))) + 1
      ensures retryCounters.store == Next(retryCounters.cfg,
        Next(retryCounters.cfg, old(retryCounters.store), Get(id, t.0, t.1)), Set(id, n, t.2, t.3))
    {
      var found := retryCounters.Get(id, t.0, t.1);
      n := CountOf(found) + 1;
      retryCounters.Set(id, n, t.2, t.3);
    }

    method HasExceededMaxRetries(id: Key, now: int, later: int) returns (exceeded: bool)
      modifies retryCounters
      ensures retryCounters.store == Next(retryCounters.cfg, old(retryCounters.store), Get(id, now, later))
      ensures exceeded
        <==> CountOf(Answer(retryCounters.cfg, old(retryCounters.store), Get(id, now, later))) >= maxMsgRetryCount
    {
      var n := GetRetryCount(id, now, later);
      exceeded := n >= maxMsgRetryCount;
    }

    method MarkRetryDone(id: Key, now: int, later: int)
      modifies retryCounters
      ensures retryCounters.store == Next(retryCounters.cfg, old(retryCounters.store), Delete(id, now, later))
      ensures forall t, u :: Answer(retryCounters.cfg, retryCounters.store, Get(id, t, u)) == None
    {
      ghost var before := retryCounters.store;
      retryCounters.Delete(id, now, later);
      forall t, u
        ensures Answer(retryCounters.cfg, retryCounters.store, Op.Get(id, t, u)) == None
      {
        DoneForgets(retryCounters.cfg, before, Op.Delete(id, now, later), Op.Get(id, t, u));
      }
    }
  }

  /** A message marked done has no count, whenever it is asked for, and no other message loses its count. */
  lemma DoneForgets<V>(cfg: Config, s: seq<Item<V>>, done: Op<V>, get: Op<V>)
    requires done.Delete? && get.Get?
    ensures get.key == done.key ==> Answer(cfg, Next(cfg, s, done), get) == None
    ensures get.key != done.key && Distinct(s) ==> Answer(cfg, Next(cfg, s, done), get) == Answer(cfg, s, get)
  {
    hide Find, Keys, KeysAfter, Remove, Unexpired, Distinct;
    var r := Remove(s, done.key);
    RemoveKeys(s, done.key);
    RemoveFind(s, done.key, get.key);
    if cfg.ttl > 0 {
      UnexpiredKeys(r, get.now);
      FindIsKey(Unexpired(r, get.now), get.key);
      FindIsKey(r, get.key);
      if Distinct(s) {
        UnexpiredFind(s, get.now, get.key);
        UnexpiredFind(r, get.now, get.key);
      }
    }
  }

  /**
   * In a cache without a size limit, what was just stored is answered exactly until its time to live is over, or for
   * good without one.
   */
  lemma StoredIsAnswered<V>(cfg: Config, s: seq<Item<V>>, put: Op<V>, get: Op<V>)
    requires cfg.maxItems.None? && put.Set? && get.Get? && get.key == put.key && Distinct(s)
    requires put.later <= get.now <= get.later < FOREVER
    ensures Answer(cfg, Next(cfg, s, put), get)
      == if cfg.ttl <= 0 || get.later < put.later + cfg.ttl then Some(put.value) else None
  {
    hide Find, Keys, KeysAfter, Remove, Unexpired, Distinct;
    SetOnly(cfg, s, put);
    var r := Next(cfg, s, put);
    if cfg.ttl > 0 {
      UnexpiredFind(r, get.now, get.key);
    }
  }

  lemma SetOnly<V>(cfg: Config, s: seq<Item<V>>, put: Op<V>)
    requires cfg.maxItems.None? && put.Set? && Distinct(s)
    ensures var r := Next(cfg, s, put);
      && Distinct(r)
      && Find(r, put.key) == Some(Item(put.key, put.value, ExpiryAt(cfg, put.later)))
      && forall k :: k != put.key && Lasting(s, k, put.now) ==> Find(r, k) == Find(s, k)
  {
    hide Find, Keys, KeysAfter, Remove, Unexpired, Distinct;
    var p, x := Purge(cfg, s, put.now), Item(put.key, put.value, ExpiryAt(cfg, put.later));
    if cfg.ttl > 0 {
      UnexpiredKeys(s, put.now);
    }
    PutFaithful(p, x, put.key);
    forall k | k != put.key && Lasting(s, k, put.now)
      ensures Find(Next(cfg, s, put), k) == Find(s, k)
    {
      PutFaithful(p, x, k);
      if cfg.ttl > 0 {
        UnexpiredFind(s, put.now, k);
      }
    }
  }

  /** The key's item, if there is one, is not over at that time. */
  ghost predicate Lasting<V>(s: seq<Item<V>>, k: Key, now: int) { Find(s, k).Some? ==> Find(s, k).value.expiry > now }

  /** An operation on another key does nothing to a key's item while it lasts. */
  lemma OthersLeaveAlone<V>(cfg: Config, s: seq<Item<V>>, op: Op<V>, k: Key)
    requires cfg.maxItems.None? && Distinct(s) && Lasting(s, k, op.now) && op.key != k
    ensures Distinct(Next(cfg, s, op)) && Find(Next(cfg, s, op), k) == Find(s, k)
  {
    hide Find, Keys, KeysAfter, Remove, Unexpired, Distinct;
    match op {
      case Set(_, _, _, _) => SetOnly(cfg, s, op);
      case Get(_, _, _) => GetOnly(cfg, s, op, k);
      case Delete(_, _, _) =>
        RemoveKeys(s, op.key);
        RemoveFind(s, op.key, k);
    }
  }

  lemma GetOnly<V>(cfg: Config, s: seq<Item<V>>, get: Op<V>, k: Key)
    requires get.Get? && Distinct(s) && Lasting(s, k, get.now)
    ensures Distinct(Next(cfg, s, get))
    ensures k != get.key || Lasting(s, k, get.later) ==> Find(Next(cfg, s, get), k) == Find(s, k)
    ensures k == get.key && Lasting(s, k, get.later) ==>
      Answer(cfg, s, get) == if Find(s, k).None? then None else Some(Find(s, k).value.value)
  {
    hide Find, Keys, KeysAfter, Remove, Unexpired, Distinct;
    var p := Purge(cfg, s, get.now);
    if cfg.ttl > 0 {
      UnexpiredKeys(s, get.now);
      UnexpiredFind(s, get.now, k);
    }
    var found := Find(p, get.key);
    FindIsKey(p, get.key);
    RemoveKeys(p, get.key);
    RemoveFind(p, get.key, k);
    if found.Some? {
      PutFaithful(p, found.value, k);
    }
  }

  /** One increment of a message's count, or anything done to another message's. */
  datatype Use = Count(id: Key, t0: int, t1: int, t2: int, t3: int) | Other(op: Op<nat>)

  function StartOf(u: Use): int { if u.Count? then u.t0 else u.op.now }

  function EndOf(u: Use): int { if u.Count? then u.t3 else u.op.later }

  function Used(cfg: Config, s: seq<Item<nat>>, u: Use): seq<Item<nat>> {
    match u
    case Count(id, t0, t1, t2, t3) =>
      Next(cfg, Next(cfg, s, Get(id, t0, t1)), Set(id, CountOf(Answer(cfg, s, Get(id, t0, t1))) + 1, t2, t3))
    case Other(op) => Next(cfg, s, op)
  }

  function UsedAll(cfg: Config, s: seq<Item<nat>>, us: seq<Use>): seq<Item<nat>> {
    if us == [] then s else Used(cfg, UsedAll(cfg, s, us[..|us| - 1]), us[|us| - 1])
  }

  function Increments(us: seq<Use>, id: Key): nat {
    if us == [] then 0
    else Increments(us[..|us| - 1], id) + if us[|us| - 1].Count? && us[|us| - 1].id == id then 1 else 0
  }

  /** Everything happens in order, between the two times, and nothing else is done to the message. */
  ghost predicate Within(us: seq<Use>, id: Key, from: int, to: int) {
    us == []
    || (var u := us[|us| - 1];
        && Within(us[..|us| - 1], id, from, StartOf(u))
        && from <= StartOf(u) <= EndOf(u) <= to
        && (u.Count? ==> u.t0 <= u.t1 <= u.t2 <= u.t3)
        && (u.Other? ==> u.op.key != id))
  }

  ghost predicate Holds(cfg: Config, s: seq<Item<nat>>, id: Key, n: nat, from: int) {
    && Distinct(s)
    && (n == 0 ==> Find(s, id).None?)
    && (n > 0 ==> Find(s, id).Some? && Find(s, id).value.value == n && Find(s, id).value.expiry >= ExpiryAt(cfg, from))
  }

  lemma CountStep(cfg: Config, s: seq<Item<nat>>, id: Key, n: nat, from: int, u: Use)
    requires cfg.maxItems.None? && Holds(cfg, s, id, n, from)
    requires from <= StartOf(u) <= EndOf(u) < ExpiryAt(cfg, from)
    requires u.Count? ==> u.t0 <= u.t1 <= u.t2 <= u.t3
    requires u.Other? ==> u.op.key != id
    ensures Holds(cfg, Used(cfg, s, u), id, if u.Count? && u.id == id then n + 1 else n, from)
  {
    hide Find, Next, Answer, Distinct;
    match u {
      case Count(k, t0, t1, t2, t3) =>
        var get := Op.Get(k, t0, t1);
        GetOnly(cfg, s, get, id);
        var put := Op.Set(k, CountOf(Answer(cfg, s, get)) + 1, t2, t3);
        SetOnly(cfg, Next(cfg, s, get), put);
      case Other(op) => OthersLeaveAlone(cfg, s, op, id);
    }
  }

  lemma {:induction false} CountsUp(cfg: Config, us: seq<Use>, id: Key, from: int, to: int)
    requires cfg.maxItems.None? && Within(us, id, from, to) && to < ExpiryAt(cfg, from)
    ensures Holds(cfg, UsedAll(cfg, [], us), id, Increments(us, id), from)
  {
    hide Holds, Used;
    if us == [] {
      NothingHeld(cfg, id, from);
    } else {
      var u := us[|us| - 1];
      CountsUp(cfg, us[..|us| - 1], id, from, StartOf(u));
      CountStep(cfg, UsedAll(cfg, [], us[..|us| - 1]), id, Increments(us[..|us| - 1], id), from, u);
    }
  }

  lemma NothingHeld(cfg: Config, id: Key, from: int)
    ensures Holds(cfg, [], id, 0, from)
  {
  }

  /**
   * From an empty cache, n increments of a message within one time to live, whatever happens to other messages in
   * between, are answered as n.
   */
  lemma IncrementsAreCounted(cfg: Config, us: seq<Use>, id: Key, from: int, get: Op<nat>)
    requires cfg.maxItems.None? && get.Get? && get.key == id
    requires Within(us, id, from, get.now) && from <= get.now <= get.later < ExpiryAt(cfg, from)
    ensures CountOf(Answer(cfg, UsedAll(cfg, [], us), get)) == Increments(us, id)
  {
    hide Find, Answer, Distinct;
    CountsUp(cfg, us, id, from, get.now);
    GetOnly(cfg, UsedAll(cfg, [], us), get, id);
  }

  function CountOf(found: Option<nat>): nat { if found.Some? then found.value else 0 }
}
