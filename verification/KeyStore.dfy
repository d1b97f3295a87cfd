/** The transactional key store: an overlay cache in front of a store, committed with retries or dropped. */
module KeyStore {
  import opened Common

  datatype Key = Key(kind: string, id: string)

  const PRE_KEY: string := "pre-key"

  type Value = Bytes

  type Store = map<Key, Value>

  /** What `set` is given: a value to write, or None to delete. */
  type Update = map<Key, Option<Value>>

  function Lookup(s: Store, k: Key): Option<Value> { if k in s then Some(s[k]) else None }

  function Overlay(s: Store, u: Update): (r: Store)
    ensures forall k :: Lookup(r, k) == if k in u then u[k] else Lookup(s, k)
  {
    map k | k in s.Keys + u.Keys && (k in u ==> u[k].Some?) :: if k in u then u[k].value else s[k]
  }

  /** Two stores with the same contents are the same store. */
  lemma StoreExtensional(s: Store, t: Store)
    requires forall k :: Lookup(s, k) == Lookup(t, k)
    ensures s == t
  {
    forall k
      ensures k in s <==> k in t
      ensures k in s ==> s[k] == t[k]
    {
      assert Lookup(s, k) == Lookup(t, k);
    }
    assert s.Keys == t.Keys;
  }

  lemma OverlayOverlay(s: Store, u: Update, v: Update)
    ensures Overlay(Overlay(s, u), v) == Overlay(s, u + v)
  {
    StoreExtensional(Overlay(Overlay(s, u), v), Overlay(s, u + v));
  }

  function Entry(u: Update, k: Key): Option<Option<Value>> { if k in u then Some(u[k]) else None }

  lemma UpdateExtensional(u: Update, v: Update)
    requires forall k :: Entry(u, k) == Entry(v, k)
    ensures u == v
  {
    forall k
      ensures k in u <==> k in v
      ensures k in u ==> u[k] == v[k]
    {
      assert Entry(u, k) == Entry(v, k);
    }
    assert u.Keys == v.Keys;
  }

  class InMemorySignalKeyStore {
    var data: Store

    constructor ()
      ensures data == map[]
    {
      data := map[];
    }

    /** Absent keys are left out of the answer. */
    method Get(keys: set<Key>) returns (r: Store)
      ensures r == map k | k in keys && k in data :: data[k]
    {
      r := map k | k in keys && k in data :: data[k];
    }

    method Set(update: Update)
      modifies this
      ensures data == Overlay(old(data), update)
    {
      var rest := update.Keys;
      while rest != {}
        invariant rest <= update.Keys
        invariant forall k :: Lookup(data, k) == if k in update && k !in rest then update[k] else Lookup(old(data), k)
        decreases rest
      {
        var k :| k in rest;
        rest := rest - {k};
        match update[k] {
          case None => data := data - {k};
          case Some(v) => data := data[k := v];
        }
      }
      StoreExtensional(data, Overlay(old(data), update));
    }
  }

  // ---- The transaction context ----------------------------------------------------------------------

  /** What the transaction has seen of each key, and what it will write. */
  datatype Context = Context(cache: Update, mutations: Update)

  const EMPTY: Context := Context(map[], map[])

  predicate CachedLive(x: Context, k: Key) { k in x.cache && x.cache[k].Some? }

  /** A pre-key deletion counts only if the transaction has the key in its cache. */
  predicate Takes(x: Context, k: Key, v: Option<Value>) {
    k.kind == PRE_KEY && v.None? ==> CachedLive(x, k)
  }

  function Effective(x: Context, u: Update): Update {
    map k | k in u && Takes(x, k, u[k]) :: u[k]
  }

  function Fetched(x: Context, s: Store, keys: set<Key>): Context {
    x.(cache := x.cache + map k | k in keys && k !in x.cache && k in s :: Some(s[k]))
  }

  function Written(x: Context, u: Update): Context {
    Context(x.cache + Effective(x, u), x.mutations + Effective(x, u))
  }

  datatype Op = Get(keys: set<Key>) | Set(update: Update)

  /** Reads are compared by what they say of each requested key: a value, or nothing. */
  type Read = map<Key, Option<Value>>

  function ReadOf(s: Store, keys: set<Key>): Read {
    map k | k in keys :: Lookup(s, k)
  }

  function Answer(x: Context, keys: set<Key>): Read {
    map k | k in keys :: if k in x.cache then x.cache[k] else None
  }

  datatype Direct = Direct(store: Store, answers: seq<Read>)

  function RunDirect(d: Direct, ops: seq<Op>): Direct
    decreases |ops|
  {
    if ops == [] then d else RunDirect(StepDirect(d, ops[0]), ops[1..])
  }

  function StepDirect(d: Direct, op: Op): Direct {
    match op
    case Get(keys) => d.(answers := d.answers + [ReadOf(d.store, keys)])
    case Set(u) => d.(store := Overlay(d.store, u))
  }

  datatype Staged = Staged(context: Context, answers: seq<Read>)

  function RunStaged(base: Store, t: Staged, ops: seq<Op>): Staged
    decreases |ops|
  {
    if ops == [] then t else RunStaged(base, StepStaged(base, t, ops[0]), ops[1..])
  }

  function StepStaged(base: Store, t: Staged, op: Op): Staged {
    match op
    case Get(keys) =>
      var x := Fetched(t.context, base, keys);
      Staged(x, t.answers + [Answer(x, keys)])
    case Set(u) => t.(context := Written(t.context, u))
  }

  // ---- Committing -----------------------------------------------------------------------------------

  /** What the underlying store does with one commit: all of it, or some of it before it raises. */
  datatype Attempt = Succeeds | FailsAfter(applied: set<Key>)

  function Applied(u: Update, keys: set<Key>): Update {
    map k | k in u && k in keys :: u[k]
  }

  datatype Committed = Committed(store: Store, ok: bool)

  /** `left` attempts remain, the next one numbered `n`; the last failure is raised to the caller. */
  function Commit(s: Store, u: Update, attempts: nat -> Attempt, n: nat, left: nat): Committed
    decreases left
  {
    if left == 0 then Committed(s, true)
    else
      match attempts(n)
      case Succeeds => Committed(Overlay(s, u), true)
      case FailsAfter(applied) =>
        var partial := Overlay(s, Applied(u, applied));
        if left == 1 then Committed(partial, false) else Commit(partial, u, attempts, n + 1, left - 1)
  }

  /** The entry of one key while `rest` of an update is still to be taken. */
  function Progressed(x: Context, was: Update, u: Update, rest: set<Key>, k: Key): Option<Option<Value>> {
    if k in u && k !in rest && Takes(x, k, u[k]) then Some(u[k]) else Entry(was, k)
  }

  /** The transaction wrapper, with its context while one is open. */
  class TransactionStore {
    const store: InMemorySignalKeyStore
    var context: Option<Context>

    constructor (store: InMemorySignalKeyStore)
      ensures this.store == store && context == None
    {
      this.store, context := store, None;
    }

    method Get(keys: set<Key>) returns (r: Read)
      modifies this
      ensures old(context).None? ==> context == None && r == ReadOf(store.data, keys)
      ensures old(context).Some? ==>
        context == Some(Fetched(old(context).value, store.data, keys)) && r == Answer(context.value, keys)
    {
      if context.None? {
        var found := store.Get(keys);
        return map k | k in keys :: if k in found then Some(found[k]) else None;
      }
      var cached := context.value.cache;
      var missing := set k | k in keys && k !in cached;
      if missing != {} {
        var fetched := store.Get(missing);
        cached := cached + map k | k in fetched :: Some(fetched[k]);
      }
      ghost var x := old(context).value;
      forall k
        ensures Entry(cached, k) == Entry(Fetched(x, store.data, keys).cache, k)
      {
        if k in keys && k !in x.cache {
          assert k in missing;
        }
      }
      context := Some(context.value.(cache := cached));
      UpdateExtensional(cached, Fetched(x, store.data, keys).cache);
      r := Answer(context.value, keys);
    }

    /** Outside a transaction, deletions of pre-keys the store does not have are dropped, then the rest is written. */
    method SetDirect(update: Update)
      modifies store
      ensures store.data == Overlay(old(store.data), update)
    {
      var deletions := set k | k in update && k.kind == PRE_KEY && update[k].None?;
      var existing := store.Get(deletions);
      var kept := map k | k in update && (k in deletions ==> k in existing) :: update[k];
      ghost var before := store.data;
      store.Set(kept);
      StoreExtensional(store.data, Overlay(before, update));
    }

    /** Inside a transaction, updates and deletions of pre-keys are told apart; the others are taken as they come. */
    method SetStaged(update: Update)
      requires context.Some?
      modifies this
      ensures context == Some(Written(old(context).value, update))
    {
      ghost var before := context.value;
      var cache, mutations := context.value.cache, context.value.mutations;
      var rest := update.Keys;
      while rest != {}
        invariant rest <= update.Keys
        invariant forall k :: Entry(cache, k) == Progressed(before, before.cache, update, rest, k)
        invariant forall k :: Entry(mutations, k) == Progressed(before, before.mutations, update, rest, k)
        decreases rest
      {
        var k :| k in rest;
        ghost var cache0, mutations0, rest0 := cache, mutations, rest;
        rest := rest - {k};
        assert Entry(cache, k) == Entry(before.cache, k);
        if k.kind == PRE_KEY && update[k].None? {
          if k in cache && cache[k].Some? {
            cache, mutations := cache[k := None], mutations[k := None];
          }
        } else {
          cache, mutations := cache[k := update[k]], mutations[k := update[k]];
        }
        forall j
          ensures Entry(cache, j) == Progressed(before, before.cache, update, rest, j)
          ensures Entry(mutations, j) == Progressed(before, before.mutations, update, rest, j)
        {
          assert Entry(cache0, j) == Progressed(before, before.cache, update, rest0, j);
          assert Entry(mutations0, j) == Progressed(before, before.mutations, update, rest0, j);
        }
      }
      UpdateExtensional(cache, Written(before, update).cache);
      UpdateExtensional(mutations, Written(before, update).mutations);
      context := Some(Context(cache, mutations));
    }

    /** A body of reads and writes; when it raises nothing is written, otherwise its mutations are committed. */
    method Transaction(ops: seq<Op>, raises: bool, attempts: nat -> Attempt, maxCommitRetries: nat)
      returns (answers: seq<Read>, ok: bool)
      requires context.None?
      modifies this, store
      ensures context.None?
      ensures answers == RunStaged(old(store.data), Staged(EMPTY, []), ops).answers
      ensures raises ==> !ok && store.data == old(store.data)
      ensures !raises ==>
        var mutations := RunStaged(old(store.data), Staged(EMPTY, []), ops).context.mutations;
        Committed(store.data, ok) == if mutations == map[] then Committed(old(store.data), true)
                                     else Commit(old(store.data), mutations, attempts, 0, maxCommitRetries)
    {
      context := Some(EMPTY);
      answers := [];
      ghost var base := store.data;
      for n := 0 to |ops|
        invariant context.Some? && store.data == base
        invariant RunStaged(base, Staged(EMPTY, []), ops) == RunStaged(base, Staged(context.value, answers), ops[n..])
      {
        assert ops[n..][1..] == ops[n + 1..];
        match ops[n] {
          case Get(keys) =>
            var answer := Get(keys);
            answers := answers + [answer];
          case Set(update) =>
            SetStaged(update);
        }
      }
      var mutations := context.value.mutations;
      context := None;
      if raises {
        return answers, false;
      }
      if mutations == map[] {
        return answers, true;
      }
      for attempt := 0 to maxCommitRetries
        invariant context.None?
        invariant Commit(base, mutations, attempts, 0, maxCommitRetries)
          == Commit(store.data, mutations, attempts, attempt, maxCommitRetries - attempt)
      {
        match attempts(attempt) {
          case Succeeds =>
            store.Set(mutations);
            return answers, true;
          case FailsAfter(applied) =>
            store.Set(Applied(mutations, applied));
            if attempt == maxCommitRetries - 1 {
              return answers, false;
            }
        }
      }
      ok := true;
    }
  }

  // ---- A transaction refines direct execution -------------------------------------------------------

  /** The view through the transaction is the store that direct execution would have. */
  ghost predicate Agrees(base: Store, x: Context, direct: Store) {
    && Overlay(base, x.mutations) == direct
    && (forall k :: k in x.cache ==> x.cache[k] == Lookup(direct, k))
    && (forall k :: k in x.mutations ==> k in x.cache)
  }

  /** No pre-key that exists in the view is deleted without being in the transaction's cache. */
  ghost predicate Harmless(x: Context, direct: Store, u: Update) {
    forall k :: k in u && k.kind == PRE_KEY && u[k].None? && k in direct ==> k in x.cache
  }

  lemma FetchAgrees(base: Store, x: Context, direct: Store, keys: set<Key>)
    requires Agrees(base, x, direct)
    ensures Agrees(base, Fetched(x, base, keys), direct)
    ensures Answer(Fetched(x, base, keys), keys) == ReadOf(direct, keys)
  {
    var y := Fetched(x, base, keys);
    forall k | k !in x.cache
      ensures Lookup(direct, k) == Lookup(base, k)
    {
      assert Lookup(Overlay(base, x.mutations), k) == Lookup(base, k);
    }
    forall k | k in keys
      ensures (if k in y.cache then y.cache[k] else None) == Lookup(direct, k)
    {
    }
  }

  lemma EffectiveOverlay(base: Store, x: Context, direct: Store, u: Update)
    requires Agrees(base, x, direct)
    ensures Overlay(base, Written(x, u).mutations) == Overlay(direct, Effective(x, u))
    ensures Harmless(x, direct, u) <==> Overlay(direct, Effective(x, u)) == Overlay(direct, u)
  {
    OverlayOverlay(base, x.mutations, Effective(x, u));
    var a, b := Overlay(direct, Effective(x, u)), Overlay(direct, u);
    if Harmless(x, direct, u) {
      forall k
        ensures Lookup(a, k) == Lookup(b, k)
      {
        if k in u && k !in Effective(x, u) {
          assert !CachedLive(x, k) && u[k].None?;
          assert k in x.cache ==> Lookup(direct, k) == None;
        }
      }
      StoreExtensional(a, b);
    } else {
      var k :| k in u && k.kind == PRE_KEY && u[k].None? && k in direct && k !in x.cache;
      assert Lookup(a, k) == Lookup(direct, k) && Lookup(b, k) == None;
    }
  }

  /** A write keeps the view right exactly when it deletes no unseen pre-key. */
  lemma WriteAgrees(base: Store, x: Context, direct: Store, u: Update)
    requires Agrees(base, x, direct)
    ensures Agrees(base, Written(x, u), Overlay(direct, u)) <==> Harmless(x, direct, u)
  {
    EffectiveOverlay(base, x, direct, u);
    if Harmless(x, direct, u) {
      var y, d := Written(x, u), Overlay(direct, u);
      forall k | k in y.cache
        ensures y.cache[k] == Lookup(d, k)
      {
        assert Lookup(d, k) == if k in u then u[k] else Lookup(direct, k);
        if k in u && k !in Effective(x, u) {
          assert x.cache[k].None?;
        }
      }
    }
  }

  /** Every write of the run is harmless when its turn comes. */
  ghost predicate AllHarmless(base: Store, t: Staged, d: Direct, ops: seq<Op>)
    decreases |ops|
  {
    ops == [] ||
    ((ops[0].Set? ==> Harmless(t.context, d.store, ops[0].update))
     && AllHarmless(base, StepStaged(base, t, ops[0]), StepDirect(d, ops[0]), ops[1..]))
  }

  lemma {:induction false} StagedFollowsDirect(base: Store, t: Staged, d: Direct, ops: seq<Op>)
    requires Agrees(base, t.context, d.store) && t.answers == d.answers
    requires AllHarmless(base, t, d, ops)
    ensures Agrees(base, RunStaged(base, t, ops).context, RunDirect(d, ops).store)
    ensures RunStaged(base, t, ops).answers == RunDirect(d, ops).answers
    decreases |ops|
  {
    if ops != [] {
      match ops[0] {
        case Get(keys) => FetchAgrees(base, t.context, d.store, keys);
        case Set(u) => WriteAgrees(base, t.context, d.store, u);
      }
      StagedFollowsDirect(base, StepStaged(base, t, ops[0]), StepDirect(d, ops[0]), ops[1..]);
    }
  }

  ghost predicate NoPreKeys(ops: seq<Op>) {
    forall i, k :: 0 <= i < |ops| && ops[i].Set? && k in ops[i].update ==> k.kind != PRE_KEY
  }

  lemma {:induction false} NoPreKeysHarmless(base: Store, t: Staged, d: Direct, ops: seq<Op>)
    requires NoPreKeys(ops)
    ensures AllHarmless(base, t, d, ops)
    decreases |ops|
  {
    if ops != [] {
      assert NoPreKeys(ops[1..]) by {
        forall i, k | 0 <= i < |ops[1..]| && ops[1..][i].Set? && k in ops[1..][i].update
          ensures k.kind != PRE_KEY
        {
          assert ops[1..][i] == ops[i + 1];
        }
      }
      NoPreKeysHarmless(base, StepStaged(base, t, ops[0]), StepDirect(d, ops[0]), ops[1..]);
    }
  }

  // ---- Commit laws ----------------------------------------------------------------------------------

  lemma PartialThenAll(s: Store, u: Update, applied: set<Key>)
    ensures Overlay(Overlay(s, Applied(u, applied)), u) == Overlay(s, u)
  {
    OverlayOverlay(s, Applied(u, applied), u);
    assert Applied(u, applied) + u == u;
  }

  lemma PartialTwice(s: Store, u: Update, a: set<Key>, b: set<Key>)
    ensures Overlay(Overlay(s, Applied(u, a)), Applied(u, b)) == Overlay(s, Applied(u, a + b))
  {
    OverlayOverlay(s, Applied(u, a), Applied(u, b));
    assert Applied(u, a) + Applied(u, b) == Applied(u, a + b);
  }

  /** After any partial failures, one success leaves exactly the base overlaid with the mutations. */
  lemma {:induction false} CommitSucceeds(s: Store, u: Update, attempts: nat -> Attempt, n: nat, left: nat)
    requires left >= 1 && Commit(s, u, attempts, n, left).ok
    ensures Commit(s, u, attempts, n, left).store == Overlay(s, u)
    decreases left
  {
    if attempts(n).FailsAfter? {
      CommitSucceeds(Overlay(s, Applied(u, attempts(n).applied)), u, attempts, n + 1, left - 1);
      PartialThenAll(s, u, attempts(n).applied);
    }
  }

  /** A commit succeeds exactly when one of the attempts it may make does, or it may make none. */
  lemma {:induction false} CommitExactly(s: Store, u: Update, attempts: nat -> Attempt, n: nat, left: nat)
    ensures Commit(s, u, attempts, n, left).ok <==> left == 0 || exists i :: n <= i < n + left && attempts(i).Succeeds?
    decreases left
  {
    if left > 1 && attempts(n).FailsAfter? {
      CommitExactly(Overlay(s, Applied(u, attempts(n).applied)), u, attempts, n + 1, left - 1);
    } else if left > 0 {
      assert attempts(n).Succeeds? ==> exists i :: n <= i < n + left && attempts(i).Succeeds?;
    }
  }

  /** A commit that gives up has written some of the mutations and nothing else. */
  lemma {:induction false} CommitFails(s: Store, u: Update, attempts: nat -> Attempt, n: nat, left: nat) returns (applied: set<Key>)
    requires !Commit(s, u, attempts, n, left).ok
    ensures Commit(s, u, attempts, n, left).store == Overlay(s, Applied(u, applied))
    decreases left
  {
    applied := attempts(n).applied;
    if left > 1 {
      var more := CommitFails(Overlay(s, Applied(u, applied)), u, attempts, n + 1, left - 1);
      PartialTwice(s, u, applied, more);
      applied := applied + more;
    }
  }

  /**
   * A transaction that commits has read the same values and leaves the same store as direct execution, for every
   * run whose pre-key deletions it has seen; runs that touch no pre-keys are of that kind.
   */
  lemma TransactionRefinesDirect(base: Store, ops: seq<Op>, attempts: nat -> Attempt, retries: nat)
    requires retries >= 1
    requires NoPreKeys(ops) || AllHarmless(base, Staged(EMPTY, []), Direct(base, []), ops)
    ensures var staged := RunStaged(base, Staged(EMPTY, []), ops);
      var direct := RunDirect(Direct(base, []), ops);
      var committed := Commit(base, staged.context.mutations, attempts, 0, retries);
      && staged.answers == direct.answers
      && (staged.context.mutations == map[] ==> direct.store == base)
      && (committed.ok ==> committed.store == direct.store)
  {
    var staged := RunStaged(base, Staged(EMPTY, []), ops);
    if NoPreKeys(ops) {
      NoPreKeysHarmless(base, Staged(EMPTY, []), Direct(base, []), ops);
    }
    assert Overlay(base, map[]) == base by {
      StoreExtensional(Overlay(base, map[]), base);
    }
    StagedFollowsDirect(base, Staged(EMPTY, []), Direct(base, []), ops);
    if Commit(base, staged.context.mutations, attempts, 0, retries).ok {
      CommitSucceeds(base, staged.context.mutations, attempts, 0, retries);
    }
  }

  /** With no attempts allowed the transaction reports success and drops its mutations. */
  lemma NoAttemptsDropMutations(base: Store, u: Update, attempts: nat -> Attempt)
    ensures Commit(base, u, attempts, 0, 0) == Committed(base, true)
    ensures Commit(base, u, attempts, 0, 0).store == Overlay(base, u) <==> forall k :: k in u ==> u[k] == Lookup(base, k)
  {
    if forall k :: k in u ==> u[k] == Lookup(base, k) {
      StoreExtensional(base, Overlay(base, u));
    } else {
      var k :| k in u && u[k] != Lookup(base, k);
      assert Lookup(Overlay(base, u), k) == u[k];
    }
  }

  /** A pre-key deleted unseen: direct execution removes it, the transaction keeps it. */
  lemma UnseenDeletionIsLost(id: string, v: Value)
    ensures var k := Key(PRE_KEY, id);
      var base: Store := map[k := v];
      var ops := [Set(map[k := None])];
      && k !in RunDirect(Direct(base, []), ops).store
      && RunStaged(base, Staged(EMPTY, []), ops).context.mutations == map[]
  {
    var k := Key(PRE_KEY, id);
    var base: Store := map[k := v];
    var u: Update := map[k := None];
    var ops := [Set(u)];
    assert ops[1..] == [];
    assert Lookup(Overlay(base, u), k) == None;
    assert Effective(EMPTY, u) == map[];
  }
}
