/** The app-state resync loop: collections are asked for until each is complete or given up. */
module Resync {
  import opened Common
  import opened AppStateSync
  import opened AppStateLaws

  const MAX_SYNC_ATTEMPTS: nat := 2

  datatype Name = Name(utf8: Bytes)

  datatype Item = Item(patches: seq<Patch>, hasMorePatches: bool, snapshot: Option<Snapshot>)

  /** The decoders the loop calls, and which errors carry a 404 status or a type error. */
  datatype Config = Config(
    decodeSnapshot: (Name, Snapshot, Option<int>) -> Result<Synced>,
    decodePatches: (Name, seq<Patch>, SyncState, Option<int>) -> Result<Synced>,
    irrecoverable: SyncError -> bool)

  function MakeConfig(env: Env, verifySnapshot: bool, verifyPatch: bool, irrecoverable: SyncError -> bool): Config {
    Config(
      (name: Name, s, minimum) => DecodeSnapshot(env, name.utf8, s, minimum, verifySnapshot),
      (name: Name, ps, from, minimum) => DecodeAll(env, name.utf8, ps, Synced(from, map[]), minimum, verifyPatch),
      irrecoverable)
  }

  /**
   * One collection's entries across the loop's dictionaries: still to be handled, its stored state, failures so
   * far, the version its mutations must exceed, and the working state of the current round. `served` is the
   * server's side of it: the answers taken since the client's last failure. `written` is every write to the key
   * store, in order, None where the state is taken out of it; `handed` is every mutation decoded for it so far.
   */
  datatype Collection = Collection(
    open: bool, stored: Option<SyncState>, attempts: nat, version: Option<int>, working: Option<SyncState>, served: nat,
    written: seq<Option<SyncState>>, handed: MutationMap)

  /** One write to the key store. */
  function Persist(c: Collection, s: Option<SyncState>): Collection { c.(stored := s, written := c.written + [s]) }

  function CloneState(s: SyncState): SyncState { s.(hash := StartHash(s.hash)) }

  /** Before a request, an open collection gets a working copy of its stored state, or a new state. */
  function Prepared(c: Collection): Collection {
    match c.stored
    case Some(s) => c.(working := Some(CloneState(s)), version := if c.version.None? then Some(s.version) else c.version)
    case None => c.(working := Some(CloneState(NewState())))
  }

  datatype Step = Step(collection: Collection, delivered: MutationMap)

  function AfterSnapshot(cfg: Config, name: Name, c: Collection, item: Item): Result<Step> {
    if item.snapshot.None? then Ok(Step(c, map[])) else
    var r :- cfg.decodeSnapshot(name, item.snapshot.value, c.version);
    Ok(Step(Persist(c.(working := Some(CloneState(r.state))), Some(r.state)), r.delivered))
  }

  /** A collection nobody asked for has no working state to patch. */
  function AfterPatches(cfg: Config, name: Name, c: Collection, item: Item): Result<Step> {
    if item.patches == [] then Ok(Step(c, map[])) else
    if c.working.None? then Err(UnknownCollection) else
    var r :- cfg.decodePatches(name, item.patches, c.working.value, c.version);
    var taken := c.(version := Some(r.state.version), working := Some(CloneState(r.state)));
    Ok(Step(Persist(taken, Some(r.state)), r.delivered))
  }

  function Failed(cfg: Config, c: Collection, error: SyncError): Collection {
    var attempts := c.attempts + 1;
    Persist(c, None).(attempts := attempts, served := 0,
      open := c.open && !(attempts >= MAX_SYNC_ATTEMPTS || cfg.irrecoverable(error)))
  }

  datatype Outcome = Outcome(collection: Collection, error: Option<SyncError>, delivered: MutationMap)

  function WithHanded(r: Outcome): Outcome { r.(collection := r.collection.(handed := r.collection.handed + r.delivered)) }

  function HandleItem(cfg: Config, name: Name, c: Collection, item: Item): Outcome { WithHanded(TryItem(cfg, name, c, item)) }

  function TryItem(cfg: Config, name: Name, c: Collection, item: Item): Outcome {
    var first := AfterSnapshot(cfg, name, c, item);
    if first.Err? then Outcome(Failed(cfg, c, first.error), Some(first.error), map[]) else
    var second := AfterPatches(cfg, name, first.value.collection, item);
    if second.Err? then
      Outcome(Failed(cfg, first.value.collection, second.error), Some(second.error), first.value.delivered)
    else
    var taken := second.value.collection;
    var done := taken.(served := taken.served + 1);
    Outcome(if item.hasMorePatches then done else done.(open := false), None, first.value.delivered + second.value.delivered)
  }

  // ---- One item -------------------------------------------------------------------------------------

  ghost predicate Holds(c: Collection, good: SyncState -> bool) {
    && (c.stored.Some? ==> good(c.stored.value))
    && (c.working.Some? ==> good(c.working.value))
    && (forall i :: 0 <= i < |c.written| && c.written[i].Some? ==> good(c.written[i].value))
  }

  /** What is stored is what was written last, and nothing is written but at the end. */
  ghost predicate Logged(c: Collection, start: Collection) {
    && start.written <= c.written
    && c.stored == if c.written == start.written then start.stored else c.written[|c.written| - 1]
  }

  /** A property of states that a new state has and that cloning and successful decoding keep. */
  ghost predicate Kept(cfg: Config, good: SyncState -> bool) {
    && good(NewState())
    && (forall s :: good(s) ==> good(CloneState(s)))
    && (forall name, s, minimum :: cfg.decodeSnapshot(name, s, minimum).Ok? ==>
          good(cfg.decodeSnapshot(name, s, minimum).value.state))
    && (forall name, ps, from, minimum :: good(from) && cfg.decodePatches(name, ps, from, minimum).Ok? ==>
          good(cfg.decodePatches(name, ps, from, minimum).value.state))
  }

  /** The LT-hash invariant is such a property of the real decoders. */
  lemma ConsistencyKept(env: Env, verifySnapshot: bool, verifyPatch: bool, irrecoverable: SyncError -> bool)
    ensures Kept(MakeConfig(env, verifySnapshot, verifyPatch, irrecoverable), s => Consistent(env.crypto, s))
  {
    var cfg := MakeConfig(env, verifySnapshot, verifyPatch, irrecoverable);
    NewStateConsistent(env.crypto, 0);
    assert NewState().(version := 0) == NewState();
    forall s | Consistent(env.crypto, s)
      ensures Consistent(env.crypto, CloneState(s))
    {
      assert StartHash(StartHash(s.hash)) == StartHash(s.hash);
    }
    forall name: Name, s, minimum | cfg.decodeSnapshot(name, s, minimum).Ok?
      ensures Consistent(env.crypto, cfg.decodeSnapshot(name, s, minimum).value.state)
    {
      DecodeSnapshotConsistent(env, name.utf8, s, minimum, verifySnapshot);
    }
    forall name: Name, ps, from, minimum | Consistent(env.crypto, from) && cfg.decodePatches(name, ps, from, minimum).Ok?
      ensures Consistent(env.crypto, cfg.decodePatches(name, ps, from, minimum).value.state)
    {
      DecodeAllConsistent(env, name.utf8, ps, Synced(from, map[]), minimum, verifyPatch);
    }
  }

  lemma NothingWritten(c: Collection)
    ensures Logged(c, c)
  {
  }

  lemma PersistKeeps(c: Collection, d: Collection, start: Collection, s: Option<SyncState>, good: SyncState -> bool)
    requires Holds(c, good) && Logged(c, start)
    requires d.stored == s && d.written == c.written + [s] && (s.Some? ==> good(s.value))
    requires d.working.Some? ==> good(d.working.value)
    ensures Holds(d, good) && Logged(d, start)
  {
  }

  lemma PartsKeep(cfg: Config, name: Name, c: Collection, start: Collection, item: Item, good: SyncState -> bool)
    requires Kept(cfg, good) && Holds(c, good) && Logged(c, start)
    ensures var r := AfterSnapshot(cfg, name, c, item);
      r.Ok? ==> Holds(r.value.collection, good) && Logged(r.value.collection, start)
    ensures var r := AfterPatches(cfg, name, c, item);
      r.Ok? ==> Holds(r.value.collection, good) && Logged(r.value.collection, start)
  {
    hide Logged;
    var first, second := AfterSnapshot(cfg, name, c, item), AfterPatches(cfg, name, c, item);
    if item.snapshot.Some? && first.Ok? {
      PersistKeeps(c, first.value.collection, start, first.value.collection.stored, good);
    }
    if item.patches != [] && second.Ok? {
      PersistKeeps(c, second.value.collection, start, second.value.collection.stored, good);
    }
  }

  lemma FailedKeeps(cfg: Config, c: Collection, start: Collection, error: SyncError, good: SyncState -> bool)
    requires Holds(c, good) && Logged(c, start)
    ensures Holds(Failed(cfg, c, error), good) && Logged(Failed(cfg, c, error), start)
  {
    hide Logged;
    PersistKeeps(c, Failed(cfg, c, error), start, None, good);
  }

  lemma Reopened(c: Collection, d: Collection, start: Collection, good: SyncState -> bool)
    requires Holds(c, good) && Logged(c, start)
    requires d.stored == c.stored && d.working == c.working && d.written == c.written
    ensures Holds(d, good) && Logged(d, start)
  {
  }

  /**
   * Whatever decoding keeps, every state persisted while an item is handled has, the snapshot's too when the item's
   * patches fail afterwards.
   */
  lemma HandleItemKeeps(cfg: Config, name: Name, c: Collection, item: Item, good: SyncState -> bool)
    requires Kept(cfg, good) && Holds(c, good)
    ensures var r := HandleItem(cfg, name, c, item).collection; Holds(r, good) && Logged(r, c)
  {
    hide Kept, Holds, Logged, AfterSnapshot, AfterPatches;
    NothingWritten(c);
    PartsKeep(cfg, name, c, c, item, good);
    var first := AfterSnapshot(cfg, name, c, item);
    var result := HandleItem(cfg, name, c, item).collection;
    if first.Err? {
      FailedKeeps(cfg, c, c, first.error, good);
      Reopened(Failed(cfg, c, first.error), result, c, good);
    } else {
      var d := first.value.collection;
      PartsKeep(cfg, name, d, c, item, good);
      var second := AfterPatches(cfg, name, d, item);
      if second.Err? {
        FailedKeeps(cfg, d, c, second.error, good);
        Reopened(Failed(cfg, d, second.error), result, c, good);
      } else {
        Reopened(second.value.collection, result, c, good);
      }
    }
  }

  /** The outcome of the snapshot part of an item, on its own: no snapshot, or what its decoder says. */
  function SnapshotPart(cfg: Config, name: Name, c: Collection, item: Item): Option<Result<Synced>> {
    if item.snapshot.None? then None else Some(cfg.decodeSnapshot(name, item.snapshot.value, c.version))
  }

  /** What the patches of an item are decoded from: a clone of the snapshot's state, or the working state. */
  function PatchBase(cfg: Config, name: Name, c: Collection, item: Item): Option<SyncState> {
    match SnapshotPart(cfg, name, c, item)
    case Some(Ok(r)) => Some(CloneState(r.state))
    case _ => c.working
  }

  function PatchPart(cfg: Config, name: Name, c: Collection, item: Item): Option<Result<Synced>> {
    if item.patches == [] then None
    else
      match PatchBase(cfg, name, c, item)
      case None => Some(Err(UnknownCollection))
      case Some(base) => Some(cfg.decodePatches(name, item.patches, base, c.version))
  }

  predicate Decodes(r: Option<Result<Synced>>) { r.Some? && r.value.Ok? }

  predicate Fails(r: Option<Result<Synced>>) { r.Some? && r.value.Err? }

  function HandedIn(r: Option<Result<Synced>>): MutationMap { if Decodes(r) then r.value.value.delivered else map[] }

  /** Each half of the handler does what its decoder says, and the second starts where the first ended. */
  lemma PartsDecode(cfg: Config, name: Name, c: Collection, item: Item)
    ensures var r, snap := AfterSnapshot(cfg, name, c, item), SnapshotPart(cfg, name, c, item);
      && (r.Err? <==> Fails(snap)) && (r.Err? ==> r.error == snap.value.error)
      && (r.Ok? ==>
          var d := r.value.collection;
          && r.value.delivered == HandedIn(snap) && d.working == PatchBase(cfg, name, c, item)
          && d.written == c.written + (if Decodes(snap) then [Some(snap.value.value.state)] else [])
          && d.version == c.version && d.handed == c.handed
          && d.stored == if Decodes(snap) then Some(snap.value.value.state) else c.stored)
    ensures var first := AfterSnapshot(cfg, name, c, item);
      first.Ok? ==>
        var d := first.value.collection;
        var r, patch := AfterPatches(cfg, name, d, item), PatchPart(cfg, name, c, item);
        && (r.Err? <==> Fails(patch)) && (r.Err? ==> r.error == patch.value.error)
        && (r.Ok? ==>
            var e := r.value.collection;
            && r.value.delivered == HandedIn(patch) && e.handed == c.handed
            && e.written == d.written + (if Decodes(patch) then [Some(patch.value.value.state)] else [])
            && (if Decodes(patch) then
                && e.stored == Some(patch.value.value.state) && e.working == Some(CloneState(patch.value.value.state))
                && e.version == Some(patch.value.value.state.version)
              else e.stored == d.stored && e.working == d.working && e.version == d.version))
  {
  }

  /**
   * An item fails exactly when a part of it does, the snapshot first. Each part that decodes is persisted as it is and
   * its mutations are handed out, in order; a failure takes the state out at the end.
   */
  lemma HandleItemWrites(cfg: Config, name: Name, c: Collection, item: Item)
    ensures var r, snap, patch :=
        HandleItem(cfg, name, c, item), SnapshotPart(cfg, name, c, item), PatchPart(cfg, name, c, item);
      && r.error == (if Fails(snap) then Some(snap.value.error) else if Fails(patch) then Some(patch.value.error) else None)
      && r.collection.written == c.written
        + (if Decodes(snap) then [Some(snap.value.value.state)] else [])
        + (if !Fails(snap) && Decodes(patch) then [Some(patch.value.value.state)] else [])
        + (if r.error.Some? then [None] else [])
      && r.delivered == HandedIn(snap) + (if Fails(snap) then map[] else HandedIn(patch))
      && r.collection.handed == c.handed + r.delivered
  {
    hide AfterSnapshot, AfterPatches, SnapshotPart, PatchPart, PatchBase, CloneState;
    PartsDecode(cfg, name, c, item);
  }

  /**
   * An item without error leaves stored the state its patches decoded to, or its snapshot's if it has none, or what
   * was stored; the working state is a clone of it and the version its mutations must exceed is the patches' own.
   */
  lemma HandleItemStores(cfg: Config, name: Name, c: Collection, item: Item)
    requires HandleItem(cfg, name, c, item).error.None?
    ensures var r, snap, patch :=
        HandleItem(cfg, name, c, item).collection, SnapshotPart(cfg, name, c, item), PatchPart(cfg, name, c, item);
      if Decodes(patch) then
        && r.stored == Some(patch.value.value.state) && r.working == Some(CloneState(patch.value.value.state))
        && r.version == Some(patch.value.value.state.version)
      else if Decodes(snap) then
        && r.stored == Some(snap.value.value.state) && r.working == Some(CloneState(snap.value.value.state))
        && r.version == c.version
      else r.stored == c.stored && r.working == c.working && r.version == c.version
  {
    hide AfterSnapshot, AfterPatches, SnapshotPart, PatchPart, CloneState;
    PartsDecode(cfg, name, c, item);
  }

  /** A clone has the version, the map and the lanes of the original. */
  lemma CloneIsFaithful(s: SyncState)
    ensures var d := CloneState(s);
      d.version == s.version && d.indexValueMap == s.indexValueMap && LanesOf(d.hash) == LanesOf(s.hash)
  {
  }

  /** What one answer leaves stored of a collection, from what was stored before the request. */
  function StoredAfter(cfg: Config, name: Name, c: Collection, item: Item): Option<SyncState> {
    var version := if c.version.Some? then c.version else if c.stored.Some? then Some(c.stored.value.version) else None;
    var base := CloneState(if c.stored.Some? then c.stored.value else NewState());
    var asked := c.(version := version, working := Some(base));
    var snap, patch := SnapshotPart(cfg, name, asked, item), PatchPart(cfg, name, asked, item);
    if Decodes(patch) then Some(patch.value.value.state)
    else if Decodes(snap) then Some(snap.value.value.state)
    else c.stored
  }

  lemma RoundStores(cfg: Config, name: Name, c: Collection, item: Item)
    requires HandleItem(cfg, name, Prepared(c), item).error.None?
    ensures HandleItem(cfg, name, Prepared(c), item).collection.stored == StoredAfter(cfg, name, c, item)
  {
    hide HandleItem, SnapshotPart, PatchPart;
    HandleItemStores(cfg, name, Prepared(c), item);
    var version := if c.version.Some? then c.version else if c.stored.Some? then Some(c.stored.value.version) else None;
    var base := CloneState(if c.stored.Some? then c.stored.value else NewState());
    assert Prepared(c) == c.(version := version, working := Some(base));
  }

  /**
   * An item that decodes leaves the failure count alone and keeps its collection open just when more is announced;
   * one that does not adds a failure, leaves nothing stored, and keeps it open just when the error can be recovered
   * from and the limit is not reached.
   */
  lemma HandleItemEffect(cfg: Config, name: Name, c: Collection, item: Item)
    ensures var r := HandleItem(cfg, name, c, item);
      && (r.error.None? ==>
          && r.collection.attempts == c.attempts
          && r.collection.open == (c.open && item.hasMorePatches)
          && r.collection.served == c.served + 1)
      && (r.error.Some? ==>
          && r.collection.attempts == c.attempts + 1
          && r.collection.stored == None
          && r.collection.open
            == (c.open && r.collection.attempts < MAX_SYNC_ATTEMPTS && !cfg.irrecoverable(r.error.value)))
      && (c.stored == None && r.collection.stored.Some? ==> r.error.None?)
  {
  }

  // ---- The whole loop -------------------------------------------------------------------------------

  /**
   * The server's side of one collection: after each failure of the client it starts over, and within one
   * start its answers are numbered. `order` is the order in which a response lists the requested collections.
   */
  datatype Server = Server(answer: (nat, Name, nat, nat) -> Item, order: (nat, set<Name>) -> seq<Name>)

  ghost predicate Lists(names: seq<Name>, s: set<Name>) {
    && (forall n :: n in names <==> n in s)
    && (forall i, j :: 0 <= i < j < |names| ==> names[i] != names[j])
  }

  /** Responses cover exactly what was asked, and between failures only `batches` answers announce more. */
  ghost predicate Finite(server: Server, batches: (Name, nat) -> nat) {
    && (forall round, s :: Lists(server.order(round, s), s))
    && (forall round: nat, n, failures: nat, batch: nat ::
          server.answer(round, n, failures, batch).hasMorePatches ==> batch < batches(n, failures))
  }

  /** Equal in everything that outlives a round. */
  predicate Same(c: Collection, d: Collection) {
    && c.open == d.open && c.stored == d.stored && c.attempts == d.attempts && c.version == d.version
    && c.served == d.served && c.written == d.written && c.handed == d.handed
  }

  function Answered(cfg: Config, server: Server, name: Name, c: Collection, round: nat): Collection {
    HandleItem(cfg, name, c, server.answer(round, name, c.attempts, c.served)).collection
  }

  /** One round of one collection. */
  function PlayRound(cfg: Config, server: Server, name: Name, c: Collection, round: nat): Outcome {
    HandleItem(cfg, name, Prepared(c), server.answer(round, name, c.attempts, c.served))
  }

  function BatchesAhead(batches: (Name, nat) -> nat, name: Name, c: Collection): nat {
    if c.served < batches(name, c.attempts) then batches(name, c.attempts) - c.served else 0
  }

  /** The latest request for a collection: its round, and the collection as it was before. */
  datatype Turn = Turn(round: nat, before: Collection)

  datatype Fate = Fate(collection: Collection, lastDecoded: bool, last: Option<Turn>)

  function AnswerTo(server: Server, name: Name, t: Turn): Item {
    server.answer(t.round, name, t.before.attempts, t.before.served)
  }

  /**
   * What becomes of one collection, looked at by itself: it is asked for, round after round, until it is closed.
   * It ends because each failure uses up an attempt and, between failures, each answer uses up a batch.
   */
  ghost function Follow(cfg: Config, server: Server, batches: (Name, nat) -> nat, name: Name, f: Fate, round: nat): Fate
    requires Finite(server, batches)
    requires f.collection.open ==> f.collection.attempts < MAX_SYNC_ATTEMPTS
    decreases MAX_SYNC_ATTEMPTS - f.collection.attempts, f.collection.open,
      BatchesAhead(batches, name, f.collection)
  {
    var c := f.collection;
    if !c.open then f else
    var r := PlayRound(cfg, server, name, c, round);
    assert server.answer(round, name, c.attempts, c.served).hasMorePatches ==> c.served < batches(name, c.attempts);
    Follow(cfg, server, batches, name, Fate(r.collection, r.error.None?, Some(Turn(round, c))), round + 1)
  }

  /** If the latest answer decoded, its state is what is stored. */
  predicate LastIsStored(cfg: Config, server: Server, name: Name, f: Fate) {
    f.last.Some? && f.lastDecoded ==>
      f.collection.stored == StoredAfter(cfg, name, f.last.value.before, AnswerTo(server, name, f.last.value))
  }

  lemma OneBatch(server: Server, batches: (Name, nat) -> nat, round: nat, n: Name, failures: nat, batch: nat)
    requires Finite(server, batches)
    ensures server.answer(round, n, failures, batch).hasMorePatches ==> batch < batches(n, failures)
  {
  }

  lemma PreparedKeeps(cfg: Config, c: Collection, good: SyncState -> bool)
    requires Kept(cfg, good) && Holds(c, good)
    ensures Holds(Prepared(c), good) && Logged(Prepared(c), c)
  {
  }

  /** Writes before and after a point are the writes of the whole. */
  lemma LoggedAcross(c: Collection, middle: Collection, start: Collection)
    requires Logged(c, middle) && Logged(middle, start)
    ensures Logged(c, start)
  {
  }

  /**
   * Every collection ends closed, with at most the allowed failures, with nothing stored if its latest answer
   * failed and that answer's state if it decoded; every state it persisted on the way has whatever property decoding
   * keeps.
   */
  lemma {:induction false} FollowEnds(cfg: Config, server: Server, batches: (Name, nat) -> nat, name: Name, f: Fate, round: nat,
      good: SyncState -> bool)
    requires Finite(server, batches) && Kept(cfg, good) && Holds(f.collection, good)
    requires f.collection.open ==> f.collection.attempts < MAX_SYNC_ATTEMPTS
    requires f.collection.attempts <= MAX_SYNC_ATTEMPTS
    requires !f.lastDecoded ==> f.collection.stored == None
    requires LastIsStored(cfg, server, name, f)
    ensures var r := Follow(cfg, server, batches, name, f, round);
      && !r.collection.open
      && r.collection.attempts <= MAX_SYNC_ATTEMPTS
      && (!r.lastDecoded ==> r.collection.stored == None)
      && Holds(r.collection, good)
      && Logged(r.collection, f.collection)
      && LastIsStored(cfg, server, name, r) && (f.collection.open ==> r.last.Some?)
    decreases MAX_SYNC_ATTEMPTS - f.collection.attempts, f.collection.open,
      BatchesAhead(batches, name, f.collection)
  {
    hide Holds, Logged, Kept, HandleItem, Finite, StoredAfter;
    var c := f.collection;
    NothingWritten(c);
    if c.open {
      var item := server.answer(round, name, c.attempts, c.served);
      var r := PlayRound(cfg, server, name, c, round);
      OneBatch(server, batches, round, name, c.attempts, c.served);
      if r.error.None? {
        RoundStores(cfg, name, c, item);
      }
      HandleItemEffect(cfg, name, Prepared(c), item);
      PreparedKeeps(cfg, c, good);
      HandleItemKeeps(cfg, name, Prepared(c), item, good);
      LoggedAcross(r.collection, Prepared(c), c);
      FollowEnds(cfg, server, batches, name, Fate(r.collection, r.error.None?, Some(Turn(round, c))), round + 1, good);
      LoggedAcross(Follow(cfg, server, batches, name, f, round).collection, r.collection, c);
    }
  }

  lemma FollowSame(cfg: Config, server: Server, batches: (Name, nat) -> nat, name: Name, f: Fate, g: Fate, round: nat)
    requires Finite(server, batches)
    requires f.collection.open ==> f.collection.attempts < MAX_SYNC_ATTEMPTS
    requires Same(f.collection, g.collection)
    ensures Same(Follow(cfg, server, batches, name, f, round).collection,
      Follow(cfg, server, batches, name, g, round).collection)
  {
    assert Prepared(f.collection) == Prepared(g.collection);
  }

  ghost function Pick(s: set<Name>): (n: Name)
    requires s != {}
    ensures n in s
  {
    var n :| n in s; n
  }

  ghost function Sum(s: set<Name>, f: Name -> nat): nat {
    if s == {} then 0 else var n := Pick(s); f(n) + Sum(s - {n}, f)
  }

  lemma {:induction false} SumSplit(s: set<Name>, f: Name -> nat, n: Name)
    requires n in s
    ensures Sum(s, f) == f(n) + Sum(s - {n}, f)
  {
    var first := Pick(s);
    if first != n {
      SumSplit(s - {first}, f, n);
      SumSplit(s - {n}, f, first);
      assert s - {first} - {n} == s - {n} - {first};
    }
  }

  lemma {:induction false} SumMonotone(small: set<Name>, big: set<Name>, f: Name -> nat, g: Name -> nat)
    requires small <= big && forall n :: n in small ==> f(n) <= g(n)
    ensures Sum(small, f) <= Sum(big, g)
    decreases big
  {
    if big != {} {
      var n := Pick(big);
      SumMonotone(small - {n}, big - {n}, f, g);
      if n in small {
        SumSplit(small, f, n);
      } else {
        assert small - {n} == small;
      }
    }
  }

  /** A sum drops when no term grows and one term either leaves with something in it or shrinks. */
  lemma SumDrops(small: set<Name>, big: set<Name>, f: Name -> nat, g: Name -> nat, n: Name)
    requires small <= big && forall k :: k in small ==> f(k) <= g(k)
    requires n in big && (if n in small then f(n) < g(n) else g(n) > 0)
    ensures Sum(small, f) < Sum(big, g)
  {
    SumMonotone(small - {n}, big - {n}, f, g);
    SumSplit(big, g, n);
    if n in small {
      SumSplit(small, f, n);
    } else {
      assert small - {n} == small;
    }
  }

  /** A count kept in a dictionary; no entry counts as zero. */
  function Count(m: map<Name, nat>, n: Name): nat { if n in m then m[n] else 0 }

  function AttemptsOf(attempts: map<Name, nat>): Name -> nat {
    n => if Count(attempts, n) < MAX_SYNC_ATTEMPTS then MAX_SYNC_ATTEMPTS - Count(attempts, n) else 0
  }

  function BatchesOf(attempts: map<Name, nat>, served: map<Name, nat>, batches: (Name, nat) -> nat): Name -> nat {
    n =>
      var total := batches(n, Count(attempts, n));
      if Count(served, n) < total then total - Count(served, n) else 0
  }

  /** What the loop's measure looks at: the open collections, their failures, and the server's positions. */
  datatype Progress = Progress(handle: set<Name>, attempts: map<Name, nat>, served: map<Name, nat>)

  ghost function AttemptsLeft(p: Progress): nat { Sum(p.handle, AttemptsOf(p.attempts)) }

  ghost function BatchesLeft(p: Progress, batches: (Name, nat) -> nat): nat {
    Sum(p.handle, BatchesOf(p.attempts, p.served, batches))
  }

  /** What a finished round did to one collection that was open when it began: closed it, failed it, or took a batch. */
  ghost predicate RoundOutcome(before: Progress, after: Progress, batches: (Name, nat) -> nat, n: Name) {
    var a, b := Count(before.attempts, n), Count(after.attempts, n);
    || (n !in after.handle && b <= a + 1)
    || (n in after.handle && a < b < MAX_SYNC_ATTEMPTS)
    || (n in after.handle && b == a
        && Count(before.served, n) < batches(n, a) && Count(after.served, n) == Count(before.served, n) + 1)
  }

  lemma OnlyBatches(before: Progress, after: Progress, batches: (Name, nat) -> nat)
    requires before.handle != {} && after.handle <= before.handle
    requires forall n :: n in before.handle ==> n in after.handle && Count(after.attempts, n) == Count(before.attempts, n)
    requires forall n :: n in before.handle ==> RoundOutcome(before, after, batches, n)
    ensures BatchesLeft(after, batches) < BatchesLeft(before, batches)
  {
    hide Sum;
    SumDrops(after.handle, before.handle, BatchesOf(after.attempts, after.served, batches),
      BatchesOf(before.attempts, before.served, batches), Pick(before.handle));
  }

  /** Either the failures still allowed go down, or they stay and the batches still announced go down. */
  lemma RoundProgress(before: Progress, after: Progress, batches: (Name, nat) -> nat)
    requires before.handle != {} && after.handle <= before.handle
    requires forall n :: n in before.handle ==> Count(before.attempts, n) < MAX_SYNC_ATTEMPTS
    requires forall n :: n in before.handle ==> RoundOutcome(before, after, batches, n)
    ensures AttemptsLeft(after) <= AttemptsLeft(before)
    ensures AttemptsLeft(after) == AttemptsLeft(before) ==> BatchesLeft(after, batches) < BatchesLeft(before, batches)
  {
    hide Sum, Pick;
    SumMonotone(after.handle, before.handle, AttemptsOf(after.attempts), AttemptsOf(before.attempts));
    if n :| n in before.handle && !(n in after.handle && Count(after.attempts, n) == Count(before.attempts, n)) {
      SumDrops(after.handle, before.handle, AttemptsOf(after.attempts), AttemptsOf(before.attempts), n);
    } else {
      OnlyBatches(before, after, batches);
    }
  }

  function Entry<V>(m: map<Name, V>, n: Name): Option<V> { if n in m then Some(m[n]) else None }

  function WithEntry<V>(m: map<Name, V>, n: Name, v: Option<V>): (r: map<Name, V>)
    ensures Entry(r, n) == v
    ensures forall k :: k != n ==> Entry(r, k) == Entry(m, k)
  {
    match v
    case Some(x) => m[n := x]
    case None => m - {n}
  }

  function Log(m: map<Name, seq<Option<SyncState>>>, n: Name): seq<Option<SyncState>> { if n in m then m[n] else [] }

  function HandedBy(m: map<Name, MutationMap>, n: Name): MutationMap { if n in m then m[n] else map[] }

  lemma MergedLater(mutations: MutationMap, handed: map<Name, MutationMap>, name: Name, delivered: MutationMap,
      mutations2: MutationMap, handed2: map<Name, MutationMap>)
    requires forall k :: k in mutations ==> exists n :: k in HandedBy(handed, n) && HandedBy(handed, n)[k] == mutations[k]
    requires forall n, k :: k in HandedBy(handed, n) ==> k in mutations
    requires mutations2 == mutations + delivered
    requires forall n :: HandedBy(handed2, n) == if n == name then HandedBy(handed, n) + delivered else HandedBy(handed, n)
    ensures forall k :: k in mutations2 ==> exists n :: k in HandedBy(handed2, n) && HandedBy(handed2, n)[k] == mutations2[k]
    ensures forall n, k :: k in HandedBy(handed2, n) ==> k in mutations2
  {
    forall k | k in mutations2
      ensures exists n :: k in HandedBy(handed2, n) && HandedBy(handed2, n)[k] == mutations2[k]
    {
      if k in delivered {
        assert k in HandedBy(handed2, name) && HandedBy(handed2, name)[k] == mutations2[k];
      } else {
        var n :| k in HandedBy(handed, n) && HandedBy(handed, n)[k] == mutations[k];
        assert k in HandedBy(handed2, n) && HandedBy(handed2, n)[k] == mutations2[k];
      }
    }
  }

  /** One resync call: the loop's variables are the fields of this object. */
  class ResyncLoop {
    const cfg: Config
    var store: map<Name, SyncState>
    var handle: set<Name>
    var attempts: map<Name, nat>
    var versions: map<Name, int>
    var states: map<Name, SyncState>
    var mutations: MutationMap
    var served: map<Name, nat>
    var written: map<Name, seq<Option<SyncState>>>
    var handed: map<Name, MutationMap>

    /** The mutations are those of the collections, one collection's where several have the same index. */
    ghost predicate Merged()
      reads this`mutations, this`handed
    {
      && (forall k :: k in mutations ==> exists n :: k in HandedBy(handed, n) && HandedBy(handed, n)[k] == mutations[k])
      && (forall n, k :: k in HandedBy(handed, n) ==> k in mutations)
    }

    function View(n: Name): Collection
      reads this
    {
      Collection(n in handle, Entry(store, n), Count(attempts, n), Entry(versions, n), Entry(states, n), Count(served, n),
        Log(written, n), HandedBy(handed, n))
    }

    function Position(): Progress
      reads this
    {
      Progress(handle, attempts, served)
    }

    constructor (cfg: Config, stored: map<Name, SyncState>, collections: set<Name>)
      ensures this.cfg == cfg && store == stored && handle == collections
      ensures attempts == map[] && versions == map[] && states == map[] && mutations == map[]
      ensures served == map[] && written == map[] && handed == map[] && Merged()
    {
      this.cfg := cfg;
      store, handle := stored, collections;
      attempts, versions, states, mutations, served, written, handed := map[], map[], map[], map[], map[], map[], map[];
    }

    /** The loop over the open collections that builds the request. */
    method BeginRound()
      modifies this`states, this`versions
      ensures forall n :: View(n) == if n in handle then Prepared(old(View(n))) else old(View(n)).(working := None)
    {
      var rest := handle;
      states := map[];
      while rest != {}
        invariant rest <= handle
        invariant forall n ::
          View(n) == if n in handle - rest then Prepared(old(View(n))) else old(View(n)).(working := None)
        decreases rest
      {
        var name :| name in rest;
        rest := rest - {name};
        if name in store {
          if name !in versions {
            versions := versions[name := store[name].version];
          }
          states := states[name := CloneState(store[name])];
        } else {
          states := states[name := CloneState(NewState())];
        }
      }
    }

    /** Writes one collection's entries back; closing is final. */
    method Put(name: Name, c: Collection)
      requires c.open ==> name in handle
      modifies this`store, this`handle, this`attempts, this`versions, this`states, this`served, this`written, this`handed
      ensures View(name) == c
      ensures forall n :: n != name ==> View(n) == old(View(n))
      ensures handle <= old(handle)
    {
      store := WithEntry(store, name, c.stored);
      written := written[name := c.written];
      handed := handed[name := c.handed];
      versions := WithEntry(versions, name, c.version);
      states := WithEntry(states, name, c.working);
      attempts := attempts[name := c.attempts];
      served := served[name := c.served];
      handle := if c.open then handle else handle - {name};
    }

    /** The body of the try block, with its handler; only this collection's entries change. */
    method TakeItem(name: Name, item: Item)
      requires Merged()
      modifies this
      ensures Merged()
      ensures View(name) == HandleItem(cfg, name, old(View(name)), item).collection
      ensures mutations == old(mutations) + HandleItem(cfg, name, old(View(name)), item).delivered
      ensures forall n :: n != name ==> View(n) == old(View(n))
      ensures handle <= old(handle)
    {
      ghost var c0, handed0 := View(name), handed;
      var c := View(name);
      var delivered: MutationMap := map[];
      var error := None;
      var first := AfterSnapshot(cfg, name, c, item);
      if first.Err? {
        error := Some(first.error);
      } else {
        c, delivered := first.value.collection, first.value.delivered;
        Put(name, c);
        var second := AfterPatches(cfg, name, c, item);
        if second.Err? {
          error := Some(second.error);
        } else {
          c, delivered := second.value.collection, delivered + second.value.delivered;
          c := c.(served := c.served + 1);
          if !item.hasMorePatches {
            c := c.(open := false);
          }
        }
      }
      if error.Some? {
        c := Failed(cfg, c, error.value);
      }
      c := c.(handed := c.handed + delivered);
      assert Outcome(c, error, delivered) == HandleItem(cfg, name, c0, item);
      HandleItemEffect(cfg, name, c0, item);
      HandleItemWrites(cfg, name, c0, item);
      Put(name, c);
      mutations := mutations + delivered;
      assert View(name).handed == c0.handed + delivered;
      forall n | n != name
        ensures HandedBy(handed, n) == HandedBy(handed0, n)
      {
        assert View(n).handed == old(View(n)).handed;
      }
      MergedLater(old(mutations), handed0, name, delivered, mutations, handed);
    }

    /** The loop over a response's items. */
    method TakeResponse(server: Server, round: nat, names: seq<Name>)
      requires Merged()
      ensures Merged()
      requires forall i, j :: 0 <= i < j < |names| ==> names[i] != names[j]
      modifies this
      ensures forall n :: n in names ==> View(n) == Answered(cfg, server, n, old(View(n)), round)
      ensures forall n :: n !in names ==> View(n) == old(View(n))
      ensures handle <= old(handle)
    {
      hide View, Merged, HandleItem;
      for i := 0 to |names|
        invariant handle <= old(handle) && Merged()
        invariant forall n :: n in names[..i] ==> View(n) == Answered(cfg, server, n, old(View(n)), round)
        invariant forall n :: n !in names[..i] ==> View(n) == old(View(n))
      {
        var name := names[i];
        assert name !in names[..i];
        var c := View(name);
        var item := server.answer(round, name, c.attempts, c.served);
        TakeItem(name, item);
        assert View(name) == Answered(cfg, server, name, old(View(name)), round);
        assert names[..i + 1] == names[..i] + [name];
      }
      assert names[..|names|] == names;
    }

    /** One request and its response: every open collection takes its round, the others are left alone. */
    method RunRound(server: Server, round: nat, ghost batches: (Name, nat) -> nat)
      requires Finite(server, batches) && Merged()
      ensures Merged()
      modifies this
      ensures handle <= old(handle)
      ensures forall n :: n in old(handle) ==> Same(View(n), PlayRound(cfg, server, n, old(View(n)), round).collection)
      ensures forall n :: n !in old(handle) ==> Same(View(n), old(View(n)))
    {
      var names := server.order(round, handle);
      assert Lists(names, handle);
      BeginRound();
      TakeResponse(server, round, names);
    }

    /** The loop ends with every collection closed, and each has followed its own course. */
    method Run(server: Server, ghost batches: (Name, nat) -> nat)
      requires Finite(server, batches)
      requires attempts == map[] && served == map[] && Merged()
      modifies this
      ensures handle == {} && Merged()
      ensures forall n :: Same(View(n), Follow(cfg, server, batches, n, Fate(old(View(n)), true, None), 0).collection)
    {
      hide Follow, PlayRound, Finite, Merged, AttemptsLeft, BatchesLeft, RoundOutcome;
      var round := 0;
      while handle != {}
        invariant Merged()
        invariant forall n :: n in handle ==> View(n).attempts < MAX_SYNC_ATTEMPTS
        invariant forall n ::
          Same(Follow(cfg, server, batches, n, Fate(View(n), true, None), round).collection,
            Follow(cfg, server, batches, n, Fate(old(View(n)), true, None), 0).collection)
        decreases AttemptsLeft(Position()), BatchesLeft(Position(), batches)
      {
        ghost var before := Position();
        label Request:
        RunRound(server, round, batches);
        forall n
          ensures n in handle ==> View(n).attempts < MAX_SYNC_ATTEMPTS
          ensures n in before.handle ==> RoundOutcome(before, Position(), batches, n)
          ensures Same(Follow(cfg, server, batches, n, Fate(View(n), true, None), round + 1).collection,
            Follow(cfg, server, batches, n, Fate(old@Request(View(n)), true, None), round).collection)
        {
          RoundOfOne(cfg, server, batches, n, old@Request(View(n)), View(n), before, Position(), round);
        }
        RoundProgress(before, Position(), batches);
        round := round + 1;
      }
      forall n
        ensures Same(View(n), Follow(cfg, server, batches, n, Fate(old(View(n)), true, None), 0).collection)
      {
        ClosedStays(cfg, server, batches, n, Fate(View(n), true, None), round);
      }
    }
  }

  /** A finished round, seen from one collection. */
  lemma RoundOfOne(cfg: Config, server: Server, batches: (Name, nat) -> nat, n: Name, c: Collection, d: Collection,
      before: Progress, after: Progress, round: nat)
    requires Finite(server, batches)
    requires c.open == (n in before.handle) && c.attempts == Count(before.attempts, n) && c.served == Count(before.served, n)
    requires d.open == (n in after.handle) && d.attempts == Count(after.attempts, n) && d.served == Count(after.served, n)
    requires c.open ==> c.attempts < MAX_SYNC_ATTEMPTS
    requires Same(d, if c.open then PlayRound(cfg, server, n, c, round).collection else c)
    ensures d.open ==> d.attempts < MAX_SYNC_ATTEMPTS
    ensures n in before.handle ==> RoundOutcome(before, after, batches, n)
    ensures Same(Follow(cfg, server, batches, n, Fate(d, true, None), round + 1).collection,
      Follow(cfg, server, batches, n, Fate(c, true, None), round).collection)
  {
    if c.open {
      var item := server.answer(round, n, c.attempts, c.served);
      var r := PlayRound(cfg, server, n, c, round);
      HandleItemEffect(cfg, n, Prepared(c), item);
      assert item.hasMorePatches ==> c.served < batches(n, c.attempts);
      FollowSame(cfg, server, batches, n, Fate(d, true, None), Fate(r.collection, r.error.None?, Some(Turn(round, c))), round + 1);
    }
  }

  function Initially(stored: map<Name, SyncState>, collections: set<Name>, n: Name): Collection {
    Collection(n in collections, Entry(stored, n), 0, None, None, 0, [], map[])
  }

  /**
   * The call the socket makes. Each collection follows its own course; over a store whose states are consistent
   * every state written to it on the way is consistent, and it holds what was written last: the latest answer's state
   * if that decoded, nothing if it failed. Every mutation decoded on the way is handed on.
   */
  method ResyncAppState(env: Env, verifySnapshot: bool, verifyPatch: bool, irrecoverable: SyncError -> bool,
      stored: map<Name, SyncState>, collections: set<Name>, server: Server, ghost batches: (Name, nat) -> nat)
    returns (store: map<Name, SyncState>, written: map<Name, seq<Option<SyncState>>>, mutations: MutationMap)
    requires Finite(server, batches)
    requires forall n :: n in stored ==> Consistent(env.crypto, stored[n])
    ensures var cfg := MakeConfig(env, verifySnapshot, verifyPatch, irrecoverable);
      forall n ::
        var fate := Course(cfg, server, batches, stored, collections, n);
        && Entry(store, n) == fate.collection.stored && Log(written, n) == fate.collection.written
        && fate.collection.attempts <= MAX_SYNC_ATTEMPTS && (fate.last.Some? <==> n in collections)
        && (!fate.lastDecoded ==> n !in store)
        && LastIsStored(cfg, server, n, fate)
    ensures forall n ::
      Entry(store, n) == if Log(written, n) == [] then Entry(stored, n) else Log(written, n)[|Log(written, n)| - 1]
    ensures forall n, i :: 0 <= i < |Log(written, n)| && Log(written, n)[i].Some? ==>
      Consistent(env.crypto, Log(written, n)[i].value)
    ensures forall n :: n in store ==> Consistent(env.crypto, store[n])
    ensures var cfg := MakeConfig(env, verifySnapshot, verifyPatch, irrecoverable);
      && (forall n, k :: k in Course(cfg, server, batches, stored, collections, n).collection.handed ==> k in mutations)
      && (forall k :: k in mutations ==> exists n ::
            var handed := Course(cfg, server, batches, stored, collections, n).collection.handed;
            k in handed && handed[k] == mutations[k])
  {
    hide Follow, Consistent, MakeConfig, LastIsStored, StoredAfter;
    var cfg := MakeConfig(env, verifySnapshot, verifyPatch, irrecoverable);
    var loop := new ResyncLoop(cfg, stored, collections);
    assert forall n :: loop.View(n) == Initially(stored, collections, n);
    loop.Run(server, batches);
    store, written, mutations := loop.store, loop.written, loop.mutations;
    forall n
      ensures CourseResult(env, cfg, server, stored, collections, n, Course(cfg, server, batches, stored, collections, n))
      ensures
        var c := Course(cfg, server, batches, stored, collections, n).collection;
        Entry(store, n) == c.stored && Log(written, n) == c.written && HandedBy(loop.handed, n) == c.handed
    {
      var view := loop.View(n);
      assert view.stored == Entry(store, n) && view.written == Log(written, n) && view.handed == HandedBy(loop.handed, n);
      CourseEnds(env, verifySnapshot, verifyPatch, irrecoverable, server, batches, stored, collections, n);
    }
    forall k | k in mutations
      ensures exists n ::
        var handed := Course(cfg, server, batches, stored, collections, n).collection.handed;
        k in handed && handed[k] == mutations[k]
    {
      var n :| k in HandedBy(loop.handed, n) && HandedBy(loop.handed, n)[k] == mutations[k];
      assert HandedBy(loop.handed, n) == Course(cfg, server, batches, stored, collections, n).collection.handed;
    }
  }

  /** One collection's course in a call, from what is stored and asked for. */
  ghost function Course(cfg: Config, server: Server, batches: (Name, nat) -> nat, stored: map<Name, SyncState>,
      collections: set<Name>, n: Name): Fate
    requires Finite(server, batches)
  {
    Follow(cfg, server, batches, n, Fate(Initially(stored, collections, n), true, None), 0)
  }

  /** What a course ends with: see `CourseEnds`. */
  ghost predicate CourseResult(env: Env, cfg: Config, server: Server, stored: map<Name, SyncState>, collections: set<Name>,
      n: Name, fate: Fate)
  {
    var c := fate.collection;
    && !c.open && c.attempts <= MAX_SYNC_ATTEMPTS && (fate.last.Some? <==> n in collections)
    && (!fate.lastDecoded ==> c.stored == None) && LastIsStored(cfg, server, n, fate)
    && c.stored == (if c.written == [] then Entry(stored, n) else c.written[|c.written| - 1])
    && (c.stored.Some? ==> Consistent(env.crypto, c.stored.value))
    && (forall i :: 0 <= i < |c.written| && c.written[i].Some? ==> Consistent(env.crypto, c.written[i].value))
  }

  lemma CourseEnds(env: Env, verifySnapshot: bool, verifyPatch: bool, irrecoverable: SyncError -> bool, server: Server,
      batches: (Name, nat) -> nat, stored: map<Name, SyncState>, collections: set<Name>, n: Name)
    requires Finite(server, batches)
    requires forall n :: n in stored ==> Consistent(env.crypto, stored[n])
    ensures var cfg := MakeConfig(env, verifySnapshot, verifyPatch, irrecoverable);
      CourseResult(env, cfg, server, stored, collections, n, Course(cfg, server, batches, stored, collections, n))
  {
    hide Follow, Finite, Kept, Consistent, MakeConfig;
    var cfg := MakeConfig(env, verifySnapshot, verifyPatch, irrecoverable);
    var good := s => Consistent(env.crypto, s);
    var start := Fate(Initially(stored, collections, n), true, None);
    ConsistencyKept(env, verifySnapshot, verifyPatch, irrecoverable);
    FollowEnds(cfg, server, batches, n, start, 0, good);
    if n !in collections {
      ClosedStays(cfg, server, batches, n, start, 0);
    }
  }

  lemma ClosedStays(cfg: Config, server: Server, batches: (Name, nat) -> nat, n: Name, f: Fate, round: nat)
    requires Finite(server, batches) && !f.collection.open
    ensures Follow(cfg, server, batches, n, f, round) == f
  {
  }
}
