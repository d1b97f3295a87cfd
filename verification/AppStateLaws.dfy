/** What app-state sync promises: the hash always speaks for the map, and encoding agrees with decoding. */
module AppStateLaws {
  import opened Common
  import opened LtHash
  import opened AppStateSync

  // ---- The hash of a map ----------------------------------------------------------------------------

  ghost function PickKey(m: IndexMap): (k: Bytes)
    requires m != map[]
    ensures k in m
  {
    var k :| k in m; k
  }

  /** The sum of the expanded value MACs of a map, in one lane. */
  ghost function MapTotal(sha512: Sha512, m: IndexMap, lane: nat): int
    requires lane < HASH_SIZE
    decreases |m|
  {
    if m == map[] then 0
    else var k := PickKey(m); Lane(sha512, m[k], lane) + MapTotal(sha512, m - {k}, lane)
  }

  /** The sum does not depend on the order in which keys are taken. */
  lemma {:induction false} MapTotalRemove(sha512: Sha512, m: IndexMap, k: Bytes, lane: nat)
    requires lane < HASH_SIZE && k in m
    ensures MapTotal(sha512, m, lane) == Lane(sha512, m[k], lane) + MapTotal(sha512, m - {k}, lane)
    decreases |m|
  {
    var first := PickKey(m);
    if first != k {
      MapTotalRemove(sha512, m - {first}, k, lane);
      MapTotalRemove(sha512, m - {k}, first, lane);
      assert m - {first} - {k} == m - {k} - {first};
    }
  }

  lemma MapTotalUpdate(sha512: Sha512, m: IndexMap, k: Bytes, v: Bytes, lane: nat)
    requires lane < HASH_SIZE
    ensures MapTotal(sha512, m[k := v], lane) == MapTotal(sha512, m - {k}, lane) + Lane(sha512, v, lane)
  {
    MapTotalRemove(sha512, m[k := v], k, lane);
    assert m[k := v] - {k} == m - {k};
  }

  /** The invariant of a stored state: every lane is the sum over the map, modulo 256. */
  ghost predicate Consistent(c: Crypto, s: SyncState) {
    forall i :: 0 <= i < HASH_SIZE ==>
      FitToSize(StartHash(s.hash))[i] == MapTotal(c.sha512, s.indexValueMap, i) % 256
  }

  /** A lane moved by the difference of two totals. */
  function Moved(lane: int, from: int, to: int): Byte { (lane + to - from) % 256 }

  /** The hash a run from (hash, from) to the map `to` must end in, whatever happened in between. */
  ghost function HashAfter(c: Crypto, hash: Bytes, from: IndexMap, to: IndexMap): (r: Bytes)
    ensures |r| == HASH_SIZE
  {
    seq(HASH_SIZE, i requires 0 <= i < HASH_SIZE =>
      Moved(FitToSize(StartHash(hash))[i], MapTotal(c.sha512, from, i), MapTotal(c.sha512, to, i)))
  }

  // ---- Mixing keeps the books -----------------------------------------------------------------------

  lemma MixOneBalance(c: Crypto, g: Mixing, mac: MacMutation, lane: nat)
    requires lane < HASH_SIZE && MixOne(g, mac).Ok?
    ensures var h := MixOne(g, mac).value;
      MapTotal(c.sha512, h.indexValueMap, lane) - LaneTotal(c.sha512, h.addValues, lane) + LaneTotal(c.sha512, h.subValues, lane)
      == MapTotal(c.sha512, g.indexValueMap, lane) - LaneTotal(c.sha512, g.addValues, lane) + LaneTotal(c.sha512, g.subValues, lane)
  {
    var m, k := g.indexValueMap, mac.indexMac;
    if k in m {
      MapTotalRemove(c.sha512, m, k, lane);
      LaneTotalPush(c.sha512, g.subValues, m[k], lane);
    } else {
      assert m - {k} == m;
    }
    if mac.operation != OP_REMOVE {
      MapTotalUpdate(c.sha512, m, k, mac.valueMac, lane);
      LaneTotalPush(c.sha512, g.addValues, mac.valueMac, lane);
    }
  }

  lemma {:induction false} MixAllBalance(c: Crypto, g: Mixing, macs: seq<MacMutation>, lane: nat)
    requires lane < HASH_SIZE && MixAll(g, macs).Ok?
    ensures var h := MixAll(g, macs).value;
      MapTotal(c.sha512, h.indexValueMap, lane) - LaneTotal(c.sha512, h.addValues, lane) + LaneTotal(c.sha512, h.subValues, lane)
      == MapTotal(c.sha512, g.indexValueMap, lane) - LaneTotal(c.sha512, g.addValues, lane) + LaneTotal(c.sha512, g.subValues, lane)
    decreases |macs|
  {
    if macs != [] {
      MixOneBalance(c, g, macs[0], lane);
      MixAllBalance(c, MixOne(g, macs[0]).value, macs[1..], lane);
    }
  }

  lemma NothingMixed(sha512: Sha512)
    ensures forall i :: 0 <= i < HASH_SIZE ==> LaneTotal(sha512, [], i) == 0
  {
  }

  /** The finished hash depends on the starting hash and on the two maps alone. */
  lemma FinishByTotals(c: Crypto, hash: Bytes, m: IndexMap, macs: seq<MacMutation>)
    requires MixAll(Begin(m), macs).Ok?
    ensures Finish(c, hash, MixAll(Begin(m), macs).value) == HashAfter(c, hash, m, MixAll(Begin(m), macs).value.indexValueMap)
  {
    hide MixAll, MapTotal, LaneTotal, FitToSize, StartHash;
    var g := MixAll(Begin(m), macs).value;
    NothingMixed(c.sha512);
    forall i | 0 <= i < HASH_SIZE
      ensures Finish(c, hash, g)[i] == HashAfter(c, hash, m, g.indexValueMap)[i]
    {
      MixAllBalance(c, Begin(m), macs, i);
    }
  }

  lemma HashAfterConsistent(c: Crypto, s: SyncState, to: IndexMap)
    requires Consistent(c, s)
    ensures Consistent(c, SyncState(s.version, HashAfter(c, s.hash, s.indexValueMap, to), to))
  {
    var h := HashAfter(c, s.hash, s.indexValueMap, to);
    forall i | 0 <= i < HASH_SIZE
      ensures FitToSize(StartHash(h))[i] == MapTotal(c.sha512, to, i) % 256
    {
      var base := MapTotal(c.sha512, s.indexValueMap, i);
      ReduceLate(base, MapTotal(c.sha512, to, i) - base);
    }
  }

  lemma TwoHops(h: int, a: int, b: int, d: int)
    ensures Moved(Moved(h, a, b), b, d) == Moved(h, a, d)
  {
    ReduceLate(h + b - a, d - b);
  }

  /** Two hops are one: the intermediate map cancels. */
  lemma HashAfterTwice(c: Crypto, hash: Bytes, a: IndexMap, b: IndexMap, d: IndexMap)
    ensures HashAfter(c, HashAfter(c, hash, a, b), b, d) == HashAfter(c, hash, a, d)
  {
    var once, h := HashAfter(c, hash, a, b), FitToSize(StartHash(hash));
    assert FitToSize(StartHash(once)) == once;
    forall i | 0 <= i < HASH_SIZE
      ensures Moved(once[i], MapTotal(c.sha512, b, i), MapTotal(c.sha512, d, i))
        == Moved(h[i], MapTotal(c.sha512, a, i), MapTotal(c.sha512, d, i))
    {
      TwoHops(h[i], MapTotal(c.sha512, a, i), MapTotal(c.sha512, b, i), MapTotal(c.sha512, d, i));
    }
  }

  // ---- Decoding is opening followed by mixing -------------------------------------------------------

  function MacsOf(ms: seq<Mutation>): (r: seq<MacMutation>)
    ensures |r| == |ms|
    ensures forall i :: 0 <= i < |ms| ==> r[i] == MacOf(ms[i])
  {
    seq(|ms|, i requires 0 <= i < |ms| => MacOf(ms[i]))
  }

  ghost predicate AllOpen(env: Env, ms: seq<Mutation>, validateMacs: bool) {
    forall m :: m in ms ==> OpenMutation(env, m, validateMacs).Ok?
  }

  lemma AllOpenAppend(env: Env, a: seq<Mutation>, b: seq<Mutation>, validateMacs: bool)
    ensures AllOpen(env, a + b, validateMacs) <==> AllOpen(env, a, validateMacs) && AllOpen(env, b, validateMacs)
  {
    assert forall m :: m in a + b <==> m in a || m in b;
  }

  lemma DecodeOneSplits(env: Env, w: Walk, m: Mutation, validateMacs: bool, deliver: bool)
    ensures var r := DecodeOne(env, w, m, validateMacs, deliver);
      && (r.Ok? <==> AllOpen(env, [m], validateMacs) && MixOne(w.mixing, MacOf(m)).Ok?)
      && (r.Ok? ==> r.value.mixing == MixOne(w.mixing, MacOf(m)).value)
  {
    assert m in [m];
  }

  lemma {:induction false} DecodeFromSplits(env: Env, w: Walk, ms: seq<Mutation>, validateMacs: bool, deliver: bool)
    ensures var r := DecodeFrom(env, w, ms, validateMacs, deliver);
      && (r.Ok? <==> AllOpen(env, ms, validateMacs) && MixAll(w.mixing, MacsOf(ms)).Ok?)
      && (r.Ok? ==> r.value.mixing == MixAll(w.mixing, MacsOf(ms)).value)
    decreases |ms|
  {
    if ms != [] {
      assert MacsOf(ms)[1..] == MacsOf(ms[1..]);
      AllOpenAppend(env, [ms[0]], ms[1..], validateMacs);
      assert ms == [ms[0]] + ms[1..];
      DecodeOneSplits(env, w, ms[0], validateMacs, deliver);
      var next := DecodeOne(env, w, ms[0], validateMacs, deliver);
      if next.Ok? {
        DecodeFromSplits(env, next.value, ms[1..], validateMacs, deliver);
      }
    }
  }

  /** Decoding succeeds exactly when every mutation opens and every removal has something to remove. */
  lemma DecodeMutationsSplits(env: Env, ms: seq<Mutation>, s: SyncState, delivered: MutationMap, validateMacs: bool, deliver: bool)
    ensures var r := DecodeMutations(env, ms, s, delivered, validateMacs, deliver);
      var mixed := MixAll(Begin(s.indexValueMap), MacsOf(ms));
      && (r.Ok? <==> AllOpen(env, ms, validateMacs) && mixed.Ok?)
      && (r.Ok? ==>
          && r.value.indexValueMap == mixed.value.indexValueMap
          && r.value.hash == HashAfter(env.crypto, s.hash, s.indexValueMap, mixed.value.indexValueMap))
  {
    DecodeFromSplits(env, Walk(Begin(s.indexValueMap), delivered), ms, validateMacs, deliver);
    if MixAll(Begin(s.indexValueMap), MacsOf(ms)).Ok? {
      FinishByTotals(env.crypto, s.hash, s.indexValueMap, MacsOf(ms));
    }
  }

  // ---- Every decoded state is consistent ------------------------------------------------------------

  lemma DecodePatchConsistent(env: Env, name: Bytes, p: Patch, from: Synced, minimumVersion: Option<int>, validateMacs: bool)
    requires Consistent(env.crypto, from.state)
    requires DecodePatch(env, name, p, from, minimumVersion, validateMacs).Ok?
    ensures var s := DecodePatch(env, name, p, from, minimumVersion, validateMacs).value.state;
      Consistent(env.crypto, s) && |s.hash| == HASH_SIZE && s.version == p.version
  {
    var deliver := minimumVersion.None? || p.version > minimumVersion.value;
    DecodeMutationsSplits(env, p.mutations, from.state, from.delivered, validateMacs, deliver);
    HashAfterConsistent(env.crypto, from.state, DecodePatch(env, name, p, from, minimumVersion, validateMacs).value.state.indexValueMap);
  }

  lemma {:induction false} DecodeAllConsistent(env: Env, name: Bytes, ps: seq<Patch>, from: Synced, minimumVersion: Option<int>,
      validateMacs: bool)
    requires Consistent(env.crypto, from.state)
    requires DecodeAll(env, name, ps, from, minimumVersion, validateMacs).Ok?
    ensures Consistent(env.crypto, DecodeAll(env, name, ps, from, minimumVersion, validateMacs).value.state)
    decreases |ps|
  {
    if ps != [] {
      DecodePatchConsistent(env, name, ps[0], from, minimumVersion, validateMacs);
      var next := DecodePatch(env, name, ps[0], from, minimumVersion, validateMacs).value;
      DecodeAllConsistent(env, name, ps[1..], next, minimumVersion, validateMacs);
    }
  }

  lemma NewStateConsistent(c: Crypto, version: int)
    ensures Consistent(c, NewState().(version := version))
  {
    assert StartHash(ZeroHash()) == ZeroHash();
    assert FitToSize(ZeroHash()) == ZeroHash();
  }

  lemma DecodeSnapshotConsistent(env: Env, name: Bytes, s: Snapshot, minimumVersion: Option<int>, validateMacs: bool)
    requires DecodeSnapshot(env, name, s, minimumVersion, validateMacs).Ok?
    ensures var r := DecodeSnapshot(env, name, s, minimumVersion, validateMacs).value.state;
      Consistent(env.crypto, r) && |r.hash| == HASH_SIZE && r.version == s.version
  {
    var start := NewState().(version := s.version);
    var deliver := minimumVersion.None? || s.version > minimumVersion.value;
    NewStateConsistent(env.crypto, s.version);
    DecodeMutationsSplits(env, s.records, start, map[], validateMacs, deliver);
    HashAfterConsistent(env.crypto, start, DecodeSnapshot(env, name, s, minimumVersion, validateMacs).value.state.indexValueMap);
  }

  /** What a client may do to one collection; a step that raises leaves the state alone. */
  datatype SyncStep =
    | ApplySnapshot(snapshot: Snapshot, minimumVersion: Option<int>, validateMacs: bool)
    | ApplyPatches(patches: seq<Patch>, minimumVersion: Option<int>, validateMacs: bool)

  function Advance(env: Env, name: Bytes, s: SyncState, step: SyncStep): SyncState {
    var r := match step
      case ApplySnapshot(snapshot, minimum, validate) => DecodeSnapshot(env, name, snapshot, minimum, validate)
      case ApplyPatches(patches, minimum, validate) => DecodeAll(env, name, patches, Synced(s, map[]), minimum, validate);
    if r.Ok? then r.value.state else s
  }

  function RunSteps(env: Env, name: Bytes, s: SyncState, steps: seq<SyncStep>): SyncState
    decreases |steps|
  {
    if steps == [] then s else RunSteps(env, name, Advance(env, name, s, steps[0]), steps[1..])
  }

  lemma {:induction false} ReachableConsistent(env: Env, name: Bytes, s: SyncState, steps: seq<SyncStep>)
    requires Consistent(env.crypto, s)
    ensures Consistent(env.crypto, RunSteps(env, name, s, steps))
    decreases |steps|
  {
    if steps != [] {
      match steps[0] {
        case ApplySnapshot(snapshot, minimum, validate) =>
          if DecodeSnapshot(env, name, snapshot, minimum, validate).Ok? {
            DecodeSnapshotConsistent(env, name, snapshot, minimum, validate);
          }
        case ApplyPatches(patches, minimum, validate) =>
          if DecodeAll(env, name, patches, Synced(s, map[]), minimum, validate).Ok? {
            DecodeAllConsistent(env, name, patches, Synced(s, map[]), minimum, validate);
          }
      }
      ReachableConsistent(env, name, Advance(env, name, s, steps[0]), steps[1..]);
    }
  }

  // ---- The state depends on the final map only ------------------------------------------------------

  /** Two histories that end in the same map end in the same hash. */
  lemma SameMapSameHash(c: Crypto, s: SyncState, t: SyncState)
    requires Consistent(c, s) && Consistent(c, t)
    requires |s.hash| == |t.hash| == HASH_SIZE && s.indexValueMap == t.indexValueMap
    ensures s.hash == t.hash
  {
    forall i | 0 <= i < HASH_SIZE
      ensures s.hash[i] == t.hash[i]
    {
      assert FitToSize(StartHash(s.hash))[i] == FitToSize(StartHash(t.hash))[i];
    }
  }

  lemma {:induction false} MixAllMapOnly(g: Mixing, h: Mixing, macs: seq<MacMutation>)
    requires g.indexValueMap == h.indexValueMap
    ensures MixAll(g, macs).Ok? == MixAll(h, macs).Ok?
    ensures MixAll(g, macs).Ok? ==> MixAll(g, macs).value.indexValueMap == MixAll(h, macs).value.indexValueMap
    decreases |macs|
  {
    if macs != [] && MixOne(g, macs[0]).Ok? {
      MixAllMapOnly(MixOne(g, macs[0]).value, MixOne(h, macs[0]).value, macs[1..]);
    }
  }

  lemma {:induction false} MixAllAppend(g: Mixing, a: seq<MacMutation>, b: seq<MacMutation>)
    ensures MixAll(g, a).Err? ==> MixAll(g, a + b).Err?
    ensures MixAll(g, a).Ok? ==> MixAll(g, a + b) == MixAll(MixAll(g, a).value, b)
    decreases |a|
  {
    if a == [] {
      assert a + b == b;
    } else if MixOne(g, a[0]).Ok? {
      MixAllAppend(MixOne(g, a[0]).value, a[1..], b);
      assert (a + b)[1..] == a[1..] + b;
    } else {
      assert (a + b)[0] == a[0];
    }
  }

  function AllMutations(ps: seq<Patch>): seq<Mutation> {
    if ps == [] then [] else ps[0].mutations + AllMutations(ps[1..])
  }

  /** The 128 lanes a stored hash stands for, whatever its length. */
  function LanesOf(hash: Bytes): (r: Bytes)
    ensures |r| == HASH_SIZE
    ensures |hash| == HASH_SIZE ==> r == hash
  {
    FitToSize(StartHash(hash))
  }

  lemma HashAfterLanes(c: Crypto, hash: Bytes, from: IndexMap, to: IndexMap)
    ensures HashAfter(c, LanesOf(hash), from, to) == HashAfter(c, hash, from, to)
  {
    assert FitToSize(StartHash(LanesOf(hash))) == LanesOf(hash);
  }

  lemma HashAfterNothing(c: Crypto, hash: Bytes, m: IndexMap)
    ensures HashAfter(c, hash, m, m) == LanesOf(hash)
  {
  }

  /** The outcome has the lanes and map of one decode of `ms` from `s`, and succeeds when that does. */
  ghost predicate DecodedAsOne(env: Env, r: Result<Synced>, s: SyncState, ms: seq<Mutation>) {
    var mixed := MixAll(Begin(s.indexValueMap), MacsOf(ms));
    && (r.Ok? <==> AllOpen(env, ms, false) && mixed.Ok?)
    && (r.Ok? ==>
        && r.value.state.indexValueMap == mixed.value.indexValueMap
        && LanesOf(r.value.state.hash) == HashAfter(env.crypto, s.hash, s.indexValueMap, mixed.value.indexValueMap))
  }

  lemma DecodedAsOneNext(env: Env, s: SyncState, ms: seq<Mutation>, next: Result<Synced>, rest: seq<Mutation>, r: Result<Synced>)
    requires DecodedAsOne(env, next, s, ms)
    requires next.Err? ==> r.Err?
    requires next.Ok? ==> DecodedAsOne(env, r, next.value.state, rest)
    ensures DecodedAsOne(env, r, s, ms + rest)
  {
    AllOpenAppend(env, ms, rest, false);
    assert MacsOf(ms + rest) == MacsOf(ms) + MacsOf(rest);
    var first := MixAll(Begin(s.indexValueMap), MacsOf(ms));
    MixAllAppend(Begin(s.indexValueMap), MacsOf(ms), MacsOf(rest));
    if next.Ok? {
      MixAllMapOnly(Begin(next.value.state.indexValueMap), first.value, MacsOf(rest));
      if r.Ok? {
        HashAfterTwice(env.crypto, s.hash, s.indexValueMap, next.value.state.indexValueMap, r.value.state.indexValueMap);
        HashAfterLanes(env.crypto, next.value.state.hash, next.value.state.indexValueMap, r.value.state.indexValueMap);
      }
    }
  }

  lemma DecodePatchAsOne(env: Env, name: Bytes, p: Patch, from: Synced, minimumVersion: Option<int>)
    ensures DecodedAsOne(env, DecodePatch(env, name, p, from, minimumVersion, false), from.state, p.mutations)
  {
    var deliver := minimumVersion.None? || p.version > minimumVersion.value;
    DecodeMutationsSplits(env, p.mutations, from.state, from.delivered, false, deliver);
  }

  lemma {:induction false} UncheckedAsOneList(env: Env, name: Bytes, ps: seq<Patch>, from: Synced, minimumVersion: Option<int>)
    ensures DecodedAsOne(env, DecodeAll(env, name, ps, from, minimumVersion, false), from.state, AllMutations(ps))
    decreases |ps|
  {
    if ps == [] {
      HashAfterNothing(env.crypto, from.state.hash, from.state.indexValueMap);
    } else {
      var next := DecodePatch(env, name, ps[0], from, minimumVersion, false);
      DecodePatchAsOne(env, name, ps[0], from, minimumVersion);
      if next.Ok? {
        UncheckedAsOneList(env, name, ps[1..], next.value, minimumVersion);
      }
      DecodedAsOneNext(env, from.state, ps[0].mutations, next, AllMutations(ps[1..]),
        DecodeAll(env, name, ps, from, minimumVersion, false));
    }
  }

  lemma OpenedUnchecked(env: Env, m: Mutation)
    requires OpenMutation(env, m, true).Ok?
    ensures OpenMutation(env, m, false) == OpenMutation(env, m, true)
  {
  }

  lemma {:induction false} DecodedUnchecked(env: Env, w: Walk, ms: seq<Mutation>, deliver: bool)
    requires DecodeFrom(env, w, ms, true, deliver).Ok?
    ensures DecodeFrom(env, w, ms, false, deliver) == DecodeFrom(env, w, ms, true, deliver)
    decreases |ms|
  {
    hide OpenMutation;
    if ms != [] {
      OpenedUnchecked(env, ms[0]);
      DecodedUnchecked(env, DecodeOne(env, w, ms[0], true, deliver).value, ms[1..], deliver);
    }
  }

  lemma PatchUnchecked(env: Env, name: Bytes, p: Patch, from: Synced, minimumVersion: Option<int>)
    requires DecodePatch(env, name, p, from, minimumVersion, true).Ok?
    ensures DecodePatch(env, name, p, from, minimumVersion, false) == DecodePatch(env, name, p, from, minimumVersion, true)
  {
    hide DecodeFrom, CheckPatchMac, CheckSnapshotMac, Finish;
    DecodedUnchecked(env, Walk(Begin(from.state.indexValueMap), from.delivered), p.mutations,
      minimumVersion.None? || p.version > minimumVersion.value);
  }

  /** MAC validation only rejects: what passes it decodes to the same thing without it. */
  lemma {:induction false} ValidationOnlyRejects(env: Env, name: Bytes, ps: seq<Patch>, from: Synced, minimumVersion: Option<int>)
    requires DecodeAll(env, name, ps, from, minimumVersion, true).Ok?
    ensures DecodeAll(env, name, ps, from, minimumVersion, false) == DecodeAll(env, name, ps, from, minimumVersion, true)
    decreases |ps|
  {
    hide DecodePatch;
    if ps != [] {
      PatchUnchecked(env, name, ps[0], from, minimumVersion);
      ValidationOnlyRejects(env, name, ps[1..], DecodePatch(env, name, ps[0], from, minimumVersion, true).value, minimumVersion);
    }
  }

  lemma {:induction false} DecodedHashSize(env: Env, name: Bytes, ps: seq<Patch>, from: Synced, minimumVersion: Option<int>,
      validateMacs: bool)
    requires ps != [] && DecodeAll(env, name, ps, from, minimumVersion, validateMacs).Ok?
    ensures |DecodeAll(env, name, ps, from, minimumVersion, validateMacs).value.state.hash| == HASH_SIZE
    decreases |ps|
  {
    hide DecodeFrom, CheckPatchMac, CheckSnapshotMac;
    if |ps| > 1 {
      var next := DecodePatch(env, name, ps[0], from, minimumVersion, validateMacs).value;
      DecodedHashSize(env, name, ps[1..], next, minimumVersion, validateMacs);
    }
  }

  /**
   * Lanes and map after a list of patches are those of one decode over their mutations laid end to end; without MAC
   * validation the list decodes exactly when that does.
   */
  lemma PatchesAsOneList(env: Env, name: Bytes, ps: seq<Patch>, from: Synced, minimumVersion: Option<int>, validateMacs: bool)
    ensures var r := DecodeAll(env, name, ps, from, minimumVersion, validateMacs);
      && (r.Ok? || !validateMacs ==> DecodedAsOne(env, r, from.state, AllMutations(ps)))
      && (r.Ok? && ps == [] ==> r.value == from)
      && (r.Ok? && ps != [] ==> |r.value.state.hash| == HASH_SIZE)
  {
    hide AllMutations, DecodedAsOne;
    UncheckedAsOneList(env, name, ps, from, minimumVersion);
    if DecodeAll(env, name, ps, from, minimumVersion, validateMacs).Ok? {
      if ps != [] {
        DecodedHashSize(env, name, ps, from, minimumVersion, validateMacs);
      }
      if validateMacs {
        ValidationOnlyRejects(env, name, ps, from, minimumVersion);
      }
    }
  }

  /**
   * Cutting one mutation list into different consecutive patches changes neither lanes nor map, where both cuts
   * decode; without MAC validation, which looks at the cut itself, one decodes exactly when the other does. The
   * stored bytes of the hash agree too, unless one cut has no patch at all and so leaves a hash of another length
   * as it was.
   */
  lemma RecuttingPatches(env: Env, name: Bytes, ps: seq<Patch>, qs: seq<Patch>, from: Synced, minimumVersion: Option<int>,
      validateMacs: bool)
    requires AllMutations(ps) == AllMutations(qs)
    ensures var r := DecodeAll(env, name, ps, from, minimumVersion, validateMacs);
      var t := DecodeAll(env, name, qs, from, minimumVersion, validateMacs);
      && (!validateMacs ==> r.Ok? == t.Ok?)
      && (r.Ok? && t.Ok? ==>
          && LanesOf(r.value.state.hash) == LanesOf(t.value.state.hash)
          && r.value.state.indexValueMap == t.value.state.indexValueMap
          && (r.value.state.hash == t.value.state.hash <==> (ps == [] <==> qs == []) || |from.state.hash| == HASH_SIZE))
  {
    hide DecodeAll, AllMutations, LanesOf, MixAll, AllOpen;
    PatchesAsOneList(env, name, ps, from, minimumVersion, validateMacs);
    PatchesAsOneList(env, name, qs, from, minimumVersion, validateMacs);
  }

  ghost predicate DistinctIndices(ms: seq<Mutation>) {
    forall i, j :: 0 <= i < j < |ms| ==> ms[i].indexBlob != ms[j].indexBlob
  }

  ghost predicate Touches(ms: seq<Mutation>, k: Bytes) {
    exists m :: m in ms && m.indexBlob == k
  }

  /** What a map looks like after mutations on distinct indices, said without any order. */
  ghost predicate Overlaid(before: IndexMap, ms: seq<Mutation>, after: IndexMap) {
    && (forall m :: m in ms && m.operation == OP_REMOVE ==> m.indexBlob !in after)
    && (forall m :: m in ms && m.operation != OP_REMOVE ==>
          m.indexBlob in after && after[m.indexBlob] == LastBytes(m.valueBlob, 32))
    && (forall k :: !Touches(ms, k) ==> (k in before <==> k in after) && (k in before ==> before[k] == after[k]))
  }

  /** Every removal among the mutations has an entry to remove. */
  ghost predicate RemovalsPresent(m: IndexMap, ms: seq<Mutation>) {
    forall x :: x in ms && x.operation == OP_REMOVE ==> x.indexBlob in m
  }

  lemma RemovalsPresentCons(before: IndexMap, middle: IndexMap, ms: seq<Mutation>)
    requires ms != [] && DistinctIndices(ms)
    requires middle == MixedMap(before, ms[0])
    ensures RemovalsPresent(before, ms) <==> RemovalsPresent(before, [ms[0]]) && RemovalsPresent(middle, ms[1..])
  {
    assert forall m :: m in ms <==> m == ms[0] || m in ms[1..];
    assert forall m :: m in ms[1..] ==> m.indexBlob != ms[0].indexBlob;
    assert forall m :: m in [ms[0]] <==> m == ms[0];
  }

  function MixedMap(before: IndexMap, m: Mutation): IndexMap {
    if m.operation == OP_REMOVE then before - {m.indexBlob} else before[m.indexBlob := LastBytes(m.valueBlob, 32)]
  }

  lemma {:induction false} MixDistinct(g: Mixing, ms: seq<Mutation>)
    requires DistinctIndices(ms)
    ensures MixAll(g, MacsOf(ms)).Ok? <==> RemovalsPresent(g.indexValueMap, ms)
    ensures MixAll(g, MacsOf(ms)).Ok? ==> Overlaid(g.indexValueMap, ms, MixAll(g, MacsOf(ms)).value.indexValueMap)
    decreases |ms|
  {
    if ms != [] {
      var before, tail := g.indexValueMap, ms[1..];
      var middle := MixedMap(before, ms[0]);
      assert MacsOf(ms)[1..] == MacsOf(tail);
      RemovalsPresentCons(before, middle, ms);
      var next := MixOne(g, MacOf(ms[0]));
      assert next.Ok? <==> RemovalsPresent(before, [ms[0]]) by {
        assert ms[0] in [ms[0]];
      }
      if next.Ok? {
        assert next.value.indexValueMap == middle;
        MixDistinct(next.value, tail);
        if MixAll(next.value, MacsOf(tail)).Ok? {
          OverlaidCons(before, middle, ms, MixAll(next.value, MacsOf(tail)).value.indexValueMap);
        }
      }
    }
  }

  lemma OverlaidCons(before: IndexMap, middle: IndexMap, ms: seq<Mutation>, after: IndexMap)
    requires ms != [] && DistinctIndices(ms)
    requires middle == MixedMap(before, ms[0])
    requires Overlaid(middle, ms[1..], after)
    ensures Overlaid(before, ms, after)
  {
    var tail, k0 := ms[1..], ms[0].indexBlob;
    assert forall m :: m in ms <==> m == ms[0] || m in tail;
    assert forall m :: m in tail ==> m.indexBlob != k0;
    assert !Touches(tail, k0);
    forall k | !Touches(ms, k)
      ensures (k in before <==> k in after) && (k in before ==> before[k] == after[k])
    {
      assert ms[0] in ms;
      assert k != k0 && !Touches(tail, k);
    }
  }

  lemma OverlaidUnique(before: IndexMap, ms: seq<Mutation>, ns: seq<Mutation>, a: IndexMap, b: IndexMap)
    requires forall m :: m in ms <==> m in ns
    requires Overlaid(before, ms, a) && Overlaid(before, ns, b)
    ensures a == b
  {
    forall k
      ensures k in a <==> k in b
      ensures k in a ==> a[k] == b[k]
    {
      if Touches(ms, k) {
        var m :| m in ms && m.indexBlob == k;
        assert m in ns;
      } else {
        assert !Touches(ns, k);
      }
    }
    assert a.Keys == b.Keys;
  }

  /** Mutations on distinct indices may be applied in any order. */
  lemma PermutingMutations(env: Env, ms: seq<Mutation>, ns: seq<Mutation>, s: SyncState, delivered: MutationMap,
      validateMacs: bool, deliver: bool)
    requires DistinctIndices(ms) && DistinctIndices(ns)
    requires forall m :: m in ms <==> m in ns
    ensures var r := DecodeMutations(env, ms, s, delivered, validateMacs, deliver);
      var t := DecodeMutations(env, ns, s, delivered, validateMacs, deliver);
      && r.Ok? == t.Ok?
      && (r.Ok? ==> r.value.hash == t.value.hash && r.value.indexValueMap == t.value.indexValueMap)
  {
    DecodeMutationsSplits(env, ms, s, delivered, validateMacs, deliver);
    DecodeMutationsSplits(env, ns, s, delivered, validateMacs, deliver);
    MixDistinct(Begin(s.indexValueMap), ms);
    MixDistinct(Begin(s.indexValueMap), ns);
    var a, b := MixAll(Begin(s.indexValueMap), MacsOf(ms)), MixAll(Begin(s.indexValueMap), MacsOf(ns));
    if a.Ok? && b.Ok? {
      OverlaidUnique(s.indexValueMap, ms, ns, a.value.indexValueMap, b.value.indexValueMap);
    }
  }

  /** The records list every live entry of the map once, in some order, as settings. */
  ghost predicate ListsMap(records: seq<Mutation>, m: IndexMap) {
    && DistinctIndices(records)
    && (forall r :: r in records ==>
          r.operation != OP_REMOVE && r.indexBlob in m && m[r.indexBlob] == LastBytes(r.valueBlob, 32))
    && (forall k :: k in m ==> Touches(records, k))
  }

  /** Replaying the live records as a snapshot gives back the very same hash and map. */
  lemma SnapshotReplaysState(env: Env, name: Bytes, s: SyncState, snapshot: Snapshot, minimumVersion: Option<int>, validateMacs: bool)
    requires Consistent(env.crypto, s) && |s.hash| == HASH_SIZE
    requires ListsMap(snapshot.records, s.indexValueMap)
    requires DecodeSnapshot(env, name, snapshot, minimumVersion, validateMacs).Ok?
    ensures var r := DecodeSnapshot(env, name, snapshot, minimumVersion, validateMacs).value.state;
      r.hash == s.hash && r.indexValueMap == s.indexValueMap
  {
    var r := DecodeSnapshot(env, name, snapshot, minimumVersion, validateMacs).value.state;
    var start := NewState().(version := snapshot.version);
    var deliver := minimumVersion.None? || snapshot.version > minimumVersion.value;
    DecodeMutationsSplits(env, snapshot.records, start, map[], validateMacs, deliver);
    MixDistinct(Begin(map[]), snapshot.records);
    assert Overlaid(map[], snapshot.records, s.indexValueMap) by {
      forall k | !Touches(snapshot.records, k)
        ensures k !in s.indexValueMap
      {
      }
    }
    OverlaidUnique(map[], snapshot.records, snapshot.records, r.indexValueMap, s.indexValueMap);
    DecodeSnapshotConsistent(env, name, snapshot, minimumVersion, validateMacs);
    SameMapSameHash(env.crypto, r, s);
  }

  // ---- What the minimum version decides -------------------------------------------------------------

  lemma {:induction false} DeliveryIsSeparate(env: Env, v: Walk, w: Walk, ms: seq<Mutation>, validateMacs: bool, a: bool, b: bool)
    requires v.mixing == w.mixing
    ensures var r, t := DecodeFrom(env, v, ms, validateMacs, a), DecodeFrom(env, w, ms, validateMacs, b);
      && r.Ok? == t.Ok?
      && (if r.Ok? then r.value.mixing == t.value.mixing else r.error == t.error)
    decreases |ms|
  {
    if ms != [] {
      var x, y := DecodeOne(env, v, ms[0], validateMacs, a), DecodeOne(env, w, ms[0], validateMacs, b);
      if x.Ok? && y.Ok? {
        DeliveryIsSeparate(env, x.value, y.value, ms[1..], validateMacs, a, b);
      }
    }
  }

  lemma {:induction false} NothingDelivered(env: Env, w: Walk, ms: seq<Mutation>, validateMacs: bool)
    requires DecodeFrom(env, w, ms, validateMacs, false).Ok?
    ensures DecodeFrom(env, w, ms, validateMacs, false).value.delivered == w.delivered
    decreases |ms|
  {
    if ms != [] {
      NothingDelivered(env, DecodeOne(env, w, ms[0], validateMacs, false).value, ms[1..], validateMacs);
    }
  }

  lemma MinimumOfOnePatch(env: Env, name: Bytes, p: Patch, from: Synced, also: Synced, m: Option<int>, n: Option<int>,
      validateMacs: bool)
    requires from.state == also.state
    ensures var r, t := DecodePatch(env, name, p, from, m, validateMacs), DecodePatch(env, name, p, also, n, validateMacs);
      && r.Ok? == t.Ok?
      && (if r.Ok? then r.value.state == t.value.state else r.error == t.error)
      && (r.Ok? && m.Some? && p.version <= m.value ==> r.value.delivered == from.delivered)
  {
    hide DecodeFrom, CheckPatchMac, CheckSnapshotMac, Finish, MixOne, OpenMutation;
    var v, w := Walk(Begin(from.state.indexValueMap), from.delivered), Walk(Begin(also.state.indexValueMap), also.delivered);
    var a, b := m.None? || p.version > m.value, n.None? || p.version > n.value;
    DeliveryIsSeparate(env, v, w, p.mutations, validateMacs, a, b);
    if !a && DecodeFrom(env, v, p.mutations, validateMacs, false).Ok? {
      NothingDelivered(env, v, p.mutations, validateMacs);
    }
  }

  /**
   * The minimum version decides what is handed out and nothing else: state and errors do not depend on it, and
   * patches up to it hand out no mutations.
   */
  lemma {:induction false} MinimumDecidesDelivery(env: Env, name: Bytes, ps: seq<Patch>, from: Synced, also: Synced,
      m: Option<int>, n: Option<int>, validateMacs: bool)
    requires from.state == also.state
    ensures var r, t := DecodeAll(env, name, ps, from, m, validateMacs), DecodeAll(env, name, ps, also, n, validateMacs);
      && r.Ok? == t.Ok?
      && (if r.Ok? then r.value.state == t.value.state else r.error == t.error)
      && (r.Ok? && m.Some? && (forall p :: p in ps ==> p.version <= m.value) ==> r.value.delivered == from.delivered)
    decreases |ps|
  {
    hide DecodePatch;
    if ps != [] {
      MinimumOfOnePatch(env, name, ps[0], from, also, m, n, validateMacs);
      var x, y := DecodePatch(env, name, ps[0], from, m, validateMacs), DecodePatch(env, name, ps[0], also, n, validateMacs);
      if x.Ok? {
        MinimumDecidesDelivery(env, name, ps[1..], x.value, y.value, m, n, validateMacs);
        assert ps[0] in ps;
      }
    }
  }

  // ---- What the MACs sign ---------------------------------------------------------------------------

  /** No two records are signed alike: the length byte at the end tells where key id and content part. */
  lemma MacInputSeparates(op: int, data: Bytes, keyId: Bytes, op2: int, data2: Bytes, keyId2: Bytes)
    requires |keyId| < 255 && |keyId2| < 255
    ensures MacInput(op, data, keyId) == MacInput(op2, data2, keyId2)
      <==> (op == OP_SET <==> op2 == OP_SET) && data == data2 && keyId == keyId2
  {
    var a, b := MacInput(op, data, keyId), MacInput(op2, data2, keyId2);
    assert a[|a| - 1] == |keyId| + 1 && b[|b| - 1] == |keyId2| + 1;
    assert a[..1][0] == a[0] && b[0] == b[..1][0];
    assert a[1..|keyId| + 1] == keyId && b[1..|keyId2| + 1] == keyId2;
    assert a[|keyId| + 1..|a| - 8] == data && b[|keyId2| + 1..|b| - 8] == data2;
  }

  function Pow256(n: nat): nat { if n == 0 then 1 else 256 * Pow256(n - 1) }

  lemma {:induction false} BigEndianSeparates(v: nat, w: nat, n: nat)
    requires v < Pow256(n) && w < Pow256(n) && BigEndian(v, n) == BigEndian(w, n)
    ensures v == w
  {
    if n > 0 {
      var a, b := BigEndian(v / 256, n - 1), BigEndian(w / 256, n - 1);
      assert BigEndian(v, n)[n - 1] == v % 256 && BigEndian(w, n)[n - 1] == w % 256;
      assert BigEndian(v, n)[..n - 1] == a && BigEndian(w, n)[..n - 1] == b;
      BigEndianSeparates(v / 256, w / 256, n - 1);
    }
  }

  /** A snapshot MAC signs hash, version and name apart, for hashes of the full size and versions that fit. */
  lemma SnapshotInputSeparates(h: Bytes, v: int, name: Bytes, h2: Bytes, v2: int, name2: Bytes)
    requires |h| == |h2| == HASH_SIZE
    requires To64BitNetworkOrder(v).Ok? && To64BitNetworkOrder(v2).Ok?
    ensures SnapshotInput(h, To64BitNetworkOrder(v).value, name) == SnapshotInput(h2, To64BitNetworkOrder(v2).value, name2)
      <==> h == h2 && v == v2 && name == name2
  {
    var x, y := BigEndian(v, 8), BigEndian(v2, 8);
    var a, b := SnapshotInput(h, x, name), SnapshotInput(h2, y, name2);
    assert a[..HASH_SIZE] == h && b[..HASH_SIZE] == h2;
    assert a[HASH_SIZE..HASH_SIZE + 8] == x && b[HASH_SIZE..HASH_SIZE + 8] == y;
    assert a[HASH_SIZE + 8..] == name && b[HASH_SIZE + 8..] == name2;
    assert Pow256(4) == 0x1_0000_0000;
    assert Pow256(8) == 256 * (256 * (256 * (256 * Pow256(4))));
    if x == y {
      BigEndianSeparates(v, v2, 8);
    }
  }

  // ---- Encoding against decoding --------------------------------------------------------------------

  /** A key id whose base64 text is the one the encoder writes, so that decoding looks up the same key. */
  predicate CanonicalKeyId(c: Crypto, text: string) {
    match c.b64decode(text)
    case None => false
    case Some(id) => c.b64encode(id) == text
  }

  /** The mutation inside a patch that was just encoded passes the content and index MAC checks. */
  lemma EncodedMutationOpens(env: Env, create: PatchCreate, keyIdText: string, state: SyncState, iv: Bytes)
    requires env.crypto.Lawful() && CanonicalKeyId(env.crypto, keyIdText)
    requires EncodePatch(env, create, keyIdText, state, iv).Ok?
    ensures var m := EncodePatch(env, create, keyIdText, state, iv).value.patch.mutations[0];
      var action := Action(create.index, create.syncAction, create.apiVersion);
      && OpenMutation(env, m, true) == Ok(Opened(action, MacOf(m)))
      && LastBytes(m.valueBlob, 32) == MacOf(m).valueMac
  {
    var c := env.crypto;
    var keys := MutationKeys(c, env.fetch(keyIdText).value);
    var m := EncodePatch(env, create, keyIdText, state, iv).value.patch.mutations[0];
    var plain := c.render(Action(create.index, create.syncAction, create.apiVersion));
    var encValue := c.encrypt(iv, plain, keys.valueEncryption);
    var valueMac := GenerateMac(c, create.operation, encValue, m.keyId, keys.valueMac).value;
    assert |valueMac| == 32;
    assert m.valueBlob == encValue + valueMac;
    assert m.valueBlob[..|m.valueBlob| - 32] == encValue;
    assert m.valueBlob[|m.valueBlob| - 32..] == valueMac;
    assert KeysFor(env, m.keyId) == Ok(keys);
    assert c.decrypt(encValue, keys.valueEncryption) == Some(plain);
  }

  /** Decoding a freshly encoded patch with every MAC check on succeeds, and ends in the encoded state unless it removes. */
  lemma EncodeThenDecode(env: Env, create: PatchCreate, keyIdText: string, state: SyncState, iv: Bytes, minimumVersion: Option<int>)
    requires env.crypto.Lawful() && CanonicalKeyId(env.crypto, keyIdText)
    requires EncodePatch(env, create, keyIdText, state, iv).Ok?
    ensures var e := EncodePatch(env, create, keyIdText, state, iv).value;
      var d := DecodeAll(env, create.patchType, [e.patch], Synced(state, map[]), minimumVersion, true);
      && d.Ok?
      && d.value.state.version == e.state.version == state.version + 1
      && d.value.state.hash == e.state.hash
      && (d.value.state == e.state <==> create.operation != OP_REMOVE)
  {
    var e := EncodePatch(env, create, keyIdText, state, iv).value;
    var p, m := e.patch, e.patch.mutations[0];
    EncodedMutationOpens(env, create, keyIdText, state, iv);
    var deliver := minimumVersion.None? || p.version > minimumVersion.value;
    var w := Walk(Begin(state.indexValueMap), map[]);
    assert p.mutations[1..] == [];
    assert DecodeFrom(env, w, p.mutations, true, deliver) == DecodeOne(env, w, m, true, deliver);
    assert ValueMacs(p.mutations) == [LastBytes(m.valueBlob, 32)];
    assert CheckPatchMac(env, p, create.patchType) == Ok(());
    var r := DecodePatch(env, create.patchType, p, Synced(state, map[]), minimumVersion, true);
    assert r.Ok?;
    assert [p][1..] == [];
    assert DecodeAll(env, create.patchType, [p], Synced(state, map[]), minimumVersion, true) == r;
  }

  /** What the encoder returns, in terms of one mixing step: the hash of the mixed map, and the index written once more. */
  lemma EncodedState(env: Env, create: PatchCreate, keyIdText: string, state: SyncState, iv: Bytes)
    requires EncodePatch(env, create, keyIdText, state, iv).Ok?
    ensures var e := EncodePatch(env, create, keyIdText, state, iv).value;
      var mac := MacOf(e.patch.mutations[0]);
      var g := MixOne(Begin(state.indexValueMap), mac);
      && g.Ok?
      && mac.operation == create.operation
      && e.state.hash == HashAfter(env.crypto, state.hash, state.indexValueMap, g.value.indexValueMap)
      && e.state.indexValueMap == g.value.indexValueMap[mac.indexMac := mac.valueMac]
  {
    var c := env.crypto;
    var e := EncodePatch(env, create, keyIdText, state, iv).value;
    var keys := MutationKeys(c, env.fetch(keyIdText).value);
    var m := e.patch.mutations[0];
    var encValue := c.encrypt(iv, c.render(Action(create.index, create.syncAction, create.apiVersion)), keys.valueEncryption);
    var valueMac := GenerateMac(c, create.operation, encValue, m.keyId, keys.valueMac).value;
    assert |valueMac| == 32;
    assert m.valueBlob[|m.valueBlob| - 32..] == valueMac;
    var mac := MacOf(m);
    assert MixAll(Begin(state.indexValueMap), [mac]) == MixOne(Begin(state.indexValueMap), mac);
    FinishByTotals(c, state.hash, state.indexValueMap, [mac]);
  }

  /** A stray entry leaves the lanes alone only if its value MAC expands to zero in every lane. */
  lemma StrayEntry(c: Crypto, s: SyncState, k: Bytes, v: Bytes)
    requires Consistent(c, s) && k !in s.indexValueMap
    ensures Consistent(c, s.(indexValueMap := s.indexValueMap[k := v]))
      <==> forall i :: 0 <= i < HASH_SIZE ==> Lane(c.sha512, v, i) == 0
  {
    var m := s.indexValueMap;
    forall i | 0 <= i < HASH_SIZE
      ensures MapTotal(c.sha512, m[k := v], i) % 256 == MapTotal(c.sha512, m, i) % 256 <==> Lane(c.sha512, v, i) == 0
    {
      MapTotalUpdate(c.sha512, m, k, v, i);
      assert m - {k} == m;
    }
    if Consistent(c, s.(indexValueMap := m[k := v])) {
      forall i | 0 <= i < HASH_SIZE
        ensures Lane(c.sha512, v, i) == 0
      {
        assert FitToSize(StartHash(s.hash))[i] == MapTotal(c.sha512, m, i) % 256;
      }
    }
  }

  /** Local encoding keeps the invariant exactly when it does not remove, or the dead value MAC expands to nothing. */
  lemma EncodeKeepsConsistency(env: Env, create: PatchCreate, keyIdText: string, state: SyncState, iv: Bytes)
    requires Consistent(env.crypto, state)
    requires EncodePatch(env, create, keyIdText, state, iv).Ok?
    ensures var e := EncodePatch(env, create, keyIdText, state, iv).value;
      var valueMac := MacOf(e.patch.mutations[0]).valueMac;
      Consistent(env.crypto, e.state)
      <==> create.operation != OP_REMOVE || forall i :: 0 <= i < HASH_SIZE ==> Lane(env.crypto.sha512, valueMac, i) == 0
  {
    EncodedState(env, create, keyIdText, state, iv);
    var e := EncodePatch(env, create, keyIdText, state, iv).value;
    var mac := MacOf(e.patch.mutations[0]);
    var mixed := MixOne(Begin(state.indexValueMap), mac).value.indexValueMap;
    HashAfterConsistent(env.crypto, state, mixed);
    var s := SyncState(state.version, e.state.hash, mixed);
    if create.operation == OP_REMOVE {
      StrayEntry(env.crypto, s, mac.indexMac, mac.valueMac);
      assert Consistent(env.crypto, e.state) == Consistent(env.crypto, s.(indexValueMap := mixed[mac.indexMac := mac.valueMac]));
    } else {
      assert e.state.indexValueMap == mixed;
    }
  }

  // ---- A removal that breaks the invariant ----------------------------------------------------------

  /** The state that holds the one index, under any value MAC and version. */
  ghost function Holding(c: Crypto, indexMac: Bytes, v: Bytes, version: int): SyncState {
    SyncState(version, HashAfter(c, ZeroHash(), map[], map[indexMac := v]), map[indexMac := v])
  }

  /**
   * Under any primitives, key and iv: removing the only index of a consistent state gives back the hash of the empty
   * map together with a map that is not empty, which is consistent exactly when the removal's own value MAC expands
   * to nothing.
   */
  lemma RemovalLeavesStray(env: Env, create: PatchCreate, keyIdText: string, iv: Bytes, v: Bytes, version: int)
    requires create.operation == OP_REMOVE && 0 <= version < TWO_TO_64 - 1
    requires SigningKeys(env, keyIdText).Ok? && |SigningKeys(env, keyIdText).value.1| < 255
    ensures var c, keys := env.crypto, SigningKeys(env, keyIdText).value;
      var indexMac := c.hmac256(c.indexText(create.index), keys.0.index);
      var state := Holding(c, indexMac, v, version);
      var e := EncodePatch(env, create, keyIdText, state, iv);
      && Consistent(c, state) && e.Ok?
      && var valueMac := MacOf(e.value.patch.mutations[0]).valueMac;
      && e.value.state.indexValueMap == map[indexMac := valueMac]
      && Consistent(c, SyncState(version, e.value.state.hash, map[]))
      && (Consistent(c, e.value.state) <==> forall i :: 0 <= i < HASH_SIZE ==> Lane(c.sha512, valueMac, i) == 0)
  {
    hide HashAfter, Finish, MutationKeys, MacInput, SnapshotInput;
    var c, keys := env.crypto, SigningKeys(env, keyIdText).value;
    var indexMac := c.hmac256(c.indexText(create.index), keys.0.index);
    var m: IndexMap := map[indexMac := v];
    var state := Holding(c, indexMac, v, version);
    NewStateConsistent(c, version);
    HashAfterConsistent(c, NewState().(version := version), m);
    var sealed := SealMutation(c, keys.0, keys.1, create, iv);
    assert sealed.Ok? && sealed.value.indexBlob == indexMac;
    assert m - {indexMac} == map[];
    var mixed := MixOne(Begin(m), MacOf(sealed.value));
    assert mixed.Ok? && mixed.value.indexValueMap == map[];
    HashAfterConsistent(c, state, map[]);
    EncodedState(env, create, keyIdText, state, iv);
    EncodeKeepsConsistency(env, create, keyIdText, state, iv);
  }

  function Ones(n: nat): (r: Bytes)
    ensures |r| == n
    ensures forall i :: 0 <= i < n ==> r[i] == 1
  {
    if n == 0 then [] else Ones(n - 1) + [1]
  }

  /** The same primitives but for a digest whose every byte is one. */
  function WithOnes(env: Env): Env { env.(crypto := env.crypto.(sha512 := _ => Ones(64))) }

  /**
   * So encoding an OP_REMOVE on a consistent state returns a state whose hash no longer speaks for its map, under
   * primitives as lawful as any.
   */
  lemma RemovalBreaksEncodedState(env: Env, create: PatchCreate, keyIdText: string, iv: Bytes) returns (state: SyncState)
    requires create.operation == OP_REMOVE
    requires SigningKeys(env, keyIdText).Ok? && |SigningKeys(env, keyIdText).value.1| < 255
    ensures env.crypto.Lawful() ==> WithOnes(env).crypto.Lawful()
    ensures Consistent(WithOnes(env).crypto, state)
    ensures EncodePatch(WithOnes(env), create, keyIdText, state, iv).Ok?
    ensures !Consistent(WithOnes(env).crypto, EncodePatch(WithOnes(env), create, keyIdText, state, iv).value.state)
  {
    hide HashAfter, Consistent, Finish, MacInput, SnapshotInput;
    var e := WithOnes(env);
    assert SigningKeys(e, keyIdText) == SigningKeys(env, keyIdText);
    RemovalLeavesStray(e, create, keyIdText, iv, [], 0);
    var keys := SigningKeys(e, keyIdText).value;
    state := Holding(e.crypto, e.crypto.hmac256(e.crypto.indexText(create.index), keys.0.index), [], 0);
    var valueMac := MacOf(EncodePatch(e, create, keyIdText, state, iv).value.patch.mutations[0]).valueMac;
    assert Lane(e.crypto.sha512, valueMac, 0) == 1;
  }
}
