/** What decoding hands out, and what its MAC checks let through. */
module AppStateContents {
  import opened Common
  import opened LtHash
  import opened AppStateSync
  import opened AppStateLaws

  // ---- What is handed out ---------------------------------------------------------------------------

  function Held(d: MutationMap, index: seq<string>): Option<Action> { if index in d then Some(d[index]) else None }

  /** The action of the last mutation that opens to the index. */
  function LastOpened(env: Env, ms: seq<Mutation>, validateMacs: bool, index: seq<string>): Option<Action> {
    if ms == [] then None
    else
      var later, m := LastOpened(env, ms[1..], validateMacs, index), OpenMutation(env, ms[0], validateMacs);
      if later.Some? then later
      else if m.Ok? && m.value.action.index == index then Some(m.value.action)
      else None
  }

  function Or(a: Option<Action>, b: Option<Action>): Option<Action> { if a.Some? then a else b }

  lemma {:induction false} LastOpenedAppend(env: Env, a: seq<Mutation>, b: seq<Mutation>, validateMacs: bool, index: seq<string>)
    ensures LastOpened(env, a + b, validateMacs, index)
      == Or(LastOpened(env, b, validateMacs, index), LastOpened(env, a, validateMacs, index))
  {
    hide OpenMutation;
    if a == [] {
      assert a + b == b;
    } else {
      assert (a + b)[1..] == a[1..] + b;
      LastOpenedAppend(env, a[1..], b, validateMacs, index);
    }
  }

  /** The mutations of the patches above the minimum version, end to end. */
  function HandedOver(ps: seq<Patch>, minimumVersion: Option<int>): seq<Mutation> {
    if ps == [] then []
    else (if minimumVersion.None? || ps[0].version > minimumVersion.value then ps[0].mutations else [])
         + HandedOver(ps[1..], minimumVersion)
  }

  lemma {:induction false} WalkDelivers(env: Env, w: Walk, ms: seq<Mutation>, validateMacs: bool, index: seq<string>)
    requires DecodeFrom(env, w, ms, validateMacs, true).Ok?
    ensures Held(DecodeFrom(env, w, ms, validateMacs, true).value.delivered, index)
      == Or(LastOpened(env, ms, validateMacs, index), Held(w.delivered, index))
    decreases |ms|
  {
    hide OpenMutation, MixOne;
    if ms != [] {
      WalkDelivers(env, DecodeOne(env, w, ms[0], validateMacs, true).value, ms[1..], validateMacs, index);
    }
  }

  /** One list of mutations: what is handed out is the last action of each index, on top of what was there. */
  lemma MutationsDeliver(env: Env, ms: seq<Mutation>, initial: SyncState, delivered: MutationMap, validateMacs: bool,
      deliver: bool, index: seq<string>)
    requires DecodeMutations(env, ms, initial, delivered, validateMacs, deliver).Ok?
    ensures Held(DecodeMutations(env, ms, initial, delivered, validateMacs, deliver).value.delivered, index)
      == Or(if deliver then LastOpened(env, ms, validateMacs, index) else None, Held(delivered, index))
  {
    hide LastOpened, DecodeFrom, Finish;
    var w := Walk(Begin(initial.indexValueMap), delivered);
    if deliver {
      WalkDelivers(env, w, ms, validateMacs, index);
    } else {
      NothingDelivered(env, w, ms, validateMacs);
    }
  }

  /**
   * After a list of patches decodes, every index a patch above the minimum version opened maps to the action of the
   * last such mutation, and every other index keeps what it had.
   */
  lemma {:induction false} PatchesDeliver(env: Env, name: Bytes, ps: seq<Patch>, from: Synced, minimumVersion: Option<int>,
      validateMacs: bool, index: seq<string>)
    requires DecodeAll(env, name, ps, from, minimumVersion, validateMacs).Ok?
    ensures Held(DecodeAll(env, name, ps, from, minimumVersion, validateMacs).value.delivered, index)
      == Or(LastOpened(env, HandedOver(ps, minimumVersion), validateMacs, index), Held(from.delivered, index))
    decreases |ps|
  {
    hide LastOpened, DecodePatch;
    if ps == [] {
      NothingOpened(env, validateMacs, index);
    } else {
      var next := DecodePatch(env, name, ps[0], from, minimumVersion, validateMacs).value;
      PatchDelivers(env, name, ps[0], from, minimumVersion, validateMacs, index);
      PatchesDeliver(env, name, ps[1..], next, minimumVersion, validateMacs, index);
      var above := minimumVersion.None? || ps[0].version > minimumVersion.value;
      LastOpenedAppend(env, if above then ps[0].mutations else [], HandedOver(ps[1..], minimumVersion), validateMacs, index);
      NothingOpened(env, validateMacs, index);
    }
  }

  lemma NothingOpened(env: Env, validateMacs: bool, index: seq<string>)
    ensures LastOpened(env, [], validateMacs, index) == None
  {
  }

  lemma PatchDelivers(env: Env, name: Bytes, p: Patch, from: Synced, minimumVersion: Option<int>, validateMacs: bool,
      index: seq<string>)
    requires DecodePatch(env, name, p, from, minimumVersion, validateMacs).Ok?
    ensures Held(DecodePatch(env, name, p, from, minimumVersion, validateMacs).value.delivered, index)
      == Or(if minimumVersion.None? || p.version > minimumVersion.value then LastOpened(env, p.mutations, validateMacs, index)
            else None, Held(from.delivered, index))
  {
    hide LastOpened, DecodeMutations, CheckPatchMac, CheckSnapshotMac;
    MutationsDeliver(env, p.mutations, from.state, from.delivered, validateMacs,
      minimumVersion.None? || p.version > minimumVersion.value, index);
  }

  /** The same for a snapshot, which starts with nothing handed out. */
  lemma SnapshotDelivers(env: Env, name: Bytes, s: Snapshot, minimumVersion: Option<int>, validateMacs: bool, index: seq<string>)
    requires DecodeSnapshot(env, name, s, minimumVersion, validateMacs).Ok?
    ensures Held(DecodeSnapshot(env, name, s, minimumVersion, validateMacs).value.delivered, index)
      == if minimumVersion.None? || s.version > minimumVersion.value then LastOpened(env, s.records, validateMacs, index) else None
  {
    hide LastOpened, DecodeMutations, CheckSnapshotMac;
    MutationsDeliver(env, s.records, NewState().(version := s.version), map[], validateMacs,
      minimumVersion.None? || s.version > minimumVersion.value, index);
  }

  /** Decoding a freshly encoded patch hands out exactly the action that was encoded. */
  lemma EncodedActionDelivered(env: Env, create: PatchCreate, keyIdText: string, state: SyncState, iv: Bytes,
      minimumVersion: Option<int>)
    requires env.crypto.Lawful() && CanonicalKeyId(env.crypto, keyIdText)
    requires EncodePatch(env, create, keyIdText, state, iv).Ok?
    requires minimumVersion.Some? ==> state.version + 1 > minimumVersion.value
    ensures var e := EncodePatch(env, create, keyIdText, state, iv).value;
      var d := DecodeAll(env, create.patchType, [e.patch], Synced(state, map[]), minimumVersion, true);
      d.Ok? && d.value.delivered == map[create.index := Action(create.index, create.syncAction, create.apiVersion)]
  {
    EncodedMutationOpens(env, create, keyIdText, state, iv);
    EncodeThenDecode(env, create, keyIdText, state, iv, minimumVersion);
    var e := EncodePatch(env, create, keyIdText, state, iv).value;
    assert |e.patch.mutations| == 1 && e.patch.version == state.version + 1;
    DeliversOne(env, create.patchType, e.patch, state, minimumVersion,
      Action(create.index, create.syncAction, create.apiVersion));
  }

  lemma DeliversOne(env: Env, name: Bytes, p: Patch, state: SyncState, minimumVersion: Option<int>, action: Action)
    requires |p.mutations| == 1 && (minimumVersion.Some? ==> p.version > minimumVersion.value)
    requires OpenMutation(env, p.mutations[0], true).Ok? && OpenMutation(env, p.mutations[0], true).value.action == action
    requires DecodeAll(env, name, [p], Synced(state, map[]), minimumVersion, true).Ok?
    ensures DecodeAll(env, name, [p], Synced(state, map[]), minimumVersion, true).value.delivered == map[action.index := action]
  {
    hide OpenMutation, DecodeAll;
    var d := DecodeAll(env, name, [p], Synced(state, map[]), minimumVersion, true).value.delivered;
    assert [p][1..] == [] && p.mutations[1..] == [] && p.mutations + [] == p.mutations;
    assert HandedOver([p], minimumVersion) == p.mutations + HandedOver([], minimumVersion);
    forall index
      ensures Held(d, index) == if index == action.index then Some(action) else None
    {
      PatchesDeliver(env, name, [p], Synced(state, map[]), minimumVersion, true, index);
    }
    assert forall index :: index in d <==> Held(d, index).Some?;
    assert d.Keys == {action.index};
  }

  // ---- What the checks let through ------------------------------------------------------------------

  /** A mutation opens with validation exactly when its content MAC, its plaintext and its index MAC are right. */
  lemma OpensExactly(env: Env, m: Mutation)
    ensures var c, keys, r := env.crypto, KeysFor(env, m.keyId), OpenMutation(env, m, true);
      r.Ok? <==>
        && keys.Ok? && |m.valueBlob| >= 32 && |m.keyId| < 255
        && var content, mac := m.valueBlob[..|m.valueBlob| - 32], m.valueBlob[|m.valueBlob| - 32..];
        && c.hmac512(MacInput(m.operation, content, m.keyId), keys.value.valueMac)[..32] == mac
        && var text := c.decrypt(content, keys.value.valueEncryption);
        && text.Some? && c.parse(text.value).Some?
        && c.hmac256(c.indexText(c.parse(text.value).value.index), keys.value.index) == m.indexBlob
    ensures var c, keys, r := env.crypto, KeysFor(env, m.keyId), OpenMutation(env, m, true);
      r.Ok? ==>
        && r.value.mac == MacMutation(m.indexBlob, m.valueBlob[|m.valueBlob| - 32..], m.operation)
        && c.parse(c.decrypt(m.valueBlob[..|m.valueBlob| - 32], keys.value.valueEncryption).value) == Some(r.value.action)
  {
    hide MacInput, KeysFor;
  }

  /** Without validation only a blob, a key and a plaintext are needed. */
  lemma OpensUncheckedExactly(env: Env, m: Mutation)
    ensures var c, keys := env.crypto, KeysFor(env, m.keyId);
      OpenMutation(env, m, false).Ok? <==>
        && keys.Ok? && |m.valueBlob| >= 32
        && var text := c.decrypt(m.valueBlob[..|m.valueBlob| - 32], keys.value.valueEncryption);
        text.Some? && c.parse(text.value).Some?
  {
    hide KeysFor;
  }

  lemma {:induction false} ValueMacsAre(ms: seq<Mutation>)
    ensures |ValueMacs(ms)| == |ms|
    ensures forall i :: 0 <= i < |ms| ==> ValueMacs(ms)[i] == LastBytes(ms[i].valueBlob, 32)
  {
    hide LastBytes;
    if ms != [] {
      ValueMacsAre(ms[1..]);
    }
  }

  predicate SignedPatch(env: Env, p: Patch, name: Bytes) {
    && KeysFor(env, p.keyId).Ok? && 0 <= p.version < TWO_TO_64
    && p.patchMac == env.crypto.hmac256(
         PatchInput(p.snapshotMac, ValueMacs(p.mutations), BigEndian(p.version, 8), name), KeysFor(env, p.keyId).value.patchMac)
  }

  predicate SignedState(env: Env, keyId: Bytes, s: SyncState, name: Bytes, mac: Bytes) {
    && KeysFor(env, keyId).Ok? && 0 <= s.version < TWO_TO_64
    && mac == env.crypto.hmac256(SnapshotInput(s.hash, BigEndian(s.version, 8), name), KeysFor(env, keyId).value.snapshotMac)
  }

  /**
   * A patch passes validation exactly when its own MAC signs it, every mutation opens with validation, every removal
   * has something to remove, and its snapshot MAC signs the state it leads to.
   */
  lemma PatchValidatesExactly(env: Env, name: Bytes, p: Patch, from: Synced, minimumVersion: Option<int>)
    ensures var r := DecodePatch(env, name, p, from, minimumVersion, true);
      var mixed := MixAll(Begin(from.state.indexValueMap), MacsOf(p.mutations));
      r.Ok? <==>
        && SignedPatch(env, p, name)
        && AllOpen(env, p.mutations, true) && mixed.Ok?
        && var hash := HashAfter(env.crypto, from.state.hash, from.state.indexValueMap, mixed.value.indexValueMap);
        SignedState(env, p.keyId, SyncState(p.version, hash, mixed.value.indexValueMap), name, p.snapshotMac)
  {
    hide KeysFor, DecodeMutations, PatchInput, SnapshotInput, MixAll, AllOpen, HashAfter, ValueMacs;
    DecodeMutationsSplits(env, p.mutations, from.state, from.delivered, true,
      minimumVersion.None? || p.version > minimumVersion.value);
  }

  /** A snapshot passes exactly when every record opens with validation and its MAC signs the state of the records. */
  lemma SnapshotValidatesExactly(env: Env, name: Bytes, s: Snapshot, minimumVersion: Option<int>)
    ensures var r := DecodeSnapshot(env, name, s, minimumVersion, true);
      var mixed := MixAll(Begin(map[]), MacsOf(s.records));
      r.Ok? <==>
        && AllOpen(env, s.records, true) && mixed.Ok?
        && var hash := HashAfter(env.crypto, ZeroHash(), map[], mixed.value.indexValueMap);
        SignedState(env, s.keyId, SyncState(s.version, hash, mixed.value.indexValueMap), name, s.mac)
  {
    hide KeysFor, DecodeMutations, SnapshotInput, MixAll, AllOpen, HashAfter;
    DecodeMutationsSplits(env, s.records, NewState().(version := s.version), map[], true,
      minimumVersion.None? || s.version > minimumVersion.value);
  }

  // ---- What the patch MAC signs ---------------------------------------------------------------------

  ghost predicate Macs(ms: seq<Bytes>) { forall m :: m in ms ==> |m| == 32 }

  lemma {:induction false} FlattenedMacs(a: seq<Bytes>, b: seq<Bytes>)
    requires Macs(a) && Macs(b)
    ensures |Flatten(a)| == 32 * |a|
    ensures |a| == |b| && Flatten(a) == Flatten(b) ==> a == b
  {
    if a != [] {
      assert a[0] in a;
      FlattenedMacs(a[1..], if b == [] then [] else b[1..]);
      if b != [] && |a| == |b| && Flatten(a) == Flatten(b) {
        assert b[0] in b;
        assert a[0] == Flatten(a)[..32] == Flatten(b)[..32] == b[0];
        assert Flatten(a)[32..] == Flatten(a[1..]) && Flatten(b)[32..] == Flatten(b[1..]);
        assert a == [a[0]] + a[1..] && b == [b[0]] + b[1..];
      }
    }
  }

  /** A patch MAC signs snapshot MAC, value MACs, version and collection apart, for names shorter than a MAC. */
  lemma PatchInputSeparates(s: Bytes, a: seq<Bytes>, v: int, name: Bytes, s2: Bytes, b: seq<Bytes>, v2: int, name2: Bytes)
    requires |s| == |s2| == 32 && Macs(a) && Macs(b) && |name| < 32 && |name2| < 32
    requires 0 <= v < TWO_TO_64 && 0 <= v2 < TWO_TO_64
    ensures PatchInput(s, a, BigEndian(v, 8), name) == PatchInput(s2, b, BigEndian(v2, 8), name2)
      <==> s == s2 && a == b && v == v2 && name == name2
  {
    var x, y := PatchInput(s, a, BigEndian(v, 8), name), PatchInput(s2, b, BigEndian(v2, 8), name2);
    FlattenedMacs(a, b);
    FlattenedMacs(b, a);
    if x == y {
      assert |x| == 40 + 32 * |a| + |name| && |y| == 40 + 32 * |b| + |name2|;
      assert |a| == |b|;
      var n := 32 + 32 * |a|;
      assert s == x[..32] && s2 == y[..32];
      assert Flatten(a) == x[32..n] && Flatten(b) == y[32..n];
      assert BigEndian(v, 8) == x[n..n + 8] && BigEndian(v2, 8) == y[n..n + 8];
      assert name == x[n + 8..] && name2 == y[n + 8..];
      Pow256Of8();
      BigEndianSeparates(v, v2, 8);
    }
  }

  lemma Pow256Of8()
    ensures Pow256(8) == TWO_TO_64
  {
    assert Pow256(4) == 0x1_0000_0000;
    assert Pow256(8) == 256 * (256 * (256 * (256 * Pow256(4))));
  }
}
