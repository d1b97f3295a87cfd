/** App-state sync: building and decoding syncd patches and snapshots over an LT-hash state. */
module AppStateSync {
  import opened Common
  import opened LtHash

  const OP_SET: int := 1
  const OP_REMOVE: int := 2

  /** Index MAC to value MAC. The base64 spelling of the index is an injective renaming and is not kept. */
  type IndexMap = map<Bytes, Bytes>

  datatype SyncState = SyncState(version: int, hash: Bytes, indexValueMap: IndexMap)

  datatype MacMutation = MacMutation(indexMac: Bytes, valueMac: Bytes, operation: int)

  /** The plaintext of a mutation; `value` stands for the JSON text of the sync action. */
  datatype Action = Action(index: seq<string>, value: Bytes, version: int)

  type MutationMap = map<seq<string>, Action>

  datatype Mutation = Mutation(operation: int, indexBlob: Bytes, valueBlob: Bytes, keyId: Bytes)

  datatype Patch = Patch(version: int, keyId: Bytes, snapshotMac: Bytes, patchMac: Bytes, mutations: seq<Mutation>)

  datatype Snapshot = Snapshot(version: int, keyId: Bytes, mac: Bytes, records: seq<Mutation>)

  datatype PatchCreate = PatchCreate(patchType: Bytes, index: seq<string>, syncAction: Bytes, operation: int, apiVersion: int)

  datatype SyncError =
    | KeyMissing | BadKeyId | KeyIdTooLong | VersionOverflow | InvalidBlob | ContentMacMismatch
    | CannotDecrypt | Malformed | IndexMacMismatch | NoPreviousOperation | PatchMacMismatch | SnapshotMacMismatch
    | UnknownCollection

  datatype Result<+T> = Ok(value: T) | Err(error: SyncError) {
    predicate IsFailure() { Err? }
    function PropagateFailure<U>(): Result<U> requires Err? { Err(error) }
    function Extract(): T requires Ok? { value }
  }

  /** Cryptography, base64 and JSON are foreign code: arbitrary functions constrained only by Lawful. */
  datatype Crypto = Crypto(
    sha512: Sha512,
    hmac512: (Bytes, Bytes) -> Digest64,
    hmac256: (Bytes, Bytes) -> Digest32,
    encrypt: (Bytes, Bytes, Bytes) -> Bytes,
    decrypt: (Bytes, Bytes) -> Option<Bytes>,
    b64encode: Bytes -> string,
    b64decode: string -> Option<Bytes>,
    indexText: seq<string> -> Bytes,
    render: Action -> Bytes,
    parse: Bytes -> Option<Action>)
  {
    ghost predicate Lawful() {
      && (forall iv, p, k :: decrypt(encrypt(iv, p, k), k) == Some(p))
      && (forall a :: parse(render(a)) == Some(a))
      && (forall b :: b64decode(b64encode(b)) == Some(b))
    }
  }

  /** The primitives together with the app-state key lookup, which answers key data for a base64 key id. */
  datatype Env = Env(crypto: Crypto, fetch: string -> Option<Bytes>)

  datatype KeySet = KeySet(index: Bytes, valueEncryption: Bytes, valueMac: Bytes, snapshotMac: Bytes, patchMac: Bytes)

  const SEED_LABEL: string := "app-state-sync-key-seed"

  function Ascii(s: string): Bytes {
    seq(|s|, i requires 0 <= i < |s| => if s[i] as int < 128 then s[i] as int else 63)
  }

  /** Three 64-byte blocks are the first that reach the 160 bytes needed. */
  function MutationKeys(c: Crypto, keyData: Bytes): KeySet {
    var seed := c.hmac512(keyData, Ascii(SEED_LABEL));
    var m := c.hmac512(seed + [1], keyData) + c.hmac512(seed + [2], keyData) + c.hmac512(seed + [3], keyData);
    KeySet(m[0..32], m[32..64], m[64..96], m[96..128], m[128..160])
  }

  /** The first n blocks of key material. */
  function KeyMaterial(c: Crypto, seed: Bytes, keyData: Bytes, n: nat): (r: Bytes)
    requires n < 256
    ensures |r| == 64 * n
  {
    if n == 0 then [] else KeyMaterial(c, seed, keyData, n - 1) + c.hmac512(seed + [n], keyData)
  }

  /** Blocks are added until there are 160 bytes, and those are cut into the five keys. */
  method ExpandKeys(c: Crypto, keyData: Bytes) returns (keys: KeySet)
    ensures keys == MutationKeys(c, keyData)
    ensures keys.index + keys.valueEncryption + keys.valueMac + keys.snapshotMac + keys.patchMac
      == KeyMaterial(c, c.hmac512(keyData, Ascii(SEED_LABEL)), keyData, 3)[..160]
  {
    var seed := c.hmac512(keyData, Ascii(SEED_LABEL));
    var material: Bytes, counter: nat := [], 1;
    while |material| < 160
      invariant 1 <= counter <= 4 && material == KeyMaterial(c, seed, keyData, counter - 1)
      decreases 160 - |material|
    {
      material := material + c.hmac512(seed + [counter], keyData);
      counter := counter + 1;
    }
    assert counter == 4;
    ThreeBlocks(c, seed, keyData);
    keys := KeySet(material[0..32], material[32..64], material[64..96], material[96..128], material[128..160]);
    FivePieces(material);
  }

  lemma ThreeBlocks(c: Crypto, seed: Bytes, keyData: Bytes)
    ensures KeyMaterial(c, seed, keyData, 3)
      == c.hmac512(seed + [1], keyData) + c.hmac512(seed + [2], keyData) + c.hmac512(seed + [3], keyData)
  {
    assert KeyMaterial(c, seed, keyData, 0) == [];
    assert KeyMaterial(c, seed, keyData, 1) == c.hmac512(seed + [1], keyData);
    assert KeyMaterial(c, seed, keyData, 2) == KeyMaterial(c, seed, keyData, 1) + c.hmac512(seed + [2], keyData);
  }

  lemma FivePieces(m: Bytes)
    requires |m| >= 160
    ensures m[0..32] + m[32..64] + m[64..96] + m[96..128] + m[128..160] == m[..160]
  {
  }

  /** What is signed for one record: operation, key id, content, and how long the first two were. */
  function MacInput(operation: int, data: Bytes, keyId: Bytes): Bytes
    requires |keyId| < 255
  {
    var keyData := [if operation == OP_SET then 1 else 2] + keyId;
    keyData + data + [0, 0, 0, 0, 0, 0, 0, |keyData|]
  }

  /** The one-byte length field cannot hold a key id of 255 bytes or more. */
  function GenerateMac(c: Crypto, operation: int, data: Bytes, keyId: Bytes, key: Bytes): Result<Bytes> {
    if |keyId| >= 255 then Err(KeyIdTooLong) else Ok(c.hmac512(MacInput(operation, data, keyId), key)[..32])
  }

  const TWO_TO_64: int := 0x1_0000_0000_0000_0000

  function To64BitNetworkOrder(value: int): Result<Bytes> {
    if 0 <= value < TWO_TO_64 then Ok(BigEndian(value, 8)) else Err(VersionOverflow)
  }

  function SnapshotInput(lthash: Bytes, version: Bytes, name: Bytes): Bytes { lthash + version + name }

  function GenerateSnapshotMac(c: Crypto, lthash: Bytes, version: int, name: Bytes, key: Bytes): Result<Bytes> {
    var v :- To64BitNetworkOrder(version);
    Ok(c.hmac256(SnapshotInput(lthash, v, name), key))
  }

  function PatchInput(snapshotMac: Bytes, valueMacs: seq<Bytes>, version: Bytes, patchType: Bytes): Bytes {
    snapshotMac + Flatten(valueMacs) + version + patchType
  }

  function GeneratePatchMac(c: Crypto, snapshotMac: Bytes, valueMacs: seq<Bytes>, version: int, patchType: Bytes,
      key: Bytes): Result<Bytes>
  {
    var v :- To64BitNetworkOrder(version);
    Ok(c.hmac256(PatchInput(snapshotMac, valueMacs, v, patchType), key))
  }

  /** The keys a key id stands for, looked up by its base64 text. */
  function KeysFor(env: Env, keyId: Bytes): Result<KeySet> {
    match env.fetch(env.crypto.b64encode(keyId))
    case None => Err(KeyMissing)
    case Some(data) => Ok(MutationKeys(env.crypto, data))
  }

  function ZeroHash(): (r: Bytes)
    ensures |r| == HASH_SIZE
  {
    FitToSize([])
  }

  function NewState(): SyncState { SyncState(0, ZeroHash(), map[]) }

  function StartHash(hash: Bytes): Bytes {
    if hash == [] then ZeroHash() else hash
  }

  // ---- Mixing mutations into a state ----------------------------------------------------------------

  datatype Mixing = Mixing(indexValueMap: IndexMap, addValues: seq<Bytes>, subValues: seq<Bytes>)

  function MixOne(g: Mixing, mac: MacMutation): Result<Mixing> {
    var m := g.indexValueMap;
    var sub := if mac.indexMac in m then g.subValues + [m[mac.indexMac]] else g.subValues;
    if mac.operation == OP_REMOVE then
      if mac.indexMac !in m then Err(NoPreviousOperation)
      else Ok(Mixing(m - {mac.indexMac}, g.addValues, sub))
    else
      Ok(Mixing(m[mac.indexMac := mac.valueMac], g.addValues + [mac.valueMac], sub))
  }

  function MixAll(g: Mixing, macs: seq<MacMutation>): Result<Mixing>
    decreases |macs|
  {
    if macs == [] then Ok(g)
    else
      var next :- MixOne(g, macs[0]);
      MixAll(next, macs[1..])
  }

  function Begin(m: IndexMap): Mixing { Mixing(m, [], []) }

  function Finish(c: Crypto, hash: Bytes, g: Mixing): Bytes {
    Mixed(c.sha512, StartHash(hash), g.subValues, g.addValues)
  }

  /** The generator closure: its index map and the two value lists are its mutable state. */
  class LtHashGenerator {
    const crypto: Crypto
    const currentHash: Bytes
    var indexValueMap: IndexMap
    var addValues: seq<Bytes>
    var subValues: seq<Bytes>

    function View(): Mixing
      reads this
    {
      Mixing(indexValueMap, addValues, subValues)
    }

    constructor (c: Crypto, hash: Bytes, m: IndexMap)
      ensures crypto == c && currentHash == StartHash(hash) && View() == Begin(m)
    {
      crypto := c;
      currentHash := StartHash(hash);
      indexValueMap := m;
      addValues := [];
      subValues := [];
    }

    method Mix(mac: MacMutation) returns (r: Result<()>)
      modifies this
      ensures r.IsFailure() == MixOne(old(View()), mac).IsFailure()
      ensures r.IsFailure() ==> r.error == MixOne(old(View()), mac).error && View() == old(View())
      ensures r.Ok? ==> View() == MixOne(old(View()), mac).value
    {
      var prev := mac.indexMac in indexValueMap;
      var prevMac := if prev then indexValueMap[mac.indexMac] else [];
      if mac.operation == OP_REMOVE {
        if !prev {
          return Err(NoPreviousOperation);
        }
        indexValueMap := indexValueMap - {mac.indexMac};
      } else {
        addValues := addValues + [mac.valueMac];
        indexValueMap := indexValueMap[mac.indexMac := mac.valueMac];
      }
      if prev {
        subValues := subValues + [prevMac];
      }
      r := Ok(());
    }

    method FinishHash() returns (hash: Bytes)
      requires currentHash != []
      ensures hash == Finish(crypto, currentHash, View())
    {
      hash := SubtractThenAdd(crypto.sha512, currentHash, subValues, addValues);
    }
  }

  // ---- Decoding mutations ---------------------------------------------------------------------------

  datatype Opened = Opened(action: Action, mac: MacMutation)

  /** Checks and decrypts one mutation; nothing here depends on the LT-hash state. */
  function OpenMutation(env: Env, m: Mutation, validateMacs: bool): Result<Opened> {
    var keys :- KeysFor(env, m.keyId);
    OpenWithKeys(env.crypto, keys, m, validateMacs)
  }

  function OpenWithKeys(c: Crypto, keys: KeySet, m: Mutation, validateMacs: bool): Result<Opened> {
    if |m.valueBlob| < 32 then Err(InvalidBlob) else
    var encContent := m.valueBlob[..|m.valueBlob| - 32];
    var ogValueMac := m.valueBlob[|m.valueBlob| - 32..];
    var contentMac :- if validateMacs then GenerateMac(c, m.operation, encContent, m.keyId, keys.valueMac) else Ok(ogValueMac);
    if contentMac != ogValueMac then Err(ContentMacMismatch) else
    match c.decrypt(encContent, keys.valueEncryption)
    case None => Err(CannotDecrypt)
    case Some(text) =>
      match c.parse(text)
      case None => Err(Malformed)
      case Some(action) =>
        if validateMacs && c.hmac256(c.indexText(action.index), keys.index) != m.indexBlob then Err(IndexMacMismatch)
        else Ok(Opened(action, MacMutation(m.indexBlob, ogValueMac, m.operation)))
  }

  datatype Walk = Walk(mixing: Mixing, delivered: MutationMap)

  function DecodeOne(env: Env, w: Walk, m: Mutation, validateMacs: bool, deliver: bool): Result<Walk> {
    var clear :- OpenMutation(env, m, validateMacs);
    var mixing :- MixOne(w.mixing, clear.mac);
    Ok(Walk(mixing, if deliver then w.delivered[clear.action.index := clear.action] else w.delivered))
  }

  function DecodeFrom(env: Env, w: Walk, ms: seq<Mutation>, validateMacs: bool, deliver: bool): Result<Walk>
    decreases |ms|
  {
    if ms == [] then Ok(w)
    else
      var next :- DecodeOne(env, w, ms[0], validateMacs, deliver);
      DecodeFrom(env, next, ms[1..], validateMacs, deliver)
  }

  datatype Decoded = Decoded(hash: Bytes, indexValueMap: IndexMap, delivered: MutationMap)

  function DecodeMutations(env: Env, ms: seq<Mutation>, initial: SyncState, delivered: MutationMap, validateMacs: bool,
      deliver: bool): Result<Decoded>
  {
    var w :- DecodeFrom(env, Walk(Begin(initial.indexValueMap), delivered), ms, validateMacs, deliver);
    Ok(Decoded(Finish(env.crypto, initial.hash, w.mixing), w.mixing.indexValueMap, w.delivered))
  }

  /** A state dictionary, which its owner updates in place. */
  class LtHashState {
    var version: int
    var hash: Bytes
    var indexValueMap: IndexMap

    function Value(): SyncState
      reads this
    {
      SyncState(version, hash, indexValueMap)
    }

    constructor (s: SyncState)
      ensures Value() == s
    {
      version, hash, indexValueMap := s.version, s.hash, s.indexValueMap;
    }
  }

  /** Nothing is in the modifies clause: a failing mutation leaves the caller's state as it was. */
  method DecodeSyncdMutations(env: Env, ms: seq<Mutation>, initial: LtHashState, delivered: MutationMap,
      validateMacs: bool, deliver: bool) returns (r: Result<Decoded>)
    ensures r == DecodeMutations(env, ms, initial.Value(), delivered, validateMacs, deliver)
  {
    var generator := new LtHashGenerator(env.crypto, initial.hash, initial.indexValueMap);
    var keyCache: map<Bytes, KeySet> := map[];
    var mutationMap := delivered;
    ghost var start := Walk(generator.View(), delivered);
    for n := 0 to |ms|
      invariant fresh(generator)
      invariant forall k :: k in keyCache ==> KeysFor(env, k) == Ok(keyCache[k])
      invariant DecodeFrom(env, start, ms, validateMacs, deliver)
        == DecodeFrom(env, Walk(generator.View(), mutationMap), ms[n..], validateMacs, deliver)
    {
      assert ms[n..][1..] == ms[n + 1..];
      var m := ms[n];
      var keys;
      if m.keyId in keyCache {
        keys := keyCache[m.keyId];
      } else {
        var found := KeysFor(env, m.keyId);
        if found.Err? {
          return Err(found.error);
        }
        keys := found.value;
        keyCache := keyCache[m.keyId := keys];
      }
      var clear := OpenWithKeys(env.crypto, keys, m, validateMacs);
      if clear.Err? {
        return Err(clear.error);
      }
      if deliver {
        mutationMap := mutationMap[clear.value.action.index := clear.value.action];
      }
      var mixed := generator.Mix(clear.value.mac);
      if mixed.Err? {
        return Err(mixed.error);
      }
    }
    var hash := generator.FinishHash();
    r := Ok(Decoded(hash, generator.indexValueMap, mutationMap));
  }

  // ---- Patches and snapshots ------------------------------------------------------------------------

  function ValueMacs(ms: seq<Mutation>): seq<Bytes> {
    if ms == [] then [] else [LastBytes(ms[0].valueBlob, 32)] + ValueMacs(ms[1..])
  }

  function CheckPatchMac(env: Env, p: Patch, name: Bytes): Result<()> {
    var keys :- KeysFor(env, p.keyId);
    var mac :- GeneratePatchMac(env.crypto, p.snapshotMac, ValueMacs(p.mutations), p.version, name, keys.patchMac);
    if mac != p.patchMac then Err(PatchMacMismatch) else Ok(())
  }

  function CheckSnapshotMac(env: Env, keyId: Bytes, s: SyncState, name: Bytes, expected: Bytes): Result<()> {
    var keys :- KeysFor(env, keyId);
    var mac :- GenerateSnapshotMac(env.crypto, s.hash, s.version, name, keys.snapshotMac);
    if mac != expected then Err(SnapshotMacMismatch) else Ok(())
  }

  datatype Synced = Synced(state: SyncState, delivered: MutationMap)

  function DecodePatch(env: Env, name: Bytes, p: Patch, from: Synced, minimumVersion: Option<int>, validateMacs: bool)
    : Result<Synced>
  {
    var deliver := minimumVersion.None? || p.version > minimumVersion.value;
    var patchCheck := if validateMacs then CheckPatchMac(env, p, name) else Ok(());
    if patchCheck.Err? then Err(patchCheck.error) else
    var d :- DecodeMutations(env, p.mutations, from.state, from.delivered, validateMacs, deliver);
    var next := SyncState(p.version, d.hash, d.indexValueMap);
    var stateCheck := if validateMacs then CheckSnapshotMac(env, p.keyId, next, name, p.snapshotMac) else Ok(());
    if stateCheck.Err? then Err(stateCheck.error) else
    Ok(Synced(next, d.delivered))
  }

  function DecodeAll(env: Env, name: Bytes, ps: seq<Patch>, from: Synced, minimumVersion: Option<int>, validateMacs: bool)
    : Result<Synced>
    decreases |ps|
  {
    if ps == [] then Ok(from)
    else
      var next :- DecodePatch(env, name, ps[0], from, minimumVersion, validateMacs);
      DecodeAll(env, name, ps[1..], next, minimumVersion, validateMacs)
  }

  /** Each patch is applied to a private copy, updated in place; on an error the caller's state is untouched. */
  method DecodePatches(env: Env, name: Bytes, syncds: seq<Patch>, initial: LtHashState, minimumVersion: Option<int>,
      validateMacs: bool) returns (r: Result<Synced>)
    ensures r == DecodeAll(env, name, syncds, Synced(initial.Value(), map[]), minimumVersion, validateMacs)
  {
    var newState := new LtHashState(initial.Value());
    var mutationMap: MutationMap := map[];
    for n := 0 to |syncds|
      invariant fresh(newState)
      invariant DecodeAll(env, name, syncds, Synced(initial.Value(), map[]), minimumVersion, validateMacs)
        == DecodeAll(env, name, syncds[n..], Synced(newState.Value(), mutationMap), minimumVersion, validateMacs)
    {
      assert syncds[n..][1..] == syncds[n + 1..];
      var p := syncds[n];
      ghost var before := newState.Value();
      newState.version := p.version;
      var shouldMutate := minimumVersion.None? || p.version > minimumVersion.value;
      if validateMacs {
        var patchCheck := CheckPatchMac(env, p, name);
        if patchCheck.Err? {
          return Err(patchCheck.error);
        }
      }
      var d := DecodeSyncdMutations(env, p.mutations, newState, mutationMap, validateMacs, shouldMutate);
      assert d == DecodeMutations(env, p.mutations, before, mutationMap, validateMacs, shouldMutate);
      if d.Err? {
        return Err(d.error);
      }
      mutationMap := d.value.delivered;
      newState.hash := d.value.hash;
      newState.indexValueMap := d.value.indexValueMap;
      if validateMacs {
        var stateCheck := CheckSnapshotMac(env, p.keyId, newState.Value(), name, p.snapshotMac);
        if stateCheck.Err? {
          return Err(stateCheck.error);
        }
      }
    }
    r := Ok(Synced(newState.Value(), mutationMap));
  }

  function DecodeSnapshot(env: Env, name: Bytes, s: Snapshot, minimumVersion: Option<int>, validateMacs: bool)
    : Result<Synced>
  {
    var deliver := minimumVersion.None? || s.version > minimumVersion.value;
    var d :- DecodeMutations(env, s.records, NewState().(version := s.version), map[], validateMacs, deliver);
    var next := SyncState(s.version, d.hash, d.indexValueMap);
    var check := if validateMacs then CheckSnapshotMac(env, s.keyId, next, name, s.mac) else Ok(());
    if check.Err? then Err(check.error) else
    Ok(Synced(next, d.delivered))
  }

  method DecodeSyncdSnapshot(env: Env, name: Bytes, s: Snapshot, minimumVersion: Option<int>, validateMacs: bool)
    returns (r: Result<Synced>)
    ensures r == DecodeSnapshot(env, name, s, minimumVersion, validateMacs)
  {
    var newState := new LtHashState(NewState());
    newState.version := s.version;
    var required := minimumVersion.None? || newState.version > minimumVersion.value;
    var d := DecodeSyncdMutations(env, s.records, newState, map[], validateMacs, required);
    if d.Err? {
      return Err(d.error);
    }
    newState.hash := d.value.hash;
    newState.indexValueMap := d.value.indexValueMap;
    if validateMacs {
      var check := CheckSnapshotMac(env, s.keyId, newState.Value(), name, s.mac);
      if check.Err? {
        return Err(check.error);
      }
    }
    r := Ok(Synced(newState.Value(), d.value.delivered));
  }

  // ---- Building a patch -----------------------------------------------------------------------------

  datatype Encoded = Encoded(patch: Patch, state: SyncState)

  /** The keys and the raw key id named by the caller's base64 text. */
  function SigningKeys(env: Env, keyIdText: string): Result<(KeySet, Bytes)> {
    var keyData := if keyIdText == "" then None else env.fetch(keyIdText);
    if keyData.None? then Err(KeyMissing) else
    var keyId := env.crypto.b64decode(keyIdText);
    if keyId.None? then Err(BadKeyId) else
    Ok((MutationKeys(env.crypto, keyData.value), keyId.value))
  }

  /** The encrypted record of one action, its value MAC at the end. `iv` is the random prefix of the encryption. */
  function SealMutation(c: Crypto, keys: KeySet, keyId: Bytes, create: PatchCreate, iv: Bytes): Result<Mutation> {
    var plain := c.render(Action(create.index, create.syncAction, create.apiVersion));
    var encValue := c.encrypt(iv, plain, keys.valueEncryption);
    var valueMac :- GenerateMac(c, create.operation, encValue, keyId, keys.valueMac);
    Ok(Mutation(create.operation, c.hmac256(c.indexText(create.index), keys.index), encValue + valueMac, keyId))
  }

  function SealPatch(c: Crypto, keys: KeySet, keyId: Bytes, name: Bytes, state: SyncState, m: Mutation): Result<Patch> {
    var snapshotMac :- GenerateSnapshotMac(c, state.hash, state.version, name, keys.snapshotMac);
    var patchMac :- GeneratePatchMac(c, snapshotMac, [LastBytes(m.valueBlob, 32)], state.version, name, keys.patchMac);
    Ok(Patch(state.version, keyId, snapshotMac, patchMac, [m]))
  }

  function MacOf(m: Mutation): MacMutation {
    MacMutation(m.indexBlob, LastBytes(m.valueBlob, 32), m.operation)
  }

  /** The last map update is made for every operation, OP_REMOVE included. */
  function EncodePatch(env: Env, create: PatchCreate, keyIdText: string, state: SyncState, iv: Bytes): Result<Encoded> {
    var keys :- SigningKeys(env, keyIdText);
    var m :- SealMutation(env.crypto, keys.0, keys.1, create, iv);
    var g :- MixOne(Begin(state.indexValueMap), MacOf(m));
    var mixed := SyncState(state.version + 1, Finish(env.crypto, state.hash, g), g.indexValueMap);
    var patch :- SealPatch(env.crypto, keys.0, keys.1, create.patchType, mixed, m);
    Ok(Encoded(patch, mixed.(indexValueMap := mixed.indexValueMap[m.indexBlob := MacOf(m).valueMac])))
  }

  /** A generator used for one mutation. */
  method MixSingle(c: Crypto, initial: LtHashState, mac: MacMutation) returns (r: Result<(Bytes, IndexMap)>)
    ensures var g := MixOne(Begin(initial.indexValueMap), mac);
      r == if g.Err? then Err(g.error) else Ok((Finish(c, initial.hash, g.value), g.value.indexValueMap))
  {
    var generator := new LtHashGenerator(c, initial.hash, initial.indexValueMap);
    assert StartHash(StartHash(initial.hash)) == StartHash(initial.hash);
    var mixed := generator.Mix(mac);
    if mixed.Err? {
      return Err(mixed.error);
    }
    var hash := generator.FinishHash();
    r := Ok((hash, generator.indexValueMap));
  }

  method EncodeSyncdPatch(env: Env, create: PatchCreate, keyIdText: string, state: LtHashState, iv: Bytes)
    returns (r: Result<Encoded>)
    ensures r == EncodePatch(env, create, keyIdText, state.Value(), iv)
  {
    hide SigningKeys, SealMutation, SealPatch, Finish, MixOne;
    var keys := SigningKeys(env, keyIdText);
    if keys.Err? {
      return Err(keys.error);
    }
    var sealed := SealMutation(env.crypto, keys.value.0, keys.value.1, create, iv);
    if sealed.Err? {
      return Err(sealed.error);
    }
    var mac := MacOf(sealed.value);
    var current := new LtHashState(state.Value());
    var mixed := MixSingle(env.crypto, current, mac);
    if mixed.Err? {
      return Err(mixed.error);
    }
    current.hash := mixed.value.0;
    current.indexValueMap := mixed.value.1;
    current.version := current.version + 1;
    ghost var g := MixOne(Begin(state.indexValueMap), mac).value;
    assert current.Value() == SyncState(state.version + 1, Finish(env.crypto, state.hash, g), g.indexValueMap);
    var patch := SealPatch(env.crypto, keys.value.0, keys.value.1, create.patchType, current.Value(), sealed.value);
    if patch.Err? {
      return Err(patch.error);
    }
    current.indexValueMap := current.indexValueMap[mac.indexMac := mac.valueMac];
    r := Ok(Encoded(patch.value, current.Value()));
  }
}
