/** The homomorphic anti-tampering hash: 128 byte lanes, added and subtracted modulo 256. */
module LtHash {
  import opened Common

  const HASH_SIZE: nat := 128

  type Sha512 = Bytes -> Digest64

  /** A value MAC is stretched to one byte per lane. */
  function ExpandValue(sha512: Sha512, valueMac: Bytes): (r: Bytes)
    ensures |r| == HASH_SIZE
  {
    sha512(valueMac) + sha512(valueMac + [1])
  }

  /** A stored hash is padded with zero bytes or cut to the lane count before use. */
  function FitToSize(hash: Bytes): (r: Bytes)
    ensures |r| == HASH_SIZE
  {
    if |hash| < HASH_SIZE then hash + seq(HASH_SIZE - |hash|, _ => 0) else hash[..HASH_SIZE]
  }

  function Lane(sha512: Sha512, valueMac: Bytes, lane: nat): Byte
    requires lane < HASH_SIZE
  {
    ExpandValue(sha512, valueMac)[lane]
  }

  /** The first 64 lanes are the digest of the value MAC, the others that of the value MAC and a one byte. */
  lemma LanesAreDigests(sha512: Sha512, valueMac: Bytes, i: nat)
    requires i < 64
    ensures Lane(sha512, valueMac, i) == sha512(valueMac)[i]
    ensures Lane(sha512, valueMac, 64 + i) == sha512(valueMac + [1])[i]
  {
  }

  /** What a list of value MACs adds to one lane, before reduction. */
  function LaneTotal(sha512: Sha512, values: seq<Bytes>, lane: nat): int
    requires lane < HASH_SIZE
  {
    if values == [] then 0
    else LaneTotal(sha512, values[..|values| - 1], lane) + Lane(sha512, values[|values| - 1], lane)
  }

  function Mixed(sha512: Sha512, hash: Bytes, subtract: seq<Bytes>, add: seq<Bytes>): (r: Bytes)
    ensures |r| == HASH_SIZE
  {
    seq(HASH_SIZE, i requires 0 <= i < HASH_SIZE =>
      (FitToSize(hash)[i] - LaneTotal(sha512, subtract, i) + LaneTotal(sha512, add, i)) % 256)
  }

  /** A reduced summand may be replaced by the unreduced one. */
  lemma ReduceLate(x: int, y: int)
    ensures (x % 256 + y) % 256 == (x + y) % 256
  {
  }

  lemma LaneTotalPush(sha512: Sha512, values: seq<Bytes>, v: Bytes, lane: nat)
    requires lane < HASH_SIZE
    ensures LaneTotal(sha512, values + [v], lane) == LaneTotal(sha512, values, lane) + Lane(sha512, v, lane)
  {
    assert (values + [v])[..|values|] == values;
  }

  function Folded(state: Byte, lane: Byte, subtract: bool): Byte {
    if subtract then (state - lane) % 256 else (state + lane) % 256
  }

  /** One value MAC is folded into the working array, lane by lane. */
  method FoldValue(sha512: Sha512, state: array<Byte>, value: Bytes, subtract: bool)
    requires state.Length == HASH_SIZE
    modifies state
    ensures forall i :: 0 <= i < HASH_SIZE ==> state[i] == Folded(old(state[i]), Lane(sha512, value, i), subtract)
  {
    var expanded := ExpandValue(sha512, value);
    for idx := 0 to HASH_SIZE
      invariant forall i :: 0 <= i < idx ==> state[i] == Folded(old(state[i]), expanded[i], subtract)
      invariant forall i :: idx <= i < HASH_SIZE ==> state[i] == old(state[i])
    {
      state[idx] := Folded(state[idx], expanded[idx], subtract);
    }
  }

  /** The work array holds `base` minus what was subtracted plus what was added, in every lane. */
  ghost predicate Shifted(sha512: Sha512, state: seq<Byte>, base: Bytes, subtracted: seq<Bytes>, added: seq<Bytes>)
    requires |state| == |base| == HASH_SIZE
  {
    forall i :: 0 <= i < HASH_SIZE ==>
      state[i] == (base[i] - LaneTotal(sha512, subtracted, i) + LaneTotal(sha512, added, i)) % 256
  }

  lemma ShiftedByOneLane(sha512: Sha512, before: Byte, after: Byte, base: Byte, subtracted: seq<Bytes>, added: seq<Bytes>,
      value: Bytes, subtract: bool, lane: nat)
    requires lane < HASH_SIZE
    requires before == (base - LaneTotal(sha512, subtracted, lane) + LaneTotal(sha512, added, lane)) % 256
    requires after == Folded(before, Lane(sha512, value, lane), subtract)
    ensures subtract ==>
      after == (base - LaneTotal(sha512, subtracted + [value], lane) + LaneTotal(sha512, added, lane)) % 256
    ensures !subtract ==>
      after == (base - LaneTotal(sha512, subtracted, lane) + LaneTotal(sha512, added + [value], lane)) % 256
  {
    var total := base - LaneTotal(sha512, subtracted, lane) + LaneTotal(sha512, added, lane);
    if subtract {
      LaneTotalPush(sha512, subtracted, value, lane);
      ReduceLate(total, 0 - Lane(sha512, value, lane));
    } else {
      LaneTotalPush(sha512, added, value, lane);
      ReduceLate(total, Lane(sha512, value, lane));
    }
  }

  lemma ShiftedByOne(sha512: Sha512, before: seq<Byte>, after: seq<Byte>, base: Bytes,
      subtracted: seq<Bytes>, added: seq<Bytes>, value: Bytes, subtract: bool)
    requires |before| == |after| == |base| == HASH_SIZE
    requires Shifted(sha512, before, base, subtracted, added)
    requires forall i :: 0 <= i < HASH_SIZE ==> after[i] == Folded(before[i], Lane(sha512, value, i), subtract)
    ensures subtract ==> Shifted(sha512, after, base, subtracted + [value], added)
    ensures !subtract ==> Shifted(sha512, after, base, subtracted, added + [value])
  {
    forall i | 0 <= i < HASH_SIZE
      ensures subtract ==>
        after[i] == (base[i] - LaneTotal(sha512, subtracted + [value], i) + LaneTotal(sha512, added, i)) % 256
      ensures !subtract ==>
        after[i] == (base[i] - LaneTotal(sha512, subtracted, i) + LaneTotal(sha512, added + [value], i)) % 256
    {
      ShiftedByOneLane(sha512, before[i], after[i], base[i], subtracted, added, value, subtract, i);
    }
  }

  method SubtractThenAdd(sha512: Sha512, currentHash: Bytes, subtractValues: seq<Bytes>, addValues: seq<Bytes>)
    returns (r: Bytes)
    ensures r == Mixed(sha512, currentHash, subtractValues, addValues)
  {
    var base := FitToSize(currentHash);
    var state := new Byte[HASH_SIZE](i requires 0 <= i < HASH_SIZE => base[i]);
    for n := 0 to |subtractValues|
      invariant Shifted(sha512, state[..], base, subtractValues[..n], [])
    {
      ghost var before := state[..];
      FoldValue(sha512, state, subtractValues[n], true);
      ShiftedByOne(sha512, before, state[..], base, subtractValues[..n], [], subtractValues[n], true);
      assert subtractValues[..n + 1] == subtractValues[..n] + [subtractValues[n]];
    }
    assert subtractValues[..|subtractValues|] == subtractValues;
    for n := 0 to |addValues|
      invariant Shifted(sha512, state[..], base, subtractValues, addValues[..n])
    {
      ghost var before := state[..];
      FoldValue(sha512, state, addValues[n], false);
      ShiftedByOne(sha512, before, state[..], base, subtractValues, addValues[..n], addValues[n], false);
      assert addValues[..n + 1] == addValues[..n] + [addValues[n]];
    }
    assert addValues[..|addValues|] == addValues;
    r := state[..];
  }
}
