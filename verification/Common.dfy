/** Bytes, optional values and the few sequence facts every other module uses. */
module Common {

  type Byte = b: int | 0 <= b < 256
  type Bytes = seq<Byte>

  /** Digest lengths are part of the type: SHA-512 and HMAC-SHA-512 give 64 bytes, HMAC-SHA-256 gives 32. */
  type Digest64 = b: Bytes | |b| == 64 witness seq(64, _ => 0)
  type Digest32 = b: Bytes | |b| == 32 witness seq(32, _ => 0)

  datatype Option<+T> = None | Some(value: T) {
    predicate IsFailure() { None? }
    function PropagateFailure<U>(): Option<U> requires None? { None }
    function Extract(): T requires Some? { value }
  }

  function Flatten<T>(parts: seq<seq<T>>): seq<T> {
    if parts == [] then [] else parts[0] + Flatten(parts[1..])
  }

  lemma {:induction false} FlattenAppend<T>(a: seq<seq<T>>, b: seq<seq<T>>)
    ensures Flatten(a + b) == Flatten(a) + Flatten(b)
  {
    if a == [] {
      assert a + b == b;
    } else {
      FlattenAppend(a[1..], b);
      assert (a + b)[1..] == a[1..] + b;
      assert Flatten(a + b) == a[0] + Flatten(a[1..] + b);
    }
  }

  /** The last n bytes, or all of them when there are fewer, as a negative slice bound reads. */
  function LastBytes(b: Bytes, n: nat): Bytes {
    if |b| <= n then b else b[|b| - n..]
  }

  /** Big-endian bytes of a number, exactly n of them. */
  function BigEndian(value: nat, n: nat): (r: Bytes)
    ensures |r| == n
  {
    if n == 0 then [] else BigEndian(value / 256, n - 1) + [value % 256]
  }

  lemma {:induction false} SubsetSize<T>(a: set<T>, b: set<T>)
    requires a <= b
    ensures |a| <= |b|
  {
    if a != {} {
      var x :| x in a;
      SubsetSize(a - {x}, b - {x});
    }
  }
}
