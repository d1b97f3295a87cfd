/** Crockford-style base 32: five bits a symbol, most significant first. */
module Crockford {
  import opened Common

  const CHARACTERS: string := "123456789ABCDEFGHJKLMNPQRSTVWXYZ"

  /** Bytes as one big-endian number. */
  function ValueOf(bytes: Bytes): nat {
    if bytes == [] then 0 else 256 * ValueOf(bytes[..|bytes| - 1]) + bytes[|bytes| - 1]
  }

  type Digit = d: int | 0 <= d < 32

  function DigitsValue(digits: seq<Digit>): nat {
    if digits == [] then 0 else 32 * DigitsValue(digits[..|digits| - 1]) + digits[|digits| - 1]
  }

  function ShiftRight(v: nat, n: nat): nat {
    if n == 0 then v else ShiftRight(v / 2, n - 1)
  }

  function ShiftLeft(v: nat, n: nat): nat {
    if n == 0 then v else 2 * ShiftLeft(v, n - 1)
  }

  function Symbol(d: Digit): char { CHARACTERS[d] }

  function Symbols(digits: seq<Digit>): string { seq(|digits|, i requires 0 <= i < |digits| => Symbol(digits[i])) }

  /** Symbols needed for n bytes. */
  function SymbolCount(n: nat): nat { (8 * n + 4) / 5 }

  function PadBits(n: nat): nat { 5 * SymbolCount(n) - 8 * n }

  function ToDigits(value: nat, count: nat): (r: seq<Digit>)
    ensures |r| == count
  {
    if count == 0 then [] else ToDigits(value / 32, count - 1) + [value % 32]
  }

  /** The specification: all bits in order, zero bits behind them up to a whole symbol. */
  function Encode(bytes: Bytes): (r: string)
    ensures |r| == SymbolCount(|bytes|)
  {
    Symbols(ToDigits(ShiftLeft(ValueOf(bytes), PadBits(|bytes|)), SymbolCount(|bytes|)))
  }

  lemma {:induction false} DigitsAreUnique(digits: seq<Digit>)
    ensures ToDigits(DigitsValue(digits), |digits|) == digits
  {
    if digits != [] {
      var front, last := digits[..|digits| - 1], digits[|digits| - 1];
      DigitsAreUnique(front);
      assert DigitsValue(digits) / 32 == DigitsValue(front) && DigitsValue(digits) % 32 == last;
      assert front + [last] == digits;
    }
  }

  /** Digits carry a value that leaves nothing behind them. */
  lemma {:induction false} ValueOfDigits(value: nat, count: nat)
    requires ShiftRight(value, 5 * count) == 0
    ensures DigitsValue(ToDigits(value, count)) == value
  {
    hide ShiftRight;
    if count == 0 {
      ShiftNone(value);
    } else {
      var front := ToDigits(value / 32, count - 1);
      ShiftFive(value, 5 * (count - 1));
      ValueOfDigits(value / 32, count - 1);
      PushDigit(front, value % 32);
    }
  }

  lemma ShiftNone(v: nat)
    ensures ShiftRight(v, 0) == v
  {
  }

  lemma ShiftFive(v: nat, n: nat)
    ensures ShiftRight(v, n + 5) == ShiftRight(v / 32, n)
  {
    ShiftHalves(v, n + 1);
    assert ShiftRight(v / 16, n + 1) == ShiftRight(v / 16 / 2, n);
    assert v / 16 / 2 == v / 32;
  }

  // ---- Reading back ---------------------------------------------------------------------------------

  function DigitOf(c: char, from: nat): Option<Digit>
    requires from <= 32
    decreases 32 - from
  {
    if from == 32 then None else if CHARACTERS[from] == c then Some(from) else DigitOf(c, from + 1)
  }

  function DigitsOf(s: string): Option<seq<Digit>> {
    if s == "" then Some([])
    else
      var front :- DigitsOf(s[..|s| - 1]);
      var last :- DigitOf(s[|s| - 1], 0);
      Some(front + [last])
  }

  /** Reads symbols as base-32 digits, drops the pad bits and spells the rest as bytes. */
  function Decode(s: string): Option<Bytes> {
    var digits :- DigitsOf(s);
    var n := 5 * |s| / 8;
    Some(BigEndian(ShiftRight(DigitsValue(digits), 5 * |s| - 8 * n), n))
  }

  lemma {:induction false} DigitOfSymbol(d: Digit, from: nat)
    requires from <= d
    ensures DigitOf(Symbol(d), from) == Some(d)
    decreases 32 - from
  {
    Ascending(d, from);
    if from < d {
      DigitOfSymbol(d, from + 1);
    }
  }

  /** The alphabet is in ascending order, so no symbol occurs twice. */
  lemma {:induction false} Ascending(d: Digit, from: nat)
    requires from <= d
    ensures CHARACTERS[from] <= CHARACTERS[d] && (from < d ==> CHARACTERS[from] < CHARACTERS[d])
    decreases d - from
  {
    if from < d {
      assert CHARACTERS[d - 1] < CHARACTERS[d];
      Ascending(d - 1, from);
    }
  }

  lemma {:induction false} DigitsOfSymbols(digits: seq<Digit>)
    ensures DigitsOf(Symbols(digits)) == Some(digits)
  {
    if digits != [] {
      var front, last := digits[..|digits| - 1], digits[|digits| - 1];
      assert Symbols(digits)[..|digits| - 1] == Symbols(front);
      DigitsOfSymbols(front);
      DigitOfSymbol(last, 0);
      assert front + [last] == digits;
    }
  }

  lemma {:induction false} BigEndianOfValue(bytes: Bytes)
    ensures BigEndian(ValueOf(bytes), |bytes|) == bytes
  {
    if bytes != [] {
      var front, last := bytes[..|bytes| - 1], bytes[|bytes| - 1];
      BigEndianOfValue(front);
      assert ValueOf(bytes) / 256 == ValueOf(front) && ValueOf(bytes) % 256 == last;
      assert front + [last] == bytes;
    }
  }

  // ---- Encoding -------------------------------------------------------------------------------------

  lemma PushByte(bytes: Bytes, b: Byte)
    ensures ValueOf(bytes + [b]) == 256 * ValueOf(bytes) + b
  {
    assert (bytes + [b])[..|bytes|] == bytes;
  }

  lemma PushDigit(digits: seq<Digit>, d: Digit)
    ensures DigitsValue(digits + [d]) == 32 * DigitsValue(digits) + d
  {
    assert (digits + [d])[..|digits|] == digits;
  }

  lemma {:induction false} ShiftOneMore(v: nat, n: nat)
    ensures ShiftRight(v, n + 1) == ShiftRight(v, n) / 2
    decreases n
  {
    if n > 0 {
      ShiftOneMore(v / 2, n - 1);
    }
  }

  /** Taking five bits off the front: the digits so far, then the next one. */
  lemma NextDigit(value: nat, bits: nat)
    requires bits >= 5
    ensures ShiftRight(value, bits - 5) == 32 * ShiftRight(value, bits) + ShiftRight(value, bits - 5) % 32
  {
    ShiftOneMore(value, bits - 5);
    ShiftOneMore(value, bits - 4);
    ShiftOneMore(value, bits - 3);
    ShiftOneMore(value, bits - 2);
    ShiftOneMore(value, bits - 1);
    var x := ShiftRight(value, bits - 5);
    assert x / 2 / 2 / 2 / 2 / 2 == x / 32;
  }

  lemma ShiftHalves(v: nat, n: nat)
    ensures ShiftRight(v, n + 4) == ShiftRight(v / 16, n)
  {
    assert ShiftRight(v, n + 4) == ShiftRight(v / 2, n + 3) == ShiftRight(v / 2 / 2, n + 2);
    assert ShiftRight(v / 2 / 2, n + 2) == ShiftRight(v / 2 / 2 / 2, n + 1) == ShiftRight(v / 2 / 2 / 2 / 2, n);
    assert v / 2 / 2 / 2 / 2 == v / 16;
  }

  /** Eight more bits behind the accumulator leave the digits already taken as they are. */
  lemma MoreBits(value: nat, bits: nat, b: Byte)
    ensures ShiftRight(256 * value + b, bits + 8) == ShiftRight(value, bits)
  {
    ShiftHalves(256 * value + b, bits + 4);
    ShiftHalves((256 * value + b) / 16, bits);
    assert (256 * value + b) / 16 / 16 == value;
  }

  lemma {:induction false} ShiftBack(v: nat, n: nat, more: nat)
    ensures ShiftRight(ShiftLeft(v, n), n + more) == ShiftRight(v, more)
  {
    if n > 0 {
      ShiftBack(v, n - 1, more);
      assert ShiftLeft(v, n) / 2 == ShiftLeft(v, n - 1);
    }
  }

  lemma {:induction false} ValueFits(bytes: Bytes)
    ensures ShiftRight(ValueOf(bytes), 8 * |bytes|) == 0
  {
    hide ShiftRight;
    if bytes == [] {
      ShiftNone(0);
    } else {
      var front := bytes[..|bytes| - 1];
      ValueFits(front);
      MoreBits(ValueOf(front), 8 * |front|, bytes[|bytes| - 1]);
    }
  }

  /** The accumulator holds every byte read so far and is never cut; only its front bits have been spelled. */
  method BytesToCrockford(buffer: Bytes) returns (s: string)
    ensures s == Encode(buffer)
  {
    hide ShiftRight, ShiftLeft, ValueOf, DigitsValue, ToDigits;
    ShiftNone(0);
    var value: nat, bitCount: nat := 0, 0;
    var out: seq<char> := [];
    ghost var digits: seq<Digit> := [];
    NothingYet();
    for n := 0 to |buffer|
      invariant value == ValueOf(buffer[..n]) && bitCount < 5
      invariant 5 * |digits| + bitCount == 8 * n
      invariant out == Symbols(digits) && DigitsValue(digits) == ShiftRight(value, bitCount)
    {
      assert buffer[..n + 1] == buffer[..n] + [buffer[n]];
      PushByte(buffer[..n], buffer[n]);
      MoreBits(value, bitCount, buffer[n]);
      value := 256 * value + buffer[n];
      bitCount := bitCount + 8;
      while bitCount >= 5
        invariant 5 * |digits| + bitCount == 8 * (n + 1)
        invariant out == Symbols(digits) && DigitsValue(digits) == ShiftRight(value, bitCount)
      {
        NextDigit(value, bitCount);
        var d: Digit := ShiftRight(value, bitCount - 5) % 32;
        PushDigit(digits, d);
        out := out + [CHARACTERS[d]];
        digits := digits + [d];
        bitCount := bitCount - 5;
      }
    }
    assert buffer[..|buffer|] == buffer;
    if bitCount > 0 {
      LastDigit(value, bitCount);
      var d: Digit := ShiftLeft(value, 5 - bitCount) % 32;
      PushDigit(digits, d);
      out := out + [CHARACTERS[d]];
      digits := digits + [d];
    } else {
      ShiftNone(value);
      ShiftLeftNone(value);
    }
    DigitsAreUnique(digits);
    s := out;
  }

  lemma NothingYet()
    ensures ValueOf([]) == 0 && DigitsValue([]) == 0
  {
  }

  lemma ShiftLeftNone(v: nat)
    ensures ShiftLeft(v, 0) == v
  {
  }

  lemma LeftOver2(v: nat)
    ensures 32 * (v / 2) + 16 * v % 32 == 16 * v
  {
    assert 16 * v == 32 * (v / 2) + 16 * (v % 2) && 16 * (v % 2) < 32;
  }

  lemma LeftOver4(v: nat)
    ensures 32 * (v / 4) + 8 * v % 32 == 8 * v
  {
    assert 8 * v == 32 * (v / 4) + 8 * (v % 4) && 8 * (v % 4) < 32;
  }

  lemma LeftOver8(v: nat)
    ensures 32 * (v / 8) + 4 * v % 32 == 4 * v
  {
    assert 4 * v == 32 * (v / 8) + 4 * (v % 8) && 4 * (v % 8) < 32;
  }

  lemma LeftOver16(v: nat)
    ensures 32 * (v / 16) + 2 * v % 32 == 2 * v
  {
    assert 2 * v == 32 * (v / 16) + 2 * (v % 16) && 2 * (v % 16) < 32;
  }

  lemma SmallShifts(v: nat)
    ensures ShiftLeft(v, 1) == 2 * v && ShiftLeft(v, 2) == 4 * v && ShiftLeft(v, 3) == 8 * v && ShiftLeft(v, 4) == 16 * v
    ensures ShiftRight(v, 1) == v / 2 && ShiftRight(v, 2) == v / 4 && ShiftRight(v, 3) == v / 8 && ShiftRight(v, 4) == v / 16
  {
    assert ShiftLeft(v, 1) == 2 * ShiftLeft(v, 0) && ShiftLeft(v, 2) == 2 * ShiftLeft(v, 1);
    assert ShiftLeft(v, 3) == 2 * ShiftLeft(v, 2) && ShiftLeft(v, 4) == 2 * ShiftLeft(v, 3);
    ShiftNone(v);
    ShiftOneMore(v, 0);
    ShiftOneMore(v, 1);
    ShiftOneMore(v, 2);
    ShiftOneMore(v, 3);
  }

  /** The last symbol carries the bits left over, shifted up by the pad. */
  lemma LastDigit(value: nat, bits: nat)
    requires 0 < bits < 5
    ensures 32 * ShiftRight(value, bits) + ShiftLeft(value, 5 - bits) % 32 == ShiftLeft(value, 5 - bits)
  {
    hide ShiftRight, ShiftLeft;
    SmallShifts(value);
    LeftOver2(value);
    LeftOver4(value);
    LeftOver8(value);
    LeftOver16(value);
  }

  /** Encoding is invertible: from the ceil(8n/5) symbols the bytes can be read back. */
  lemma DecodeEncode(bytes: Bytes)
    ensures Decode(Encode(bytes)) == Some(bytes)
  {
    hide ShiftRight, ShiftLeft, ValueOf, DigitsValue, ToDigits, DigitsOf, BigEndian, Symbols;
    var n, pad := |bytes|, PadBits(|bytes|);
    var value := ShiftLeft(ValueOf(bytes), pad);
    ValueFits(bytes);
    ShiftBack(ValueOf(bytes), pad, 8 * n);
    ValueOfDigits(value, SymbolCount(n));
    DigitsOfSymbols(ToDigits(value, SymbolCount(n)));
    assert 5 * SymbolCount(n) / 8 == n;
    ShiftBack(ValueOf(bytes), pad, 0);
    ShiftNone(ValueOf(bytes));
    BigEndianOfValue(bytes);
  }
}
