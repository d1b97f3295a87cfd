/** Media files: AES-CBC with PKCS#7 padding and a trailing 10-byte MAC, encrypted as a stream and fetched by range. */
module MediaStream {
  import opened Common

  // ---- Blocks ---------------------------------------------------------------------------------------

  const BLOCK: nat := 16
  const MAC_SIZE: nat := 10

  type Block = b: Bytes | |b| == BLOCK witness seq(16, _ => 0)

  function Pow2(n: nat): nat { if n == 0 then 1 else 2 * Pow2(n - 1) }

  function Low(n: nat): nat { n % 2 }

  function Half(n: nat): nat { n / 2 }

  function Flip(x: nat, y: nat): nat { (x + y) % 2 }

  /** Exclusive or of the low `bits` bits. */
  function XorBits(a: nat, b: nat, bits: nat): (r: nat)
    ensures r < Pow2(bits)
  {
    if bits == 0 then 0 else Flip(Low(a), Low(b)) + 2 * XorBits(Half(a), Half(b), bits - 1)
  }

  lemma FlipTwice(x: nat, y: nat)
    requires x < 2 && y < 2
    ensures Flip(Flip(x, y), y) == x
  {
  }

  lemma LowBit(bit: nat, rest: nat)
    requires bit < 2
    ensures Low(bit + 2 * rest) == bit && Half(bit + 2 * rest) == rest
  {
  }

  lemma TwoParts(a: nat, b: nat, bits: nat)
    ensures a == Low(a) + 2 * Half(a) && Low(a) < 2 && Flip(Low(a), Low(b)) < 2
    ensures bits > 0 && a < Pow2(bits) ==> Half(a) < Pow2(bits - 1)
  {
  }

  lemma {:induction false} XorBitsTwice(a: nat, b: nat, bits: nat)
    requires a < Pow2(bits)
    ensures XorBits(XorBits(a, b, bits), b, bits) == a
  {
    hide Low, Half, Flip;
    if bits > 0 {
      TwoParts(a, b, bits);
      TwoParts(b, b, bits);
      LowBit(Flip(Low(a), Low(b)), XorBits(Half(a), Half(b), bits - 1));
      FlipTwice(Low(a), Low(b));
      XorBitsTwice(Half(a), Half(b), bits - 1);
    }
  }

  /** Exclusive or with zero changes nothing, and the two sides may be swapped. */
  lemma {:induction false} XorBitsZero(a: nat, b: nat, bits: nat)
    requires a < Pow2(bits)
    ensures XorBits(a, 0, bits) == a && XorBits(a, b, bits) == XorBits(b, a, bits)
  {
    if bits > 0 {
      TwoParts(a, b, bits);
      XorBitsSwap(a, b, bits);
      XorBitsZero(Half(a), Half(b), bits - 1);
    }
  }

  lemma {:induction false} XorBitsSwap(a: nat, b: nat, bits: nat)
    ensures XorBits(a, b, bits) == XorBits(b, a, bits)
  {
    if bits > 0 {
      XorBitsSwap(Half(a), Half(b), bits - 1);
    }
  }

  /** The i-th binary digit of a number. */
  function Digit(n: nat, i: nat): nat { if i == 0 then n % 2 else Digit(n / 2, i - 1) }

  /** A digit of the exclusive or is set exactly when it is set on one side only. */
  lemma {:induction false} XorBitsAt(a: nat, b: nat, bits: nat, i: nat)
    requires i < bits
    ensures Digit(XorBits(a, b, bits), i) == 1 <==> Digit(a, i) != Digit(b, i)
    ensures Digit(XorBits(a, b, bits), i) < 2 && Digit(a, i) < 2 && Digit(b, i) < 2
  {
    LowBit(Flip(Low(a), Low(b)), XorBits(Half(a), Half(b), bits - 1));
    if i > 0 {
      XorBitsAt(Half(a), Half(b), bits - 1, i - 1);
    }
  }

  /** So it is for bytes, digit by digit. */
  lemma XorByteAt(a: Byte, b: Byte, i: nat)
    requires i < 8
    ensures Digit(XorByte(a, b), i) == 1 <==> Digit(a, i) != Digit(b, i)
    ensures XorByte(a, 0) == a && XorByte(a, b) == XorByte(b, a)
  {
    Pow2Of8();
    XorBitsAt(a, b, 8, i);
    XorBitsZero(a, b, 8);
  }

  lemma Pow2Of8()
    ensures Pow2(8) == 256
  {
    assert Pow2(4) == 16;
  }

  function XorByte(a: Byte, b: Byte): Byte {
    Pow2Of8();
    XorBits(a, b, 8)
  }

  function XorBlock(a: Block, b: Block): Block {
    seq(BLOCK, i requires 0 <= i < BLOCK => XorByte(a[i], b[i]))
  }

  lemma XorBlockTwice(a: Block, b: Block)
    ensures XorBlock(XorBlock(a, b), b) == a
  {
    forall i | 0 <= i < BLOCK
      ensures XorByte(XorByte(a[i], b[i]), b[i]) == a[i]
    {
      Pow2Of8();
      XorBitsTwice(a[i], b[i], 8);
    }
  }

  /** The block cipher and the keyed hash are foreign code. */
  datatype Crypto = Crypto(
    encryptBlock: (Bytes, Block) -> Block,
    decryptBlock: (Bytes, Block) -> Block,
    hmac256: (Bytes, Bytes) -> Digest32,
    sha256: Bytes -> Digest32)
  {
    ghost predicate Lawful() {
      forall k, b :: decryptBlock(k, encryptBlock(k, b)) == b
    }
  }

  datatype Keys = Keys(cipherKey: Bytes, iv: Block, macKey: Bytes)

  predicate Aligned(n: int) { n % BLOCK == 0 }

  /** Sums, differences and the next block of aligned lengths. */
  lemma AlignedDifference(a: int, b: int)
    requires Aligned(a) && Aligned(b)
    ensures Aligned(a - b) && Aligned(a + b)
  {
  }

  lemma AlignedBlock()
    ensures Aligned(0) && Aligned(BLOCK)
  {
  }

  lemma AlignedNext(n: int)
    requires Aligned(n) && n > 0
    ensures n >= BLOCK && Aligned(n - BLOCK)
  {
  }

  function CbcEncrypt(c: Crypto, key: Bytes, iv: Block, data: Bytes): (r: Bytes)
    requires Aligned(|data|)
    ensures |r| == |data|
    decreases |data|
  {
    if data == [] then []
    else
      var e := c.encryptBlock(key, XorBlock(data[..BLOCK], iv));
      e + CbcEncrypt(c, key, e, data[BLOCK..])
  }

  function CbcDecrypt(c: Crypto, key: Bytes, iv: Block, data: Bytes): (r: Bytes)
    requires Aligned(|data|)
    ensures |r| == |data|
    decreases |data|
  {
    if data == [] then []
    else XorBlock(c.decryptBlock(key, data[..BLOCK]), iv) + CbcDecrypt(c, key, data[..BLOCK], data[BLOCK..])
  }

  /** The chaining value after some ciphertext: its last block. */
  function Chain(iv: Block, data: Bytes): Block
    requires Aligned(|data|)
  {
    if data == [] then iv else data[|data| - BLOCK..]
  }

  lemma ChainTwice(iv: Block, a: Bytes, b: Bytes)
    requires Aligned(|a|) && Aligned(|b|)
    ensures Aligned(|a + b|) && Chain(Chain(iv, a), b) == Chain(iv, a + b)
  {
    hide Aligned;
    assert |a + b| == |a| + |b|;
    AlignedDifference(|a|, |b|);
    if b != [] {
      AlignedNext(|b|);
    } else {
      assert a + b == a;
    }
  }

  function BlockAt(data: Bytes, k: nat): Block
    requires BLOCK * k + BLOCK <= |data|
  {
    data[BLOCK * k..BLOCK * k + BLOCK]
  }

  /**
   * Section 6.2 of NIST SP 800-38A: a ciphertext block is the cipher of its plaintext block and the ciphertext block
   * before it, or the iv for the first, combined by exclusive or.
   */
  lemma {:induction false} CbcBlockAt(c: Crypto, key: Bytes, iv: Block, data: Bytes, k: nat)
    requires Aligned(|data|) && BLOCK * k + BLOCK <= |data|
    ensures var ct := CbcEncrypt(c, key, iv, data);
      BlockAt(ct, k) == c.encryptBlock(key, XorBlock(BlockAt(data, k), if k == 0 then iv else BlockAt(ct, k - 1)))
    decreases k
  {
    hide XorBlock;
    var e := c.encryptBlock(key, XorBlock(data[..BLOCK], iv));
    var rest := data[BLOCK..];
    var ct := CbcEncrypt(c, key, iv, data);
    assert ct[..BLOCK] == e && ct[BLOCK..] == CbcEncrypt(c, key, e, rest);
    if k == 0 {
      assert BlockAt(ct, 0) == e && BlockAt(data, 0) == data[..BLOCK];
    } else {
      CbcBlockAt(c, key, e, rest, k - 1);
      BlockBehind(data, k);
      BlockBehind(ct, k);
      if k > 1 {
        BlockBehind(ct, k - 1);
      } else {
        assert BlockAt(ct, 0) == e;
      }
    }
  }

  lemma BlockBehind(data: Bytes, k: nat)
    requires k > 0 && BLOCK * k + BLOCK <= |data|
    ensures BLOCK * (k - 1) + BLOCK <= |data[BLOCK..]| && BlockAt(data[BLOCK..], k - 1) == BlockAt(data, k)
  {
  }

  lemma {:induction false} DecryptEncrypt(c: Crypto, key: Bytes, iv: Block, data: Bytes)
    requires c.Lawful() && Aligned(|data|)
    ensures CbcDecrypt(c, key, iv, CbcEncrypt(c, key, iv, data)) == data
    decreases |data|
  {
    hide Aligned, XorBlock;
    if data != [] {
      AlignedNext(|data|);
      var first: Block := data[..BLOCK];
      var e := c.encryptBlock(key, XorBlock(first, iv));
      var whole := CbcEncrypt(c, key, iv, data);
      assert whole[..BLOCK] == e && whole[BLOCK..] == CbcEncrypt(c, key, e, data[BLOCK..]);
      XorBlockTwice(first, iv);
      DecryptEncrypt(c, key, e, data[BLOCK..]);
      assert first + data[BLOCK..] == data;
    }
  }

  lemma EncryptNothing(c: Crypto, key: Bytes, iv: Block)
    ensures CbcEncrypt(c, key, iv, []) == []
  {
  }

  /** Encryption one block at a time. */
  lemma EncryptFirst(c: Crypto, key: Bytes, iv: Block, first: Block, rest: Bytes)
    requires Aligned(|rest|)
    ensures Aligned(|first + rest|)
    ensures var e := c.encryptBlock(key, XorBlock(first, iv));
      CbcEncrypt(c, key, iv, first + rest) == e + CbcEncrypt(c, key, e, rest)
  {
    hide XorBlock;
    assert (first + rest)[..BLOCK] == first && (first + rest)[BLOCK..] == rest;
  }

  lemma {:induction false} EncryptAppend(c: Crypto, key: Bytes, iv: Block, a: Bytes, b: Bytes)
    requires Aligned(|a|) && Aligned(|b|)
    ensures Aligned(|a + b|)
    ensures CbcEncrypt(c, key, iv, a + b)
      == CbcEncrypt(c, key, iv, a) + CbcEncrypt(c, key, Chain(iv, CbcEncrypt(c, key, iv, a)), b)
    decreases |a|
  {
    hide Aligned, XorBlock, CbcEncrypt;
    AlignedDifference(|a|, |b|);
    if a == [] {
      assert a + b == b;
      EncryptNothing(c, key, iv);
    } else {
      AlignedNext(|a|);
      var first, tail := a[..BLOCK], a[BLOCK..];
      AlignedDifference(|tail|, |b|);
      var e := c.encryptBlock(key, XorBlock(first, iv));
      EncryptFirst(c, key, iv, first, tail);
      EncryptFirst(c, key, iv, first, tail + b);
      assert a == first + tail && a + b == first + (tail + b);
      EncryptAppend(c, key, e, tail, b);
      AlignedBlock();
      var rest := CbcEncrypt(c, key, e, tail);
      ChainTwice(iv, e, rest);
      var last := CbcEncrypt(c, key, Chain(e, rest), b);
      assert e + (rest + last) == (e + rest) + last;
    }
  }

  lemma {:induction false} DecryptAppend(c: Crypto, key: Bytes, iv: Block, a: Bytes, b: Bytes)
    requires Aligned(|a|) && Aligned(|b|)
    ensures CbcDecrypt(c, key, iv, a + b) == CbcDecrypt(c, key, iv, a) + CbcDecrypt(c, key, Chain(iv, a), b)
    decreases |a|
  {
    hide Aligned, XorBlock;
    AlignedDifference(|a|, |b|);
    if a == [] {
      assert a + b == b;
    } else {
      AlignedNext(|a|);
      assert (a + b)[..BLOCK] == a[..BLOCK] && (a + b)[BLOCK..] == a[BLOCK..] + b;
      DecryptAppend(c, key, a[..BLOCK], a[BLOCK..], b);
      AlignedBlock();
      ChainTwice(iv, a[..BLOCK], a[BLOCK..]);
      assert a[..BLOCK] + a[BLOCK..] == a;
    }
  }

  /** Any run of whole blocks decrypts on its own once the block before it is taken as the iv. */
  lemma DecryptSlice(c: Crypto, key: Bytes, iv: Block, data: Bytes, from: nat, to: nat)
    requires Aligned(|data|) && Aligned(from) && Aligned(to) && Aligned(to - from) && from <= to <= |data|
    ensures CbcDecrypt(c, key, Chain(iv, data[..from]), data[from..to]) == CbcDecrypt(c, key, iv, data)[from..to]
  {
    hide Aligned, CbcDecrypt;
    var middle, tail := data[from..to], data[to..];
    AlignedDifference(|data|, to);
    AlignedDifference(|data|, from);
    assert data == data[..from] + (middle + tail);
    DecryptAppend(c, key, iv, data[..from], middle + tail);
    DecryptAppend(c, key, Chain(iv, data[..from]), middle, tail);
  }

  // ---- Padding --------------------------------------------------------------------------------------

  function PadSize(length: nat): nat { BLOCK - length % BLOCK }

  function Pad(data: Bytes): (r: Bytes)
    ensures Aligned(|r|) && |r| == |data| + PadSize(|data|) && r[..|data|] == data
  {
    data + seq(PadSize(|data|), _ => PadSize(|data|))
  }

  /** Whole blocks whose last byte says how many equal bytes to drop. */
  function Unpad(data: Bytes): Option<Bytes> {
    if |data| < BLOCK then None else
    var n := data[|data| - 1];
    if n == 0 || n > BLOCK || (exists i :: |data| - n <= i < |data| && data[i] != n) then None
    else Some(data[..|data| - n])
  }

  lemma UnpadPad(data: Bytes, from: nat)
    requires from <= |data| && Aligned(from)
    ensures Unpad(Pad(data)[from..]) == Some(data[from..])
  {
    hide Aligned;
    var n := PadSize(|data|);
    var p := Pad(data)[from..];
    assert |p| == |data| + n - from && Pad(data)[|data|..] == seq(n, _ => n);
    assert forall i :: |p| - n <= i < |p| ==> p[i] == n;
    assert |p| >= BLOCK by {
      AlignedDifference(|Pad(data)|, from);
      AlignedNext(|p|);
    }
    assert p[..|p| - n] == data[from..];
  }

  // ---- Encrypting a stream --------------------------------------------------------------------------

  /** Whole blocks unpad to something exactly when they are the padding of it. */
  lemma UnpadExactly(data: Bytes, plain: Bytes)
    requires Aligned(|data|)
    ensures Unpad(data) == Some(plain) <==> Pad(plain) == data
  {
    if Pad(plain) == data {
      AlignedBlock();
      UnpadPad(plain, 0);
      assert Pad(plain)[0..] == data && plain[0..] == plain;
    }
    if Unpad(data) == Some(plain) {
      var n: nat := data[|data| - 1];
      PadSizeIs(|data|, n);
      assert data == data[..|data| - n] + data[|data| - n..];
      assert data[|data| - n..] == seq(n, _ => n as int);
    }
  }

  lemma PadSizeIs(length: nat, n: nat)
    requires Aligned(length) && 1 <= n <= BLOCK && n <= length
    ensures PadSize(length - n) == n
  {
  }

  function Ciphertext(c: Crypto, keys: Keys, plain: Bytes): (r: Bytes)
    ensures |r| == |Pad(plain)| && Aligned(|r|)
  {
    CbcEncrypt(c, keys.cipherKey, keys.iv, Pad(plain))
  }

  function Mac10(c: Crypto, keys: Keys, ciphertext: Bytes): (r: Bytes)
    ensures |r| == MAC_SIZE
  {
    c.hmac256(keys.iv + ciphertext, keys.macKey)[..MAC_SIZE]
  }

  /** The encrypted file of a plaintext. */
  function FileOf(c: Crypto, keys: Keys, plain: Bytes): Bytes {
    Ciphertext(c, keys, plain) + Mac10(c, keys, Ciphertext(c, keys, plain))
  }

  datatype Upload = Upload(file: Bytes, mac: Bytes, fileSha256: Bytes, fileEncSha256: Bytes, fileLength: nat)

  function UploadOf(c: Crypto, keys: Keys, plain: Bytes): Upload {
    var file := FileOf(c, keys, plain);
    Upload(file, Mac10(c, keys, Ciphertext(c, keys, plain)), c.sha256(plain), c.sha256(file), |plain|)
  }

  /** What each part of an upload is of: the file is whole blocks and the MAC, which is over iv and blocks. */
  lemma UploadParts(c: Crypto, keys: Keys, plain: Bytes)
    ensures var u := UploadOf(c, keys, plain);
      var blocks := |u.file| - MAC_SIZE;
      && u.fileLength == |plain| && u.fileSha256 == c.sha256(plain) && u.fileEncSha256 == c.sha256(u.file)
      && Aligned(blocks) && |plain| < blocks <= |plain| + BLOCK
      && u.file == u.file[..blocks] + u.mac
      && u.mac == c.hmac256(keys.iv + u.file[..blocks], keys.macKey)[..MAC_SIZE]
      && (c.Lawful() ==> CbcDecrypt(c, keys.cipherKey, keys.iv, u.file[..blocks]) == Pad(plain))
  {
    hide CbcEncrypt, CbcDecrypt, Pad;
    var u := UploadOf(c, keys, plain);
    assert u.file[..|u.file| - MAC_SIZE] == Ciphertext(c, keys, plain);
    if c.Lawful() {
      DecryptEncrypt(c, keys.cipherKey, keys.iv, Pad(plain));
    }
  }

  /** The padder gives out whole blocks at once and keeps the rest. */
  class Padder {
    var buffer: Bytes

    constructor ()
      ensures buffer == []
    {
      buffer := [];
    }

    method Update(data: Bytes) returns (out: Bytes)
      modifies this
      ensures out + buffer == old(buffer) + data && Aligned(|out|) && |buffer| < BLOCK
    {
      var all := buffer + data;
      var whole := |all| / BLOCK * BLOCK;
      out := all[..whole];
      buffer := all[whole..];
      assert out + buffer == all;
    }

    method Finalize() returns (out: Bytes)
      requires |buffer| < BLOCK
      ensures out == Pad(buffer)
    {
      out := Pad(buffer);
    }
  }

  class CbcEncryptor {
    const crypto: Crypto
    const key: Bytes
    var chain: Block

    constructor (c: Crypto, key: Bytes, iv: Block)
      ensures crypto == c && this.key == key && chain == iv
    {
      crypto, this.key, chain := c, key, iv;
    }

    method Update(data: Bytes) returns (out: Bytes)
      requires Aligned(|data|)
      modifies this
      ensures out == CbcEncrypt(crypto, key, old(chain), data) && chain == Chain(old(chain), out)
    {
      hide XorBlock, Aligned;
      AlignedBlock();
      out := [];
      var rest := data;
      while rest != []
        invariant Aligned(|rest|) && Aligned(|out|) && chain == Chain(old(chain), out)
        invariant CbcEncrypt(crypto, key, old(chain), data) == out + CbcEncrypt(crypto, key, chain, rest)
        decreases |rest|
      {
        AlignedNext(|rest|);
        ghost var before := out;
        chain := crypto.encryptBlock(key, XorBlock(rest[..BLOCK], chain));
        ghost var more := CbcEncrypt(crypto, key, chain, rest[BLOCK..]);
        assert before + (chain + more) == (before + chain) + more;
        out := out + chain;
        ChainTwice(old(chain), before, chain);
        rest := rest[BLOCK..];
      }
    }
  }

  lemma PadAfter(whole: Bytes, rest: Bytes)
    requires Aligned(|whole|)
    ensures whole + Pad(rest) == Pad(whole + rest)
  {
    SamePadSize(|whole|, |rest|);
    var padding := seq(PadSize(|rest|), _ => PadSize(|rest|));
    assert whole + (rest + padding) == (whole + rest) + padding;
    assert padding == seq(PadSize(|whole + rest|), _ => PadSize(|whole + rest|));
  }

  lemma SamePadSize(whole: nat, rest: nat)
    requires Aligned(whole)
    ensures PadSize(rest) == PadSize(whole + rest)
  {
  }

  predicate TooLong(length: nat, limit: Option<nat>) {
    limit.Some? && limit.value > 0 && length > limit.value
  }

  lemma {:induction false} FlattenSnoc(parts: seq<Bytes>, last: Bytes)
    ensures Flatten(parts + [last]) == Flatten(parts) + last
  {
    FlattenAppend(parts, [last]);
    assert Flatten([last]) == last;
  }

  /** `limit` is the maximum content length, set for remote sources only. Nothing but its total matters about the chunks. */
  method EncryptedStream(c: Crypto, keys: Keys, chunks: seq<Bytes>, limit: Option<nat>) returns (r: Option<Upload>)
    ensures r.None? <==> limit.Some? && 0 < limit.value < |Flatten(chunks)|
    ensures r.Some? ==> r.value == UploadOf(c, keys, Flatten(chunks))
  {
    hide XorBlock, Aligned, CbcEncrypt, Pad;
    AlignedBlock();
    EncryptNothing(c, keys.cipherKey, keys.iv);
    var padder := new Padder();
    var encryptor := new CbcEncryptor(c, keys.cipherKey, keys.iv);
    var fileLength, plainSeen, written := 0, [], [];
    ghost var whole: Bytes := [];
    for n := 0 to |chunks|
      invariant fresh(padder) && fresh(encryptor)
      invariant encryptor.crypto == c && encryptor.key == keys.cipherKey
      invariant plainSeen == Flatten(chunks[..n]) && fileLength == |plainSeen| && !TooLong(fileLength, limit)
      invariant Aligned(|whole|) && whole + padder.buffer == plainSeen && |padder.buffer| < BLOCK
      invariant written == CbcEncrypt(c, keys.cipherKey, keys.iv, whole) && encryptor.chain == Chain(keys.iv, written)
    {
      FlattenSnoc(chunks[..n], chunks[n]);
      assert chunks[..n + 1] == chunks[..n] + [chunks[n]];
      fileLength := fileLength + |chunks[n]|;
      if TooLong(fileLength, limit) {
        FlattenAppend(chunks[..n + 1], chunks[n + 1..]);
        assert chunks == chunks[..n + 1] + chunks[n + 1..];
        return None;
      }
      plainSeen := plainSeen + chunks[n];
      ghost var kept := padder.buffer;
      var padded := padder.Update(chunks[n]);
      assert (whole + padded) + padder.buffer == plainSeen by {
        assert (whole + padded) + padder.buffer == whole + (padded + padder.buffer);
        assert whole + (kept + chunks[n]) == (whole + kept) + chunks[n];
      }
      var encrypted := encryptor.Update(padded);
      AlignedDifference(|whole|, |padded|);
      EncryptAppend(c, keys.cipherKey, keys.iv, whole, padded);
      ChainTwice(keys.iv, written, encrypted);
      whole := whole + padded;
      written := written + encrypted;
    }
    assert chunks[..|chunks|] == chunks;
    var finalPadded := padder.Finalize();
    var finalEnc := encryptor.Update(finalPadded);
    EncryptAppend(c, keys.cipherKey, keys.iv, whole, finalPadded);
    PadAfter(whole, padder.buffer);
    written := written + finalEnc;
    var mac := Mac10(c, keys, written);
    r := Some(Upload(written + mac, mac, c.sha256(plainSeen), c.sha256(written + mac), fileLength));
  }

  // ---- Ranges ---------------------------------------------------------------------------------------

  /** Floor division, as the source's operator gives for negative numbers too. */
  function ToSmallestChunkSize(n: int): (r: int)
    ensures Aligned(r) && r <= n < r + BLOCK && (n >= 0 ==> r >= 0)
  {
    n / BLOCK * BLOCK
  }

  datatype Plan = Plan(startChunk: int, endChunk: Option<int>, bytesFetched: int, firstBlockIsIv: bool)

  /** One block more is fetched in front, to serve as the iv; the end goes to the end of the block behind. */
  function PlanFor(startByte: Option<int>, endByte: Option<int>): Plan {
    var chunk := if startByte.Some? then ToSmallestChunkSize(startByte.value) else 0;
    var endChunk := if endByte.Some? then Some(ToSmallestChunkSize(endByte.value) + BLOCK) else None;
    if chunk != 0 then Plan(chunk - BLOCK, endChunk, chunk, true) else Plan(0, endChunk, 0, false)
  }

  datatype Range = Range(first: int, last: Option<int>)

  lemma PlanIsAligned(startByte: Option<int>, endByte: Option<int>)
    ensures var p := PlanFor(startByte, endByte);
      && Aligned(p.startChunk) && Aligned(p.bytesFetched)
      && (p.endChunk.Some? ==> Aligned(p.endChunk.value))
      && p.bytesFetched == (if p.firstBlockIsIv then p.startChunk + BLOCK else p.startChunk)
      && (!p.firstBlockIsIv ==> p.startChunk == 0)
      && (startByte.Some? && startByte.value >= 0 ==> p.startChunk >= 0)
  {
    hide Aligned, ToSmallestChunkSize;
    AlignedBlock();
    var chunk := if startByte.Some? then ToSmallestChunkSize(startByte.value) else 0;
    AlignedDifference(chunk, BLOCK);
    if chunk > 0 {
      AlignedNext(chunk);
    }
    if endByte.Some? {
      AlignedDifference(ToSmallestChunkSize(endByte.value), BLOCK);
    }
  }

  function RangeHeader(plan: Plan): Option<Range> {
    if plan.startChunk != 0 || plan.endChunk.Some? then Some(Range(plan.startChunk, plan.endChunk)) else None
  }

  /** A server that honours byte ranges: both ends inclusive, a last position behind the end is cut. */
  function Serve(file: Bytes, header: Option<Range>): Option<Bytes> {
    match header
    case None => Some(file)
    case Some(Range(first, last)) =>
      if first < 0 || first >= |file| || (last.Some? && last.value < first) then None
      else if last.Some? && last.value + 1 < |file| then Some(file[first..last.value + 1])
      else Some(file[first..])
  }

  lemma FloorKeeps(whole: int, extra: int)
    requires Aligned(whole) && 0 <= extra < BLOCK
    ensures ToSmallestChunkSize(whole + extra) == whole
  {
  }

  function TakeTo(data: Bytes, to: int): Bytes {
    if to < 0 then [] else if to > |data| then data else data[..to]
  }

  function DropTo(data: Bytes, from: int): Bytes {
    if from < 0 then data else if from > |data| then [] else data[from..]
  }

  /** A slice with bounds clipped to the data, as non-negative slice bounds read. */
  function Clip(data: Bytes, from: int, to: int): Bytes {
    DropTo(TakeTo(data, to), from)
  }

  lemma TakeAppend(a: Bytes, b: Bytes, to: int)
    ensures TakeTo(a + b, to) == TakeTo(a, to) + TakeTo(b, to - |a|)
  {
    if 0 <= to <= |a| {
      assert (a + b)[..to] == a[..to];
    } else if |a| < to <= |a + b| {
      assert (a + b)[..to] == a + b[..to - |a|];
    }
  }

  lemma DropAppend(a: Bytes, b: Bytes, from: int)
    ensures DropTo(a + b, from) == DropTo(a, from) + DropTo(b, from - |a|)
  {
    if 0 <= from <= |a| {
      assert (a + b)[from..] == a[from..] + b;
    } else if |a| < from <= |a + b| {
      assert (a + b)[from..] == b[from - |a|..];
    }
  }

  lemma ClipAppend(a: Bytes, b: Bytes, from: int, to: int)
    ensures Clip(a + b, from, to) == Clip(a, from, to) + Clip(b, from - |a|, to - |a|)
  {
    TakeAppend(a, b, to);
    DropAppend(TakeTo(a, to), TakeTo(b, to - |a|), from);
    assert to < |a| ==> TakeTo(b, to - |a|) == [];
  }

  /** Clipping a stretch is clipping the data, shifted, if the end asked for lies in the stretch or behind the data. */
  lemma ClipOfStretch(data: Bytes, at: nat, to: nat, from: int, end: int)
    requires at <= to <= |data| && at <= from && 0 <= end && (end <= to || to == |data|)
    ensures Clip(data[at..to], from - at, end - at) == Clip(data, from, end)
  {
    assert data == data[..at] + (data[at..to] + data[to..]);
    ClipAppend(data[..at], data[at..to] + data[to..], from, end);
    ClipAppend(data[at..to], data[to..], from - at, end - at);
    assert Clip(data[..at], from, end) == [];
    assert Clip(data[to..], from - to, end - to) == [];
  }

  /** The bytes of `data`, which starts at position `at`, that lie between the requested positions. */
  function Window(startByte: Option<int>, endByte: Option<int>, at: int, data: Bytes): Bytes {
    Clip(data, if startByte.Some? then startByte.value - at else 0, if endByte.Some? then endByte.value - at else |data|)
  }

  lemma WindowAppend(startByte: Option<int>, endByte: Option<int>, at: int, a: Bytes, b: Bytes)
    ensures Window(startByte, endByte, at, a + b)
      == Window(startByte, endByte, at, a) + Window(startByte, endByte, at + |a|, b)
  {
    hide Clip;
    var from := if startByte.Some? then startByte.value - at else 0;
    ClipAppend(a, b, from, if endByte.Some? then endByte.value - at else |a + b|);
    if endByte.None? {
      ClipWhole(a, from, |a + b|);
    }
    if startByte.None? {
      ClipFromStart(b, 0 - |a|, if endByte.Some? then endByte.value - at - |a| else |b|);
    }
  }

  lemma ClipWhole(data: Bytes, from: int, to: int)
    requires to >= |data|
    ensures Clip(data, from, to) == Clip(data, from, |data|)
  {
  }

  lemma ClipFromStart(data: Bytes, from: int, to: int)
    requires from <= 0
    ensures Clip(data, from, to) == Clip(data, 0, to)
  {
  }

  /** The decrypted blocks of a response; the first one may be there as the iv only. */
  function Decrypted(c: Crypto, keys: Keys, firstBlockIsIv: bool, data: Bytes): Bytes
    requires Aligned(|data|) && |data| >= BLOCK
  {
    AlignedBlock();
    AlignedDifference(|data|, BLOCK);
    if firstBlockIsIv then CbcDecrypt(c, keys.cipherKey, data[..BLOCK], data[BLOCK..])
    else CbcDecrypt(c, keys.cipherKey, keys.iv, data)
  }

  /** What the downloader makes of a response. */
  function Receive(c: Crypto, keys: Keys, startByte: Option<int>, endByte: Option<int>, encrypted: Bytes): Option<Bytes> {
    var plan := PlanFor(startByte, endByte);
    var data := encrypted[..ToSmallestChunkSize(|encrypted|)];
    if data == [] then Some([]) else
    AlignedNext(|data|);
    var plain := Decrypted(c, keys, plan.firstBlockIsIv, data);
    if endByte.Some? then Some(Window(startByte, endByte, plan.bytesFetched, plain))
    else
      var unpadded :- Unpad(plain);
      Some(Window(startByte, endByte, plan.bytesFetched, unpadded))
  }

  /** The inner function that takes decrypted bytes, with the position it has reached. */
  class RangeSink {
    const startByte: Option<int>
    const endByte: Option<int>
    var bytesFetched: int
    var plaintext: Bytes

    constructor (startByte: Option<int>, endByte: Option<int>, at: int)
      ensures this.startByte == startByte && this.endByte == endByte && bytesFetched == at && plaintext == []
    {
      this.startByte, this.endByte, bytesFetched, plaintext := startByte, endByte, at, [];
    }

    method PushBytes(data: Bytes)
      modifies this
      ensures plaintext == old(plaintext) + Window(startByte, endByte, old(bytesFetched), data)
      ensures bytesFetched == old(bytesFetched) + |data|
        || (startByte.None? && endByte.None? && bytesFetched == old(bytesFetched))
    {
      if startByte.Some? || endByte.Some? {
        var from, to := 0, |data|;
        if startByte.Some? && bytesFetched < startByte.value {
          from := startByte.value - bytesFetched;
        }
        if endByte.Some? && bytesFetched + |data| >= endByte.value {
          to := if endByte.value - bytesFetched > 0 then endByte.value - bytesFetched else 0;
        }
        assert Clip(data, from, to) == Window(startByte, endByte, bytesFetched, data);
        plaintext := plaintext + Clip(data, from, to);
        bytesFetched := bytesFetched + |data|;
        return;
      }
      assert Window(startByte, endByte, bytesFetched, data) == data;
      plaintext := plaintext + data;
    }
  }

  /** The unpadder holds back the last block until it is told that nothing follows. */
  class Unpadder {
    var buffer: Bytes

    constructor ()
      ensures buffer == []
    {
      buffer := [];
    }

    method Update(data: Bytes) returns (out: Bytes)
      modifies this
      ensures out + buffer == old(buffer) + data && Aligned(|out|)
      ensures |buffer| < 2 * BLOCK && (|old(buffer) + data| >= BLOCK ==> |buffer| >= BLOCK)
      ensures Aligned(|old(buffer) + data|) ==> Aligned(|buffer|)
    {
      var all := buffer + data;
      var finished := if |all| / BLOCK > 1 then |all| / BLOCK - 1 else 0;
      out := all[..finished * BLOCK];
      buffer := all[finished * BLOCK..];
      assert out + buffer == all;
      if Aligned(|all|) {
        AlignedDifference(|all|, |out|);
      }
    }

    method Finalize() returns (out: Option<Bytes>)
      ensures out == if |buffer| != BLOCK then None else Unpad(buffer)
    {
      out := if |buffer| != BLOCK then None else Unpad(buffer);
    }
  }

  lemma UnpadSplit(a: Bytes, b: Bytes)
    requires |b| == BLOCK
    ensures Unpad(b).None? ==> Unpad(a + b).None?
    ensures Unpad(b).Some? ==> Unpad(a + b) == Some(a + Unpad(b).value)
  {
    var ab := a + b;
    assert ab[|ab| - 1] == b[BLOCK - 1];
    assert forall i :: 0 <= i < BLOCK ==> ab[|a| + i] == b[i];
    if Unpad(b).Some? {
      var n := b[BLOCK - 1];
      assert ab[..|ab| - n] == a + b[..BLOCK - n];
      forall i | |ab| - n <= i < |ab|
        ensures ab[i] == n
      {
        assert ab[i] == b[i - |a|];
      }
    } else if 0 < b[BLOCK - 1] <= BLOCK {
      var n := b[BLOCK - 1];
      var i :| BLOCK - n <= i < BLOCK && b[i] != n;
      assert ab[|a| + i] != n;
    }
  }

  /** Decrypting and collecting one response. */
  method DownloadEncryptedContent(c: Crypto, keys: Keys, startByte: Option<int>, endByte: Option<int>, encrypted: Bytes)
    returns (r: Option<Bytes>)
    ensures r == Receive(c, keys, startByte, endByte, encrypted)
  {
    hide CbcDecrypt, Unpad, Aligned, Window, PlanFor, ToSmallestChunkSize;
    var plan := PlanFor(startByte, endByte);
    var sink := new RangeSink(startByte, endByte, plan.bytesFetched);
    var decryptLength := ToSmallestChunkSize(|encrypted|);
    var data := encrypted[..decryptLength];
    if data == [] {
      return Some(sink.plaintext);
    }
    var ivValue := keys.iv;
    AlignedNext(|data|);
    if plan.firstBlockIsIv {
      ivValue := data[..BLOCK];
      data := data[BLOCK..];
    }
    var decrypted := CbcDecrypt(c, keys.cipherKey, ivValue, data);
    if endByte.Some? {
      sink.PushBytes(decrypted);
      assert sink.plaintext == Window(startByte, endByte, plan.bytesFetched, decrypted);
      return Some(sink.plaintext);
    }
    var unpadder := new Unpadder();
    var front := unpadder.Update(decrypted);
    sink.PushBytes(front);
    assert sink.plaintext == Window(startByte, endByte, plan.bytesFetched, front);
    AlignedBelow(|unpadder.buffer|);
    var last := unpadder.Finalize();
    UnpadShort(decrypted);
    assert front + unpadder.buffer == decrypted && [] + decrypted == decrypted;
    if last.None? {
      if |unpadder.buffer| == BLOCK {
        UnpadSplit(front, unpadder.buffer);
      }
      return None;
    }
    UnpadSplit(front, unpadder.buffer);
    WindowAnywhere(startByte, endByte, sink.bytesFetched, plan.bytesFetched + |front|, last.value);
    sink.PushBytes(last.value);
    WindowAppend(startByte, endByte, plan.bytesFetched, front, last.value);
    r := Some(sink.plaintext);
  }

  lemma WindowAnywhere(startByte: Option<int>, endByte: Option<int>, at: int, also: int, data: Bytes)
    requires at == also || (startByte.None? && endByte.None?)
    ensures Window(startByte, endByte, at, data) == Window(startByte, endByte, also, data)
  {
  }

  lemma AlignedBelow(n: nat)
    requires Aligned(n) && n < 2 * BLOCK
    ensures n == 0 || n == BLOCK
  {
  }

  lemma UnpadShort(data: Bytes)
    ensures |data| < BLOCK ==> Unpad(data) == None
  {
  }

  /** A window on a stretch of data is a clipped slice of the data, if the stretch reaches far enough. */
  lemma WindowOfStretch(startByte: Option<int>, endByte: Option<int>, data: Bytes, at: nat, to: nat)
    requires at <= to <= |data|
    requires if startByte.Some? then at <= startByte.value else at == 0
    requires endByte.Some? ==> 0 <= endByte.value && (endByte.value <= to || to == |data|)
    ensures Window(startByte, endByte, at, data[at..to])
      == Clip(data, if startByte.Some? then startByte.value else 0, if endByte.Some? then endByte.value else to)
  {
    hide Clip;
    ClipOfStretch(data, at, to, if startByte.Some? then startByte.value else 0, if endByte.Some? then endByte.value else to);
  }

  // ---- The laws -------------------------------------------------------------------------------------

  /** The bytes the plan asks for are whole ciphertext blocks, the MAC never among them. */
  lemma ResponseIsBlocks(c: Crypto, keys: Keys, plain: Bytes, startByte: Option<int>, endByte: Option<int>)
    requires startByte.Some? ==> 0 <= startByte.value && ToSmallestChunkSize(startByte.value) <= |Pad(plain)|
    requires endByte.Some? ==> 0 <= endByte.value && (startByte.Some? ==> startByte.value <= endByte.value)
    ensures var plan := PlanFor(startByte, endByte);
      var response := Serve(FileOf(c, keys, plain), RangeHeader(plan));
      var ct := Ciphertext(c, keys, plain);
      var end := if endByte.Some? && plan.endChunk.value < |ct| then plan.endChunk.value else |ct|;
      && response.Some?
      && 0 <= plan.startChunk < end
      && response.value[..ToSmallestChunkSize(|response.value|)] == ct[plan.startChunk..end]
  {
    hide CbcEncrypt, Mac10, Pad, Ciphertext, ToSmallestChunkSize, Aligned;
    PlanIsAligned(startByte, endByte);
    var plan := PlanFor(startByte, endByte);
    var ct, file := Ciphertext(c, keys, plain), FileOf(c, keys, plain);
    assert |file| == |ct| + MAC_SIZE && file[..|ct|] == ct;
    assert plan.startChunk < |ct|;
    var response := Serve(file, RangeHeader(plan)).value;
    if endByte.Some? && plan.endChunk.value < |ct| {
      var end := plan.endChunk.value;
      assert response == file[plan.startChunk..end + 1];
      AlignedDifference(end, plan.startChunk);
      FloorKeeps(end - plan.startChunk, 1);
      CutOfSlice(file, |ct|, plan.startChunk, end + 1, end);
    } else {
      AlignedStep(|ct|, if endByte.Some? then plan.endChunk.value else |ct|);
      assert response == file[plan.startChunk..] || response == file[plan.startChunk..|ct| + 1];
      AlignedDifference(|ct|, plan.startChunk);
      FloorKeeps(|ct| - plan.startChunk, |response| - (|ct| - plan.startChunk));
      CutOfSlice(file, |ct|, plan.startChunk, plan.startChunk + |response|, |ct|);
      assert response == file[plan.startChunk..plan.startChunk + |response|];
    }
  }

  /** A slice of a file, cut short, is a slice of the part in front it stays in. */
  lemma CutOfSlice(file: Bytes, front: nat, at: nat, to: nat, end: nat)
    requires at <= end <= front <= |file| && end <= to <= |file|
    ensures file[at..to][..end - at] == file[..front][at..end]
  {
  }

  /** Two aligned numbers are equal or a block apart. */
  lemma AlignedStep(a: int, b: int)
    requires Aligned(a) && Aligned(b) && a <= b
    ensures a == b || a + BLOCK <= b
  {
  }

  /** The decrypted response is the padded plaintext between the plan's first position and the end. */
  lemma DecryptedResponse(c: Crypto, keys: Keys, plain: Bytes, plan: Plan, end: nat)
    requires c.Lawful()
    requires Aligned(plan.startChunk) && 0 <= plan.startChunk < end <= |Pad(plain)| && Aligned(end)
    requires Aligned(end - plan.startChunk) && BLOCK <= end - plan.startChunk
    requires plan.firstBlockIsIv ==> plan.bytesFetched == plan.startChunk + BLOCK
    requires !plan.firstBlockIsIv ==> plan.startChunk == plan.bytesFetched == 0
    ensures var data := Ciphertext(c, keys, plain)[plan.startChunk..end];
      plan.bytesFetched <= end && Decrypted(c, keys, plan.firstBlockIsIv, data) == Pad(plain)[plan.bytesFetched..end]
  {
    hide CbcEncrypt, CbcDecrypt, Pad, Aligned;
    AlignedBlock();
    AlignedDifference(plan.startChunk, BLOCK);
    var ct := Ciphertext(c, keys, plain);
    var data := ct[plan.startChunk..end];
    var from := plan.bytesFetched;
    DecryptEncrypt(c, keys.cipherKey, keys.iv, Pad(plain));
    AlignedDifference(end, from);
    DecryptSlice(c, keys.cipherKey, keys.iv, ct, from, end);
    if plan.firstBlockIsIv {
      assert data[..BLOCK] == ct[from - BLOCK..from] == Chain(keys.iv, ct[..from]);
      assert data[BLOCK..] == ct[from..end];
    } else {
      assert ct[..0] == [];
      assert data == ct[0..end];
    }
  }

  /**
   * Fetching from a server that honours ranges gives exactly the requested slice of the plaintext, whichever of
   * the two ends are given.
   */
  lemma DownloadIsSlice(c: Crypto, keys: Keys, plain: Bytes, startByte: Option<int>, endByte: Option<int>)
    requires c.Lawful()
    requires var s := if startByte.Some? then startByte.value else 0;
      var e := if endByte.Some? then endByte.value else |plain|;
      0 <= s <= e <= |plain|
    ensures var response := Serve(FileOf(c, keys, plain), RangeHeader(PlanFor(startByte, endByte)));
      var s := if startByte.Some? then startByte.value else 0;
      var e := if endByte.Some? then endByte.value else |plain|;
      response.Some? && Receive(c, keys, startByte, endByte, response.value) == Some(plain[s..e])
  {
    hide CbcEncrypt, CbcDecrypt, Serve, Unpad, Window, Aligned, Decrypted;
    var s := if startByte.Some? then startByte.value else 0;
    var e := if endByte.Some? then endByte.value else |plain|;
    ResponseIsBlocks(c, keys, plain, startByte, endByte);
    PlanIsAligned(startByte, endByte);
    var plan := PlanFor(startByte, endByte);
    var ct := Ciphertext(c, keys, plain);
    var end := if endByte.Some? && plan.endChunk.value < |ct| then plan.endChunk.value else |ct|;
    AlignedDifference(end, plan.startChunk);
    AlignedNext(end - plan.startChunk);
    DecryptedResponse(c, keys, plain, plan, end);
    if endByte.None? {
      UnpadPad(plain, plan.bytesFetched);
      assert Pad(plain)[plan.bytesFetched..end] == Pad(plain)[plan.bytesFetched..];
      assert plain[plan.bytesFetched..|plain|] == plain[plan.bytesFetched..];
      assert Clip(plain, s, e) == plain[s..e];
      WindowOfStretch(startByte, endByte, plain, plan.bytesFetched, |plain|);
    } else {
      WindowOfStretch(startByte, endByte, Pad(plain), plan.bytesFetched, end);
      assert Clip(Pad(plain), s, e) == plain[s..e];
    }
  }

  lemma NoWholeBlock(c: Crypto, keys: Keys, startByte: Option<int>, endByte: Option<int>, encrypted: Bytes)
    requires |encrypted| < BLOCK
    ensures Receive(c, keys, startByte, endByte, encrypted) == Some([])
  {
    hide Aligned, CbcDecrypt, Unpad, Window, ToSmallestChunkSize;
    AlignedBlock();
    FloorKeeps(0, |encrypted|);
  }

  /** The server has the range asked for unless it starts more than a block behind the ciphertext. */
  lemma RangeIsServed(c: Crypto, keys: Keys, plain: Bytes, s: nat, endByte: Option<int>)
    requires endByte.Some? ==> s <= endByte.value
    ensures ToSmallestChunkSize(s) <= |Pad(plain)| || ToSmallestChunkSize(s) >= |Pad(plain)| + BLOCK
    ensures var response := Serve(FileOf(c, keys, plain), RangeHeader(PlanFor(Some(s), endByte)));
      && (response.Some? <==> ToSmallestChunkSize(s) <= |Pad(plain)| + BLOCK)
      && (ToSmallestChunkSize(s) == |Pad(plain)| + BLOCK ==> response == Some(Mac10(c, keys, Ciphertext(c, keys, plain))))
  {
    hide CbcEncrypt, Mac10, Pad, Ciphertext, ToSmallestChunkSize, Aligned;
    var plan, ct, file := PlanFor(Some(s), endByte), Ciphertext(c, keys, plain), FileOf(c, keys, plain);
    PlanIsAligned(Some(s), endByte);
    AlignedBlock();
    assert |file| == |ct| + MAC_SIZE && file[|ct|..] == Mac10(c, keys, ct);
    if ToSmallestChunkSize(s) > |ct| {
      AlignedStep(|ct|, ToSmallestChunkSize(s));
    }
    if ToSmallestChunkSize(s) > |ct| + BLOCK {
      AlignedStep(|ct|, plan.startChunk);
    }
  }

  /**
   * With an end behind the plaintext, with or without a start, the padding is handed out as data: what comes is the
   * slice of the padded plaintext, which is right exactly if the end is within the plaintext or nothing is asked for
   * within the padding.
   */
  lemma EndBeyondPlaintext(c: Crypto, keys: Keys, plain: Bytes, startByte: Option<int>, e: nat)
    requires c.Lawful()
    requires startByte.Some? ==> 0 <= startByte.value <= e
    ensures var response := Serve(FileOf(c, keys, plain), RangeHeader(PlanFor(startByte, Some(e))));
      var s := if startByte.Some? then startByte.value else 0;
      && (response.Some? <==> ToSmallestChunkSize(s) <= |Pad(plain)| + BLOCK)
      && (response.Some? ==>
            && Receive(c, keys, startByte, Some(e), response.value) == Some(Clip(Pad(plain), s, e))
            && (Receive(c, keys, startByte, Some(e), response.value) == Some(Clip(plain, s, e))
                <==> e <= |plain| || s == e || s >= |Pad(plain)|))
  {
    hide Receive, Ciphertext, Mac10, Serve, RangeHeader, PlanFor, FileOf, Clip, Aligned, Pad, ToSmallestChunkSize;
    var s := if startByte.Some? then startByte.value else 0;
    assert ToSmallestChunkSize(0) == 0 by {
      AlignedBlock();
      FloorKeeps(0, 0);
    }
    if startByte.Some? {
      RangeIsServed(c, keys, plain, s, Some(e));
    }
    if ToSmallestChunkSize(s) <= |Pad(plain)| {
      PaddedSlice(c, keys, plain, startByte, e);
      PaddingShows(plain, s, e);
    } else if ToSmallestChunkSize(s) == |Pad(plain)| + BLOCK {
      NoWholeBlock(c, keys, startByte, Some(e), Mac10(c, keys, Ciphertext(c, keys, plain)));
      ClipBehind(Pad(plain), s, e);
      ClipBehind(plain, s, e);
    }
  }

  lemma ClipBehind(data: Bytes, s: int, e: int)
    requires s >= |data|
    ensures Clip(data, s, e) == []
  {
  }

  lemma PaddingShows(plain: Bytes, s: nat, e: nat)
    requires s <= e
    ensures Clip(Pad(plain), s, e) == Clip(plain, s, e) <==> e <= |plain| || s == e || s >= |Pad(plain)|
  {
    hide Pad;
    var p := Pad(plain);
    if e <= |plain| {
      assert TakeTo(p, e) == TakeTo(plain, e);
    } else if s < |p| && s < e {
      assert |Clip(p, s, e)| > |Clip(plain, s, e)|;
    }
  }

  lemma PaddedSlice(c: Crypto, keys: Keys, plain: Bytes, startByte: Option<int>, e: nat)
    requires c.Lawful()
    requires startByte.Some? ==> 0 <= startByte.value <= e && ToSmallestChunkSize(startByte.value) <= |Pad(plain)|
    ensures var response := Serve(FileOf(c, keys, plain), RangeHeader(PlanFor(startByte, Some(e))));
      var s := if startByte.Some? then startByte.value else 0;
      response.Some? && Receive(c, keys, startByte, Some(e), response.value) == Some(Clip(Pad(plain), s, e))
  {
    hide CbcEncrypt, CbcDecrypt, Serve, Unpad, Window, Aligned, Decrypted;
    ResponseIsBlocks(c, keys, plain, startByte, Some(e));
    PlanIsAligned(startByte, Some(e));
    var plan := PlanFor(startByte, Some(e));
    var ct := Ciphertext(c, keys, plain);
    var end := if plan.endChunk.value < |ct| then plan.endChunk.value else |ct|;
    AlignedDifference(end, plan.startChunk);
    AlignedNext(end - plan.startChunk);
    DecryptedResponse(c, keys, plain, plan, end);
    WindowOfStretch(startByte, Some(e), Pad(plain), plan.bytesFetched, end);
  }

  /**
   * With a start behind the plaintext and no end, nothing comes, as it should; but a start in the block behind the
   * padding leaves no block to unpad and fails, and one further behind gets the MAC alone or no range.
   */
  lemma StartBehindPlaintext(c: Crypto, keys: Keys, plain: Bytes, s: nat)
    requires c.Lawful() && s > |plain|
    ensures var response := Serve(FileOf(c, keys, plain), RangeHeader(PlanFor(Some(s), None)));
      var chunk := ToSmallestChunkSize(s);
      && (response.Some? <==> chunk <= |Pad(plain)| + BLOCK)
      && (response.Some? ==>
            Receive(c, keys, Some(s), None, response.value) == if chunk == |Pad(plain)| then None else Some([]))
  {
    hide Receive, Ciphertext, Mac10, Serve, RangeHeader, PlanFor, FileOf, Window, Aligned, Pad, Unpad, ToSmallestChunkSize;
    var chunk := ToSmallestChunkSize(s);
    RangeIsServed(c, keys, plain, s, None);
    if chunk <= |Pad(plain)| {
      OpenEnded(c, keys, plain, s);
      if chunk < |Pad(plain)| {
        AlignedStep(chunk, |Pad(plain)|);
        UnpadPad(plain, chunk);
        WindowOfStretch(Some(s), None, plain, chunk, |plain|);
        assert plain[chunk..|plain|] == plain[chunk..];
      } else {
        assert Pad(plain)[chunk..] == [];
        UnpadShort([]);
      }
    } else if chunk == |Pad(plain)| + BLOCK {
      NoWholeBlock(c, keys, Some(s), None, Mac10(c, keys, Ciphertext(c, keys, plain)));
    }
  }

  /** What is unpadded of a download without an end: the padded plaintext from the start's block on. */
  lemma OpenEnded(c: Crypto, keys: Keys, plain: Bytes, s: nat)
    requires c.Lawful() && ToSmallestChunkSize(s) <= |Pad(plain)|
    ensures var response := Serve(FileOf(c, keys, plain), RangeHeader(PlanFor(Some(s), None)));
      var unpadded := Unpad(Pad(plain)[ToSmallestChunkSize(s)..]);
      && response.Some?
      && Receive(c, keys, Some(s), None, response.value)
        == if unpadded.None? then None else Some(Window(Some(s), None, ToSmallestChunkSize(s), unpadded.value))
  {
    hide CbcEncrypt, CbcDecrypt, Serve, Unpad, Window, Aligned, Decrypted, Pad, ToSmallestChunkSize;
    ResponseIsBlocks(c, keys, plain, Some(s), None);
    PlanIsAligned(Some(s), None);
    var plan := PlanFor(Some(s), None);
    var end := |Ciphertext(c, keys, plain)|;
    AlignedDifference(end, plan.startChunk);
    AlignedNext(end - plan.startChunk);
    DecryptedResponse(c, keys, plain, plan, end);
    assert Pad(plain)[plan.bytesFetched..end] == Pad(plain)[plan.bytesFetched..];
  }

  /** Streaming encryption in any chunks followed by a download without a range gives the plaintext back. */
  lemma UploadThenDownload(c: Crypto, keys: Keys, plain: Bytes)
    requires c.Lawful()
    ensures RangeHeader(PlanFor(None, None)) == None
    ensures Receive(c, keys, None, None, UploadOf(c, keys, plain).file) == Some(plain)
  {
    DownloadIsSlice(c, keys, plain, None, None);
    assert plain[0..|plain|] == plain;
  }
}
