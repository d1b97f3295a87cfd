/** Length-prefixed frames over a byte stream, with one nonce counter for each direction. */
module NoiseFraming {
  import opened Common

  // ---- Nonces and headers ---------------------------------------------------------------------------

  const TWO_TO_32: nat := 0x1_0000_0000
  const TWO_TO_24: nat := 0x100_0000

  /** Eight zero bytes and the low 32 bits of the counter, most significant byte first. */
  function GenerateIv(counter: nat): (r: Bytes)
    ensures |r| == 12
  {
    [0, 0, 0, 0, 0, 0, 0, 0] + BigEndian4(counter)
  }

  function BigEndian4(n: nat): (r: Bytes)
    ensures |r| == 4
  {
    [n / TWO_TO_24 % 256, n / 0x1_0000 % 256, n / 256 % 256, n % 256]
  }

  /** A frame starts with its length in 24 bits. */
  function Header(length: nat): (r: Bytes)
    ensures |r| == 3
  {
    [length / 0x1_0000 % 256, length / 256 % 256, length % 256]
  }

  function SizeIn(buffer: Bytes): nat
    requires |buffer| >= 3
  {
    var high: int, middle: int, low: int := buffer[0], buffer[1], buffer[2];
    0x1_0000 * high + 256 * middle + low
  }

  lemma RemainderIs(n: int, d: int, q: int, r: int)
    requires 0 <= r < d && n == d * q + r
    ensures n % d == r
  {
    SameQuotient(d, q - n / d, n % d - r);
  }

  lemma SameQuotient(d: int, q: int, r: int)
    requires -d < r < d && d * q == r
    ensures r == 0
  {
  }

  lemma TwoDigits(n: nat)
    ensures n % 0x1_0000 == 256 * (n / 256 % 256) + n % 256
  {
    var q := n / 256;
    assert n == 256 * q + n % 256 && q == 256 * (q / 256) + q % 256;
    RemainderIs(n, 0x1_0000, q / 256, 256 * (q % 256) + n % 256);
  }

  lemma ThreeDigits(n: nat)
    ensures n % TWO_TO_24 == 0x1_0000 * (n / 0x1_0000 % 256) + n % 0x1_0000
  {
  }

  lemma FourDigits(n: nat)
    ensures n % TWO_TO_32 == TWO_TO_24 * (n / TWO_TO_24 % 256) + n % TWO_TO_24
  {
  }

  /** Four base-256 digits are determined by their value, and determine it. */
  lemma SameDigits(a3: int, a2: int, a1: int, a0: int, b3: int, b2: int, b1: int, b0: int)
    requires 0 <= a3 < 256 && 0 <= a2 < 256 && 0 <= a1 < 256 && 0 <= a0 < 256
    requires 0 <= b3 < 256 && 0 <= b2 < 256 && 0 <= b1 < 256 && 0 <= b0 < 256
    ensures TWO_TO_24 * a3 + 0x1_0000 * a2 + 256 * a1 + a0 == TWO_TO_24 * b3 + 0x1_0000 * b2 + 256 * b1 + b0
      <==> a3 == b3 && a2 == b2 && a1 == b1 && a0 == b0
  {
    var x, y := 0x1_0000 * a2 + 256 * a1 + a0, 0x1_0000 * b2 + 256 * b1 + b0;
    if TWO_TO_24 * a3 + x == TWO_TO_24 * b3 + y {
      SameQuotient(TWO_TO_24, a3 - b3, y - x);
      SameQuotient(0x1_0000, a2 - b2, 256 * b1 + b0 - (256 * a1 + a0));
      SameQuotient(256, a1 - b1, b0 - a0);
    }
  }

  lemma ValueOf(n: nat)
    ensures n % TWO_TO_32
      == TWO_TO_24 * (n / TWO_TO_24 % 256) + 0x1_0000 * (n / 0x1_0000 % 256) + 256 * (n / 256 % 256) + n % 256
  {
    TwoDigits(n);
    ThreeDigits(n);
    FourDigits(n);
  }

  /** Two counters share a nonce exactly when they agree modulo 2^32. */
  lemma NonceRepeats(i: nat, j: nat)
    ensures GenerateIv(i) == GenerateIv(j) <==> i % TWO_TO_32 == j % TWO_TO_32
  {
    ValueOf(i);
    ValueOf(j);
    SameDigits(i / TWO_TO_24 % 256, i / 0x1_0000 % 256, i / 256 % 256, i % 256,
      j / TWO_TO_24 % 256, j / 0x1_0000 % 256, j / 256 % 256, j % 256);
    if GenerateIv(i) == GenerateIv(j) {
      assert BigEndian4(i) == GenerateIv(i)[8..] && BigEndian4(j) == GenerateIv(j)[8..];
      assert forall k :: 0 <= k < 4 ==> BigEndian4(i)[k] == BigEndian4(j)[k];
    }
  }

  lemma HeaderRoundTrip(length: nat, tail: Bytes)
    ensures SizeIn(Header(length) + tail) == length % TWO_TO_24
  {
    TwoDigits(length);
    ThreeDigits(length);
  }

  // ---- Encryption -----------------------------------------------------------------------------------

  /** Authenticated encryption with empty associated data: key, nonce, text. */
  datatype Aead = Aead(seal: (Bytes, Bytes, Bytes) -> Bytes, unseal: (Bytes, Bytes, Bytes) -> Option<Bytes>) {
    ghost predicate Lawful() {
      forall k, iv, p :: unseal(k, iv, seal(k, iv, p)) == Some(p)
    }
  }

  class TransportState {
    const aead: Aead
    const encKey: Bytes
    const decKey: Bytes
    var readCounter: nat
    var writeCounter: nat

    constructor (aead: Aead, encKey: Bytes, decKey: Bytes)
      ensures this.aead == aead && this.encKey == encKey && this.decKey == decKey
      ensures readCounter == 0 && writeCounter == 0
    {
      this.aead, this.encKey, this.decKey := aead, encKey, decKey;
      readCounter, writeCounter := 0, 0;
    }

    method Encrypt(plaintext: Bytes) returns (r: Bytes)
      modifies this`writeCounter
      ensures r == aead.seal(encKey, GenerateIv(old(writeCounter)), plaintext)
      ensures writeCounter == old(writeCounter) + 1
    {
      var iv := GenerateIv(writeCounter);
      writeCounter := writeCounter + 1;
      r := aead.seal(encKey, iv, plaintext);
    }

    /** The counter moves even when authentication fails. */
    method Decrypt(ciphertext: Bytes) returns (r: Option<Bytes>)
      modifies this`readCounter
      ensures r == aead.unseal(decKey, GenerateIv(old(readCounter)), ciphertext)
      ensures readCounter == old(readCounter) + 1
    {
      var iv := GenerateIv(readCounter);
      readCounter := readCounter + 1;
      r := aead.unseal(decKey, iv, ciphertext);
    }
  }

  // ---- The stream as a function ---------------------------------------------------------------------

  function FrameOf(payload: Bytes): Bytes { Header(|payload|) + payload }

  /** Everything sent for a list of messages, the first under nonce `counter`. */
  function Stream(aead: Aead, key: Bytes, counter: nat, messages: seq<Bytes>): Bytes
    decreases |messages|
  {
    if messages == [] then []
    else FrameOf(aead.seal(key, GenerateIv(counter), messages[0])) + Stream(aead, key, counter + 1, messages[1..])
  }

  /** The receiving side: before the transport exists frames are passed on as they are. */
  datatype Reader = Reader(aead: Aead, key: Bytes, counter: nat)

  datatype Processed = Processed(delivered: seq<Bytes>, rest: Bytes, reader: Option<Reader>, ok: bool)

  predicate Incomplete(buffer: Bytes) {
    |buffer| < 3 || |buffer| < SizeIn(buffer) + 3
  }

  function OpenFrame(reader: Option<Reader>, frame: Bytes): Option<Bytes> {
    match reader
    case None => Some(frame)
    case Some(r) => r.aead.unseal(r.key, GenerateIv(r.counter), frame)
  }

  function Next(reader: Option<Reader>): Option<Reader> {
    match reader
    case None => None
    case Some(r) => Some(r.(counter := r.counter + 1))
  }

  /** Takes complete frames off the front of a buffer; a frame that fails to open stops everything after it. */
  function Process(reader: Option<Reader>, buffer: Bytes): Processed
    decreases |buffer|
  {
    if Incomplete(buffer) then Processed([], buffer, reader, true)
    else
      var message := OpenFrame(reader, FirstFrame(buffer));
      if message.None? then Processed([], AfterFirst(buffer), Next(reader), false)
      else Prepend([message.value], Process(Next(reader), AfterFirst(buffer)))
  }

  function FirstFrame(buffer: Bytes): Bytes
    requires !Incomplete(buffer)
  {
    buffer[3..SizeIn(buffer) + 3]
  }

  function AfterFirst(buffer: Bytes): (r: Bytes)
    requires !Incomplete(buffer)
    ensures |r| < |buffer|
  {
    buffer[SizeIn(buffer) + 3..]
  }

  function Prepend(before: seq<Bytes>, p: Processed): Processed {
    p.(delivered := before + p.delivered)
  }

  lemma PrependTwice(a: seq<Bytes>, b: seq<Bytes>, p: Processed)
    ensures Prepend(a, Prepend(b, p)) == Prepend(a + b, p)
    ensures Prepend([], p) == p
  {
    assert a + (b + p.delivered) == (a + b) + p.delivered;
    assert [] + p.delivered == p.delivered;
  }

  /** Chunks arrive one after the other; nothing is processed after a failure. */
  function Feed(reader: Option<Reader>, buffer: Bytes, chunks: seq<Bytes>): Processed
    decreases |chunks|
  {
    if chunks == [] then Processed([], buffer, reader, true)
    else
      var first := Process(reader, buffer + chunks[0]);
      if !first.ok then first else Prepend(first.delivered, Feed(first.reader, first.rest, chunks[1..]))
  }

  // ---- The handler ----------------------------------------------------------------------------------

  lemma StreamFirst(aead: Aead, key: Bytes, counter: nat, messages: seq<Bytes>)
    requires messages != []
    ensures Stream(aead, key, counter, messages)
      == FrameOf(aead.seal(key, GenerateIv(counter), messages[0])) + Stream(aead, key, counter + 1, messages[1..])
  {
  }

  lemma StreamOfNone(aead: Aead, key: Bytes, counter: nat)
    ensures Stream(aead, key, counter, []) == []
  {
  }

  class NoiseHandler {
    const introHeader: Bytes
    var transport: TransportState?
    var sentIntro: bool
    var inBytes: Bytes

    function Reading(): Option<Reader>
      reads this, transport
    {
      if transport == null then None else Some(Reader(transport.aead, transport.decKey, transport.readCounter))
    }

    constructor (introHeader: Bytes)
      ensures this.introHeader == introHeader && transport == null && !sentIntro && inBytes == []
    {
      this.introHeader := introHeader;
      transport, sentIntro, inBytes := null, false, [];
    }

    method EncodeFrame(data: Bytes) returns (frame: Bytes)
      modifies this`sentIntro, if transport == null then {} else {transport}
      ensures sentIntro
      ensures var payload := if transport == null then data
          else transport.aead.seal(transport.encKey, GenerateIv(old(if transport == null then 0 else transport.writeCounter)), data);
        frame == (if old(sentIntro) then [] else introHeader) + FrameOf(payload)
      ensures transport != null ==>
        transport.writeCounter == old(transport.writeCounter) + 1 && transport.readCounter == old(transport.readCounter)
    {
      var output := data;
      if transport != null {
        output := transport.Encrypt(output);
      }
      frame := [];
      if !sentIntro {
        frame := introHeader;
        sentIntro := true;
      }
      frame := frame + Header(|output|) + output;
      assert frame == (if old(sentIntro) then [] else introHeader) + FrameOf(output);
    }

    /** Messages sent one after the other, the intro header being out already. */
    method EncodeAll(messages: seq<Bytes>) returns (sent: Bytes)
      requires transport != null && sentIntro
      modifies this`sentIntro, transport
      ensures sentIntro && transport == old(transport)
      ensures sent == Stream(transport.aead, transport.encKey, old(transport.writeCounter), messages)
      ensures transport.writeCounter == old(transport.writeCounter) + |messages|
      ensures transport.readCounter == old(transport.readCounter)
    {
      hide GenerateIv, FrameOf, Stream;
      sent := [];
      for n := 0 to |messages|
        invariant sentIntro && transport.writeCounter == old(transport.writeCounter) + n
        invariant transport.readCounter == old(transport.readCounter)
        invariant Stream(transport.aead, transport.encKey, old(transport.writeCounter), messages)
          == sent + Stream(transport.aead, transport.encKey, transport.writeCounter, messages[n..])
      {
        assert messages[n..][1..] == messages[n + 1..];
        StreamFirst(transport.aead, transport.encKey, transport.writeCounter, messages[n..]);
        var frame := EncodeFrame(messages[n]);
        ghost var later := Stream(transport.aead, transport.encKey, transport.writeCounter, messages[n + 1..]);
        assert sent + ([] + frame + later) == (sent + frame) + later;
        sent := sent + frame;
      }
      StreamOfNone(transport.aead, transport.encKey, transport.writeCounter);
    }

    method DecodeFrame(newData: Bytes) returns (delivered: seq<Bytes>, ok: bool)
      modifies this`inBytes, if transport == null then {} else {transport}
      ensures Processed(delivered, inBytes, Reading(), ok) == Process(old(Reading()), old(inBytes) + newData)
      ensures transport != null ==> transport.writeCounter == old(transport.writeCounter)
    {
      hide SizeIn;
      inBytes := inBytes + newData;
      delivered := [];
      ghost var all := Process(Reading(), inBytes);
      PrependTwice([], [], all);
      while !Incomplete(inBytes)
        invariant transport != null ==> transport.writeCounter == old(transport.writeCounter)
        invariant all == Prepend(delivered, Process(Reading(), inBytes))
        decreases |inBytes|
      {
        ghost var reader := Reading();
        var frame := FirstFrame(inBytes);
        inBytes := AfterFirst(inBytes);
        var message := Some(frame);
        if transport != null {
          message := transport.Decrypt(frame);
        }
        assert message == OpenFrame(reader, frame) && Reading() == Next(reader);
        if message.None? {
          assert delivered + [] == delivered;
          return delivered, false;
        }
        PrependTwice(delivered, [message.value], Process(Reading(), inBytes));
        delivered := delivered + [message.value];
      }
      assert delivered + [] == delivered;
      ok := true;
    }

    /** Every chunk is handed over as it arrives. */
    method DecodeChunks(chunks: seq<Bytes>) returns (delivered: seq<Bytes>, ok: bool)
      modifies this`inBytes, if transport == null then {} else {transport}
      ensures Processed(delivered, inBytes, Reading(), ok) == Feed(old(Reading()), old(inBytes), chunks)
    {
      hide Process;
      delivered := [];
      ghost var all := Feed(Reading(), inBytes, chunks);
      PrependTwice([], [], all);
      for n := 0 to |chunks|
        invariant all == Prepend(delivered, Feed(Reading(), inBytes, chunks[n..]))
      {
        assert chunks[n..][1..] == chunks[n + 1..];
        ghost var before := delivered;
        var some, fine := DecodeFrame(chunks[n]);
        delivered := delivered + some;
        if !fine {
          return delivered, false;
        }
        PrependTwice(before, some, Feed(Reading(), inBytes, chunks[n + 1..]));
      }
      assert delivered + [] == delivered;
      ok := true;
    }
  }

  // ---- Chunking does not matter ---------------------------------------------------------------------

  lemma FrontIsLocal(a: Bytes, b: Bytes)
    requires !Incomplete(a)
    ensures !Incomplete(a + b) && FirstFrame(a + b) == FirstFrame(a) && AfterFirst(a + b) == AfterFirst(a) + b
  {
  }

  /** What is left after processing, followed by new data, continues exactly as the whole would have. */
  lemma {:induction false} ProcessResumes(reader: Option<Reader>, a: Bytes, b: Bytes)
    requires Process(reader, a).ok
    ensures var first := Process(reader, a);
      Process(reader, a + b) == Prepend(first.delivered, Process(first.reader, first.rest + b))
    decreases |a|
  {
    hide SizeIn, Incomplete, FirstFrame, AfterFirst;
    if Incomplete(a) {
      PrependTwice([], [], Process(reader, a + b));
    } else {
      FrontIsLocal(a, b);
      var head := OpenFrame(reader, FirstFrame(a)).value;
      var rest := Process(Next(reader), AfterFirst(a));
      ProcessResumes(Next(reader), AfterFirst(a), b);
      PrependTwice([head], rest.delivered, Process(rest.reader, rest.rest + b));
    }
  }

  /** A failure is final: more data cannot undo it, and changes only what is left behind. */
  lemma {:induction false} FailureStays(reader: Option<Reader>, a: Bytes, b: Bytes)
    requires !Process(reader, a).ok
    ensures var first := Process(reader, a);
      Process(reader, a + b) == first.(rest := first.rest + b)
    decreases |a|
  {
    hide SizeIn, FirstFrame, AfterFirst;
    FrontIsLocal(a, b);
    if OpenFrame(reader, FirstFrame(a)).Some? {
      FailureStays(Next(reader), AfterFirst(a), b);
    }
  }

  /** However a stream is cut, the same messages come out, with the same buffer and counter left. */
  lemma {:induction false} ChunkingDoesNotMatter(reader: Option<Reader>, buffer: Bytes, chunks: seq<Bytes>)
    requires Incomplete(buffer)
    ensures var whole := Process(reader, buffer + Flatten(chunks));
      var fed := Feed(reader, buffer, chunks);
      && fed.ok == whole.ok && fed.delivered == whole.delivered && fed.reader == whole.reader
      && (fed.ok ==> fed.rest == whole.rest)
    decreases |chunks|
  {
    hide SizeIn;
    if chunks == [] {
      assert buffer + [] == buffer;
    } else {
      var tail := Flatten(chunks[1..]);
      var first := Process(reader, buffer + chunks[0]);
      assert buffer + Flatten(chunks) == (buffer + chunks[0]) + tail;
      if first.ok {
        RestIsIncomplete(reader, buffer + chunks[0]);
        ProcessResumes(reader, buffer + chunks[0], tail);
        ChunkingDoesNotMatter(first.reader, first.rest, chunks[1..]);
      } else {
        FailureStays(reader, buffer + chunks[0], tail);
      }
    }
  }

  lemma {:induction false} RestIsIncomplete(reader: Option<Reader>, buffer: Bytes)
    requires Process(reader, buffer).ok
    ensures Incomplete(Process(reader, buffer).rest)
    decreases |buffer|
  {
    hide SizeIn, FirstFrame, AfterFirst;
    if !Incomplete(buffer) {
      RestIsIncomplete(Next(reader), AfterFirst(buffer));
    }
  }

  // ---- Round trip -----------------------------------------------------------------------------------

  /** Every sealed message fits the 24-bit length. */
  ghost predicate Fits(aead: Aead, key: Bytes, counter: nat, messages: seq<Bytes>) {
    forall i :: 0 <= i < |messages| ==> |aead.seal(key, GenerateIv(counter + i), messages[i])| < TWO_TO_24
  }

  /** How many whole frames lie in the first n bytes of the stream. */
  function WholeFrames(aead: Aead, key: Bytes, counter: nat, messages: seq<Bytes>, n: nat): (k: nat)
    ensures k <= |messages|
    decreases |messages|
  {
    if messages == [] then 0
    else
      var size := |FrameOf(aead.seal(key, GenerateIv(counter), messages[0]))|;
      if n < size then 0 else 1 + WholeFrames(aead, key, counter + 1, messages[1..], n - size)
  }

  lemma FrontFrame(payload: Bytes, tail: Bytes)
    requires |payload| < TWO_TO_24
    ensures var b := FrameOf(payload) + tail;
      !Incomplete(b) && FirstFrame(b) == payload && AfterFirst(b) == tail
  {
    hide Header, SizeIn;
    HeaderRoundTrip(|payload|, payload + tail);
    assert FrameOf(payload) + tail == Header(|payload|) + (payload + tail);
  }

  lemma CutFrame(payload: Bytes, n: nat)
    requires |payload| < TWO_TO_24 && n < |FrameOf(payload)|
    ensures Incomplete(FrameOf(payload)[..n])
  {
    HeaderRoundTrip(|payload|, payload);
  }

  lemma FitsTail(aead: Aead, key: Bytes, counter: nat, messages: seq<Bytes>)
    requires messages != [] && Fits(aead, key, counter, messages)
    ensures |aead.seal(key, GenerateIv(counter), messages[0])| < TWO_TO_24
    ensures Fits(aead, key, counter + 1, messages[1..])
  {
    assert GenerateIv(counter + 0) == GenerateIv(counter);
    forall i | 0 <= i < |messages| - 1
      ensures |aead.seal(key, GenerateIv(counter + 1 + i), messages[1..][i])| < TWO_TO_24
    {
      assert counter + 1 + i == counter + (i + 1);
    }
  }

  /** Exactly the messages of the first k frames are delivered and only an incomplete frame is left of the input. */
  ghost predicate DecodesPrefix(aead: Aead, key: Bytes, counter: nat, messages: seq<Bytes>, input: Bytes, k: nat, r: Processed)
    requires k <= |messages|
  {
    && r.ok && r.delivered == messages[..k] && r.reader == Some(Reader(aead, key, counter + k))
    && Stream(aead, key, counter, messages[..k]) + r.rest == input
    && Incomplete(r.rest)
  }

  lemma DecodesPrefixNext(aead: Aead, key: Bytes, counter: nat, messages: seq<Bytes>, tail: Bytes, k: nat, r: Processed)
    requires aead.Lawful() && messages != [] && |aead.seal(key, GenerateIv(counter), messages[0])| < TWO_TO_24
    requires k < |messages|
    requires DecodesPrefix(aead, key, counter + 1, messages[1..], tail, k, r)
    requires r == Process(Some(Reader(aead, key, counter + 1)), tail)
    ensures var input := FrameOf(aead.seal(key, GenerateIv(counter), messages[0])) + tail;
      DecodesPrefix(aead, key, counter, messages, input, k + 1, Process(Some(Reader(aead, key, counter)), input))
  {
    hide Header, FrameOf, SizeIn, Incomplete, FirstFrame, AfterFirst, GenerateIv;
    var payload := aead.seal(key, GenerateIv(counter), messages[0]);
    FrontFrame(payload, tail);
    assert messages[..k + 1] == [messages[0]] + messages[1..][..k];
    assert messages[..k + 1][1..] == messages[1..][..k];
    assert FrameOf(payload) + tail
      == (FrameOf(payload) + Stream(aead, key, counter + 1, messages[1..][..k])) + r.rest;
  }

  lemma {:induction false} PrefixDecodes(aead: Aead, key: Bytes, counter: nat, messages: seq<Bytes>, n: nat)
    requires aead.Lawful() && Fits(aead, key, counter, messages)
    requires n <= |Stream(aead, key, counter, messages)|
    ensures var input := Stream(aead, key, counter, messages)[..n];
      DecodesPrefix(aead, key, counter, messages, input, WholeFrames(aead, key, counter, messages, n),
        Process(Some(Reader(aead, key, counter)), input))
    decreases |messages|
  {
    hide Header, FrameOf, SizeIn, GenerateIv;
    var input := Stream(aead, key, counter, messages)[..n];
    if messages != [] {
      FitsTail(aead, key, counter, messages);
      var payload := aead.seal(key, GenerateIv(counter), messages[0]);
      var tail := Stream(aead, key, counter + 1, messages[1..]);
      var size := |FrameOf(payload)|;
      if n < size {
        CutFrame(payload, n);
        assert input == FrameOf(payload)[..n];
      } else {
        PrefixDecodes(aead, key, counter + 1, messages[1..], n - size);
        assert input == FrameOf(payload) + tail[..n - size];
        DecodesPrefixNext(aead, key, counter, messages, tail[..n - size],
          WholeFrames(aead, key, counter + 1, messages[1..], n - size),
          Process(Some(Reader(aead, key, counter + 1)), tail[..n - size]));
      }
    }
  }

  lemma {:induction false} AllFramesWhole(aead: Aead, key: Bytes, counter: nat, messages: seq<Bytes>)
    ensures WholeFrames(aead, key, counter, messages, |Stream(aead, key, counter, messages)|) == |messages|
    decreases |messages|
  {
    if messages != [] {
      AllFramesWhole(aead, key, counter + 1, messages[1..]);
    }
  }

  /** Received in part, the whole frames so far have been delivered and only an incomplete one is buffered. */
  lemma PartialRoundTrip(aead: Aead, key: Bytes, counter: nat, messages: seq<Bytes>, chunks: seq<Bytes>, n: nat)
    requires aead.Lawful() && Fits(aead, key, counter, messages)
    requires n <= |Stream(aead, key, counter, messages)|
    requires Flatten(chunks) == Stream(aead, key, counter, messages)[..n]
    ensures DecodesPrefix(aead, key, counter, messages, Flatten(chunks), WholeFrames(aead, key, counter, messages, n),
      Feed(Some(Reader(aead, key, counter)), [], chunks))
  {
    hide Header, FrameOf, SizeIn, GenerateIv, Process, Stream;
    ChunkingDoesNotMatter(Some(Reader(aead, key, counter)), [], chunks);
    assert [] + Flatten(chunks) == Flatten(chunks);
    PrefixDecodes(aead, key, counter, messages, n);
  }

  /**
   * Messages sent as a stream and received in arbitrary chunks come back in order, the n-th under nonce n on both
   * sides, with nothing left over.
   */
  lemma RoundTrip(aead: Aead, key: Bytes, counter: nat, messages: seq<Bytes>, chunks: seq<Bytes>)
    requires aead.Lawful() && Fits(aead, key, counter, messages)
    requires Flatten(chunks) == Stream(aead, key, counter, messages)
    ensures Feed(Some(Reader(aead, key, counter)), [], chunks)
      == Processed(messages, [], Some(Reader(aead, key, counter + |messages|)), true)
  {
    hide Header, FrameOf, SizeIn, GenerateIv, Process, Stream;
    var stream := Stream(aead, key, counter, messages);
    assert stream[..|stream|] == stream;
    PartialRoundTrip(aead, key, counter, messages, chunks, |stream|);
    AllFramesWhole(aead, key, counter, messages);
    assert messages[..|messages|] == messages;
    var rest := Feed(Some(Reader(aead, key, counter)), [], chunks).rest;
    assert |stream + rest| == |stream|;
  }

  // ---- Before the transport, and after a bad frame --------------------------------------------------

  function PlainStream(messages: seq<Bytes>): Bytes {
    if messages == [] then [] else FrameOf(messages[0]) + PlainStream(messages[1..])
  }

  lemma {:induction false} PlainDecodes(messages: seq<Bytes>)
    requires forall m :: m in messages ==> |m| < TWO_TO_24
    ensures Process(None, PlainStream(messages)) == Processed(messages, [], None, true)
  {
    hide FrameOf, FirstFrame, AfterFirst, Incomplete;
    if messages == [] {
      TooShort([]);
    } else {
      assert messages[0] in messages;
      PlainDecodes(messages[1..]);
      FrontFrame(messages[0], PlainStream(messages[1..]));
      assert [messages[0]] + messages[1..] == messages;
    }
  }

  lemma TooShort(buffer: Bytes)
    ensures |buffer| < 3 ==> Incomplete(buffer)
  {
  }

  /** Before there is a transport frames are delivered as they were sent, however the stream is cut. */
  lemma PlainRoundTrip(messages: seq<Bytes>, chunks: seq<Bytes>)
    requires forall m :: m in messages ==> |m| < TWO_TO_24
    requires Flatten(chunks) == PlainStream(messages)
    ensures Feed(None, [], chunks) == Processed(messages, [], None, true)
  {
    hide Process, PlainStream;
    ChunkingDoesNotMatter(None, [], chunks);
    assert [] + Flatten(chunks) == Flatten(chunks);
    PlainDecodes(messages);
  }

  /**
   * A frame that fails to open is taken off the buffer and uses up its nonce; what was delivered before it stays
   * delivered, and nothing behind it is looked at.
   */
  lemma BadFrameStops(aead: Aead, key: Bytes, counter: nat, messages: seq<Bytes>, bad: Bytes, tail: Bytes)
    requires aead.Lawful() && Fits(aead, key, counter, messages) && |bad| < TWO_TO_24
    requires aead.unseal(key, GenerateIv(counter + |messages|), bad) == None
    ensures Process(Some(Reader(aead, key, counter)), Stream(aead, key, counter, messages) + (FrameOf(bad) + tail))
      == Processed(messages, tail, Some(Reader(aead, key, counter + |messages| + 1)), false)
    decreases |messages|
  {
    hide FrameOf, FirstFrame, AfterFirst, Incomplete, GenerateIv;
    if messages == [] {
      FrontFrame(bad, tail);
      assert Stream(aead, key, counter, messages) + (FrameOf(bad) + tail) == FrameOf(bad) + tail;
    } else {
      FitsTail(aead, key, counter, messages);
      var payload := aead.seal(key, GenerateIv(counter), messages[0]);
      var rest := Stream(aead, key, counter + 1, messages[1..]) + (FrameOf(bad) + tail);
      BadFrameStops(aead, key, counter + 1, messages[1..], bad, tail);
      FrontFrame(payload, rest);
      assert Stream(aead, key, counter, messages) + (FrameOf(bad) + tail) == FrameOf(payload) + rest;
      assert [messages[0]] + messages[1..] == messages;
    }
  }

  /** Eight zero bytes in front of the big-endian value of the counter's low 32 bits. */
  lemma IvLayout(counter: nat)
    ensures forall i :: 0 <= i < 8 ==> GenerateIv(counter)[i] == 0
    ensures var iv := GenerateIv(counter);
      var a: int, b: int, c: int, d: int := iv[8], iv[9], iv[10], iv[11];
      TWO_TO_24 * a + 0x1_0000 * b + 256 * c + d == counter % TWO_TO_32
  {
    ValueOf(counter);
  }

  /** The 24-bit length limit is exact: a payload is the first frame read back if and only if it is below it. */
  lemma FrameReadBack(payload: Bytes)
    ensures !Incomplete(FrameOf(payload))
    ensures FirstFrame(FrameOf(payload)) == payload <==> |payload| < TWO_TO_24
  {
    HeaderRoundTrip(|payload|, payload);
  }
}
