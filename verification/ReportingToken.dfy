/** The reporting-token filter: a protobuf wire parser that keeps configured fields and sorts them. */
module ReportingToken {
  import opened Common

  // ---- Varints --------------------------------------------------------------------------------------

  const TWO_TO_32: nat := 0x1_0000_0000

  datatype Varint = Varint(value: nat, read: nat)

  /** Reads a varint of which `k` bytes have been taken; a sixth byte that asks for a seventh is refused. */
  function ReadVarint(d: Bytes, k: nat): Option<Varint> {
    if d == [] then None
    else if d[0] < 128 then Some(Varint(d[0], 1))
    else if k >= 5 then None
    else
      var rest :- ReadVarint(d[1..], k + 1);
      Some(Varint(d[0] - 128 + 128 * rest.value, rest.read + 1))
  }

  /** The shortest encoding of a number. */
  function WriteVarint(v: nat): (r: Bytes)
    ensures |r| >= 1
  {
    if v <= 127 then [v] else [v % 128 + 128] + WriteVarint(v / 128)
  }

  function Pow128(n: nat): nat {
    if n == 0 then 1 else 128 * Pow128(n - 1)
  }

  /** What a whole read gives when `value` and `read` bytes are behind and `rest` is the outcome ahead. */
  function Resume(value: nat, scale: nat, read: nat, rest: Option<Varint>): Option<Varint> {
    if rest.None? then None else Some(Varint(value + scale * rest.value.value, read + rest.value.read))
  }

  lemma Distribute(scale: nat, low: nat, high: nat)
    ensures scale * (low + 128 * high) == scale * low + (128 * scale) * high
  {
  }

  lemma ReadStep(d: Bytes, k: nat, value: nat, scale: nat, read: nat)
    requires d != []
    ensures Resume(value, scale, read, ReadVarint(d, k))
      == if d[0] < 128 then Some(Varint(value + scale * (d[0] % 128), read + 1))
         else if k >= 5 then None
         else Resume(value + scale * (d[0] % 128), 128 * scale, read + 1, ReadVarint(d[1..], k + 1))
  {
    var rest := ReadVarint(d[1..], k + 1);
    if d[0] >= 128 && k < 5 && rest.Some? {
      Distribute(scale, d[0] - 128, rest.value.value);
    }
  }

  lemma ReadEdges(k: nat, value: nat, scale: nat, read: nat, ahead: Option<Varint>)
    ensures ReadVarint([], k) == None
    ensures Resume(value, scale, read, None) == None && Resume(0, 1, 0, ahead) == ahead
  {
  }

  /** The remaining bits are shifted left by seven for every byte already read. */
  method DecodeVarint(buffer: Bytes, offset: nat) returns (value: nat, read: nat, ok: bool)
    requires offset <= |buffer|
    ensures ok ==> ReadVarint(buffer[offset..], 0) == Some(Varint(value, read))
    ensures !ok ==> ReadVarint(buffer[offset..], 0) == None
  {
    hide ReadVarint, Resume;
    value, read := 0, 0;
    var shift: nat, scale: nat := 0, 1;
    ghost var whole := ReadVarint(buffer[offset..], 0);
    ReadEdges(0, 0, 1, 0, whole);
    while offset + read < |buffer|
      invariant offset + read <= |buffer| && shift == 7 * read <= 35 && scale == Pow128(read)
      invariant whole == Resume(value, scale, read, ReadVarint(buffer[offset + read..], read))
      decreases |buffer| - offset - read
    {
      var current := buffer[offset + read];
      ghost var ahead := buffer[offset + read..];
      ReadStep(ahead, read, value, scale, read);
      assert ahead[1..] == buffer[offset + read + 1..];
      value := value + scale * (current % 128);
      read := read + 1;
      if current < 128 {
        return value, read, true;
      }
      shift, scale := shift + 7, 128 * scale;
      if shift > 35 {
        return 0, 0, false;
      }
    }
    assert buffer[offset + read..] == [];
    ReadEdges(read, value, scale, read, None);
    return 0, 0, false;
  }

  /** Only the low 32 bits are encoded. */
  method EncodeVarint(value: nat) returns (r: Bytes)
    ensures r == WriteVarint(value % TWO_TO_32)
  {
    var remaining: nat := value % TWO_TO_32;
    r := [];
    while remaining > 127
      invariant r + WriteVarint(remaining) == WriteVarint(value % TWO_TO_32)
    {
      r := r + [remaining % 128 + 128];
      remaining := remaining / 128;
    }
    r := r + [remaining];
  }

  lemma {:induction false} WriteThenRead(v: nat, k: nat, tail: Bytes)
    requires k <= 5 && v < Pow128(6 - k)
    ensures ReadVarint(WriteVarint(v) + tail, k) == Some(Varint(v, |WriteVarint(v)|))
    decreases v
  {
    if v > 127 {
      assert Pow128(6 - k) == 128 * Pow128(5 - k);
      WriteThenRead(v / 128, k + 1, tail);
      assert (WriteVarint(v) + tail)[0] == v % 128 + 128;
      assert (WriteVarint(v) + tail)[1..] == WriteVarint(v / 128) + tail;
    }
  }

  /** Encoding a 32-bit number and reading it back, whatever follows, gives the number and its length. */
  lemma VarintRoundTrip(v: nat, tail: Bytes)
    requires v < TWO_TO_32
    ensures ReadVarint(WriteVarint(v) + tail, 0) == Some(Varint(v, |WriteVarint(v)|))
  {
    assert Pow128(3) == 2097152;
    assert Pow128(6) == 128 * (128 * (128 * Pow128(3)));
    WriteThenRead(v, 0, tail);
  }

  /** Reading looks at the bytes it consumes and at nothing behind them. */
  lemma {:induction false} ReadIsLocal(d: Bytes, k: nat, tail: Bytes)
    requires ReadVarint(d, k).Some?
    ensures var v := ReadVarint(d, k).value;
      1 <= v.read <= |d| && ReadVarint(d[..v.read] + tail, k) == Some(v)
  {
    if d[0] >= 128 {
      ReadIsLocal(d[1..], k + 1, tail);
      var v := ReadVarint(d, k).value;
      assert (d[..v.read] + tail)[1..] == d[1..][..v.read - 1] + tail;
    }
  }

  /** No encoding of a number is shorter than the one written here. */
  lemma {:induction false} WriteIsShortest(d: Bytes, k: nat, w: nat)
    requires ReadVarint(d, k).Some? && w <= ReadVarint(d, k).value.value
    ensures |WriteVarint(w)| <= ReadVarint(d, k).value.read
  {
    if d[0] >= 128 && w > 127 {
      WriteIsShortest(d[1..], k + 1, w / 128);
    } else if d[0] >= 128 {
      ReadIsLocal(d[1..], k + 1, []);
    }
  }

  // ---- Configuration --------------------------------------------------------------------------------

  datatype ReportingField = ReportingField(f: nat, m: bool, s: seq<ReportingField>)

  datatype Config = Config(fields: map<nat, Node>)

  datatype Node = Node(m: bool, children: Config)

  function Compile(fields: seq<ReportingField>): Config {
    if fields == [] then Config(map[])
    else
      var last := fields[|fields| - 1];
      Config(Compile(fields[..|fields| - 1]).fields[last.f := Node(last.m, Compile(last.s))])
  }

  /** Protobuf field numbers are below 2^29, so that a tag fits in 32 bits. */
  const FIELD_LIMIT: nat := 0x2000_0000

  ghost predicate Small(cfg: Config) {
    forall f :: f in cfg.fields ==> f < FIELD_LIMIT && Small(cfg.fields[f].children)
  }

  ghost predicate SmallFields(fields: seq<ReportingField>) {
    forall x :: x in fields ==> x.f < FIELD_LIMIT && SmallFields(x.s)
  }

  lemma {:induction false} CompileSmall(fields: seq<ReportingField>)
    requires SmallFields(fields)
    ensures Small(Compile(fields))
  {
    if fields != [] {
      var last := fields[|fields| - 1];
      assert last in fields;
      CompileSmall(fields[..|fields| - 1]);
      CompileSmall(last.s);
    }
  }

  // ---- Records --------------------------------------------------------------------------------------

  const WIRE_VARINT: nat := 0
  const WIRE_FIXED64: nat := 1
  const WIRE_BYTES: nat := 2
  const WIRE_FIXED32: nat := 5

  /** One field on the wire: where its payload begins and where it ends, counted from its first byte. */
  datatype Record = Record(field: nat, wire: nat, tag: nat, payload: nat, size: nat)

  function ParseRecord(d: Bytes): Option<Record> {
    var tag :- ReadVarint(d, 0);
    RecordAfterTag(|d|, tag, ReadVarint(Drop(d, tag.read), 0))
  }

  /** `next` is the varint behind the tag, which two of the four wire types read. */
  function RecordAfterTag(available: nat, tag: Varint, next: Option<Varint>): Option<Record> {
    var field, wire := tag.value / 8, tag.value % 8;
    if wire == WIRE_VARINT then
      if next.None? then None else Some(Record(field, wire, tag.value, tag.read, tag.read + next.value.read))
    else if wire == WIRE_FIXED64 then
      if tag.read + 8 > available then None else Some(Record(field, wire, tag.value, tag.read, tag.read + 8))
    else if wire == WIRE_FIXED32 then
      if tag.read + 4 > available then None else Some(Record(field, wire, tag.value, tag.read, tag.read + 4))
    else if wire == WIRE_BYTES then
      if next.None? then None else
      var start := tag.read + next.value.read;
      if start + next.value.value > available then None
      else Some(Record(field, wire, tag.value, start, start + next.value.value))
    else None
  }

  function Drop(d: Bytes, n: nat): Bytes {
    if n <= |d| then d[n..] else []
  }

  lemma Recut(d: Bytes, a: nat, n: nat, c: nat, tail: Bytes)
    requires a + n <= c <= |d|
    ensures d[..c] + tail == d[..a] + (d[a..][..n] + (d[a + n..c] + tail))
    ensures Drop(d[..c] + tail, a) == d[a..][..n] + (d[a + n..c] + tail)
  {
  }

  lemma TagIsLocal(d: Bytes, c: nat, tail: Bytes)
    requires ReadVarint(d, 0).Some? && ReadVarint(d, 0).value.read <= c <= |d|
    ensures ReadVarint(d[..c] + tail, 0) == ReadVarint(d, 0)
  {
    var n := ReadVarint(d, 0).value.read;
    Recut(d, n, 0, c, tail);
    ReadIsLocal(d, 0, d[n..][..0] + (d[n..c] + tail));
  }

  lemma LengthIsLocal(d: Bytes, a: nat, c: nat, tail: Bytes)
    requires a <= |d| && ReadVarint(d[a..], 0).Some? && a + ReadVarint(d[a..], 0).value.read <= c <= |d|
    ensures ReadVarint(Drop(d[..c] + tail, a), 0) == ReadVarint(d[a..], 0)
  {
    var n := ReadVarint(d[a..], 0).value.read;
    Recut(d, a, n, c, tail);
    ReadIsLocal(d[a..], 0, d[a + n..c] + tail);
  }

  /** A parsed record lies inside its input. */
  lemma RecordFits(d: Bytes)
    requires ParseRecord(d).Some?
    ensures var r := ParseRecord(d).value; 1 <= r.payload <= r.size <= |d|
  {
    ReadIsLocal(d, 0, []);
    var tag := ReadVarint(d, 0).value;
    if ReadVarint(d[tag.read..], 0).Some? {
      ReadIsLocal(d[tag.read..], 0, []);
    }
  }

  /** A record parses the same in front of any other bytes. */
  lemma ParseIsLocal(d: Bytes, tail: Bytes)
    requires ParseRecord(d).Some?
    ensures ParseRecord(d).value.size <= |d|
    ensures ParseRecord(d[..ParseRecord(d).value.size] + tail) == ParseRecord(d)
  {
    RecordFits(d);
    ReadIsLocal(d, 0, []);
    var r, tag := ParseRecord(d).value, ReadVarint(d, 0).value;
    TagIsLocal(d, r.size, tail);
    if r.wire == WIRE_VARINT || r.wire == WIRE_BYTES {
      LengthIsLocal(d, tag.read, r.size, tail);
    }
  }

  // ---- Extraction -----------------------------------------------------------------------------------

  datatype Chunk = Chunk(field: nat, bytes: Bytes)

  /** Inserted in front of the first chunk whose field is not smaller. */
  function Insert(c: Chunk, s: seq<Chunk>): seq<Chunk> {
    if s == [] then [c]
    else if s[0].field < c.field then [s[0]] + Insert(c, s[1..])
    else [c] + s
  }

  /** The stable sort by field number. */
  function Sort(s: seq<Chunk>): seq<Chunk> {
    if s == [] then [] else Insert(s[0], Sort(s[1..]))
  }

  function Join(s: seq<Chunk>): Bytes {
    if s == [] then [] else s[0].bytes + Join(s[1..])
  }

  /** Nothing is appended for an empty piece. */
  function Own(field: nat, piece: Bytes): seq<Chunk> {
    if piece == [] then [] else [Chunk(field, piece)]
  }

  function Prepend(a: seq<Chunk>, b: Option<seq<Chunk>>): Option<seq<Chunk>> {
    if b.None? then None else Some(a + b.value)
  }

  function Nested(node: Node): bool { node.m || node.children.fields != map[] }

  function Wrap(tag: nat, sub: Bytes): Bytes {
    if sub == [] then [] else WriteVarint(tag % TWO_TO_32) + WriteVarint(|sub| % TWO_TO_32) + sub
  }

  /** What one record contributes: nothing when unconfigured, itself when a leaf, its own extraction when nested. */
  function Piece(d: Bytes, cfg: Config): Option<Bytes>
    requires ParseRecord(d).Some?
    decreases |d|, 0
  {
    RecordFits(d);
    var r := ParseRecord(d).value;
    if r.field !in cfg.fields then Some([]) else
    var node := cfg.fields[r.field];
    if r.wire == WIRE_BYTES && Nested(node) then
      var sub :- Extract(d[r.payload..r.size], node.children);
      Some(Wrap(r.tag, sub))
    else Some(d[..r.size])
  }

  function Pieces(d: Bytes, cfg: Config): Option<seq<Chunk>>
    decreases |d|, 1
  {
    if d == [] then Some([])
    else
      var r :- ParseRecord(d);
      RecordFits(d);
      var piece :- Piece(d, cfg);
      Prepend(Own(r.field, piece), Pieces(d[r.size..], cfg))
  }

  function Extract(d: Bytes, cfg: Config): Option<Bytes>
    decreases |d|, 2
  {
    var ps :- Pieces(d, cfg);
    Some(Join(Sort(ps)))
  }

  /** The part of the loop body that finds where the field at `idx` ends. */
  method ParseField(data: Bytes, idx: nat) returns (r: Option<Record>)
    requires idx < |data|
    ensures r == ParseRecord(data[idx..])
  {
    hide ReadVarint;
    ghost var here := data[idx..];
    var tag, tagBytes, ok := DecodeVarint(data, idx);
    if !ok {
      return None;
    }
    ReadIsLocal(here, 0, []);
    var pos := idx + tagBytes;
    assert Drop(here, tagBytes) == data[pos..];
    var wire := tag % 8;
    var valStart, end := pos, pos;
    if wire == WIRE_VARINT {
      var _, n, ok2 := DecodeVarint(data, pos);
      if !ok2 {
        return None;
      }
      ReadIsLocal(data[pos..], 0, []);
      end := pos + n;
    } else if wire == WIRE_FIXED64 {
      end := pos + 8;
    } else if wire == WIRE_FIXED32 {
      end := pos + 4;
    } else if wire == WIRE_BYTES {
      var length, n, ok2 := DecodeVarint(data, pos);
      if !ok2 {
        return None;
      }
      valStart := pos + n;
      end := valStart + length;
    } else {
      return None;
    }
    if end > |data| {
      return None;
    }
    r := Some(Record(tag / 8, wire, tag, valStart - idx, end - idx));
  }

  lemma PrependTwice(a: seq<Chunk>, b: seq<Chunk>, c: Option<seq<Chunk>>)
    ensures Prepend(a, Prepend(b, c)) == Prepend(a + b, c)
  {
    if c.Some? {
      assert a + (b + c.value) == (a + b) + c.value;
    }
  }

  /** One turn of the parser's loop. */
  lemma PiecesStep(d: Bytes, cfg: Config, out: seq<Chunk>)
    requires d != []
    ensures ParseRecord(d).None? ==> Pieces(d, cfg).None?
    ensures ParseRecord(d).Some? ==> 1 <= ParseRecord(d).value.size <= |d|
    ensures ParseRecord(d).Some? && Piece(d, cfg).None? ==> Pieces(d, cfg).None?
    ensures ParseRecord(d).Some? && Piece(d, cfg).Some? ==>
      var r := ParseRecord(d).value;
      Prepend(out, Pieces(d, cfg)) == Prepend(out + Own(r.field, Piece(d, cfg).value), Pieces(d[r.size..], cfg))
  {
    if ParseRecord(d).Some? {
      RecordFits(d);
      var r := ParseRecord(d).value;
      if Piece(d, cfg).Some? {
        PrependTwice(out, Own(r.field, Piece(d, cfg).value), Pieces(d[r.size..], cfg));
      }
    }
  }

  /** What the loop body appends for the field at `idx`; nested fields recurse. */
  method TakePiece(data: Bytes, idx: nat, r: Record, cfg: Config) returns (piece: Option<Bytes>)
    requires idx <= |data| && ParseRecord(data[idx..]) == Some(r)
    ensures piece == Piece(data[idx..], cfg)
    decreases |data| - idx, 0
  {
    ghost var here := data[idx..];
    RecordFits(here);
    if r.field !in cfg.fields {
      return Some([]);
    }
    var node := cfg.fields[r.field];
    if r.wire == WIRE_BYTES && Nested(node) {
      assert here[r.payload..r.size] == data[idx + r.payload..idx + r.size];
      var sub := ExtractReportingTokenContent(data[idx + r.payload..idx + r.size], node.children);
      if sub.None? {
        return None;
      }
      if |sub.value| == 0 {
        return Some([]);
      }
      var newTag := EncodeVarint(r.tag);
      var newLen := EncodeVarint(|sub.value|);
      return Some(newTag + newLen + sub.value);
    }
    assert here[..r.size] == data[idx..idx + r.size];
    return Some(data[idx..idx + r.size]);
  }

  /** The parser itself: one pass over the data, appending to `out`, then a stable sort. */
  method ExtractReportingTokenContent(data: Bytes, cfg: Config) returns (r: Option<Bytes>)
    ensures r == Extract(data, cfg)
    decreases |data|, 2
  {
    var out := CollectPieces(data, cfg);
    if out.None? {
      return None;
    }
    r := Some(Join(Sort(out.value)));
  }

  method CollectPieces(data: Bytes, cfg: Config) returns (r: Option<seq<Chunk>>)
    ensures r == Pieces(data, cfg)
    decreases |data|, 1
  {
    hide ReadVarint, ParseRecord, Piece, Extract, Sort, Join;
    var out: seq<Chunk> := [];
    var idx := 0;
    ghost var rest, ahead := data, Pieces(data, cfg);
    PrependNothing(ahead);
    while idx < |data|
      invariant idx <= |data| && rest == data[idx..] && ahead == Pieces(rest, cfg)
      invariant Pieces(data, cfg) == Prepend(out, ahead)
    {
      PiecesStep(rest, cfg, out);
      var parsed := ParseField(data, idx);
      if parsed.None? {
        return None;
      }
      var piece := TakePiece(data, idx, parsed.value, cfg);
      if piece.None? {
        return None;
      }
      out := out + Own(parsed.value.field, piece.value);
      idx := idx + parsed.value.size;
      rest := rest[parsed.value.size..];
      ahead := Pieces(rest, cfg);
    }
    r := Some(out);
    assert out + [] == out;
  }

  lemma PrependNothing(s: Option<seq<Chunk>>)
    ensures Prepend([], s) == s
  {
    if s.Some? {
      assert [] + s.value == s.value;
    }
  }
}
