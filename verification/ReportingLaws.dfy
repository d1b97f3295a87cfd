/** What the reporting-token filter promises: a bounded normal form that ignores order and unknown fields. */
module ReportingLaws {
  import opened Common
  import opened ReportingToken

  // ---- Records and concatenation --------------------------------------------------------------------

  lemma PieceIsLocal(d: Bytes, tail: Bytes, cfg: Config)
    requires ParseRecord(d).Some?
    ensures var r := ParseRecord(d).value;
      && r.size <= |d|
      && ParseRecord(d[..r.size] + tail) == Some(r)
      && Piece(d[..r.size] + tail, cfg) == Piece(d, cfg)
  {
    RecordFits(d);
    ParseIsLocal(d, tail);
    var r := ParseRecord(d).value;
    assert (d[..r.size] + tail)[..r.size] == d[..r.size];
    assert (d[..r.size] + tail)[r.payload..r.size] == d[r.payload..r.size];
  }

  /** Data that parses keeps its pieces when more data follows. */
  lemma {:induction false} PiecesAppend(a: Bytes, b: Bytes, cfg: Config)
    requires Pieces(a, cfg).Some?
    ensures Pieces(a + b, cfg) == Prepend(Pieces(a, cfg).value, Pieces(b, cfg))
    decreases |a|
  {
    hide ParseRecord, Piece, Own;
    if a == [] {
      assert a + b == b;
      if Pieces(b, cfg).Some? {
        assert [] + Pieces(b, cfg).value == Pieces(b, cfg).value;
      }
    } else {
      RecordFits(a);
      var r := ParseRecord(a).value;
      var tail := a[r.size..] + b;
      assert a + b == a[..r.size] + tail;
      PieceIsLocal(a, tail, cfg);
      assert (a + b)[r.size..] == tail;
      PiecesAppend(a[r.size..], b, cfg);
      PrependTwice(Own(r.field, Piece(a, cfg).value), Pieces(a[r.size..], cfg).value, Pieces(b, cfg));
    }
  }

  // ---- Size -----------------------------------------------------------------------------------------

  function TotalSize(s: seq<Chunk>): nat {
    if s == [] then 0 else |s[0].bytes| + TotalSize(s[1..])
  }

  lemma {:induction false} InsertSize(c: Chunk, s: seq<Chunk>)
    ensures TotalSize(Insert(c, s)) == |c.bytes| + TotalSize(s)
  {
    if s != [] && s[0].field < c.field {
      InsertSize(c, s[1..]);
      assert Insert(c, s)[1..] == Insert(c, s[1..]);
    }
  }

  lemma {:induction false} SortSize(s: seq<Chunk>)
    ensures TotalSize(Sort(s)) == TotalSize(s)
  {
    if s != [] {
      SortSize(s[1..]);
      InsertSize(s[0], Sort(s[1..]));
    }
  }

  lemma {:induction false} JoinSize(s: seq<Chunk>)
    ensures |Join(s)| == TotalSize(s)
  {
    if s != [] {
      JoinSize(s[1..]);
    }
  }

  /** A nested field written again is never longer than it was: both varints are the shortest possible. */
  lemma WrapFits(d: Bytes, sub: Bytes)
    requires ParseRecord(d).Some? && ParseRecord(d).value.wire == WIRE_BYTES
    requires |sub| <= ParseRecord(d).value.size - ParseRecord(d).value.payload
    ensures |Wrap(ParseRecord(d).value.tag, sub)| <= ParseRecord(d).value.size
  {
    var r, tag := ParseRecord(d).value, ReadVarint(d, 0).value;
    ReadIsLocal(d, 0, []);
    WriteIsShortest(d, 0, r.tag % TWO_TO_32);
    WriteIsShortest(d[tag.read..], 0, |sub| % TWO_TO_32);
  }

  lemma {:induction false} PieceFits(d: Bytes, cfg: Config)
    requires ParseRecord(d).Some? && Piece(d, cfg).Some?
    ensures |Piece(d, cfg).value| <= ParseRecord(d).value.size <= |d|
    decreases |d|, 0
  {
    RecordFits(d);
    var r := ParseRecord(d).value;
    if r.field in cfg.fields && r.wire == WIRE_BYTES && Nested(cfg.fields[r.field]) {
      var sub := Extract(d[r.payload..r.size], cfg.fields[r.field].children).value;
      ExtractFits(d[r.payload..r.size], cfg.fields[r.field].children);
      WrapFits(d, sub);
    }
  }

  lemma {:induction false} PiecesFit(d: Bytes, cfg: Config)
    requires Pieces(d, cfg).Some?
    ensures TotalSize(Pieces(d, cfg).value) <= |d|
    decreases |d|, 1
  {
    if d != [] {
      RecordFits(d);
      var r := ParseRecord(d).value;
      var own := Own(r.field, Piece(d, cfg).value);
      PieceFits(d, cfg);
      PiecesFit(d[r.size..], cfg);
      assert own != [] ==> (own + Pieces(d[r.size..], cfg).value)[1..] == Pieces(d[r.size..], cfg).value;
      assert own == [] ==> own + Pieces(d[r.size..], cfg).value == Pieces(d[r.size..], cfg).value;
    }
  }

  /** The output is never longer than the input. */
  lemma {:induction false} ExtractFits(d: Bytes, cfg: Config)
    requires Extract(d, cfg).Some?
    ensures |Extract(d, cfg).value| <= |d|
    decreases |d|, 2
  {
    PiecesFit(d, cfg);
    SortSize(Pieces(d, cfg).value);
    JoinSize(Sort(Pieces(d, cfg).value));
  }

  // ---- The stable sort ------------------------------------------------------------------------------

  function OfField(s: seq<Chunk>, f: nat): seq<Chunk> {
    if s == [] then []
    else if s[0].field == f then [s[0]] + OfField(s[1..], f)
    else OfField(s[1..], f)
  }

  ghost predicate Sorted(s: seq<Chunk>) {
    forall i, j :: 0 <= i < j < |s| ==> s[i].field <= s[j].field
  }

  lemma OfFieldFirst(c: Chunk, s: seq<Chunk>, f: nat)
    ensures OfField([c] + s, f) == (if c.field == f then [c] else []) + OfField(s, f)
  {
    assert ([c] + s)[1..] == s;
  }

  lemma {:induction false} InsertOfField(c: Chunk, s: seq<Chunk>, f: nat)
    ensures OfField(Insert(c, s), f) == (if c.field == f then [c] else []) + OfField(s, f)
  {
    hide OfField;
    if s != [] && s[0].field < c.field {
      assert s == [s[0]] + s[1..] && Insert(c, s) == [s[0]] + Insert(c, s[1..]);
      InsertOfField(c, s[1..], f);
      OfFieldFirst(s[0], s[1..], f);
      OfFieldFirst(s[0], Insert(c, s[1..]), f);
    } else {
      assert Insert(c, s) == [c] + s;
      OfFieldFirst(c, s, f);
    }
  }

  /** Sorting keeps the order inside each field. */
  lemma {:induction false} SortIsStable(s: seq<Chunk>, f: nat)
    ensures OfField(Sort(s), f) == OfField(s, f)
  {
    if s != [] {
      SortIsStable(s[1..], f);
      InsertOfField(s[0], Sort(s[1..]), f);
    }
  }

  lemma {:induction false} InsertSorted(c: Chunk, s: seq<Chunk>)
    requires Sorted(s)
    ensures Sorted(Insert(c, s))
    ensures forall x :: x in Insert(c, s) <==> x == c || x in s
  {
    if s != [] && s[0].field < c.field {
      InsertSorted(c, s[1..]);
      assert forall x :: x in s <==> x == s[0] || x in s[1..];
      assert forall x :: x in Insert(c, s[1..]) ==> s[0].field <= x.field;
    }
  }

  lemma {:induction false} SortSorts(s: seq<Chunk>)
    ensures Sorted(Sort(s))
    ensures forall x :: x in Sort(s) <==> x in s
  {
    if s != [] {
      SortSorts(s[1..]);
      InsertSorted(s[0], Sort(s[1..]));
    }
  }

  lemma {:induction false} NoneOfField(s: seq<Chunk>, f: nat)
    requires forall x :: x in s ==> x.field != f
    ensures OfField(s, f) == []
  {
    if s != [] {
      NoneOfField(s[1..], f);
    }
  }

  lemma HeadsAgree(s: seq<Chunk>, t: seq<Chunk>)
    requires Sorted(s) && Sorted(t)
    requires forall f :: OfField(s, f) == OfField(t, f)
    ensures |s| == 0 <==> |t| == 0
    ensures s != [] && t != [] ==> s[0].field == t[0].field
  {
    if s != [] && (t == [] || s[0].field < t[0].field) {
      assert OfField(s, s[0].field)[0] == s[0];
      NoneOfField(t, s[0].field);
      assert false;
    } else if t != [] && (s == [] || t[0].field < s[0].field) {
      assert OfField(t, t[0].field)[0] == t[0];
      NoneOfField(s, t[0].field);
      assert false;
    }
  }

  /** A sorted list is determined by what it holds, in order, for each field. */
  lemma {:induction false} SortedUnique(s: seq<Chunk>, t: seq<Chunk>)
    requires Sorted(s) && Sorted(t)
    requires forall f :: OfField(s, f) == OfField(t, f)
    ensures s == t
  {
    if s == [] || t == [] {
      HeadsAgree(s, t);
    } else {
      var f := s[0].field;
      HeadsAgree(s, t);
      if f == t[0].field {
        assert OfField(s, f) == [s[0]] + OfField(s[1..], f);
        assert OfField(t, f) == [t[0]] + OfField(t[1..], f);
        assert s[0] == OfField(s, f)[0] == t[0];
        forall g
          ensures OfField(s[1..], g) == OfField(t[1..], g)
        {
          if g == f {
            assert OfField(s[1..], g) == OfField(s, g)[1..];
            assert OfField(t[1..], g) == OfField(t, g)[1..];
          } else {
            assert OfField(s[1..], g) == OfField(s, g);
            assert OfField(t[1..], g) == OfField(t, g);
          }
        }
        SortedUnique(s[1..], t[1..]);
      }
    }
  }

  lemma SortSortedIsIdentity(s: seq<Chunk>)
    requires Sorted(s)
    ensures Sort(s) == s
  {
    SortSorts(s);
    forall f
      ensures OfField(Sort(s), f) == OfField(s, f)
    {
      SortIsStable(s, f);
    }
    SortedUnique(Sort(s), s);
  }

  // ---- Idempotence ----------------------------------------------------------------------------------

  /** A chunk that parses back to itself alone. */
  ghost predicate Fixed(c: Chunk, cfg: Config) {
    c.bytes != [] && Pieces(c.bytes, cfg) == Some([c])
  }

  lemma SingleRecord(d: Bytes, cfg: Config)
    requires ParseRecord(d).Some? && ParseRecord(d).value.size == |d|
    requires Piece(d, cfg) == Some(d)
    ensures d != [] && Fixed(Chunk(ParseRecord(d).value.field, d), cfg)
  {
    assert d != [];
    assert d[|d|..] == [];
    assert Pieces([], cfg) == Some([]);
    assert [Chunk(ParseRecord(d).value.field, d)] + [] == [Chunk(ParseRecord(d).value.field, d)];
  }

  lemma TagParts(field: nat)
    ensures (8 * field + WIRE_BYTES) / 8 == field && (8 * field + WIRE_BYTES) % 8 == WIRE_BYTES
  {
  }

  lemma ParseParts(d: Bytes, tag: Varint, length: Varint)
    requires ReadVarint(d, 0) == Some(tag) && tag.read <= |d| && tag.value % 8 == WIRE_BYTES
    requires ReadVarint(d[tag.read..], 0) == Some(length) && tag.read + length.read + length.value <= |d|
    ensures ParseRecord(d) == Some(Record(tag.value / 8, WIRE_BYTES, tag.value, tag.read + length.read,
      tag.read + length.read + length.value))
  {
    hide ReadVarint;
    assert Drop(d, tag.read) == d[tag.read..];
  }

  /** A nested field written again parses as the same field around the same payload. */
  lemma ParseWrapped(field: nat, sub: Bytes)
    requires field < FIELD_LIMIT && 0 < |sub| < TWO_TO_32
    ensures var w := Wrap(8 * field + WIRE_BYTES, sub);
      var start := |w| - |sub|;
      && start >= 0
      && ParseRecord(w) == Some(Record(field, WIRE_BYTES, 8 * field + WIRE_BYTES, start, |w|))
      && w[start..] == sub
  {
    hide ReadVarint, WriteVarint;
    var tag := 8 * field + WIRE_BYTES;
    var t, l := WriteVarint(tag), WriteVarint(|sub|);
    var w := t + (l + sub);
    assert w == Wrap(tag, sub);
    VarintRoundTrip(tag, l + sub);
    VarintRoundTrip(|sub|, sub);
    TagParts(field);
    assert w[|t|..] == l + sub;
    ParseParts(w, Varint(tag, |t|), Varint(|sub|, |l|));
  }

  lemma PieceOfNested(w: Bytes, r: Record, sub: Bytes, cfg: Config)
    requires ParseRecord(w) == Some(r) && r.wire == WIRE_BYTES && r.payload <= r.size == |w| && w[r.payload..] == sub
    requires r.field in cfg.fields && Nested(cfg.fields[r.field])
    requires Extract(sub, cfg.fields[r.field].children) == Some(sub)
    ensures Piece(w, cfg) == Some(Wrap(r.tag, sub))
  {
    assert w[r.payload..r.size] == sub;
  }

  lemma WrappedFixed(field: nat, sub: Bytes, cfg: Config)
    requires field < FIELD_LIMIT && 0 < |sub| < TWO_TO_32
    requires field in cfg.fields && Nested(cfg.fields[field])
    requires Extract(sub, cfg.fields[field].children) == Some(sub)
    ensures Fixed(Chunk(field, Wrap(8 * field + WIRE_BYTES, sub)), cfg)
  {
    ParseWrapped(field, sub);
    var w := Wrap(8 * field + WIRE_BYTES, sub);
    PieceOfNested(w, ParseRecord(w).value, sub, cfg);
    SingleRecord(w, cfg);
  }

  lemma RecordTag(d: Bytes)
    requires ParseRecord(d).Some?
    ensures var r := ParseRecord(d).value; r.tag == 8 * r.field + r.wire
  {
  }

  lemma {:induction false} PieceFixed(d: Bytes, cfg: Config)
    requires |d| < TWO_TO_32 && Small(cfg)
    requires ParseRecord(d).Some? && Piece(d, cfg).Some? && Piece(d, cfg).value != []
    ensures Fixed(Chunk(ParseRecord(d).value.field, Piece(d, cfg).value), cfg)
    decreases |d|, 0
  {
    hide ParseRecord, Extract, Fixed, WriteVarint;
    RecordFits(d);
    var r := ParseRecord(d).value;
    var node := cfg.fields[r.field];
    if r.wire == WIRE_BYTES && Nested(node) {
      var inner := d[r.payload..r.size];
      var sub := Extract(inner, node.children).value;
      ExtractFits(inner, node.children);
      ExtractIdempotent(inner, node.children);
      RecordTag(d);
      WrappedFixed(r.field, sub, cfg);
    } else {
      PieceIsLocal(d, [], cfg);
      assert d[..r.size] + [] == d[..r.size];
      SingleRecord(d[..r.size], cfg);
    }
  }

  lemma {:induction false} PiecesFixed(d: Bytes, cfg: Config)
    requires |d| < TWO_TO_32 && Small(cfg) && Pieces(d, cfg).Some?
    ensures forall c :: c in Pieces(d, cfg).value ==> Fixed(c, cfg)
    decreases |d|, 1
  {
    if d != [] {
      RecordFits(d);
      if Piece(d, cfg).value != [] {
        PieceFixed(d, cfg);
      }
      PiecesFixed(d[ParseRecord(d).value.size..], cfg);
    }
  }

  lemma {:induction false} PiecesOfJoin(s: seq<Chunk>, cfg: Config)
    requires forall c :: c in s ==> Fixed(c, cfg)
    ensures Pieces(Join(s), cfg) == Some(s)
  {
    hide ParseRecord, Piece;
    if s != [] {
      assert s[0] in s;
      PiecesOfJoin(s[1..], cfg);
      PiecesAppend(s[0].bytes, Join(s[1..]), cfg);
      assert [s[0]] + s[1..] == s;
    }
  }

  /** Extracting from an extraction changes nothing. */
  lemma {:induction false} ExtractIdempotent(d: Bytes, cfg: Config)
    requires |d| < TWO_TO_32 && Small(cfg) && Extract(d, cfg).Some?
    ensures Extract(Extract(d, cfg).value, cfg) == Extract(d, cfg)
    decreases |d|, 2
  {
    var ps := Pieces(d, cfg).value;
    PiecesFixed(d, cfg);
    SortSorts(ps);
    PiecesOfJoin(Sort(ps), cfg);
    SortSortedIsIdentity(Sort(ps));
  }

  // ---- Order and unknown fields ---------------------------------------------------------------------

  /** One well-formed record and nothing else. */
  predicate IsRecord(b: Bytes) {
    ParseRecord(b).Some? && ParseRecord(b).value.size == |b|
  }

  ghost predicate AllRecords(rs: seq<Bytes>) {
    forall i :: 0 <= i < |rs| ==> IsRecord(rs[i])
  }

  function FieldOf(b: Bytes): nat {
    if ParseRecord(b).Some? then ParseRecord(b).value.field else 0
  }

  /** The records of one field, in order. */
  function RecordsOf(rs: seq<Bytes>, f: nat): seq<Bytes> {
    if rs == [] then []
    else if FieldOf(rs[0]) == f then [rs[0]] + RecordsOf(rs[1..], f)
    else RecordsOf(rs[1..], f)
  }

  /** What a list of records contributes. */
  ghost function PiecesOfRecords(rs: seq<Bytes>, cfg: Config): Option<seq<Chunk>>
    requires AllRecords(rs)
  {
    if rs == [] then Some([])
    else
      var piece :- Piece(rs[0], cfg);
      Prepend(Own(FieldOf(rs[0]), piece), PiecesOfRecords(rs[1..], cfg))
  }

  lemma {:induction false} PiecesOfFlatten(rs: seq<Bytes>, cfg: Config)
    requires AllRecords(rs)
    ensures Pieces(Flatten(rs), cfg) == PiecesOfRecords(rs, cfg)
  {
    hide ReadVarint, ParseRecord, Piece;
    if rs != [] {
      var b, tail := rs[0], Flatten(rs[1..]);
      RecordFits(b);
      PieceIsLocal(b, tail, cfg);
      assert b[..|b|] + tail == Flatten(rs);
      assert Flatten(rs)[|b|..] == tail;
      PiecesOfFlatten(rs[1..], cfg);
    }
  }

  ghost predicate AllYield(rs: seq<Bytes>, cfg: Config)
    requires AllRecords(rs)
  {
    forall i :: 0 <= i < |rs| ==> Piece(rs[i], cfg).Some?
  }

  lemma {:induction false} YieldIffAll(rs: seq<Bytes>, cfg: Config)
    requires AllRecords(rs)
    ensures PiecesOfRecords(rs, cfg).Some? <==> AllYield(rs, cfg)
  {
    if rs != [] {
      YieldIffAll(rs[1..], cfg);
      if AllYield(rs[1..], cfg) && Piece(rs[0], cfg).Some? {
        forall i | 0 <= i < |rs|
          ensures Piece(rs[i], cfg).Some?
        {
          assert i > 0 ==> rs[i] == rs[1..][i - 1];
        }
      }
    }
  }

  lemma {:induction false} RecordsOfMembers(rs: seq<Bytes>, f: nat, b: Bytes)
    ensures b in RecordsOf(rs, f) <==> b in rs && FieldOf(b) == f
  {
    if rs != [] {
      RecordsOfMembers(rs[1..], f, b);
    }
  }

  /** The chunks of one field come from the records of that field. */
  lemma {:induction false} ChunksOfField(rs: seq<Bytes>, cfg: Config, f: nat)
    requires AllRecords(rs)
    requires PiecesOfRecords(rs, cfg).Some?
    ensures AllRecords(RecordsOf(rs, f))
    ensures PiecesOfRecords(RecordsOf(rs, f), cfg).Some?
    ensures OfField(PiecesOfRecords(rs, cfg).value, f) == PiecesOfRecords(RecordsOf(rs, f), cfg).value
  {
    forall i | 0 <= i < |RecordsOf(rs, f)|
      ensures IsRecord(RecordsOf(rs, f)[i])
    {
      RecordsOfMembers(rs, f, RecordsOf(rs, f)[i]);
    }
    if rs != [] {
      ChunksOfField(rs[1..], cfg, f);
      var own, rest := Own(FieldOf(rs[0]), Piece(rs[0], cfg).value), PiecesOfRecords(rs[1..], cfg).value;
      assert own != [] ==> (own + rest)[0] == own[0] && (own + rest)[1..] == rest;
      assert own == [] ==> own + rest == rest;
      if FieldOf(rs[0]) == f {
        assert RecordsOf(rs, f)[0] == rs[0] && RecordsOf(rs, f)[1..] == RecordsOf(rs[1..], f);
        if own == [] {
          assert own + PiecesOfRecords(RecordsOf(rs[1..], f), cfg).value == PiecesOfRecords(RecordsOf(rs[1..], f), cfg).value;
        }
      }
    }
  }

  lemma {:induction false} UnknownYieldsNothing(rs: seq<Bytes>, cfg: Config, f: nat)
    requires AllRecords(rs) && forall i :: 0 <= i < |rs| ==> FieldOf(rs[i]) == f
    requires f !in cfg.fields
    ensures PiecesOfRecords(rs, cfg) == Some([])
  {
    if rs != [] {
      assert FieldOf(rs[0]) == f && IsRecord(rs[0]);
      assert Piece(rs[0], cfg) == Some([]);
      UnknownYieldsNothing(rs[1..], cfg, f);
      PrependNothing(Some([]));
    }
  }

  lemma SameYield(rs: seq<Bytes>, ts: seq<Bytes>, cfg: Config)
    requires AllRecords(rs)
    requires AllRecords(ts)
    requires forall f :: f in cfg.fields ==> RecordsOf(rs, f) == RecordsOf(ts, f)
    requires AllYield(rs, cfg)
    ensures AllYield(ts, cfg)
  {
    forall i | 0 <= i < |ts|
      ensures Piece(ts[i], cfg).Some?
    {
      var b := ts[i];
      if FieldOf(b) in cfg.fields {
        RecordsOfMembers(ts, FieldOf(b), b);
        RecordsOfMembers(rs, FieldOf(b), b);
      }
    }
  }

  /**
   * Two lists of records that agree, field by field, on the configured fields extract to the same bytes or both
   * fail: order between fields and well-formed unconfigured records do not matter.
   */
  lemma OrderAndUnknownsDoNotMatter(rs: seq<Bytes>, ts: seq<Bytes>, cfg: Config)
    requires AllRecords(rs)
    requires AllRecords(ts)
    requires forall f :: f in cfg.fields ==> RecordsOf(rs, f) == RecordsOf(ts, f)
    ensures Extract(Flatten(rs), cfg) == Extract(Flatten(ts), cfg)
  {
    PiecesOfFlatten(rs, cfg);
    PiecesOfFlatten(ts, cfg);
    YieldIffAll(rs, cfg);
    YieldIffAll(ts, cfg);
    if AllYield(rs, cfg) {
      SameYield(rs, ts, cfg);
      var p, q := PiecesOfRecords(rs, cfg).value, PiecesOfRecords(ts, cfg).value;
      SortSorts(p);
      SortSorts(q);
      forall f
        ensures OfField(Sort(p), f) == OfField(Sort(q), f)
      {
        SortIsStable(p, f);
        SortIsStable(q, f);
        SameChunks(rs, ts, cfg, f);
      }
      SortedUnique(Sort(p), Sort(q));
    } else if AllYield(ts, cfg) {
      SameYield(ts, rs, cfg);
    }
  }

  lemma SameChunks(rs: seq<Bytes>, ts: seq<Bytes>, cfg: Config, f: nat)
    requires AllRecords(rs)
    requires AllRecords(ts)
    requires f in cfg.fields ==> RecordsOf(rs, f) == RecordsOf(ts, f)
    requires PiecesOfRecords(rs, cfg).Some? && PiecesOfRecords(ts, cfg).Some?
    ensures OfField(PiecesOfRecords(rs, cfg).value, f) == OfField(PiecesOfRecords(ts, cfg).value, f)
  {
    ChunksOfField(rs, cfg, f);
    ChunksOfField(ts, cfg, f);
    if f !in cfg.fields {
      forall i | 0 <= i < |RecordsOf(rs, f)|
        ensures FieldOf(RecordsOf(rs, f)[i]) == f
      {
        RecordsOfMembers(rs, f, RecordsOf(rs, f)[i]);
      }
      forall i | 0 <= i < |RecordsOf(ts, f)|
        ensures FieldOf(RecordsOf(ts, f)[i]) == f
      {
        RecordsOfMembers(ts, f, RecordsOf(ts, f)[i]);
      }
      UnknownYieldsNothing(RecordsOf(rs, f), cfg, f);
      UnknownYieldsNothing(RecordsOf(ts, f), cfg, f);
    }
  }

  /** The records of data that extracts. */
  function Split(d: Bytes): Option<seq<Bytes>> {
    if d == [] then Some([])
    else
      var r :- ParseRecord(d);
      RecordFits(d);
      var rest :- Split(d[r.size..]);
      Some([d[..r.size]] + rest)
  }

  /** Data that extracts is a list of records laid end to end, so the law above is about all of it. */
  lemma {:induction false} ExtractableIsRecords(d: Bytes, cfg: Config)
    requires Pieces(d, cfg).Some?
    ensures Split(d).Some? && Flatten(Split(d).value) == d && AllRecords(Split(d).value)
    decreases |d|
  {
    if d != [] {
      RecordFits(d);
      var r := ParseRecord(d).value;
      var first, rest := d[..r.size], d[r.size..];
      ExtractableIsRecords(rest, cfg);
      ParseIsLocal(d, []);
      assert first + [] == first;
      assert IsRecord(first);
      assert Split(d) == Some([first] + Split(rest).value);
      assert ([first] + Split(rest).value)[1..] == Split(rest).value;
    }
  }
}
