/** What the reporting-token filter's output holds, record by record, and the wire format it reads. */
module ReportingContents {
  import opened Common
  import opened ReportingToken
  import opened ReportingLaws

  // ---- Varints and records on the wire ----------------------------------------------------------------

  /** The number whose groups of seven bits these are, the low group first. */
  function Base128(d: Bytes): nat {
    if d == [] then 0 else d[0] % 128 + 128 * Base128(d[1..])
  }

  /** A varint is up to six bytes, the first below 128 its last; it is refused exactly when none of the six is. */
  lemma {:induction false} VarintIs(d: Bytes, k: nat)
    requires k <= 5
    ensures ReadVarint(d, k).Some? <==> exists i :: 0 <= i < |d| && k + i < 6 && d[i] < 128
    ensures ReadVarint(d, k).Some? ==>
      var v := ReadVarint(d, k).value;
      && 1 <= v.read <= |d| && k + v.read <= 6 && v.value == Base128(d[..v.read])
      && d[v.read - 1] < 128 && forall i :: 0 <= i < v.read - 1 ==> d[i] >= 128
  {
    if d != [] && d[0] >= 128 && k < 5 {
      VarintIs(d[1..], k + 1);
      if ReadVarint(d, k).Some? {
        var n := ReadVarint(d, k).value.read;
        assert d[..n][1..] == d[1..][..n - 1];
        assert d[n - 1] == d[1..][n - 2];
        assert forall i :: 1 <= i < n - 1 ==> d[i] == d[1..][i - 1];
      } else {
        assert forall i :: 0 < i < |d| ==> d[i] == d[1..][i - 1];
      }
    } else if d != [] && d[0] < 128 {
      assert d[..1] == [d[0]] && d[..1][1..] == [];
      assert Base128(d[..1]) == d[0];
    }
  }

  function TagOf(field: nat, wire: nat): Bytes { WriteVarint(8 * field + wire) }

  lemma TagReads(field: nat, wire: nat, rest: Bytes)
    requires field < FIELD_LIMIT && wire < 8
    ensures var d, n := TagOf(field, wire) + rest, |TagOf(field, wire)|;
      && ReadVarint(d, 0) == Some(Varint(8 * field + wire, n)) && Drop(d, n) == rest
      && ParseRecord(d) == RecordAfterTag(|d|, Varint(8 * field + wire, n), ReadVarint(rest, 0))
      && (8 * field + wire) / 8 == field && (8 * field + wire) % 8 == wire
  {
    hide ReadVarint, WriteVarint, RecordAfterTag;
    VarintRoundTrip(8 * field + wire, rest);
  }

  /**
   * The four wire types behind a tag: a varint, eight bytes, four bytes, or a length and that many bytes, and nothing
   * behind them matters; too few bytes, or another wire type, is no record.
   */
  lemma WireFormat(field: nat, payload: Bytes, number: nat, tail: Bytes)
    requires field < FIELD_LIMIT && number < TWO_TO_32 && |payload| < TWO_TO_32
    ensures var t := TagOf(field, WIRE_VARINT);
      ParseRecord(t + (WriteVarint(number) + tail))
        == Some(Record(field, WIRE_VARINT, 8 * field + WIRE_VARINT, |t|, |t| + |WriteVarint(number)|))
    ensures var t := TagOf(field, WIRE_FIXED64);
      ParseRecord(t + payload)
        == if |payload| < 8 then None else Some(Record(field, WIRE_FIXED64, 8 * field + WIRE_FIXED64, |t|, |t| + 8))
    ensures var t := TagOf(field, WIRE_FIXED32);
      ParseRecord(t + payload)
        == if |payload| < 4 then None else Some(Record(field, WIRE_FIXED32, 8 * field + WIRE_FIXED32, |t|, |t| + 4))
    ensures var t, l := TagOf(field, WIRE_BYTES), WriteVarint(number);
      ParseRecord(t + (l + payload))
        == if |payload| < number then None
           else Some(Record(field, WIRE_BYTES, 8 * field + WIRE_BYTES, |t| + |l|, |t| + |l| + number))
    ensures forall wire :: wire in {3, 4, 6, 7} ==> ParseRecord(TagOf(field, wire) + payload) == None
  {
    hide ReadVarint, WriteVarint, ParseRecord, TagOf;
    VarintRoundTrip(number, tail);
    VarintRoundTrip(number, payload);
    TagReads(field, WIRE_VARINT, WriteVarint(number) + tail);
    TagReads(field, WIRE_FIXED64, payload);
    TagReads(field, WIRE_FIXED32, payload);
    TagReads(field, WIRE_BYTES, WriteVarint(number) + payload);
    forall wire | wire in {3, 4, 6, 7}
      ensures ParseRecord(TagOf(field, wire) + payload) == None
    {
      TagReads(field, wire, payload);
    }
  }

  /** A field number is configured exactly when it is listed. */
  lemma {:induction false} CompileFinds(fields: seq<ReportingField>, f: nat)
    ensures f in Compile(fields).fields <==> exists x :: x in fields && x.f == f
  {
    if fields != [] {
      var front, last := fields[..|fields| - 1], fields[|fields| - 1];
      assert fields == front + [last];
      CompileFinds(front, f);
    }
  }

  /** The last entry for a number decides how its field is treated. */
  lemma {:induction false} CompileTakesLast(fields: seq<ReportingField>, i: nat)
    requires i < |fields| && forall j :: i < j < |fields| ==> fields[j].f != fields[i].f
    ensures fields[i].f in Compile(fields).fields
    ensures Compile(fields).fields[fields[i].f] == Node(fields[i].m, Compile(fields[i].s))
  {
    if i < |fields| - 1 {
      var front := fields[..|fields| - 1];
      assert forall j :: 0 <= j < |front| ==> front[j] == fields[j];
      CompileTakesLast(front, i);
      assert fields[|fields| - 1].f != fields[i].f;
    }
  }

  // ---- The output's records ---------------------------------------------------------------------------

  function WireOf(b: Bytes): nat { if ParseRecord(b).Some? then ParseRecord(b).value.wire else 0 }

  function PayloadOf(b: Bytes): Bytes {
    if ParseRecord(b).None? then []
    else
      RecordFits(b);
      b[ParseRecord(b).value.payload..ParseRecord(b).value.size]
  }

  /** Fields marked as messages and fields with listed children are messages; the others are leaves. */
  predicate IsMessage(node: Node) { node.m || exists f :: f in node.children.fields }

  /** The record's payload is itself filtered. */
  predicate Opened(b: Bytes, node: Node) { WireOf(b) == WIRE_BYTES && IsMessage(node) }

  lemma MessageIsNested(node: Node)
    ensures IsMessage(node) <==> Nested(node)
  {
    if node.children.fields != map[] {
      var f :| f in node.children.fields;
    }
  }

  /**
   * What one field's records become: each stays as it is, or, where its payload is filtered, is replaced by a record of
   * the same field around what is left of the payload, if anything is.
   */
  ghost predicate Becomes(rs: seq<Bytes>, ts: seq<Bytes>, node: Node) {
    if rs == [] then ts == []
    else if !Opened(rs[0], node) then ts != [] && ts[0] == rs[0] && Becomes(rs[1..], ts[1..], node)
    else
      var inner := Extract(PayloadOf(rs[0]), node.children);
      && inner.Some?
      && if inner.value == [] then Becomes(rs[1..], ts, node)
         else
           && ts != [] && FieldOf(ts[0]) == FieldOf(rs[0]) && WireOf(ts[0]) == WIRE_BYTES && PayloadOf(ts[0]) == inner.value
           && Becomes(rs[1..], ts[1..], node)
  }

  ghost predicate Ordered(ts: seq<Bytes>) { forall i, j :: 0 <= i < j < |ts| ==> FieldOf(ts[i]) <= FieldOf(ts[j]) }

  ghost predicate Filtered(rs: seq<Bytes>, ts: seq<Bytes>, cfg: Config) {
    && AllRecords(ts) && Ordered(ts)
    && (forall f :: f !in cfg.fields ==> RecordsOf(ts, f) == [])
    && (forall f :: f in cfg.fields && !IsMessage(cfg.fields[f]) ==> RecordsOf(ts, f) == RecordsOf(rs, f))
    && (forall f :: f in cfg.fields ==> Becomes(RecordsOf(rs, f), RecordsOf(ts, f), cfg.fields[f]))
  }

  function BytesOf(s: seq<Chunk>): seq<Bytes> { if s == [] then [] else [s[0].bytes] + BytesOf(s[1..]) }

  ghost predicate ARecord(c: Chunk) { IsRecord(c.bytes) && FieldOf(c.bytes) == c.field }

  lemma {:induction false} JoinIsFlatten(s: seq<Chunk>)
    ensures Join(s) == Flatten(BytesOf(s))
    ensures |BytesOf(s)| == |s| && forall i :: 0 <= i < |s| ==> BytesOf(s)[i] == s[i].bytes
  {
    if s != [] {
      JoinIsFlatten(s[1..]);
      assert BytesOf(s)[1..] == BytesOf(s[1..]);
    }
  }

  lemma {:induction false} RecordsOfBytes(s: seq<Chunk>, f: nat)
    requires forall c :: c in s ==> ARecord(c)
    ensures RecordsOf(BytesOf(s), f) == BytesOf(OfField(s, f))
  {
    hide ParseRecord;
    if s != [] {
      assert ARecord(s[0]);
      RecordsOfBytes(s[1..], f);
      assert BytesOf(s)[1..] == BytesOf(s[1..]);
      assert s[0].field == f ==> OfField(s, f)[1..] == OfField(s[1..], f);
    }
  }

  /** One record's own: dropped, kept whole, or rewritten around its filtered payload. */
  lemma PieceIs(b: Bytes, cfg: Config)
    requires IsRecord(b) && |b| < TWO_TO_32 && Small(cfg)
    ensures FieldOf(b) !in cfg.fields ==> Piece(b, cfg) == Some([])
    ensures FieldOf(b) in cfg.fields && !Opened(b, cfg.fields[FieldOf(b)]) ==> Piece(b, cfg) == Some(b) && b != []
    ensures FieldOf(b) in cfg.fields && Opened(b, cfg.fields[FieldOf(b)]) ==>
      var inner, piece := Extract(PayloadOf(b), cfg.fields[FieldOf(b)].children), Piece(b, cfg);
      && (piece.Some? <==> inner.Some?)
      && (piece.Some? && inner.value == [] ==> piece.value == [])
      && (piece.Some? && inner.value != [] ==>
            && piece.value != [] && IsRecord(piece.value) && FieldOf(piece.value) == FieldOf(b)
            && WireOf(piece.value) == WIRE_BYTES && PayloadOf(piece.value) == inner.value)
  {
    hide Extract, ReadVarint, RecordAfterTag, WriteVarint, IsMessage, Nested;
    if FieldOf(b) in cfg.fields {
      MessageIsNested(cfg.fields[FieldOf(b)]);
    }
    RecordFits(b);
    RecordTag(b);
    assert b[..|b|] == b;
    if FieldOf(b) in cfg.fields && Opened(b, cfg.fields[FieldOf(b)]) {
      var r, children := ParseRecord(b).value, cfg.fields[FieldOf(b)].children;
      var inner := Extract(PayloadOf(b), children);
      if inner.Some? && inner.value != [] {
        ExtractFits(PayloadOf(b), children);
        ParseWrapped(r.field, inner.value);
      }
    }
  }

  lemma {:induction false} PiecesAreRecords(rs: seq<Bytes>, cfg: Config)
    requires AllRecords(rs) && |Flatten(rs)| < TWO_TO_32 && Small(cfg)
    requires PiecesOfRecords(rs, cfg).Some?
    ensures forall c :: c in PiecesOfRecords(rs, cfg).value ==> ARecord(c) && c.field in cfg.fields
  {
    hide Piece, IsRecord, Small, Opened, Extract;
    if rs != [] {
      assert IsRecord(rs[0]);
      PieceIs(rs[0], cfg);
      PiecesAreRecords(rs[1..], cfg);
    }
  }

  lemma {:induction false} EachSmall(rs: seq<Bytes>, b: Bytes)
    requires b in rs
    ensures |b| <= |Flatten(rs)|
  {
    if b != rs[0] {
      EachSmall(rs[1..], b);
    }
  }

  /** All of one configured field. */
  lemma {:induction false} OneFieldBecomes(rs: seq<Bytes>, cfg: Config, f: nat)
    requires AllRecords(rs) && Small(cfg) && f in cfg.fields && PiecesOfRecords(rs, cfg).Some?
    requires forall b :: b in rs ==> FieldOf(b) == f && |b| < TWO_TO_32
    ensures Becomes(rs, BytesOf(PiecesOfRecords(rs, cfg).value), cfg.fields[f])
    ensures !IsMessage(cfg.fields[f]) ==> BytesOf(PiecesOfRecords(rs, cfg).value) == rs
  {
    hide Piece, FieldOf, Small, Extract, WireOf, PayloadOf, ReadVarint, ParseRecord;
    if rs != [] {
      assert IsRecord(rs[0]) && rs[0] in rs;
      PieceIs(rs[0], cfg);
      OneFieldBecomes(rs[1..], cfg, f);
      var piece, rest := Piece(rs[0], cfg).value, PiecesOfRecords(rs[1..], cfg).value;
      var all := PiecesOfRecords(rs, cfg).value;
      if piece == [] {
        assert all == rest;
      } else {
        assert all == [Chunk(f, piece)] + rest && all[1..] == rest;
        assert BytesOf(all) == [piece] + BytesOf(rest) && BytesOf(all)[1..] == BytesOf(rest);
      }
    }
  }

  /** The payload of a record that is opened can be filtered. */
  ghost predicate Opens(b: Bytes, cfg: Config) {
    FieldOf(b) in cfg.fields && Opened(b, cfg.fields[FieldOf(b)]) ==>
      Extract(PayloadOf(b), cfg.fields[FieldOf(b)].children).Some?
  }

  lemma SucceedsExactly(rs: seq<Bytes>, cfg: Config)
    requires AllRecords(rs) && |Flatten(rs)| < TWO_TO_32 && Small(cfg)
    ensures Extract(Flatten(rs), cfg).Some? <==> forall b :: b in rs ==> Opens(b, cfg)
  {
    hide Piece, Small, Opened, FieldOf, Flatten, PayloadOf;
    PiecesOfFlatten(rs, cfg);
    YieldIffAll(rs, cfg);
    forall i | 0 <= i < |rs|
      ensures Piece(rs[i], cfg).Some? <==> Opens(rs[i], cfg)
    {
      assert IsRecord(rs[i]);
      EachSmall(rs, rs[i]);
      PieceIs(rs[i], cfg);
    }
    assert forall i :: 0 <= i < |rs| ==> rs[i] in rs;
  }

  lemma ExtractSorts(rs: seq<Bytes>, cfg: Config)
    requires AllRecords(rs) && Extract(Flatten(rs), cfg).Some?
    ensures PiecesOfRecords(rs, cfg).Some?
    ensures Extract(Flatten(rs), cfg).value == Join(Sort(PiecesOfRecords(rs, cfg).value))
  {
    PiecesOfFlatten(rs, cfg);
  }

  /**
   * The filter on any list of records: it succeeds exactly when every payload it opens can be filtered, and its output
   * is then a list of records, sorted by field, that holds of each configured field the records it had, in order, with
   * opened payloads filtered and dropped where nothing is left, and of every other field none.
   */
  lemma ExtractsExactly(rs: seq<Bytes>, cfg: Config)
    requires AllRecords(rs) && |Flatten(rs)| < TWO_TO_32 && Small(cfg)
    ensures Extract(Flatten(rs), cfg).Some? <==> forall b :: b in rs ==> Opens(b, cfg)
    ensures Extract(Flatten(rs), cfg).Some? ==>
      exists ts: seq<Bytes> :: Filtered(rs, ts, cfg) && Extract(Flatten(rs), cfg).value == Flatten(ts)
  {
    hide Small, Filtered, Flatten, Opens, Extract, Sort, PiecesOfRecords, Join, BytesOf;
    SucceedsExactly(rs, cfg);
    if Extract(Flatten(rs), cfg).Some? {
      ExtractSorts(rs, cfg);
      var s := Sort(PiecesOfRecords(rs, cfg).value);
      JoinIsFlatten(s);
      SortedIsFiltered(rs, cfg);
      assert Filtered(rs, BytesOf(s), cfg);
    }
  }

  lemma SortedIsFiltered(rs: seq<Bytes>, cfg: Config)
    requires AllRecords(rs) && |Flatten(rs)| < TWO_TO_32 && Small(cfg) && PiecesOfRecords(rs, cfg).Some?
    ensures Filtered(rs, BytesOf(Sort(PiecesOfRecords(rs, cfg).value)), cfg)
  {
    hide PiecesOfRecords, Sort, RecordsOf, BytesOf, Becomes, Flatten, Small, IsMessage, OfField, IsRecord, FieldOf;
    var ps := PiecesOfRecords(rs, cfg).value;
    var s := Sort(ps);
    var ts := BytesOf(s);
    SortSorts(ps);
    PiecesAreRecords(rs, cfg);
    JoinIsFlatten(s);
    forall i | 0 <= i < |ts|
      ensures IsRecord(ts[i]) && FieldOf(ts[i]) == s[i].field
    {
      assert s[i] in ps && ARecord(s[i]);
    }
    forall f: nat
      ensures f !in cfg.fields ==> RecordsOf(ts, f) == []
      ensures f in cfg.fields && !IsMessage(cfg.fields[f]) ==> RecordsOf(ts, f) == RecordsOf(rs, f)
      ensures f in cfg.fields ==> Becomes(RecordsOf(rs, f), RecordsOf(ts, f), cfg.fields[f])
    {
      FieldIsFiltered(rs, cfg, f);
    }
  }

  lemma FieldIsFiltered(rs: seq<Bytes>, cfg: Config, f: nat)
    requires AllRecords(rs) && |Flatten(rs)| < TWO_TO_32 && Small(cfg) && PiecesOfRecords(rs, cfg).Some?
    ensures var ts := BytesOf(Sort(PiecesOfRecords(rs, cfg).value));
      && (f !in cfg.fields ==> RecordsOf(ts, f) == [])
      && (f in cfg.fields && !IsMessage(cfg.fields[f]) ==> RecordsOf(ts, f) == RecordsOf(rs, f))
      && (f in cfg.fields ==> Becomes(RecordsOf(rs, f), RecordsOf(ts, f), cfg.fields[f]))
  {
    hide PiecesOfRecords, Sort, RecordsOf, Becomes, Flatten, Small, IsMessage, OfField, IsRecord, FieldOf;
    var ps := PiecesOfRecords(rs, cfg).value;
    SortSorts(ps);
    PiecesAreRecords(rs, cfg);
    RecordsOfBytes(Sort(ps), f);
    SortIsStable(ps, f);
    ChunksOfField(rs, cfg, f);
    forall b | b in RecordsOf(rs, f)
      ensures FieldOf(b) == f && |b| < TWO_TO_32
    {
      RecordsOfMembers(rs, f, b);
      EachSmall(rs, b);
    }
    if f in cfg.fields {
      OneFieldBecomes(RecordsOf(rs, f), cfg, f);
    } else {
      NoneOfField(ps, f);
    }
  }
}
