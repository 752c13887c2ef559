/** The 4096-byte page envelope: header, checksum, payload and zero padding. */
module PageCodec {
  import opened Ordering
  import opened Codec
  import Crc

  const PAGE_SIZE := 4096
  const HEADER_SIZE := 32
  const PAYLOAD_SIZE := PAGE_SIZE - HEADER_SIZE
  const NO_PAGE := U32 - 1

  datatype PageType = Superblock | Schema | Rows | IndexDirectory | IndexLeaf | IndexInternal

  datatype Page = Page(ptype: PageType, id: nat, next: nat, payload: Bytes)

  predicate PageOk(p: Page) {
    p.id < U32 && p.next < U32 && |p.payload| <= PAYLOAD_SIZE
  }

  function Code(t: PageType): byte {
    match t
    case Superblock => 1
    case Schema => 2
    case Rows => 3
    case IndexDirectory => 4
    case IndexLeaf => 5
    case IndexInternal => 6
  }

  function TypeOf(code: byte): Option<PageType> {
    if code == 1 then Some(Superblock)
    else if code == 2 then Some(Schema)
    else if code == 3 then Some(Rows)
    else if code == 4 then Some(IndexDirectory)
    else if code == 5 then Some(IndexLeaf)
    else if code == 6 then Some(IndexInternal)
    else None
  }

  const MAGIC: Bytes := [83, 81, 76, 50]

  function Zeros(n: nat): (b: Bytes)
    ensures |b| == n
  {
    seq(n, _ => 0)
  }

  predicate AllZero(b: Bytes) { forall i :: 0 <= i < |b| ==> b[i] == 0 }

  /** The header up to the checksum field. */
  function Head(p: Page): (b: Bytes)
    ensures |b| == 20
  {
    MAGIC + [Code(p.ptype), 0, 2, 0] + LE(p.id, 4) + LE(|p.payload|, 4) + LE(p.next, 4)
  }

  /** The page with the four given bytes in its checksum field. */
  function Body(p: Page, crc: Bytes): (b: Bytes)
    requires PageOk(p) && |crc| == 4
    ensures |b| == PAGE_SIZE
  {
    Head(p) + crc + Zeros(8) + p.payload + Zeros(PAYLOAD_SIZE - |p.payload|)
  }

  function EncodePage(p: Page): (b: Bytes)
    requires PageOk(p)
    ensures |b| == PAGE_SIZE
  {
    Body(p, Crc.Crc32(Body(p, Zeros(4))))
  }

  // ----- where each field lies

  ghost predicate HeadFields(b: Bytes, p: Page)
    requires |b| == 20
  {
    && b[..4] == MAGIC && b[4] == Code(p.ptype) && b[5] == 0 && b[6] == 2 && b[7] == 0
    && b[8..12] == LE(p.id, 4) && b[12..16] == LE(|p.payload|, 4) && b[16..20] == LE(p.next, 4)
  }

  lemma HeadLayout(b: Bytes, p: Page)
    requires |b| == 20
    ensures HeadFields(b, p) <==> b == Head(p)
  {
    hide LE, Code;
    if HeadFields(b, p) {
      assert b[4..8] == [Code(p.ptype), 0, 2, 0];
      assert b[..8] == b[..4] + b[4..8];
      assert b[..12] == b[..8] + b[8..12];
      assert b[..16] == b[..12] + b[12..16];
      assert b == b[..16] + b[16..20];
    }
  }

  ghost predicate BodyFields(b: Bytes, p: Page, crc: Bytes)
    requires |b| == PAGE_SIZE && PageOk(p)
  {
    && b[..20] == Head(p) && b[20..24] == crc && AllZero(b[24..32])
    && b[32..32 + |p.payload|] == p.payload && AllZero(b[32 + |p.payload|..])
  }

  lemma ZerosAreZero(b: Bytes)
    ensures AllZero(b) <==> b == Zeros(|b|)
  {
  }

  lemma BodyLayout(b: Bytes, p: Page, crc: Bytes)
    requires |b| == PAGE_SIZE && PageOk(p) && |crc| == 4
    ensures BodyFields(b, p, crc) <==> b == Body(p, crc)
  {
    hide Head, Zeros, AllZero;
    var n := |p.payload|;
    ZerosAreZero(b[24..32]);
    ZerosAreZero(b[32 + n..]);
    if BodyFields(b, p, crc) {
      assert b == b[..20] + b[20..24] + b[24..32] + b[32..32 + n] + b[32 + n..];
    }
    if b == Body(p, crc) {
      assert b[24..32] == Zeros(8);
      assert b[32 + n..] == Zeros(PAYLOAD_SIZE - n);
    }
  }

  /** Zeroing the checksum field of a page with any checksum. */
  lemma BodyZeroed(p: Page, crc: Bytes, crc': Bytes)
    requires PageOk(p) && |crc| == 4 && |crc'| == 4
    ensures Body(p, crc)[..20] + crc' + Body(p, crc)[24..] == Body(p, crc')
  {
    hide Head, Zeros;
    var tail := Zeros(8) + p.payload + Zeros(PAYLOAD_SIZE - |p.payload|);
    assert Body(p, crc) == Head(p) + crc + tail;
    assert Body(p, crc') == Head(p) + crc' + tail;
  }

  lemma HeadDetermines(p: Page, q: Page)
    requires PageOk(p) && PageOk(q) && Head(p) == Head(q)
    ensures p.ptype == q.ptype && p.id == q.id && p.next == q.next && |p.payload| == |q.payload|
  {
    hide LE, Head;
    Widths();
    HeadLayout(Head(p), p);
    HeadLayout(Head(p), q);
    FromLEOfLE(p.id, 4);
    FromLEOfLE(q.id, 4);
    FromLEOfLE(|p.payload|, 4);
    FromLEOfLE(|q.payload|, 4);
    FromLEOfLE(p.next, 4);
    FromLEOfLE(q.next, 4);
  }

  lemma BodyInjective(p: Page, q: Page, crc: Bytes, crc': Bytes)
    requires PageOk(p) && PageOk(q) && |crc| == 4 && |crc'| == 4 && Body(p, crc) == Body(q, crc')
    ensures p == q && crc == crc'
  {
    hide Body, Head;
    BodyLayout(Body(p, crc), p, crc);
    BodyLayout(Body(p, crc), q, crc');
    HeadDetermines(p, q);
  }

  /** Two different pages never share an encoding. */
  lemma EncodePageInjective(p: Page, q: Page)
    requires PageOk(p) && PageOk(q) && EncodePage(p) == EncodePage(q)
    ensures p == q
  {
    hide Body;
    BodyInjective(p, q, Crc.Crc32(Body(p, Zeros(4))), Crc.Crc32(Body(q, Zeros(4))));
  }

  // ----- decoding

  method U32At(bytes: Bytes, offset: nat) returns (v: nat)
    requires offset + 4 <= |bytes|
    ensures v < U32 && bytes[offset..offset + 4] == LE(v, 4)
  {
    var reader := new Reader(bytes[offset..offset + 4]);
    var r := reader.Unsigned(4);
    Widths();
    v := r.value;
    assert LE(v, 4) + reader.Rest() == bytes[offset..offset + 4];
    assert reader.Rest() == [];
  }

  method IsZero(bytes: Bytes) returns (z: bool)
    ensures z <==> AllZero(bytes)
  {
    for i := 0 to |bytes|
      invariant AllZero(bytes[..i])
    {
      if bytes[i] != 0 {
        return false;
      }
    }
    assert bytes[..|bytes|] == bytes;
    z := true;
  }

  ghost predicate IsEncodingOf(bytes: Bytes, id: nat, p: Page) {
    PageOk(p) && p.id == id && bytes == EncodePage(p)
  }

  /** Accepts exactly the encodings of pages with the expected identifier. */
  method DecodePage(bytes: Bytes, expected: nat) returns (r: Result<Page>)
    requires |bytes| == PAGE_SIZE && expected < U32
    ensures r.Ok? ==> IsEncodingOf(bytes, expected, r.value)
    ensures r.Err? ==> forall p :: !IsEncodingOf(bytes, expected, p)
  {
    hide Head, Body, LE, Code, TypeOf, Zeros, AllZero;
    var error := Err(Corruption);
    ghost var id, size, next := 0, 0, 0;
    forall p | IsEncodingOf(bytes, expected, p) ensures Encoded(bytes, p) {
      EncodedFields(bytes, p);
    }
    if bytes[..4] != MAGIC { return error; }
    if bytes[6] != 2 || bytes[7] != 0 { return error; }
    if bytes[5] != 0 { return error; }
    var reserved := IsZero(bytes[24..32]);
    if !reserved { return error; }
    var pageId := U32At(bytes, 8);
    forall p | Encoded(bytes, p) ensures p.id == pageId { SameField(p.id, pageId); }
    if pageId != expected { return error; }
    var payloadSize := U32At(bytes, 12);
    forall p | Encoded(bytes, p) ensures |p.payload| == payloadSize { SameField(|p.payload|, payloadSize); }
    if payloadSize > PAYLOAD_SIZE { return error; }
    var padded := IsZero(bytes[HEADER_SIZE + payloadSize..]);
    if !padded { return error; }
    var checksum := Crc.ComputeCrc32(bytes[..20] + Zeros(4) + bytes[24..]);
    if checksum != bytes[20..24] { return error; }
    var ptype := TypeOf(bytes[4]);
    forall p | Encoded(bytes, p) ensures ptype.Some? { TypeCodes(p.ptype, bytes[4]); }
    if ptype.None? { return error; }
    var link := U32At(bytes, 16);
    var page := Page(ptype.value, expected, link, bytes[HEADER_SIZE..HEADER_SIZE + payloadSize]);
    TypeCodes(ptype.value, bytes[4]);
    HeadFromFields(bytes, page);
    BodyLayout(bytes, page, checksum);
    BodyZeroed(page, checksum, Zeros(4));
    r := Ok(page);
  }

  lemma TypeCodes(t: PageType, code: byte)
    ensures code == Code(t) <==> TypeOf(code) == Some(t)
  {
  }

  lemma SameField(v: nat, w: nat)
    requires v < U32 && w < U32 && LE(v, 4) == LE(w, 4)
    ensures v == w
  {
    Widths();
    FromLEOfLE(v, 4);
    FromLEOfLE(w, 4);
  }

  /** What the checks of `DecodePage` find in an encoded page. */
  ghost predicate Encoded(bytes: Bytes, p: Page)
    requires |bytes| == PAGE_SIZE
  {
    && PageOk(p)
    && bytes[..4] == MAGIC && bytes[4] == Code(p.ptype) && bytes[5] == 0 && bytes[6] == 2 && bytes[7] == 0
    && bytes[8..12] == LE(p.id, 4) && bytes[12..16] == LE(|p.payload|, 4) && bytes[16..20] == LE(p.next, 4)
    && AllZero(bytes[24..32]) && AllZero(bytes[32 + |p.payload|..])
    && Consistent(bytes)
  }

  /** The checksum field holds the checksum of the page with that field zeroed. */
  ghost predicate Consistent(bytes: Bytes)
    requires |bytes| == PAGE_SIZE
  {
    Crc.Crc32(bytes[..20] + Zeros(4) + bytes[24..]) == bytes[20..24]
  }

  lemma EncodedIsConsistent(p: Page)
    requires PageOk(p)
    ensures Consistent(EncodePage(p))
    ensures BodyFields(EncodePage(p), p, EncodePage(p)[20..24])
  {
    hide Body, Zeros;
    var crc := Crc.Crc32(Body(p, Zeros(4)));
    BodyLayout(EncodePage(p), p, crc);
    BodyZeroed(p, crc, Zeros(4));
    assert EncodePage(p)[20..24] == crc;
  }

  lemma EncodedFields(bytes: Bytes, p: Page)
    requires PageOk(p) && bytes == EncodePage(p)
    ensures Encoded(bytes, p)
  {
    hide Head, Body, LE, Code, Zeros, AllZero, Consistent, EncodePage;
    EncodedIsConsistent(p);
    HeadLayout(bytes[..20], p);
    SubHead(bytes);
  }

  lemma SubHead(bytes: Bytes)
    requires |bytes| == PAGE_SIZE
    ensures bytes[..20][..4] == bytes[..4] && bytes[..20][8..12] == bytes[8..12]
    ensures bytes[..20][12..16] == bytes[12..16] && bytes[..20][16..20] == bytes[16..20]
  {
  }

  lemma HeadFromFields(bytes: Bytes, p: Page)
    requires |bytes| == PAGE_SIZE
    requires bytes[..4] == MAGIC && bytes[4] == Code(p.ptype) && bytes[5] == 0 && bytes[6] == 2 && bytes[7] == 0
    requires bytes[8..12] == LE(p.id, 4) && bytes[12..16] == LE(|p.payload|, 4) && bytes[16..20] == LE(p.next, 4)
    ensures bytes[..20] == Head(p)
  {
    hide LE, Code, Head;
    SubHead(bytes);
    HeadLayout(bytes[..20], p);
  }

  // ----- corruption

  lemma ZeroedUpdate(b: Bytes, i: nat, v: byte)
    requires |b| == PAGE_SIZE && i < PAGE_SIZE && !(20 <= i < 24)
    ensures
      var z := b[..20] + Zeros(4) + b[24..];
      var b' := b[i := v];
      b'[..20] + Zeros(4) + b'[24..] == z[i := v] && z[i] == b[i] && b'[20..24] == b[20..24]
  {
    hide Zeros;
  }

  lemma OneByteBreaksConsistency(b: Bytes, i: nat, v: byte)
    requires |b| == PAGE_SIZE && i < PAGE_SIZE && v != b[i] && Consistent(b)
    ensures !Consistent(b[i := v])
  {
    hide Zeros;
    var b' := b[i := v];
    if 20 <= i < 24 {
      FieldUpdate(b, i, v);
    } else {
      ZeroedUpdate(b, i, v);
      Crc.Crc32DetectsOneByte(b[..20] + Zeros(4) + b[24..], i, v);
    }
  }

  lemma FieldUpdate(b: Bytes, i: nat, v: byte)
    requires |b| == PAGE_SIZE && 20 <= i < 24 && v != b[i]
    ensures b[i := v][..20] == b[..20] && b[i := v][24..] == b[24..] && b[i := v][20..24] != b[20..24]
  {
    assert b[i := v][20..24][i - 20] != b[20..24][i - 20];
  }

  /** Changing any one byte of a valid page leaves no valid page, so
      `DecodePage` rejects the result whatever identifier it expects. */
  lemma OneByteCorruptionIsDetected(p: Page, i: nat, v: byte, q: Page, id: nat)
    requires PageOk(p) && i < PAGE_SIZE && v != EncodePage(p)[i]
    ensures !IsEncodingOf(EncodePage(p)[i := v], id, q)
  {
    hide Consistent, EncodePage;
    EncodedIsConsistent(p);
    OneByteBreaksConsistency(EncodePage(p), i, v);
    if PageOk(q) {
      EncodedIsConsistent(q);
    }
  }
}
