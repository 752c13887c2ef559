/** The write-ahead log record: one framed, checksummed database image. */
module Wal {
  import opened Ordering
  import opened Codec
  import opened Streams
  import opened TableImage
  import opened ImageCodec
  import Crc

  const WAL_HEADER := 40
  const WAL_FOOTER := 16

  function WalMagic(): (b: Bytes)
    ensures |b| == 8
  {
    [83, 81, 76, 50, 87, 65, 76, 0]
  }

  function CommitMark(): (b: Bytes)
    ensures |b| == 8
  {
    [67, 79, 77, 77, 73, 84, 50, 0]
  }

  function WalHeader(image: Bytes, generation: nat): (b: Bytes)
    ensures |b| == WAL_HEADER
  {
    WalMagic() + LE(1, 4) + LE(WAL_HEADER, 4) + LE(|image|, 8) + LE(generation, 8) + Crc.Crc32(image) + LE(0, 4)
  }

  function WalRecord(image: Bytes, generation: nat): (b: Bytes)
    ensures |b| == WAL_HEADER + |image| + WAL_FOOTER
  {
    var covered := WalHeader(image, generation) + image;
    covered + CommitMark() + Crc.Crc32(covered) + LE(0, 4)
  }

  // ----- where each field lies

  ghost predicate WalFields(w: Bytes, image: Bytes, generation: nat) {
    && |w| == WAL_HEADER + |image| + WAL_FOOTER
    && w[..8] == WalMagic() && w[8..12] == LE(1, 4) && w[12..16] == LE(WAL_HEADER, 4) && w[16..24] == LE(|image|, 8)
    && w[24..32] == LE(generation, 8) && w[32..36] == Crc.Crc32(image) && w[36..40] == LE(0, 4)
    && w[40..|w| - 16] == image
    && w[|w| - 16..|w| - 8] == CommitMark() && w[|w| - 8..|w| - 4] == Crc.Crc32(w[..|w| - 16])
    && w[|w| - 4..] == LE(0, 4)
  }

  lemma HeaderAt(image: Bytes, g: nat)
    ensures var h := WalHeader(image, g);
      && h[..8] == WalMagic() && h[8..12] == LE(1, 4) && h[12..16] == LE(WAL_HEADER, 4) && h[16..24] == LE(|image|, 8)
      && h[24..32] == LE(g, 8) && h[32..36] == Crc.Crc32(image) && h[36..40] == LE(0, 4)
  {
    hide LE, Crc.Crc32, WalMagic, CommitMark;
    var a, c := WalMagic() + LE(1, 4) + LE(WAL_HEADER, 4), LE(|image|, 8) + LE(g, 8) + Crc.Crc32(image) + LE(0, 4);
    var h := WalHeader(image, g);
    assert h == a + c;
    assert h[..8] == a[..8] && h[8..12] == a[8..12] && h[12..16] == a[12..16];
    assert h[16..24] == c[0..8] && h[24..32] == c[8..16] && h[32..36] == c[16..20] && h[36..40] == c[20..24];
  }

  lemma HeaderFrom(h: Bytes, image: Bytes, g: nat)
    requires |h| == WAL_HEADER
    requires h[..8] == WalMagic() && h[8..12] == LE(1, 4) && h[12..16] == LE(WAL_HEADER, 4)
    requires h[16..24] == LE(|image|, 8)
    requires h[24..32] == LE(g, 8) && h[32..36] == Crc.Crc32(image) && h[36..40] == LE(0, 4)
    ensures h == WalHeader(image, g)
  {
    hide LE, Crc.Crc32, WalMagic, CommitMark;
    assert h == h[..8] + h[8..12] + h[12..16] + h[16..24] + h[24..32] + h[32..36] + h[36..40];
  }

  lemma RecordLayout(w: Bytes, image: Bytes, g: nat)
    ensures WalFields(w, image, g) <==> w == WalRecord(image, g)
  {
    hide LE, WalHeader, Crc.Crc32, WalMagic, CommitMark;
    if |w| == WAL_HEADER + |image| + WAL_FOOTER {
      assert w[..40][..8] == w[..8] && w[..40][8..12] == w[8..12] && w[..40][12..16] == w[12..16];
      assert w[..40][16..24] == w[16..24];
      assert w[..40][24..32] == w[24..32] && w[..40][32..36] == w[32..36] && w[..40][36..40] == w[36..40];
    }
    var covered := WalHeader(image, g) + image;
    var tail := CommitMark() + Crc.Crc32(covered) + LE(0, 4);
    assert WalRecord(image, g) == covered + tail;
    HeaderAt(image, g);
    if WalFields(w, image, g) {
      HeaderFrom(w[..40], image, g);
      assert w[..|w| - 16] == w[..40] + w[40..|w| - 16];
      assert w == w[..|w| - 16] + (w[|w| - 16..|w| - 8] + w[|w| - 8..|w| - 4] + w[|w| - 4..]);
    }
    if w == WalRecord(image, g) {
      assert w[..40] == WalHeader(image, g) && w[..|w| - 16] == covered && w[40..|w| - 16] == image;
      assert w[|w| - 16..] == tail;
      assert tail[..8] == CommitMark() && tail[8..12] == Crc.Crc32(covered) && tail[12..] == LE(0, 4);
      assert w[|w| - 16..|w| - 8] == tail[..8] && w[|w| - 8..|w| - 4] == tail[8..12] && w[|w| - 4..] == tail[12..];
    }
  }

  // ----- incomplete records

  /** The two length checks: too short for a frame, or not the announced size. */
  ghost predicate LengthRejects(w: Bytes) {
    |w| < WAL_HEADER + WAL_FOOTER || FromLE(w[16..24]) != |w| - WAL_HEADER - WAL_FOOTER
  }

  /** Every proper prefix of a record is rejected by its length alone. */
  lemma PrefixRejected(image: Bytes, g: nat, n: nat)
    requires |image| < U64 && n < |WalRecord(image, g)|
    ensures LengthRejects(WalRecord(image, g)[..n])
    ensures !LengthRejects(WalRecord(image, g))
  {
    hide WalRecord, WalHeader, Crc.Crc32, WalMagic, CommitMark, LE, FromLE;
    var w := WalRecord(image, g);
    Widths();
    RecordLayout(w, image, g);
    FromLEOfLE(|image|, 8);
    assert n >= 24 ==> w[..n][16..24] == w[16..24];
  }

  /** The bytes are a complete record of a database image of its own generation. */
  ghost predicate IsWal(w: Bytes, image: Bytes, g: nat) {
    && |image| < U64 && g < U64 && w == WalRecord(image, g)
    && exists t :: ImageDenotes(image, t) && t.generation == g
  }

  lemma RejectedIsNoWal(w: Bytes, image: Bytes, g: nat)
    requires LengthRejects(w)
    ensures !IsWal(w, image, g)
  {
    hide WalRecord, WalHeader, Crc.Crc32, WalMagic, CommitMark, LE, FromLE;
    Widths();
    if |image| < U64 && w == WalRecord(image, g) {
      RecordLayout(w, image, g);
      FromLEOfLE(|image|, 8);
    }
  }

  /** One record says one thing. */
  lemma WalUnique(w: Bytes, image: Bytes, g: nat, image': Bytes, g': nat)
    requires IsWal(w, image, g) && IsWal(w, image', g')
    ensures image == image' && g == g'
  {
    hide WalRecord, WalHeader, Crc.Crc32, WalMagic, CommitMark, LE, Capacity;
    Widths();
    RecordLayout(w, image, g);
    RecordLayout(w, image', g');
    FieldUnique(g, g', 8);
  }

  // ----- writing and reading

  datatype WalImage = WalImage(image: Bytes, generation: nat)

  method EncodeWal(image: Bytes, generation: nat) returns (record: Bytes)
    ensures record == WalRecord(image, generation)
  {
    hide LE, Crc.Crc32, WalMagic, CommitMark;
    record := WalMagic();
    record := AppendLE(record, 1, 4);
    record := AppendLE(record, WAL_HEADER, 4);
    record := AppendLE(record, |image|, 8);
    record := AppendLE(record, generation, 8);
    var checksum := Crc.ComputeCrc32(image);
    record := record + checksum;
    record := AppendLE(record, 0, 4);
    record := record + image;
    checksum := Crc.ComputeCrc32(record);
    record := record + CommitMark();
    record := record + checksum;
    record := AppendLE(record, 0, 4);
  }

  /** `parse_wal`: accepts exactly the records of database images. */
  method ParseWal(w: Bytes) returns (r: Result<WalImage>)
    ensures r.Ok? ==> IsWal(w, r.value.image, r.value.generation)
    ensures r.Err? ==> forall image, g :: !IsWal(w, image, g)
    ensures LengthRejects(w) ==> r == Err(Corruption)
  {
    hide WalRecord, WalHeader, Crc.Crc32, WalMagic, CommitMark, LE, FromLE, Capacity, ImageDenotes, LengthRejects,
      Denotes, Stores;
    Widths();
    forall image, g | IsWal(w, image, g) ensures WalFields(w, image, g) { RecordLayout(w, image, g); }
    forall image, g | LengthRejects(w) ensures !IsWal(w, image, g) { RejectedIsNoWal(w, image, g); }
    if |w| < WAL_HEADER + WAL_FOOTER { return Err(Corruption); }
    if w[..8] != WalMagic() { return Err(Corruption); }
    var version := FieldAt(w, 8, 4);
    forall image, g | IsWal(w, image, g) ensures version == 1 { FieldUnique(version, 1, 4); }
    if version != 1 { return Err(Corruption); }
    var headerSize := FieldAt(w, 12, 4);
    forall image, g | IsWal(w, image, g) ensures headerSize == WAL_HEADER { FieldUnique(headerSize, WAL_HEADER, 4); }
    if headerSize != WAL_HEADER { return Err(Corruption); }
    var imageSize := FieldAt(w, 16, 8);
    forall image, g | IsWal(w, image, g) ensures imageSize == |image| { FieldUnique(imageSize, |image|, 8); }
    var generation := FieldAt(w, 24, 8);
    forall image, g | IsWal(w, image, g) ensures generation == g { FieldUnique(generation, g, 8); }
    var reserved := FieldAt(w, 36, 4);
    forall image, g | IsWal(w, image, g) ensures reserved == 0 { FieldUnique(reserved, 0, 4); }
    if reserved != 0 { return Err(Corruption); }
    if imageSize != |w| - WAL_HEADER - WAL_FOOTER { return Err(Corruption); }
    var footer := |w| - 16;
    if w[footer..footer + 8] != CommitMark() { return Err(Corruption); }
    var footerReserved := FieldAt(w, footer + 12, 4);
    assert w[footer + 12..footer + 12 + 4] == w[|w| - 4..];
    forall image, g | IsWal(w, image, g) ensures footerReserved == 0 { FieldUnique(footerReserved, 0, 4); }
    if footerReserved != 0 { return Err(Corruption); }
    var recordChecksum := Crc.ComputeCrc32(w[..footer]);
    if recordChecksum != w[footer + 8..footer + 12] { return Err(Corruption); }
    var image := w[40..footer];
    var imageChecksum := Crc.ComputeCrc32(image);
    if imageChecksum != w[32..36] { return Err(Corruption); }
    RecordLayout(w, image, generation);
    r := CheckWalImage(w, image, generation);
  }

  /** The image inside must be a database of the announced generation. */
  method CheckWalImage(w: Bytes, image: Bytes, generation: nat) returns (r: Result<WalImage>)
    requires |image| < U64 && generation < U64 && w == WalRecord(image, generation)
    requires forall image', g' :: IsWal(w, image', g') ==> image' == image && g' == generation
    ensures r.Ok? ==> r.value == WalImage(image, generation) && IsWal(w, image, generation)
    ensures r.Err? ==> r.error == Corruption && forall image', g' :: !IsWal(w, image', g')
  {
    hide WalRecord, ImageDenotes, Denotes, Stores;
    var parsed, pages;
    ghost var l;
    parsed, pages, l := ParseImage(image);
    if parsed.Err? { return Err(Corruption); }
    forall t | ImageDenotes(image, t) ensures t == parsed.value { ImageDenotesUnique(image, parsed.value, t); }
    if parsed.value.generation != generation { return Err(Corruption); }
    r := Ok(WalImage(image, generation));
  }
}
