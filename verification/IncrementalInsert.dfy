/** `build_incremental_insert`: one row added to an image by editing only the
    pages on its path, checked against rebuilding the table. */
module IncrementalInsert {
  import opened Ordering
  import opened Codec
  import opened PageCodec
  import opened PageStore
  import opened IndexInsert
  import opened Streams
  import opened Chains
  import opened TableImage
  import opened ImageReader
  import opened ImageCodec
  import opened TableState
  import opened RowInsert

  /** The table with one more row. */
  function WithRow(t: Table, row: Row): Table { TableOf(t.fields, t.rows + [row], t.generation + 1) }

  ghost predicate Fits(t: Table, row: Row) { RowFits(t, row) && |t.rows| + 1 < U64 }

  lemma StreamsHaveHeads(pages: seq<Page>, l: Layout, t: Table)
    requires Denotes(pages, l, t)
    ensures l.rowPages != [] && l.directory != [] && l.sup.rowsHead == l.rowPages[0] < |pages|
    ensures l.sup.directoryHead == l.directory[0] < |pages|
    ensures pages[l.sup.rowsHead].ptype == PageType.Rows && pages[l.sup.directoryHead].ptype == PageType.IndexDirectory
    ensures |l.indexes| == |t.fields| == l.sup.fieldCount && |t.rows| == l.sup.rowCount
    ensures t.generation == l.sup.generation
    ensures SuperOk(l.sup) && pages[0].payload == SuperBytes(l.sup) && pages[0].ptype == PageType.Superblock
    ensures pages[0].next == NO_PAGE
    ensures 1 <= |t.fields| <= MAX_FIELDS
  {
    hide EncList, Partition, IndexDenotes, SuperBytes, StringsOk, Rectangular;
    assert |RowBytes(t.rows)| >= 8 && |DirectoryBytes(RootsOf(l.indexes))| >= 4;
  }

  lemma StartEdit(pages: seq<Page>, l: Layout, t: Table, row: Row)
    requires Denotes(pages, l, t) && HeadsReady(pages, l) && Fits(t, row)
    ensures Sound(pages, l, SchemaBytes(t.fields), LE(|t.rows|, 8) + EncList(t.rows, EncRow),
                DirectoryBytes(RootsOf(l.indexes)))
    ensures HalfWay(l.indexes, t.rows, row, 0) && PagesOk(pages)
    ensures |row| == |l.indexes| && 1 <= |row| <= MAX_FIELDS && StringsOk(row)
    ensures All(RootsOf(l.indexes), IdOk)
  {
    hide Denotes, LE, EncList, ColumnIndex, SchemaBytes, DirectoryBytes, StringsOk;
    DenotesTable(pages, l, t);
    StreamsHaveHeads(pages, l, t);
    RootsAreIds(pages, l, t);
    SoundPages(pages, l, SchemaBytes(t.fields), RowBytes(t.rows), DirectoryBytes(RootsOf(l.indexes)));
  }

  lemma SoundPages(pages: seq<Page>, l: Layout, a: Bytes, b: Bytes, c: Bytes)
    requires Sound(pages, l, a, b, c)
    ensures PagesOk(pages) && pages != []
  {
  }

  lemma BeginIndexes(pages: seq<Page>, l: Layout, a: Bytes, b: Bytes)
    requires Sound(pages, l, a, b, DirectoryBytes(RootsOf(l.indexes))) && HeadsReady(pages, l)
    ensures EditState(pages, l, a, b, RootsOf(l.indexes))
  {
    hide Sound, Payloads, DirectoryBytes;
    WholeDirectory(pages, l, a, b);
  }

  lemma FinishEdit(pages: seq<Page>, l: Layout, t: Table, row: Row, b: Bytes)
    requires FieldsOk(t.fields) && Rectangular(t.rows, |t.fields|) && Fits(t, row) && |l.indexes| == |t.fields|
    requires Sound(pages, l, SchemaBytes(t.fields), b, DirectoryBytes(RootsOf(l.indexes)))
    requires b == RowBytes(t.rows + [row])
    requires HalfWay(l.indexes, t.rows, row, |l.indexes|)
    requires SuperDenotes(pages, l.sup, WithRow(t, row))
    ensures Denotes(pages, l, WithRow(t, row))
  {
    hide Sound, SuperDenotes, ColumnIndex, FieldsOk, StringsOk, SchemaBytes, RowBytes, DirectoryBytes, Denotes;
    assert Rectangular(t.rows + [row], |t.fields|);
    SoundDenotes(pages, l, t.fields, t.rows + [row], t.generation + 1);
  }

  /** All edits of one insert, on the statement's own pages. */
  method EditPages(v: PageVector, sup: SuperFields, row: Row, ghost l: Layout, ghost t: Table)
    returns (r: Result<()>, ghost l': Layout)
    requires Denotes(v.pages, l, t) && sup == l.sup && Fits(t, row) && |v.pages| + MAX_GROWTH <= NO_PAGE
    modifies v
    ensures r.Ok? <==> HeadsReady(old(v.pages), l)
    ensures r.Ok? ==> Denotes(v.pages, l', WithRow(t, row)) && HeadsReady(v.pages, l')
    ensures r.Ok? ==>
              && DirtyCovers(old(v.pages), v.pages, v.dirty) && DirtyGrew(old(v.dirty), v.dirty, |v.pages|)
              && v.pages != []
    ensures r.Ok? ==> |old(v.pages)| <= |v.pages| <= |old(v.pages)| + MAX_GROWTH
  {
    hide Denotes, HeadsReady, DirtyCovers, WithRow, DirectoryBytes, All, Fits;
    l' := l;
    StreamsHaveHeads(v.pages, l, t);
    if sup.rowsHead >= |v.pages| || v.pages[sup.rowsHead].ptype != PageType.Rows { return Err(Corruption), l'; }
    HeadsSized(v.pages, l);
    if 0 + 8 > |v.pages[sup.rowsHead].payload| { return Err(LogicError), l'; }
    if sup.directoryHead >= |v.pages| || v.pages[sup.directoryHead].ptype != PageType.IndexDirectory {
      return Err(Corruption), l';
    }
    var roots := HeadRoots(v.pages[sup.directoryHead].payload, sup.fieldCount);
    WholeWhenReady(v.pages, l, t, row);
    if roots.Err? { return Err(Corruption), l'; }
    r, l' := EditStreams(v, sup, row, roots.value, l, t);
  }

  lemma HeadsSized(pages: seq<Page>, l: Layout)
    requires l.rowPages != [] && l.directory != [] && l.sup.rowsHead == l.rowPages[0] < |pages|
    requires l.sup.directoryHead == l.directory[0] < |pages|
    ensures HeadsReady(pages, l) <==>
      |pages[l.sup.rowsHead].payload| >= 8 && |pages[l.sup.directoryHead].payload| >= 4 + 4 * |l.indexes|
  {
  }

  /** The edits once both chain heads are known to be usable. */
  method EditStreams(v: PageVector, sup: SuperFields, row: Row, roots: seq<nat>, ghost l: Layout, ghost t: Table)
    returns (r: Result<()>, ghost l': Layout)
    requires Denotes(v.pages, l, t) && HeadsReady(v.pages, l) && sup == l.sup && Fits(t, row)
    requires |v.pages| + MAX_GROWTH <= NO_PAGE
    requires roots == RootsOf(l.indexes)
    modifies v
    ensures r.Ok? && Denotes(v.pages, l', WithRow(t, row)) && HeadsReady(v.pages, l') && v.pages != []
    ensures DirtyCovers(old(v.pages), v.pages, v.dirty) && DirtyGrew(old(v.dirty), v.dirty, |v.pages|)
    ensures |old(v.pages)| <= |v.pages| <= |old(v.pages)| + MAX_GROWTH
  {
    hide Denotes, Sound, EditState, HalfWay, SuperDenotes, LE, EncList, SchemaBytes, DirectoryBytes, ColumnIndex,
      DirtyCovers, WithRow, EncRow, StringsOk, Rectangular, FieldsOk, WriteLE, SuperBytes, All, PagesOk, HeadsReady,
      RowBytes;
    l' := l;
    ghost var before := v.pages;
    ghost var a := SchemaBytes(t.fields);
    StreamsHaveHeads(v.pages, l, t);
    StartEdit(before, l, t, row);
    RowSize(row);
    var encoded := EncodeRow(row);
    if encoded.Err? { return Err(LengthError), l'; }
    l' := EditRows(v, sup, encoded.value, row, l, t, a);
    ghost var mid, midDirty := v.pages, v.dirty;
    BeginIndexes(mid, l', a, RowBytes(t.rows + [row]));
    var done;
    ghost var rootsNow;
    done, l', rootsNow := InsertIntoIndexes(v, sup.directoryHead, roots, row, sup.rowCount, l', a,
        RowBytes(t.rows + [row]), t.rows);
    if done.Err? { return Err(LogicError), l'; }
    DirtyComposes(before, mid, midDirty, v.pages, v.dirty);
    ghost var edited, editedDirty := v.pages, v.dirty;
    EditParts(edited, l', a, RowBytes(t.rows + [row]), rootsNow);
    DenotesTable(before, l, t);
    l' := WriteSuper(v, sup, row, l', t);
    DirtyComposes(before, edited, editedDirty, v.pages, v.dirty);
    r := Ok(());
  }

  /** Generation, page count and row count of page zero. */
  method WriteSuper(v: PageVector, sup: SuperFields, row: Row, ghost l: Layout, ghost t: Table)
    returns (ghost l': Layout)
    requires FieldsOk(t.fields) && Rectangular(t.rows, |t.fields|) && Fits(t, row) && |l.indexes| == |t.fields|
    requires sup == l.sup && SuperOk(sup)
    requires Sound(v.pages, l, SchemaBytes(t.fields), RowBytes(t.rows + [row]), DirectoryBytes(RootsOf(l.indexes)))
    requires HeadsReady(v.pages, l)
    requires HalfWay(l.indexes, t.rows, row, |l.indexes|) && v.pages != [] && |v.pages| < U32
    requires v.pages[0].ptype == PageType.Superblock && v.pages[0].next == NO_PAGE
    requires v.pages[0].payload == SuperBytes(sup)
    requires sup.fieldCount == |t.fields| && sup.rowCount == |t.rows| && sup.generation == t.generation
    modifies v
    ensures Denotes(v.pages, l', WithRow(t, row)) && HeadsReady(v.pages, l') && |v.pages| == |old(v.pages)|
    ensures v.pages != []
    ensures DirtyCovers(old(v.pages), v.pages, v.dirty) && DirtyGrew(old(v.dirty), v.dirty, |v.pages|)
  {
    hide Denotes, Sound, HalfWay, SuperDenotes, SchemaBytes, DirectoryBytes, RowBytes, ColumnIndex, DirtyCovers,
      WithRow, StringsOk, Rectangular, FieldsOk, WriteLE, SuperBytes;
    ghost var edited := v.pages;
    var payload := WriteLE(WriteLE(WriteLE(v.pages[0].payload, 0, sup.generation + 1, 8), 12, |v.pages|, 4), 36,
        sup.rowCount + 1, 8);
    SuperRewritten(sup, sup.generation + 1, |v.pages|, sup.rowCount + 1);
    v.SetPayload(0, payload);
    WithRowSize(t, row);
    SuperWritten(edited, v.pages, l, SchemaBytes(t.fields), RowBytes(t.rows + [row]),
        DirectoryBytes(RootsOf(l.indexes)), t, WithRow(t, row));
    SetIsDirty(edited, v.pages, 0, v.dirty);
    l' := l.(sup := SuperAfter(l.sup, |edited|));
    FinishEdit(v.pages, l', t, row, RowBytes(t.rows + [row]));
  }

  lemma WithRowSize(t: Table, row: Row)
    ensures WithRow(t, row).generation == t.generation + 1 && |WithRow(t, row).rows| == |t.rows| + 1
    ensures WithRow(t, row).fields == t.fields
  {
  }

  lemma SetIsDirty(before: seq<Page>, after: seq<Page>, id: nat, dirty: set<nat>)
    requires |after| == |before| && id in dirty && forall x :: 0 <= x < |before| && x != id ==> after[x] == before[x]
    ensures DirtyCovers(before, after, dirty)
  {
  }

  lemma WholeWhenReady(pages: seq<Page>, l: Layout, t: Table, row: Row)
    requires Denotes(pages, l, t) && Fits(t, row)
    ensures HeadsReady(pages, l) ==>
      && pages[l.sup.directoryHead].payload == DirectoryBytes(RootsOf(l.indexes)) && All(RootsOf(l.indexes), IdOk)
      && |l.indexes| == l.sup.fieldCount
  {
    hide Denotes, Sound, SchemaBytes, RowBytes, DirectoryBytes, Payloads, LE, EncList, HalfWay, PagesOk, All;
    StreamsHaveHeads(pages, l, t);
    if HeadsReady(pages, l) {
      StartEdit(pages, l, t, row);
      WholeDirectory(pages, l, SchemaBytes(t.fields), LE(|t.rows|, 8) + EncList(t.rows, EncRow));
    }
  }

  /** Row count and row bytes. */
  method EditRows(v: PageVector, sup: SuperFields, encoded: Bytes, row: Row, ghost l: Layout, ghost t: Table,
          ghost a: Bytes)
    returns (ghost l': Layout)
    requires sup == l.sup && encoded == EncRow(row) && |encoded| <= 2 * PAYLOAD_SIZE && sup.rowCount == |t.rows|
    requires Sound(v.pages, l, a, LE(|t.rows|, 8) + EncList(t.rows, EncRow), DirectoryBytes(RootsOf(l.indexes)))
    requires HeadsReady(v.pages, l)
    requires |v.pages| + 3 <= NO_PAGE
    modifies v
    ensures Sound(v.pages, l', a, RowBytes(t.rows + [row]), DirectoryBytes(RootsOf(l'.indexes)))
    ensures HeadsReady(v.pages, l')
    ensures l' == l.(rowPages := l'.rowPages) && v.pages != [] && old(v.pages) != [] && v.pages[0] == old(v.pages[0])
    ensures |old(v.pages)| <= |v.pages| <= |old(v.pages)| + 3
    ensures DirtyCovers(old(v.pages), v.pages, v.dirty) && DirtyGrew(old(v.dirty), v.dirty, |v.pages|)
  {
    hide Sound, LE, EncList, SchemaBytes, DirectoryBytes, DirtyCovers, EncRow, WriteLE;
    ghost var before := v.pages;
    ghost var c := DirectoryBytes(RootsOf(l.indexes));
    SoundPages(before, l, a, LE(|t.rows|, 8) + EncList(t.rows, EncRow), c);
    var h := sup.rowsHead;
    v.SetPayload(h, WriteLE(v.pages[h].payload, 0, sup.rowCount + 1, 8));
    RowCountWritten(before, v.pages, l, a, c, |t.rows|, |t.rows| + 1, EncList(t.rows, EncRow));
    SetIsDirty(before, v.pages, h, v.dirty);
    ghost var mid, midDirty := v.pages, v.dirty;
    l' := AppendRow(v, encoded, h, l, a, LE(|t.rows| + 1, 8) + EncList(t.rows, EncRow), c);
    DirtyComposes(before, mid, midDirty, v.pages, v.dirty);
    RowBytesGrow(t.rows, row);
    Reassociate(LE(|t.rows| + 1, 8), EncList(t.rows, EncRow), encoded);
    SoundPages(v.pages, l', a, RowBytes(t.rows + [row]), c);
  }

  // ----- on images

  /** An image of the table `t` that an insert can extend in place. */
  ghost predicate Extendable(image: Bytes, t: Table) {
    exists pages, l :: pages != [] && Stores(image, pages) && Denotes(pages, l, t) && HeadsReady(pages, l)
  }

  lemma ExtendableDenotes(image: Bytes, t: Table)
    requires Extendable(image, t)
    ensures ImageDenotes(image, t)
  {
    hide Stores, Denotes;
  }

  lemma HeadsAreKnown(pages: seq<Page>, l: Layout, t: Table, l': Layout, t': Table)
    requires Denotes(pages, l, t) && Denotes(pages, l', t') && HeadsReady(pages, l')
    ensures HeadsReady(pages, l)
  {
    hide Denotes, SuperBytes;
    StreamsHaveHeads(pages, l, t);
    StreamsHaveHeads(pages, l', t');
    SuperInjective(l.sup, l'.sup);
  }

  /** The page of an image at its offset. */
  function PageAt(image: Bytes, p: nat): (b: Bytes)
    requires PAGE_SIZE * (p + 1) <= |image|
    ensures |b| == PAGE_SIZE
  {
    image[PAGE_SIZE * p..PAGE_SIZE * (p + 1)]
  }

  /** Every page that is new or differs byte for byte is in the dirty set. */
  ghost predicate DirtyComplete(old_: Bytes, new_: Bytes, dirty: set<nat>) {
    && |old_| <= |new_| && |old_| % PAGE_SIZE == 0 && |new_| % PAGE_SIZE == 0
    && (forall p :: p in dirty ==> PAGE_SIZE * (p + 1) <= |new_|)
    && forall p: nat :: PAGE_SIZE * (p + 1) <= |new_| && p !in dirty ==>
         PAGE_SIZE * (p + 1) <= |old_| && PageAt(new_, p) == PageAt(old_, p)
  }

  lemma DirtyPagesToBytes(old_: Bytes, new_: Bytes, before: seq<Page>, after: seq<Page>, dirty: set<nat>)
    requires Stores(old_, before) && Stores(new_, after) && |before| <= |after|
    requires DirtyCovers(before, after, dirty) && forall p :: p in dirty ==> p < |after|
    ensures DirtyComplete(old_, new_, dirty)
  {
    hide ImageOf, PageOk, EncodePage;
    StoredSize(old_, before);
    StoredSize(new_, after);
    forall p: nat | PAGE_SIZE * (p + 1) <= |new_| && p !in dirty
      ensures PAGE_SIZE * (p + 1) <= |old_| && PageAt(new_, p) == PageAt(old_, p)
    {
      assert p < |after|;
      ImageSlice(after, p);
      ImageSlice(before, p);
    }
  }

  /** Parse, edit, encode, and parse again: succeeds exactly on extendable
      images and fitting rows, and then the self-check never fails. */
  method BuildIncrementalInsert(currentImage: Bytes, row: Row) returns (r: Result<IncrementalImage>)
    requires |currentImage| / PAGE_SIZE + MAX_GROWTH <= NO_PAGE
    ensures r.Ok? <==> exists t :: Extendable(currentImage, t) && Fits(t, row)
    ensures forall t :: Extendable(currentImage, t) && Fits(t, row) ==>
              && Extendable(r.value.image, WithRow(t, row)) && r.value.generation == t.generation + 1
              && DirtyComplete(currentImage, r.value.image, r.value.dirtyPages)
    ensures r.Ok? ==> |r.value.image| <= |currentImage| + PAGE_SIZE * MAX_GROWTH
    ensures forall t :: ImageDenotes(currentImage, t) && |row| != |t.fields| ==> r == Err(InvalidArgument)
    ensures forall t :: ImageDenotes(currentImage, t) && |row| == |t.fields| && !StringsOk(row) ==>
              r == Err(LengthError)
  {
    hide Stores, Denotes, StringsOk, HeadsReady, DirtyCovers, DirtyComplete, WithRow, Extendable, ImageDenotes,
      EncodePage;
    var parsed, pages;
    ghost var l;
    parsed, pages, l := ParseImage(currentImage);
    forall t | ImageDenotes(currentImage, t)
      ensures parsed.Ok? && t == parsed.value
    {
      SameTable(currentImage, parsed, t);
    }
    forall t | Extendable(currentImage, t) ensures parsed.Ok? && t == parsed.value && HeadsReady(pages, l) {
      ExtendableDenotes(currentImage, t);
      SameHeads(currentImage, t, pages, l, parsed.value);
    }
    if parsed.Err? { return Err(Corruption); }
    var table := parsed.value;
    if |row| != |table.fields| { return Err(InvalidArgument); }
    var ok := ValuesFit(row);
    if !ok { return Err(LengthError); }
    if table.generation == U64 - 1 { return Err(Overflow); }
    if |table.rows| == U64 - 1 { return Err(Overflow); }
    StoredSize(currentImage, pages);
    DenotedBounds(pages, l, table);
    var sup := DecodeSuper(pages[0].payload);
    if sup.Err? { return Err(Corruption); }
    SuperInjective(sup.value, l.sup);
    var v := new PageVector(pages);
    var edited;
    ghost var l';
    edited, l' := EditPages(v, sup.value, row, l, table);
    if edited.Err? { return Err(LogicError); }
    EditedOk(v.pages, l', WithRow(table, row));
    var image := EncodePages(v.pages);
    EditedImage(image, v.pages, l', WithRow(table, row));
    var check, checkedPages;
    ghost var checkedLayout;
    check, checkedPages, checkedLayout := ParseImage(image);
    if check.Err? { return Err(Corruption); }
    DirtyPagesToBytes(currentImage, image, pages, v.pages, v.dirty);
    StoredSize(image, v.pages);
    StillExtendable(currentImage, pages, l, table);
    r := Ok(IncrementalImage(image, v.dirty, table.generation + 1));
  }

  lemma SameTable(image: Bytes, parsed: Result<Table>, t: Table)
    requires ImageDenotes(image, t)
    requires parsed.Ok? ==> ImageDenotes(image, parsed.value)
    requires parsed.Err? ==> !ImageDenotes(image, t)
    ensures parsed.Ok? && t == parsed.value
  {
    hide ImageDenotes;
    ImageDenotesUnique(image, parsed.value, t);
  }

  lemma SameHeads(image: Bytes, t: Table, pages: seq<Page>, l: Layout, t': Table)
    requires Extendable(image, t) && Stores(image, pages) && Denotes(pages, l, t')
    ensures HeadsReady(pages, l)
  {
    hide Stores, Denotes, HeadsReady;
    var p, m :| p != [] && Stores(image, p) && Denotes(p, m, t) && HeadsReady(p, m);
    StoresUnique(image, p, pages);
    HeadsAreKnown(pages, l, t', m, t);
  }

  lemma DenotedBounds(pages: seq<Page>, l: Layout, t: Table)
    requires Denotes(pages, l, t)
    ensures t.generation < U64 && |t.rows| < U64 && IsSuper(pages[0].payload, l.sup)
  {
  }

  lemma EditedOk(pages: seq<Page>, l: Layout, t: Table)
    requires Denotes(pages, l, t)
    ensures PagesOk(pages)
  {
  }

  lemma EditedImage(image: Bytes, pages: seq<Page>, l: Layout, t: Table)
    requires Denotes(pages, l, t) && HeadsReady(pages, l) && pages != [] && PagesOk(pages) && image == ImageOf(pages)
    ensures Extendable(image, t) && ImageDenotes(image, t) && Stores(image, pages)
  {
    hide Denotes, ImageOf, PagesOk, HeadsReady;
    assert Stores(image, pages);
  }

  lemma StillExtendable(image: Bytes, pages: seq<Page>, l: Layout, t: Table)
    requires pages != [] && Stores(image, pages) && Denotes(pages, l, t) && HeadsReady(pages, l)
    ensures Extendable(image, t)
  {
  }
}
