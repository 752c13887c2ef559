/** `build_image`: the image of a whole table, from its fields and rows. */
module ImageBuilder {
  import opened Ordering
  import opened Codec
  import opened PageCodec
  import opened IndexPages
  import opened IndexTree
  import opened IndexGrowth
  import opened PageStore
  import opened IndexRoot
  import opened BulkLoad
  import opened Streams
  import opened Chains
  import opened TableImage
  import opened ImageReader
  import opened ImageCodec
  import opened TableState
  import opened RowInsert
  import opened IncrementalInsert

  // ----- the schema check

  /** Row `k` is the first one that does not suit the schema. */
  ghost predicate FirstBadRow(rows: seq<Row>, fieldCount: nat, k: nat) {
    k < |rows| && Rectangular(rows[..k], fieldCount) && !(|rows[k]| == fieldCount && StringsOk(rows[k]))
  }

  method ValidateFields(fields: seq<Key>) returns (ok: bool)
    ensures ok <==> FieldsOk(fields)
  {
    if fields == [] || |fields| > MAX_FIELDS { return false; }
    var unique: set<Key> := {};
    for i := 0 to |fields|
      invariant unique == set f | f in fields[..i]
      invariant StringsOk(fields[..i]) && [] !in fields[..i]
      invariant forall a, b :: 0 <= a < b < i ==> fields[a] != fields[b]
    {
      assert fields[..i + 1] == fields[..i] + [fields[i]];
      if fields[i] == [] || |fields[i]| > MAX_VALUE_LENGTH {
        assert !StringOk(fields[i]) || fields[i] == [];
        return false;
      }
      if fields[i] in unique {
        var a :| 0 <= a < i && fields[..i][a] == fields[i];
        assert fields[a] == fields[i];
        return false;
      }
      forall a | 0 <= a < i ensures fields[a] != fields[i] {
        assert fields[..i][a] in unique;
      }
      unique := unique + {fields[i]};
    }
    assert fields[..|fields|] == fields;
    ok := true;
  }

  /** `validate_schema`. */
  method ValidateSchema(fields: seq<Key>, rows: seq<Row>) returns (r: Result<()>)
    ensures r.Ok? <==> FieldsOk(fields) && Rectangular(rows, |fields|)
    ensures !FieldsOk(fields) ==> r == Err(InvalidArgument)
    ensures FieldsOk(fields) ==> forall k: nat :: FirstBadRow(rows, |fields|, k) ==>
              r == Err(if |rows[k]| != |fields| then InvalidArgument else LengthError)
  {
    hide StringsOk, FieldsOk;
    var ok := ValidateFields(fields);
    if !ok { return Err(InvalidArgument); }
    for i := 0 to |rows|
      invariant Rectangular(rows[..i], |fields|)
    {
      if |rows[i]| != |fields| {
        FirstIsUnique(rows, |fields|, i);
        return Err(InvalidArgument);
      }
      var fit := ValuesFit(rows[i]);
      if !fit {
        FirstIsUnique(rows, |fields|, i);
        return Err(LengthError);
      }
      assert rows[..i + 1] == rows[..i] + [rows[i]];
    }
    assert rows[..|rows|] == rows;
    forall k: nat ensures !FirstBadRow(rows, |fields|, k) {}
    r := Ok(());
  }

  lemma FirstIsUnique(rows: seq<Row>, fieldCount: nat, i: nat)
    requires FirstBadRow(rows, fieldCount, i)
    ensures !Rectangular(rows, fieldCount)
    ensures forall k: nat :: FirstBadRow(rows, fieldCount, k) ==> k == i
  {
    hide StringsOk;
    forall k: nat | FirstBadRow(rows, fieldCount, k) ensures k == i {
      if k < i {
        RowOfPrefix(rows, fieldCount, i, k);
      } else if i < k {
        RowOfPrefix(rows, fieldCount, k, i);
      }
    }
  }

  lemma RowOfPrefix(rows: seq<Row>, fieldCount: nat, n: nat, i: nat)
    requires i < n <= |rows| && Rectangular(rows[..n], fieldCount)
    ensures |rows[i]| == fieldCount && StringsOk(rows[i])
  {
    hide StringsOk;
    assert rows[..n][i] == rows[i];
  }

  // ----- chains

  function ChainLength(size: nat): (n: nat)
    ensures n >= 1
  {
    if size <= PAYLOAD_SIZE then 1 else 1 + ChainLength(size - PAYLOAD_SIZE)
  }

  /** What `AddChain` leaves behind the old pages. */
  ghost predicate ChainAdded(before: seq<Page>, after: seq<Page>, ids: seq<nat>, ptype: PageType, bytes: Bytes) {
    && PagesOk(after) && |before| < |after| && after[..|before|] == before
    && ids == Consecutive(|before|, |after| - |before|)
    && Chained(after, |before|, ids, ptype) && Payloads(after, ids) == bytes
    && |after[|before|].payload| == (if |bytes| < PAYLOAD_SIZE then |bytes| else PAYLOAD_SIZE)
  }

  lemma FirstLink(before: seq<Page>, ptype: PageType, part: Bytes)
    requires PagesOk(before) && |before| < NO_PAGE && |part| <= PAYLOAD_SIZE
    ensures ChainAdded(before, before + [Page(ptype, |before|, NO_PAGE, part)], Consecutive(|before|, 1), ptype, part)
  {
    var n := |before|;
    var after := before + [Page(ptype, n, NO_PAGE, part)];
    var ids := Consecutive(n, 1);
    assert ids == [n] && ids[1..] == [];
    assert Follow(after, NO_PAGE, ids[1..], NO_PAGE);
    assert after[..n] == before;
    PayloadsOne(after, n);
  }

  lemma NextLink(before: seq<Page>, pages: seq<Page>, ids: seq<nat>, ptype: PageType, bytes: Bytes, part: Bytes)
    requires ChainAdded(before, pages, ids, ptype, bytes) && |pages| < NO_PAGE && |part| <= PAYLOAD_SIZE
    requires |bytes| >= PAYLOAD_SIZE
    ensures var last, n := |pages| - 1, |pages|;
      && pages[last].ptype == ptype && pages[last].next == NO_PAGE && pages[last].id == last
      && var after := pages[last := pages[last].(next := n)] + [Page(ptype, n, NO_PAGE, part)];
         ChainAdded(before, after, Consecutive(|before|, |after| - |before|), ptype, bytes + part)
  {
    hide Payloads, Follow, NoDup;
    var last, n, b := |pages| - 1, |pages|, |before|;
    LastOf(pages, b, ids, ptype);
    var p := Page(ptype, n, NO_PAGE, part);
    ChainGrows(pages, b, ids, ptype, p);
    var after := pages[last := pages[last].(next := n)] + [p];
    assert ids + [n] == Consecutive(b, n + 1 - b);
    assert after[..b] == pages[..b];
  }

  /** `add_chain`: cuts a byte stream into consecutive linked pages. */
  method AddChain(pages0: seq<Page>, ptype: PageType, bytes: Bytes)
    returns (pages: seq<Page>, first: nat, ghost ids: seq<nat>)
    requires PagesOk(pages0) && |pages0| + ChainLength(|bytes|) <= NO_PAGE
    ensures first == |pages0| && |pages| == |pages0| + ChainLength(|bytes|)
    ensures ChainAdded(pages0, pages, ids, ptype, bytes)
  {
    hide ChainAdded, PagesOk;
    pages, first, ids := pages0, |pages0|, [];
    if bytes == [] {
      FirstLink(pages0, ptype, []);
      pages, ids := pages + [Page(ptype, first, NO_PAGE, [])], Consecutive(first, 1);
      return;
    }
    var offset := 0;
    while offset < |bytes|
      invariant offset <= |bytes|
      invariant |pages| + (if offset == |bytes| then 0 else ChainLength(|bytes| - offset)) ==
                  |pages0| + ChainLength(|bytes|)
      invariant if offset == 0 then pages == pages0 else ChainAdded(pages0, pages, ids, ptype, bytes[..offset])
      invariant 0 < offset < |bytes| ==> offset >= PAYLOAD_SIZE
      invariant |pages| >= first && (offset > 0 ==> |pages| > first)
    {
      var size := if PAYLOAD_SIZE < |bytes| - offset then PAYLOAD_SIZE else |bytes| - offset;
      var part := bytes[offset..offset + size];
      var page := Page(ptype, |pages|, NO_PAGE, part);
      ghost var expected;
      assert bytes[..offset + size] == bytes[..offset] + part;
      if offset == 0 {
        OwnId(pages0);
        FirstLink(pages0, ptype, part);
        assert bytes[..offset + size] == part;
        expected := pages0 + [page];
      } else {
        NextLink(pages0, pages, ids, ptype, bytes[..offset], part);
        expected := pages[|pages| - 1 := pages[|pages| - 1].(next := |pages|)] + [page];
      }
      if pages != [] && pages[|pages| - 1].ptype == ptype && pages[|pages| - 1].next == NO_PAGE
       && pages[|pages| - 1].id >= first
    {
        pages := pages[|pages| - 1 := pages[|pages| - 1].(next := page.id)];
      }
      pages := pages + [page];
      assert pages == expected;
      ids := Consecutive(first, |pages| - first);
      offset := offset + size;
    }
    assert bytes[..offset] == bytes;
  }

  lemma OwnId(pages: seq<Page>)
    requires PagesOk(pages)
    ensures pages != [] ==> pages[|pages| - 1].id < |pages|
  {
  }

  // ----- one more index

  lemma IndexAppended(before: seq<Page>, after: seq<Page>, l: Layout, y: Index, a: Bytes, b: Bytes, c: Bytes)
    requires Sound(before, l, a, b, c) && PagesOk(after) && |before| <= |after| && after[..|before|] == before
    requires IndexOk(after, y) && PagesOf(y) == Range(|before|, |after|)
    ensures Sound(after, l.(indexes := l.indexes + [y]), a, b, c)
  {
    hide Chained, Payloads, IndexOk, PagesOk, Unchanged, PagesOf, SetOf, Owned;
    forall s ensures Unchanged(before, after, s) { PrefixIsUnchanged(before, after, s); }
    SoundFrame(before, after, l, a, b, c);
    IndexAppendedOwned(l, y, |before|, |after|);
  }

  lemma PrefixIsUnchanged(before: seq<Page>, after: seq<Page>, s: set<nat>)
    requires |before| <= |after| && after[..|before|] == before
    ensures Unchanged(before, after, s)
  {
    forall x | x in s && x < |before| ensures after[x] == before[x] { assert after[..|before|][x] == after[x]; }
  }

  lemma IndexAppendedOwned(l: Layout, y: Index, n: nat, m: nat)
    requires Owned(l, n) && n <= m && PagesOf(y) == Range(n, m)
    ensures Owned(l.(indexes := l.indexes + [y]), m)
  {
    hide PagesOf, ChainPages;
    BelowOwned(l, n);
    var xs, ys := l.indexes, l.indexes + [y];
    SameChains(l, ys);
    assert ChainsApart(l.(indexes := ys));
    forall p: nat ensures InSome(ys, p) <==> InSome(xs, p) || n <= p < m {
      if InSome(xs, p) {
        var i :| 0 <= i < |xs| && p in PagesOf(xs[i]);
        assert p in PagesOf(ys[i]);
      }
      if n <= p < m { assert p in PagesOf(ys[|xs|]); }
    }
  }

  // ----- before the indexes

  /** The three chains of a new image, side by side. */
  ghost predicate Framework(pages: seq<Page>, l: Layout, schemaBytes: Bytes, rowBytes: Bytes) {
    && Sound(pages, l, schemaBytes, rowBytes, []) && l.indexes == [] && l.directory == [l.sup.directoryHead]
    && pages[0].ptype == PageType.Superblock && pages[0].next == NO_PAGE
    && l.rowPages != [] && l.sup.rowsHead == l.rowPages[0] < |pages| && |pages[l.sup.rowsHead].payload| >= 8
    && l.sup.directoryHead < |pages|
  }

  lemma ChainAddedKeeps(pages: seq<Page>, before: seq<Page>, after: seq<Page>, ids: seq<nat>, ptype: PageType,
          bytes: Bytes, head: nat, old_: seq<nat>, ptype': PageType)
    requires ChainAdded(before, after, ids, ptype, bytes) && Chained(before, head, old_, ptype')
    ensures Chained(after, head, old_, ptype') && Payloads(after, old_) == Payloads(before, old_)
  {
    forall x | x in old_ && x < |before| ensures after[x] == before[x] { assert after[..|before|][x] == after[x]; }
    ChainedFrame(before, after, head, old_, ptype');
  }

  lemma ConsecutiveRange(base: nat, n: nat)
    ensures SetOf(Consecutive(base, n)) == Range(base, base + n)
  {
    forall x ensures x in Consecutive(base, n) <==> base <= x < base + n {
      if base <= x < base + n { assert Consecutive(base, n)[x - base] == x; }
    }
  }

  lemma FrameworkOwned(l: Layout, p: nat, q: nat, n: nat)
    requires 1 < p < q < n && l.indexes == []
    requires l.schema == Consecutive(1, p - 1) && l.rowPages == Consecutive(p, q - p)
    requires l.directory == Consecutive(q, n - q)
    ensures Owned(l, n)
  {
    hide SetOf, PagesOf, Consecutive;
    ConsecutiveRange(1, p - 1);
    ConsecutiveRange(p, q - p);
    ConsecutiveRange(q, n - q);
  }

  lemma FrameworkBuilt(one: seq<Page>, two: seq<Page>, three: seq<Page>, l: Layout, a: Bytes, b: Bytes)
    requires var start := [Page(PageType.Superblock, 0, NO_PAGE, [])];
      ChainAdded(start, one, l.schema, PageType.Schema, a) && ChainAdded(one, two, l.rowPages, PageType.Rows, b)
    requires ChainAdded(two, three, l.directory, PageType.IndexDirectory, []) && |three| == |two| + 1 && l.indexes == []
    requires |b| >= 8
    requires l.sup.schemaHead == 1 && l.sup.rowsHead == |one| && l.sup.directoryHead == |two|
    ensures Framework(three, l, a, b)
  {
    hide Payloads, Chained, Owned, PagesOk;
    var start := [Page(PageType.Superblock, 0, NO_PAGE, [])];
    ChainAddedKeeps(three, one, two, l.rowPages, PageType.Rows, b, 1, l.schema, PageType.Schema);
    ChainAddedKeeps(three, two, three, l.directory, PageType.IndexDirectory, [], 1, l.schema, PageType.Schema);
    ChainAddedKeeps(three, two, three, l.directory, PageType.IndexDirectory, [], |one|, l.rowPages, PageType.Rows);
    FrameworkOwned(l, |one|, |two|, |three|);
    assert l.directory == [|two|];
    assert three[0] == three[..|two|][0] == two[..|one|][0] == one[..1][0] == start[0];
    assert three[|one|] == three[..|two|][|one|];
  }

  /** Page zero, the schema, the rows, and an empty directory page. */
  method BuildFramework(schemaBytes: Bytes, rowBytes: Bytes)
    returns (pages: seq<Page>, sup: SuperFields, ghost l: Layout)
    requires |rowBytes| >= 8 && 2 + ChainLength(|schemaBytes|) + ChainLength(|rowBytes|) <= NO_PAGE
    ensures Framework(pages, l, schemaBytes, rowBytes) && l.sup == sup
    ensures |pages| == 2 + ChainLength(|schemaBytes|) + ChainLength(|rowBytes|)
  {
    hide ChainAdded, Framework;
    pages := [Page(PageType.Superblock, 0, NO_PAGE, [])];
    var schemaHead, rowsHead;
    ghost var schema, rowPages;
    pages, schemaHead, schema := AddChain(pages, PageType.Schema, schemaBytes);
    ghost var one := pages;
    AddedOk([Page(PageType.Superblock, 0, NO_PAGE, [])], one, schema, PageType.Schema, schemaBytes);
    pages, rowsHead, rowPages := AddChain(pages, PageType.Rows, rowBytes);
    ghost var two := pages;
    AddedOk(one, two, rowPages, PageType.Rows, rowBytes);
    var directoryHead := |pages|;
    FirstLink(pages, PageType.IndexDirectory, []);
    pages := pages + [Page(PageType.IndexDirectory, directoryHead, NO_PAGE, [])];
    sup := SuperFields(0, 0, schemaHead, rowsHead, directoryHead, 0, 0);
    l := Layout(sup, schema, rowPages, Consecutive(directoryHead, 1), []);
    FrameworkBuilt(one, two, pages, l, schemaBytes, rowBytes);
  }

  lemma AddedOk(before: seq<Page>, after: seq<Page>, ids: seq<nat>, ptype: PageType, bytes: Bytes)
    requires ChainAdded(before, after, ids, ptype, bytes)
    ensures PagesOk(after)
  {
  }

  // ----- the indexes

  /** The framework with the indexes of the first fields behind it. */
  ghost predicate Indexed(pages: seq<Page>, l: Layout, schemaBytes: Bytes, rowBytes: Bytes, rows: seq<Row>) {
    && Sound(pages, l, schemaBytes, rowBytes, []) && l.directory == [l.sup.directoryHead]
    && pages[0].ptype == PageType.Superblock && pages[0].next == NO_PAGE
    && l.rowPages != [] && l.sup.rowsHead == l.rowPages[0] < |pages| && |pages[l.sup.rowsHead].payload| >= 8
    && l.sup.directoryHead < |pages|
    && forall f :: 0 <= f < |l.indexes| ==> EntriesOf(l.indexes[f]) == ColumnIndex(rows, f)
  }

  lemma OneMoreIndex(before: seq<Page>, after: seq<Page>, l: Layout, y: Index, a: Bytes, b: Bytes, rows: seq<Row>)
    requires Indexed(before, l, a, b, rows) && PagesOk(after) && |before| <= |after| && after[..|before|] == before
    requires IndexOk(after, y) && PagesOf(y) == Range(|before|, |after|)
    requires EntriesOf(y) == ColumnIndex(rows, |l.indexes|)
    ensures Indexed(after, l.(indexes := l.indexes + [y]), a, b, rows)
  {
    hide Sound, IndexOk, PagesOk, PagesOf, EntriesOf, ColumnIndex;
    IndexAppended(before, after, l, y, a, b, []);
    SoundPages(before, l, a, b, []);
    forall x | 0 <= x < |before| ensures after[x] == before[x] { assert after[..|before|][x] == after[x]; }
  }

  /** The entries of one field, in row order. */
  method CollectColumn(rows: seq<Row>, field: nat) returns (entries: seq<Entry>)
    requires forall i :: 0 <= i < |rows| ==> field < |rows[i]|
    ensures entries == Column(rows, field)
  {
    entries := [];
    for row := 0 to |rows|
      invariant entries == Column(rows, field)[..row]
    {
      entries := entries + [Entry(rows[row][field], row)];
    }
  }

  method BuildIndexes(pages0: seq<Page>, rows: seq<Row>, fieldCount: nat, ghost l0: Layout, ghost a: Bytes,
          ghost b: Bytes)
    returns (r: Result<seq<Page>>, roots: seq<nat>, ghost l: Layout)
    requires Indexed(pages0, l0, a, b, rows) && l0.indexes == [] && Rectangular(rows, fieldCount) && |rows| < U64
    requires |pages0| + fieldCount * (2 * LeafBudget(|rows|)) <= NO_PAGE
    ensures r.Ok? && Indexed(r.value, l, a, b, rows) && l == l0.(indexes := l.indexes)
    ensures roots == RootsOf(l.indexes) && |roots| == fieldCount
    ensures |r.value| <= |pages0| + fieldCount * (2 * LeafBudget(|rows|))
  {
    hide Indexed, IndexOk, ColumnIndex, Sorted, EntryOk, StringsOk, LeafBudget, SortEntries, Column, PagesOf, EntriesOf,
      Range, All, PagesOk;
    ghost var budget := 2 * LeafBudget(|rows|);
    var pages := pages0;
    roots, l := [], l0;
    for field := 0 to fieldCount
      invariant Indexed(pages, l, a, b, rows) && l == l0.(indexes := l.indexes)
      invariant roots == RootsOf(l.indexes) && |roots| == field && |pages| <= |pages0| + field * budget
    {
      var column := CollectColumn(rows, field);
      var entries := SortEntries(column);
      assert entries == ColumnIndex(rows, field) by { SortedColumn(rows, field); }
      ColumnIndexSorted(rows, field);
      ColumnOk(rows, fieldCount, field);
      ColumnSize(rows, field);
      IndexedPages(pages, l, a, b, rows);
      BudgetStep(field, fieldCount, budget);
      var root;
      ghost var y;
      r, root, y := BuildIndex(pages, entries);
      if r.Err? { return; }
      OneMoreIndex(pages, r.value, l, y, a, b, rows);
      pages, roots := r.value, roots + [root];
      l := l.(indexes := l.indexes + [y]);
      assert RootsOf(l.indexes) == roots;
    }
    r := Ok(pages);
  }

  lemma SortedColumn(rows: seq<Row>, f: nat)
    ensures SortEntries(Column(rows, f)) == ColumnIndex(rows, f)
  {
  }

  lemma ColumnSize(rows: seq<Row>, f: nat)
    ensures |ColumnIndex(rows, f)| == |rows|
  {
    hide ColumnIndex;
    ColumnIndexSorted(rows, f);
    assert |multiset(ColumnIndex(rows, f))| == |multiset(Column(rows, f))|;
  }

  lemma BudgetStep(field: nat, fieldCount: nat, budget: nat)
    requires field < fieldCount
    ensures field * budget + budget == (field + 1) * budget <= fieldCount * budget
  {
  }

  lemma IndexedPages(pages: seq<Page>, l: Layout, a: Bytes, b: Bytes, rows: seq<Row>)
    requires Indexed(pages, l, a, b, rows)
    ensures PagesOk(pages) && pages != []
  {
    hide Chained, Payloads, Owned, IndexOk;
  }

  // ----- directory and superblock

  lemma DirectoryWritten(before: seq<Page>, after: seq<Page>, l: Layout, a: Bytes, b: Bytes, rows: seq<Row>)
    requires Indexed(before, l, a, b, rows) && |l.indexes| <= MAX_FIELDS
    requires var d := l.sup.directoryHead;
      after == before[d := before[d].(payload := DirectoryBytes(RootsOf(l.indexes)))]
    ensures Sound(after, l, a, b, DirectoryBytes(RootsOf(l.indexes))) && HeadsReady(after, l)
    ensures after[0] == before[0] && |after| == |before|
  {
    hide Payloads, Owned, IndexOk, Follow, Typed, NoDup, DirectoryBytes, ColumnIndex, EntriesOf;
    var d := l.sup.directoryHead;
    var payload := DirectoryBytes(RootsOf(l.indexes));
    DirectorySize(RootsOf(l.indexes));
    HeadRewritten(before, after, d, l.directory, PageType.IndexDirectory, payload);
    NoPayloads(after, l.directory[1..]);
    NoPayloads(before, l.directory[1..]);
    SetPayloadOnly(before, after, d, payload, SetOf(l.directory));
    DirectoryEdited(before, after, l, a, b, [], payload);
    HeadsDiffer(before, l);
  }

  lemma NoPayloads(pages: seq<Page>, ids: seq<nat>)
    requires ids == []
    ensures Payloads(pages, ids) == []
  {
  }

  lemma HeadsDiffer(pages: seq<Page>, l: Layout)
    requires Owned(l, |pages|) && l.rowPages != [] && l.directory != []
    ensures l.rowPages[0] != l.directory[0]
  {
    hide Owned;
    ApartFrom(l, |pages|);
    assert l.rowPages[0] in SetOf(l.rowPages) && l.directory[0] in SetOf(l.directory);
  }

  lemma SuperPut(before: seq<Page>, after: seq<Page>, l: Layout, sup: SuperFields, fields: seq<Key>, rows: seq<Row>,
          a: Bytes, b: Bytes, c: Bytes)
    requires Sound(before, l, a, b, c) && HeadsReady(before, l) && before[0].ptype == PageType.Superblock
    requires before[0].next == NO_PAGE
    requires sup.generation < U64 && |rows| < U64 && |fields| < U32 && l.sup.schemaHead < U32
    requires sup ==
               l.sup.(generation := sup.generation, pageCount := |before|, fieldCount := |fields|, rowCount := |rows|)
    requires after == before[0 := before[0].(payload := SuperBytes(sup))]
    ensures var l' := l.(sup := sup);
      && Sound(after, l', a, b, c) && HeadsReady(after, l')
      && SuperDenotes(after, sup, TableOf(fields, rows, sup.generation))
  {
    hide Chained, Payloads, Owned, IndexOk, SuperBytes, ChainPages, ColumnIndex;
    var l' := l.(sup := sup);
    SetPayloadOnly(before, after, 0, after[0].payload, {0});
    SuperEdited(before, after, l, a, b, c);
    ApartFrom(l, |before|);
    assert l.rowPages[0] in SetOf(l.rowPages) && l.directory[0] in SetOf(l.directory);
    OwnedIgnoresSuper(l, l', |after|);
  }

  /** The pages an image of this table may need. */
  function PageBudget(fields: seq<Key>, rows: seq<Row>): nat {
    2 + ChainLength(|SchemaBytes(fields)|) + ChainLength(|RowBytes(rows)|) + |fields| * (2 * LeafBudget(|rows|))
  }

  /** Encoded rows behind their count. */
  method EncodeRows(rows: seq<Row>, ghost fieldCount: nat) returns (r: Result<Bytes>)
    requires Rectangular(rows, fieldCount)
    ensures r == Ok(RowBytes(rows))
  {
    hide LE, EncRow, EncList, StringsOk;
    var output := AppendLE([], |rows|, 8);
    EncNothing(EncRow);
    assert output == LE(|rows|, 8) + EncList(rows[..0], EncRow);
    for i := 0 to |rows|
      invariant output == LE(|rows|, 8) + EncList(rows[..i], EncRow)
    {
      var row := EncodeRow(rows[i]);
      if row.Err? { return Err(LengthError); }
      EncListAppend(rows[..i], rows[i], EncRow);
      assert rows[..i + 1] == rows[..i] + [rows[i]];
      Reassociate(LE(|rows|, 8), EncList(rows[..i], EncRow), EncRow(rows[i]));
      output := output + row.value;
    }
    assert rows[..|rows|] == rows;
    r := Ok(output);
  }

  lemma StartIndexes(pages: seq<Page>, l: Layout, a: Bytes, b: Bytes, rows: seq<Row>)
    requires Framework(pages, l, a, b)
    ensures Indexed(pages, l, a, b, rows) && l.indexes == [] && l.sup.directoryHead < |pages| && l.sup.schemaHead < U32
  {
    hide Payloads, Owned, IndexOk, Typed, NoDup, ColumnIndex;
  }

  lemma RowBytesLong(rows: seq<Row>)
    ensures |RowBytes(rows)| >= 8
  {
  }

  lemma IndexedHeads(pages: seq<Page>, l: Layout, a: Bytes, b: Bytes, rows: seq<Row>)
    requires Indexed(pages, l, a, b, rows)
    ensures PagesOk(pages) && pages != [] && |pages| < U32 && l.sup.directoryHead < |pages|
    ensures pages[0].ptype == PageType.Superblock && pages[0].next == NO_PAGE
    ensures forall f :: 0 <= f < |l.indexes| ==> EntriesOf(l.indexes[f]) == ColumnIndex(rows, f)
  {
    hide Chained, Payloads, Owned, IndexOk;
  }

  /** Index roots behind their count. */
  method EncodeDirectory(roots: seq<nat>) returns (output: Bytes)
    ensures output == DirectoryBytes(roots)
  {
    hide LE, EncList;
    output := AppendLE([], |roots|, 4);
    EncNothing(EncId);
    assert output == LE(|roots|, 4) + EncList(roots[..0], EncId);
    for i := 0 to |roots|
      invariant output == LE(|roots|, 4) + EncList(roots[..i], EncId)
    {
      output := AppendLE(output, roots[i], 4);
      EncListAppend(roots[..i], roots[i], EncId);
      assert roots[..i + 1] == roots[..i] + [roots[i]];
      Reassociate(LE(|roots|, 4), EncList(roots[..i], EncId), EncId(roots[i]));
    }
    assert roots[..|roots|] == roots;
  }

  /** `build_image`: succeeds exactly on valid schemas, with an image that
      denotes the table and that inserts can extend in place. */
  method BuildImage(fields: seq<Key>, rows: seq<Row>, generation: nat) returns (r: Result<Bytes>)
    requires generation < U64 && |rows| < U64 && PageBudget(fields, rows) <= NO_PAGE
    ensures r.Ok? <==> FieldsOk(fields) && Rectangular(rows, |fields|)
    ensures r.Ok? ==>
              && Extendable(r.value, TableOf(fields, rows, generation))
              && ImageDenotes(r.value, TableOf(fields, rows, generation))
    ensures r.Ok? ==> |r.value| <= PAGE_SIZE * PageBudget(fields, rows)
    ensures !FieldsOk(fields) ==> r == Err(InvalidArgument)
  {
    hide Framework, Indexed, Sound, HeadsReady, SuperDenotes, FieldsOk, Rectangular, SchemaBytes, RowBytes,
      DirectoryBytes, SuperBytes, PagesOk, ChainLength, LeafBudget, ColumnIndex, Denotes, Extendable, ImageDenotes,
      ImageOf;
    var valid := ValidateSchema(fields, rows);
    if valid.Err? { return Err(valid.error); }
    FieldsAreStrings(fields);
    var schemaBytes := EncodeRow(fields);
    if schemaBytes.Err? { return Err(LengthError); }
    var rowBytes := EncodeRows(rows, |fields|);
    if rowBytes.Err? { return Err(LengthError); }
    RowBytesLong(rows);
    var pages, sup;
    ghost var l;
    pages, sup, l := BuildFramework(schemaBytes.value, rowBytes.value);
    StartIndexes(pages, l, schemaBytes.value, rowBytes.value, rows);
    var built, roots;
    built, roots, l := BuildIndexes(pages, rows, |fields|, l, schemaBytes.value, rowBytes.value);
    if built.Err? { return Err(LogicError); }
    pages := built.value;
    IndexedHeads(pages, l, schemaBytes.value, rowBytes.value, rows);
    ghost var indexed := pages;
    var directory := EncodeDirectory(roots);
    pages := pages[sup.directoryHead := pages[sup.directoryHead].(payload := directory)];
    DirectoryWritten(indexed, pages, l, schemaBytes.value, rowBytes.value, rows);
    ghost var unsealed := pages;
    sup := SuperFields(generation, |pages|, sup.schemaHead, sup.rowsHead, sup.directoryHead, |fields|, |rows|);
    pages := pages[0 := pages[0].(payload := SuperBytes(sup))];
    SuperPut(unsealed, pages, l, sup, fields, rows, schemaBytes.value, rowBytes.value, directory);
    l := l.(sup := sup);
    SoundDenotes(pages, l, fields, rows, generation);
    SoundPages(pages, l, schemaBytes.value, rowBytes.value, directory);
    var image := EncodePages(pages);
    EditedImage(image, pages, l, TableOf(fields, rows, generation));
    ImageSize(pages);
    r := Ok(image);
  }
}
