/** Images that are valid and that an insert refuses: the same empty table with
    its row stream and its index directory cut at any byte. */
module UnreadyImages {
  import opened Ordering
  import opened Codec
  import opened PageCodec
  import opened IndexGrowth
  import opened PageStore
  import opened IndexRoot
  import opened Streams
  import opened Chains
  import opened TableImage
  import opened ImageCodec
  import opened RowInsert
  import opened IncrementalInsert

  /** One field `a`, no rows. */
  function EmptyTable(): Table { Table([[97]], [], [[]], 1) }

  function CutSuper(): SuperFields { SuperFields(1, 6, 1, 2, 4, 1, 0) }

  function CutLayout(): Layout { Layout(CutSuper(), [1], [2, 3], [4, 5], [Absent]) }

  lemma EightBytes()
    ensures |RowBytes([])| == 8 && |DirectoryBytes([NO_PAGE])| == 8 && |SchemaBytes([[97]])| <= PAYLOAD_SIZE
  {
    hide LE, EncString;
    var names: seq<Key> := [[97]];
    DirectorySize([NO_PAGE]);
    assert names[1..] == [] && |EncString(names[0])| == 3;
    assert EncList(names, EncString) == EncString(names[0]) + EncList(names[1..], EncString);
  }

  /** The row count on pages 2 and 3, the directory on pages 4 and 5. */
  ghost function CutPages(a: nat, b: nat): (pages: seq<Page>)
    requires a <= 8 && b <= 8
    ensures |pages| == 6
  {
    var rows, directory := RowBytes([]), DirectoryBytes([NO_PAGE]);
    EightBytes();
    [Page(PageType.Superblock, 0, NO_PAGE, SuperBytes(CutSuper())),
     Page(PageType.Schema, 1, NO_PAGE, SchemaBytes([[97]])),
     Page(PageType.Rows, 2, 3, rows[..a]), Page(PageType.Rows, 3, NO_PAGE, rows[a..]),
     Page(PageType.IndexDirectory, 4, 5, directory[..b]), Page(PageType.IndexDirectory, 5, NO_PAGE, directory[b..])]
  }

  lemma CutPagesOk(a: nat, b: nat)
    requires a <= 8 && b <= 8
    ensures PagesOk(CutPages(a, b)) && SuperDenotes(CutPages(a, b), CutSuper(), EmptyTable())
  {
    hide SuperBytes, RowBytes, DirectoryBytes, SchemaBytes;
    EightBytes();
  }

  lemma OnePage(pages: seq<Page>, x: nat, t: PageType)
    requires x < |pages| && pages[x].next == NO_PAGE && pages[x].ptype == t
    ensures Chained(pages, x, [x], t) && Payloads(pages, [x]) == pages[x].payload
  {
    assert [x][1..] == [];
  }

  lemma TwoPages(pages: seq<Page>, x: nat, y: nat, t: PageType)
    requires x < |pages| && y < |pages| && x != y && pages[x].next == y && pages[y].next == NO_PAGE
    requires pages[x].ptype == t == pages[y].ptype
    ensures Chained(pages, x, [x, y], t) && Payloads(pages, [x, y]) == pages[x].payload + pages[y].payload
  {
    assert [x, y][1..] == [y] && [y][1..] == [];
    assert Follow(pages, y, [y], NO_PAGE);
    assert Payloads(pages, [y]) == pages[y].payload;
  }

  lemma CutStreams(a: nat, b: nat)
    requires a <= 8 && b <= 8
    ensures StreamsDenote(CutPages(a, b), CutLayout(), EmptyTable())
  {
    hide SuperBytes, RowBytes, DirectoryBytes, SchemaBytes, Chained, Payloads;
    var pages := CutPages(a, b);
    EightBytes();
    OnePage(pages, 1, PageType.Schema);
    TwoPages(pages, 2, 3, PageType.Rows);
    TwoPages(pages, 4, 5, PageType.IndexDirectory);
    assert RowBytes([])[..a] + RowBytes([])[a..] == RowBytes([]);
    assert DirectoryBytes([NO_PAGE])[..b] + DirectoryBytes([NO_PAGE])[b..] == DirectoryBytes([NO_PAGE]);
    assert RootsOf([Absent]) == [NO_PAGE];
  }

  lemma CutOwners(a: nat, b: nat)
    requires a <= 8 && b <= 8
    ensures Partition(CutPages(a, b), CutLayout())
  {
    hide RowBytes, DirectoryBytes, SchemaBytes, SuperBytes;
    var l, n := CutLayout(), |CutPages(a, b)|;
    assert l.indexes[..0] == [] && OwnedByIndexes(l.indexes) == {};
    assert SetOf(l.schema) == {1} && SetOf(l.rowPages) == {2, 3} && SetOf(l.directory) == {4, 5};
    assert ChainPages(l) == {0, 1, 2, 3, 4, 5};
    assert forall x :: x in Range(0, n) <==> x in {0, 1, 2, 3, 4, 5};
    assert IndexesApart(l.indexes[..0], ChainPages(l));
  }

  lemma CutIndex(pages: seq<Page>)
    ensures IndexesDenote(pages, CutLayout(), EmptyTable())
  {
    ColumnIndexSorted([], 0);
    assert Column([], 0) == [];
    assert |multiset(ColumnIndex([], 0))| == 0;
  }

  /** Every cut is an image of the table. */
  lemma CutDenotes(a: nat, b: nat)
    requires a <= 8 && b <= 8
    ensures Denotes(CutPages(a, b), CutLayout(), EmptyTable())
  {
    hide SuperBytes, RowBytes, DirectoryBytes, SchemaBytes, PagesOk, SuperDenotes, StreamsDenote, Partition,
      IndexesDenote;
    CutPagesOk(a, b);
    CutStreams(a, b);
    CutOwners(a, b);
    CutIndex(CutPages(a, b));
    assert FieldsOk([[97]]);
  }

  /** A valid image need not be extendable: of all the cuts, only the one that
      leaves both streams whole is. */
  lemma CutImages(a: nat, b: nat)
    requires a <= 8 && b <= 8
    ensures PagesOk(CutPages(a, b)) && ImageDenotes(ImageOf(CutPages(a, b)), EmptyTable())
    ensures Extendable(ImageOf(CutPages(a, b)), EmptyTable()) <==> a == 8 && b == 8
  {
    hide Denotes, Stores, ImageOf, SuperBytes, RowBytes, DirectoryBytes, SchemaBytes, CutPages;
    var pages, l, t := CutPages(a, b), CutLayout(), EmptyTable();
    CutDenotes(a, b);
    EditedOk(pages, l, t);
    var image := ImageOf(pages);
    assert Stores(image, pages) by { StoresIs(pages); }
    CutHeads(a, b);
    if Extendable(image, t) { SameHeads(image, t, pages, l, t); }
  }

  lemma StoresIs(pages: seq<Page>)
    requires PagesOk(pages)
    ensures Stores(ImageOf(pages), pages)
  {
  }

  lemma CutHeads(a: nat, b: nat)
    requires a <= 8 && b <= 8
    ensures HeadsReady(CutPages(a, b), CutLayout()) <==> a == 8 && b == 8
  {
    hide SuperBytes, RowBytes, DirectoryBytes, SchemaBytes;
    EightBytes();
  }
}
