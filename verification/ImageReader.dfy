/** `parse_image` on decoded pages: accepts exactly the page vectors that denote
    a table, and returns that table. */
module ImageReader {
  import opened Ordering
  import opened Codec
  import opened PageCodec
  import opened IndexTree
  import opened IndexGrowth
  import opened PageStore
  import opened IndexRoot
  import opened Streams
  import opened Chains
  import opened TableImage
  import opened IndexCheck

  // ----- field names

  method CheckFields(fields: seq<Key>) returns (ok: bool)
    requires 1 <= |fields| <= MAX_FIELDS && StringsOk(fields)
    ensures ok <==> FieldsOk(fields)
  {
    hide StringsOk;
    var unique: set<Key> := {};
    for i := 0 to |fields|
      invariant unique == set x | x in fields[..i]
      invariant [] !in fields[..i] && forall j, k :: 0 <= j < k < i ==> fields[j] != fields[k]
    {
      assert fields[..i + 1] == fields[..i] + [fields[i]];
      if fields[i] in unique {
        var j :| 0 <= j < i && fields[..i][j] == fields[i];
        assert fields[j] == fields[i];
        return false;
      }
      if fields[i] == [] { return false; }
      unique := unique + {fields[i]};
    }
    assert fields[..|fields|] == fields;
    ok := true;
  }

  // ----- the three chains

  datatype Streamed = Streamed(fields: seq<Key>, rows: seq<Row>, roots: seq<nat>)

  ghost predicate ChainsDenote(pages: seq<Page>, sup: SuperFields, schema: seq<nat>, rowPages: seq<nat>,
          directory: seq<nat>, s: Streamed)
  {
    && |s.fields| == sup.fieldCount == |s.roots| && |s.rows| == sup.rowCount
    && SchemaDenotes(pages, sup, schema, s.fields)
    && RowsDenote(pages, sup, rowPages, s.fields, s.rows, {0} + SetOf(schema))
    && DirectoryDenotes(pages, sup, directory, s.roots, {0} + SetOf(schema) + SetOf(rowPages))
  }

  ghost predicate SchemaDenotes(pages: seq<Page>, sup: SuperFields, schema: seq<nat>, fields: seq<Key>) {
    && |fields| == sup.fieldCount && FieldsOk(fields)
    && Readable(pages, sup.schemaHead, schema, PageType.Schema, {0}) && Payloads(pages, schema) == SchemaBytes(fields)
  }

  ghost predicate RowsDenote(pages: seq<Page>, sup: SuperFields, rowPages: seq<nat>, fields: seq<Key>, rows: seq<Row>,
          owned: set<nat>)
  {
    && |rows| == sup.rowCount && Rectangular(rows, |fields|)
    && Readable(pages, sup.rowsHead, rowPages, PageType.Rows, owned) && Payloads(pages, rowPages) == RowBytes(rows)
  }

  ghost predicate DirectoryDenotes(pages: seq<Page>, sup: SuperFields, directory: seq<nat>, roots: seq<nat>,
          owned: set<nat>)
  {
    && |roots| == sup.fieldCount && All(roots, IdOk)
    && Readable(pages, sup.directoryHead, directory, PageType.IndexDirectory, owned)
    && Payloads(pages, directory) == DirectoryBytes(roots)
  }

  lemma ReadableUnique(pages: seq<Page>, head: nat, a: seq<nat>, b: seq<nat>, ptype: PageType, owned: set<nat>)
    requires PagesOk(pages) && Readable(pages, head, a, ptype, owned) && Readable(pages, head, b, ptype, owned)
    ensures a == b
  {
    FollowUnique(pages, head, a, b);
  }

  method ParseSchema(pages: seq<Page>, sup: SuperFields)
    returns (r: Result<seq<Key>>, owned: set<nat>, ghost ids: seq<nat>)
    requires PagesOk(pages) && pages != [] && 1 <= sup.fieldCount <= MAX_FIELDS
    ensures r.Ok? ==> SchemaDenotes(pages, sup, ids, r.value) && owned == {0} + SetOf(ids) && owned <= Range(0, |pages|)
    ensures r.Err? ==> forall i, f :: !SchemaDenotes(pages, sup, i, f)
  {
    hide PagesOk, Readable, Payloads, SchemaBytes, FieldsOk, StringsOk;
    var bytes;
    bytes, owned, ids := ReadChain(pages, sup.schemaHead, PageType.Schema, {0});
    if bytes.Err? { return Err(Corruption), owned, ids; }
    forall i, f | SchemaDenotes(pages, sup, i, f) ensures bytes.value == SchemaBytes(f) && StringsOk(f) {
      ReadableUnique(pages, sup.schemaHead, ids, i, PageType.Schema, {0});
      FieldsAreStrings(f);
    }
    var fields := DecodeSchema(bytes.value, sup.fieldCount);
    if fields.None? { return Err(Corruption), owned, ids; }
    forall i, f | SchemaDenotes(pages, sup, i, f) ensures f == fields.value { SameFields(f, fields.value); }
    var ok := CheckFields(fields.value);
    if !ok { return Err(Corruption), owned, ids; }
    r := Ok(fields.value);
  }

  lemma FieldsAreStrings(f: seq<Key>)
    requires FieldsOk(f)
    ensures StringsOk(f) && 1 <= |f| <= MAX_FIELDS && EncRow(f) == SchemaBytes(f)
  {
  }

  lemma SameFields(f: seq<Key>, g: seq<Key>)
    requires StringsOk(f) && StringsOk(g) && |f| == |g| < U32 && SchemaBytes(f) == SchemaBytes(g)
    ensures f == g
  {
    SchemaBytesInjective(f, g);
  }

  method ParseRows(pages: seq<Page>, sup: SuperFields, fields: seq<Key>, owned0: set<nat>)
    returns (r: Result<seq<Row>>, owned: set<nat>, ghost ids: seq<nat>)
    requires PagesOk(pages) && owned0 <= Range(0, |pages|) && |fields| == sup.fieldCount < U32 && sup.rowCount < U64
    ensures r.Ok? ==>
              && RowsDenote(pages, sup, ids, fields, r.value, owned0) && owned == owned0 + SetOf(ids)
              && owned <= Range(0, |pages|)
    ensures r.Err? ==> forall i, rows :: !RowsDenote(pages, sup, i, fields, rows, owned0)
  {
    hide PagesOk, Readable, Payloads, RowBytes, Rectangular;
    var bytes;
    bytes, owned, ids := ReadChain(pages, sup.rowsHead, PageType.Rows, owned0);
    if bytes.Err? { return Err(Corruption), owned, ids; }
    forall i, rows | RowsDenote(pages, sup, i, fields, rows, owned0) ensures bytes.value == RowBytes(rows) {
      ReadableUnique(pages, sup.rowsHead, ids, i, PageType.Rows, owned0);
    }
    var rows := DecodeRows(bytes.value, sup.fieldCount, sup.rowCount);
    if rows.None? { return Err(Corruption), owned, ids; }
    r := Ok(rows.value);
  }

  method ParseDirectory(pages: seq<Page>, sup: SuperFields, owned0: set<nat>)
    returns (r: Result<seq<nat>>, owned: set<nat>, ghost ids: seq<nat>)
    requires PagesOk(pages) && owned0 <= Range(0, |pages|) && sup.fieldCount < U32
    ensures r.Ok? ==>
              && DirectoryDenotes(pages, sup, ids, r.value, owned0) && owned == owned0 + SetOf(ids)
              && owned <= Range(0, |pages|)
    ensures r.Err? ==> forall i, roots :: !DirectoryDenotes(pages, sup, i, roots, owned0)
  {
    hide PagesOk, Readable, Payloads, DirectoryBytes, All;
    var bytes;
    bytes, owned, ids := ReadChain(pages, sup.directoryHead, PageType.IndexDirectory, owned0);
    if bytes.Err? { return Err(Corruption), owned, ids; }
    forall i, roots | DirectoryDenotes(pages, sup, i, roots, owned0) ensures bytes.value == DirectoryBytes(roots) {
      ReadableUnique(pages, sup.directoryHead, ids, i, PageType.IndexDirectory, owned0);
    }
    var roots := DecodeDirectory(bytes.value, sup.fieldCount);
    if roots.None? { return Err(Corruption), owned, ids; }
    r := Ok(roots.value);
  }

  lemma ChainsUnique(pages: seq<Page>, sup: SuperFields, a: seq<nat>, b: seq<nat>, c: seq<nat>, s: Streamed,
          a': seq<nat>, b': seq<nat>, s': Streamed)
    requires PagesOk(pages) && SchemaDenotes(pages, sup, a, s.fields) && SchemaDenotes(pages, sup, a', s'.fields)
    ensures a == a' && s.fields == s'.fields
    ensures forall o ::
              && RowsDenote(pages, sup, b, s.fields, s.rows, o) && RowsDenote(pages, sup, b', s.fields, s'.rows, o)
              && sup.rowCount < U64
              ==> b == b' && s.rows == s'.rows
  {
    hide PagesOk, Readable, Payloads, RowBytes, Rectangular, SchemaBytes, FieldsOk, StringsOk;
    ReadableUnique(pages, sup.schemaHead, a, a', PageType.Schema, {0});
    FieldsAreStrings(s.fields);
    FieldsAreStrings(s'.fields);
    SameFields(s.fields, s'.fields);
    forall o |
      && RowsDenote(pages, sup, b, s.fields, s.rows, o) && RowsDenote(pages, sup, b', s.fields, s'.rows, o)
      && sup.rowCount < U64
      ensures b == b' && s.rows == s'.rows
    {
      ReadableUnique(pages, sup.rowsHead, b, b', PageType.Rows, o);
      RectangularRowsOk(s.rows, |s.fields|);
      RectangularRowsOk(s'.rows, |s.fields|);
      RowBytesInjective(s.rows, s'.rows);
    }
  }

  method ParseChains(pages: seq<Page>, sup: SuperFields)
    returns (r: Result<Streamed>, owned: set<nat>, ghost schema: seq<nat>, ghost rowPages: seq<nat>,
        ghost directory: seq<nat>)
    requires PagesOk(pages) && pages != [] && 1 <= sup.fieldCount <= MAX_FIELDS && sup.rowCount < U64
    ensures r.Ok? ==> ChainsDenote(pages, sup, schema, rowPages, directory, r.value) && owned <= Range(0, |pages|)
    ensures r.Ok? ==> owned == {0} + SetOf(schema) + SetOf(rowPages) + SetOf(directory)
    ensures r.Err? ==> forall a, b, c, s :: !ChainsDenote(pages, sup, a, b, c, s)
  {
    hide PagesOk, SchemaDenotes, RowsDenote, DirectoryDenotes;
    rowPages, directory := [], [];
    var fields;
    fields, owned, schema := ParseSchema(pages, sup);
    if fields.Err? { return Err(Corruption), owned, schema, rowPages, directory; }
    FieldCount(pages, sup, schema, fields.value);
    ghost var owned1 := owned;
    forall a, b, c, s | ChainsDenote(pages, sup, a, b, c, s) ensures a == schema && s.fields == fields.value {
      ChainsUnique(pages, sup, schema, [], [], Streamed(fields.value, [], []), a, [], s);
    }
    var rows;
    rows, owned, rowPages := ParseRows(pages, sup, fields.value, owned);
    if rows.Err? { return Err(Corruption), owned, schema, rowPages, directory; }
    ghost var owned2 := owned;
    forall a, b, c, s | ChainsDenote(pages, sup, a, b, c, s) ensures b == rowPages {
      ChainsUnique(pages, sup, schema, rowPages, [], Streamed(fields.value, rows.value, []), a, b, s);
    }
    var roots;
    roots, owned, directory := ParseDirectory(pages, sup, owned);
    if roots.Err? { return Err(Corruption), owned, schema, rowPages, directory; }
    r := Ok(Streamed(fields.value, rows.value, roots.value));
    CountsOf(pages, sup, schema, rowPages, directory, r.value);
  }

  lemma FieldCount(pages: seq<Page>, sup: SuperFields, schema: seq<nat>, fields: seq<Key>)
    requires SchemaDenotes(pages, sup, schema, fields)
    ensures |fields| == sup.fieldCount && FieldsOk(fields)
  {
  }

  lemma CountsOf(pages: seq<Page>, sup: SuperFields, schema: seq<nat>, rowPages: seq<nat>, directory: seq<nat>,
          s: Streamed)
    requires SchemaDenotes(pages, sup, schema, s.fields)
    requires RowsDenote(pages, sup, rowPages, s.fields, s.rows, {0} + SetOf(schema))
    requires DirectoryDenotes(pages, sup, directory, s.roots, {0} + SetOf(schema) + SetOf(rowPages))
    ensures ChainsDenote(pages, sup, schema, rowPages, directory, s)
  {
  }

  // ----- all indexes

  ghost predicate IndexesBelong(pages: seq<Page>, xs: seq<Index>, roots: seq<nat>, rows: seq<Row>, base: set<nat>) {
    && |xs| <= |roots| && IndexesApart(xs, base)
    && forall f :: 0 <= f < |xs| ==> RootOf(xs[f]) == roots[f] && IndexDenotes(pages, xs[f], rows, f, EntriesOf(xs[f]))
  }

  lemma OneMoreIndex(pages: seq<Page>, xs: seq<Index>, x: Index, roots: seq<nat>, rows: seq<Row>, base: set<nat>)
    requires |xs| < |roots|
    ensures IndexesBelong(pages, xs + [x], roots, rows, base) <==>
      && IndexesBelong(pages, xs, roots, rows, base)
      && Belongs(pages, x, rows, |xs|, roots[|xs|], base + OwnedByIndexes(xs))
    ensures OwnedByIndexes(xs + [x]) == OwnedByIndexes(xs) + PagesOf(x)
  {
    hide IndexDenotes, PagesOf, RootOf;
    var all := xs + [x];
    assert all[..|xs|] == xs && all[|xs|] == x;
    assert forall f :: 0 <= f < |xs| ==> all[f] == xs[f];
    if IndexesBelong(pages, all, roots, rows, base) {
      assert RootOf(all[|xs|]) == roots[|xs|];
    }
  }

  lemma {:induction false} IndexesPrefix(pages: seq<Page>, xs: seq<Index>, all: seq<Index>, roots: seq<nat>,
          rows: seq<Row>, base: set<nat>)
    requires PagesOk(pages) && IndexesBelong(pages, xs, roots, rows, base)
    requires IndexesBelong(pages, all, roots, rows, base) && |xs| < |all|
    ensures all[..|xs|] == xs && Belongs(pages, all[|xs|], rows, |xs|, roots[|xs|], base + OwnedByIndexes(xs))
    decreases |all|
  {
    hide IndexDenotes, Belongs, PagesOk, PagesOf, RootOf, IndexesApart;
    var n := |all| - 1;
    assert all == all[..n] + [all[n]];
    OneMoreIndex(pages, all[..n], all[n], roots, rows, base);
    if n == |xs| {
      forall f | 0 <= f < n ensures xs[f] == all[f] {
        IndexUnique(pages, rows, f, xs[f], all[f]);
      }
      assert all[..n] == xs;
    } else {
      IndexesPrefix(pages, xs, all[..n], roots, rows, base);
      assert all[..n][..|xs|] == all[..|xs|];
    }
  }

  method ParseIndexes(pages: seq<Page>, s: Streamed, owned0: set<nat>)
    returns (r: Result<seq<seq<Entry>>>, owned: set<nat>, ghost xs: seq<Index>)
    requires PagesOk(pages) && owned0 <= Range(0, |pages|) && Rectangular(s.rows, |s.roots|)
    ensures r.Ok? ==> |xs| == |s.roots| == |r.value| && IndexesBelong(pages, xs, s.roots, s.rows, owned0)
    ensures r.Ok? ==> owned == owned0 + OwnedByIndexes(xs) && owned <= Range(0, |pages|)
    ensures r.Ok? ==> forall f :: 0 <= f < |xs| ==> r.value[f] == EntriesOf(xs[f])
    ensures r.Err? ==> forall ys :: |ys| == |s.roots| ==> !IndexesBelong(pages, ys, s.roots, s.rows, owned0)
  {
    hide PagesOk, Belongs, IndexesBelong, StringsOk, PagesOf, EntriesOf;
    var indexes: seq<seq<Entry>> := [];
    owned, xs := owned0, [];
    NoIndexes(pages, s.roots, s.rows, owned0);
    for f := 0 to |s.roots|
      invariant |xs| == f == |indexes| && IndexesBelong(pages, xs, s.roots, s.rows, owned0)
      invariant owned == owned0 + OwnedByIndexes(xs) && owned <= Range(0, |pages|)
      invariant forall g :: 0 <= g < f ==> indexes[g] == EntriesOf(xs[g])
    {
      forall ys | |ys| == |s.roots| && IndexesBelong(pages, ys, s.roots, s.rows, owned0)
        ensures Belongs(pages, ys[f], s.rows, f, s.roots[f], owned0 + OwnedByIndexes(xs))
      {
        IndexesPrefix(pages, xs, ys, s.roots, s.rows, owned0);
      }
      var entries;
      ghost var x;
      entries, owned, x := CheckIndex(pages, s.roots[f], s.rows, f, owned);
      if entries.Err? { return Err(Corruption), owned, xs; }
      OneMoreIndex(pages, xs, x, s.roots, s.rows, owned0);
      indexes, xs := indexes + [entries.value], xs + [x];
    }
    r := Ok(indexes);
  }

  lemma NoIndexes(pages: seq<Page>, roots: seq<nat>, rows: seq<Row>, base: set<nat>)
    ensures IndexesBelong(pages, [], roots, rows, base) && OwnedByIndexes([]) == {}
  {
  }

  // ----- the image

  lemma DenotesParts(pages: seq<Page>, l: Layout, t: Table)
    requires Denotes(pages, l, t)
    ensures SuperDenotes(pages, l.sup, t) && 1 <= l.sup.fieldCount <= MAX_FIELDS && l.sup.rowCount < U64
    ensures var s := Streamed(t.fields, t.rows, RootsOf(l.indexes));
      && ChainsDenote(pages, l.sup, l.schema, l.rowPages, l.directory, s)
      && IndexesBelong(pages, l.indexes, s.roots, s.rows, ChainPages(l)) && |l.indexes| == |s.roots|
    ensures ChainPages(l) + OwnedByIndexes(l.indexes) == Range(0, |pages|)
  {
    hide Payloads, Chained, SuperBytes, SchemaBytes, RowBytes, DirectoryBytes, StringsOk, ColumnIndex, RowOk,
      IndexesApart;
    RootsAreIds(pages, l, t);
    forall f | 0 <= f < |l.indexes| ensures IndexDenotes(pages, l.indexes[f], t.rows, f, EntriesOf(l.indexes[f])) {
      assert IndexDenotes(pages, l.indexes[f], t.rows, f, t.indexes[f]);
    }
  }

  lemma RootsAreIds(pages: seq<Page>, l: Layout, t: Table)
    requires Denotes(pages, l, t)
    ensures All(RootsOf(l.indexes), IdOk)
  {
    hide Partition, StreamsDenote, SuperDenotes, FieldsOk, Rectangular, ColumnIndex;
    forall f | 0 <= f < |l.indexes| ensures IdOk(RootOf(l.indexes[f])) {
      assert IndexDenotes(pages, l.indexes[f], t.rows, f, t.indexes[f]);
      RootIsSmall(pages, l.indexes[f]);
    }
  }

  lemma RootIsSmall(pages: seq<Page>, x: Index)
    requires PagesOk(pages) && IndexOk(pages, x)
    ensures RootOf(x) <= NO_PAGE
  {
    hide WF, Apart, Linked, Sorted, Entries;
  }

  lemma DenotesFromParts(pages: seq<Page>, l: Layout, t: Table)
    requires PagesOk(pages) && SuperDenotes(pages, l.sup, t)
    requires var s := Streamed(t.fields, t.rows, RootsOf(l.indexes));
      && ChainsDenote(pages, l.sup, l.schema, l.rowPages, l.directory, s)
      && IndexesBelong(pages, l.indexes, s.roots, s.rows, ChainPages(l)) && |l.indexes| == |t.fields| == |t.indexes|
    requires forall f :: 0 <= f < |l.indexes| ==> t.indexes[f] == EntriesOf(l.indexes[f])
    requires ChainPages(l) + OwnedByIndexes(l.indexes) == Range(0, |pages|)
    ensures Denotes(pages, l, t)
  {
    hide Payloads, Chained, SuperBytes, SchemaBytes, RowBytes, DirectoryBytes, StringsOk, ColumnIndex, RowOk,
      IndexesApart, FieldsOk, Rectangular;
  }

  lemma AllPagesOwned(owned: set<nat>, n: nat)
    requires owned <= Range(0, n)
    ensures |owned| == n <==> owned == Range(0, n)
  {
    RangeSize(0, n);
    if |owned| == n {
      assert |Range(0, n) - owned| == 0;
    }
  }

  /** Accepts exactly the page vectors that denote a table. */
  method ParsePages(pages: seq<Page>) returns (r: Result<Table>, ghost l: Layout)
    requires PagesOk(pages) && pages != []
    ensures r.Ok? ==> Denotes(pages, l, r.value)
    ensures r.Err? ==> forall l', t' :: !Denotes(pages, l', t')
  {
    hide PagesOk, Denotes, ChainsDenote, IndexesBelong, SuperBytes, OwnedByIndexes;
    l := Layout(SuperFields(0, 0, 0, 0, 0, 0, 0), [], [], [], []);
    forall l', t' | Denotes(pages, l', t')
      ensures SuperDenotes(pages, l'.sup, t') && 1 <= l'.sup.fieldCount <= MAX_FIELDS
    {
      DenotesParts(pages, l', t');
    }
    if pages[0].ptype != PageType.Superblock || pages[0].next != NO_PAGE { return Err(Corruption), l; }
    var sup := DecodeSuper(pages[0].payload);
    if sup.Err? { return Err(Corruption), l; }
    forall l', t' | Denotes(pages, l', t') ensures l'.sup == sup.value { SuperInjective(l'.sup, sup.value); }
    if sup.value.pageCount != |pages| { return Err(Corruption), l; }
    if sup.value.fieldCount == 0 || sup.value.fieldCount > MAX_FIELDS { return Err(Corruption), l; }
    var s, owned;
    ghost var schema, rowPages, directory;
    s, owned, schema, rowPages, directory := ParseChains(pages, sup.value);
    forall l', t' | Denotes(pages, l', t')
      ensures ChainsDenote(pages, sup.value, l'.schema, l'.rowPages, l'.directory,
                  Streamed(t'.fields, t'.rows, RootsOf(l'.indexes)))
    {
      DenotesParts(pages, l', t');
    }
    if s.Err? { return Err(Corruption), l; }
    ghost var base := owned;
    RowsAreRectangular(pages, sup.value, schema, rowPages, directory, s.value);
    var indexes;
    ghost var xs;
    indexes, owned, xs := ParseIndexes(pages, s.value, owned);
    l := Layout(sup.value, schema, rowPages, directory, xs);
    forall l', t' | Denotes(pages, l', t') ensures SameShape(pages, l', t', sup.value, s.value, base) {
      DenotesSame(pages, l', t', sup.value, schema, rowPages, directory, s.value, base);
    }
    if indexes.Err? { return Err(Corruption), l; }
    forall l', t' | Denotes(pages, l', t') ensures base + OwnedByIndexes(xs) == Range(0, |pages|) {
      IndexListUnique(pages, xs, l'.indexes, s.value.roots, s.value.rows, base);
    }
    AllPagesOwned(owned, |pages|);
    if |owned| != |pages| { return Err(Corruption), l; }
    r := Ok(Table(s.value.fields, s.value.rows, indexes.value, sup.value.generation));
    RootsAre(pages, xs, s.value.roots, s.value.rows, base);
    SuperFits(pages, sup.value, schema, rowPages, directory, s.value, r.value);
    DenotesFromParts(pages, l, r.value);
  }

  /** Any table denoted has the streams found, and its indexes fit behind them. */
  ghost predicate SameShape(pages: seq<Page>, l: Layout, t: Table, sup: SuperFields, s: Streamed, base: set<nat>) {
    && |l.indexes| == |s.roots| && IndexesBelong(pages, l.indexes, s.roots, s.rows, base)
    && base + OwnedByIndexes(l.indexes) == Range(0, |pages|)
  }

  lemma DenotesSame(pages: seq<Page>, l: Layout, t: Table, sup: SuperFields, schema: seq<nat>, rowPages: seq<nat>,
          directory: seq<nat>, s: Streamed, base: set<nat>)
    requires Denotes(pages, l, t) && l.sup == sup && ChainsDenote(pages, sup, schema, rowPages, directory, s)
    requires base == {0} + SetOf(schema) + SetOf(rowPages) + SetOf(directory)
    ensures SameShape(pages, l, t, sup, s, base)
  {
    hide IndexesBelong, SchemaDenotes, RowsDenote, DirectoryDenotes, Denotes;
    DenotesParts(pages, l, t);
    DenotedPages(pages, l, t);
    ChainsUnique(pages, sup, schema, rowPages, directory, s, l.schema, l.rowPages, Streamed(t.fields, t.rows, []));
    DirectoriesUnique(pages, sup, directory, s.roots, l.directory, RootsOf(l.indexes),
        {0} + SetOf(schema) + SetOf(rowPages));
  }

  lemma DenotedPages(pages: seq<Page>, l: Layout, t: Table)
    requires Denotes(pages, l, t)
    ensures PagesOk(pages)
  {
  }

  lemma DirectoriesUnique(pages: seq<Page>, sup: SuperFields, a: seq<nat>, roots: seq<nat>, b: seq<nat>,
          roots': seq<nat>, owned: set<nat>)
    requires PagesOk(pages) && sup.fieldCount < U32
    requires DirectoryDenotes(pages, sup, a, roots, owned) && DirectoryDenotes(pages, sup, b, roots', owned)
    ensures a == b && roots == roots'
  {
    hide Readable, PagesOk, Payloads, DirectoryBytes, All;
    ReadableUnique(pages, sup.directoryHead, a, b, PageType.IndexDirectory, owned);
    DirectoryBytesInjective(roots, roots');
  }

  lemma RowsAreRectangular(pages: seq<Page>, sup: SuperFields, schema: seq<nat>, rowPages: seq<nat>,
          directory: seq<nat>, s: Streamed)
    requires ChainsDenote(pages, sup, schema, rowPages, directory, s)
    ensures Rectangular(s.rows, |s.roots|) && |s.fields| == |s.roots|
  {
    hide Readable, Payloads;
  }

  lemma IndexListUnique(pages: seq<Page>, xs: seq<Index>, ys: seq<Index>, roots: seq<nat>, rows: seq<Row>,
          base: set<nat>)
    requires PagesOk(pages) && |xs| == |ys| == |roots|
    requires IndexesBelong(pages, xs, roots, rows, base) && IndexesBelong(pages, ys, roots, rows, base)
    ensures xs == ys
  {
    hide PagesOk, IndexDenotes;
    forall f | 0 <= f < |xs| ensures xs[f] == ys[f] {
      IndexUnique(pages, rows, f, xs[f], ys[f]);
    }
  }

  lemma RootsAre(pages: seq<Page>, xs: seq<Index>, roots: seq<nat>, rows: seq<Row>, base: set<nat>)
    requires |xs| == |roots| && IndexesBelong(pages, xs, roots, rows, base)
    ensures RootsOf(xs) == roots
  {
    hide IndexDenotes;
  }

  lemma SuperFits(pages: seq<Page>, sup: SuperFields, schema: seq<nat>, rowPages: seq<nat>, directory: seq<nat>,
          s: Streamed, t: Table)
    requires pages != [] && pages[0].ptype == PageType.Superblock && pages[0].next == NO_PAGE
    requires IsSuper(pages[0].payload, sup)
    requires sup.pageCount == |pages| && ChainsDenote(pages, sup, schema, rowPages, directory, s)
    requires t.fields == s.fields && t.rows == s.rows && t.generation == sup.generation
    ensures SuperDenotes(pages, sup, t) && |s.fields| == |s.roots|
  {
  }
}
