/** What a vector of pages says: the table an image denotes, and the structure
    that owns each page. */
module TableImage {
  import opened Ordering
  import opened Codec
  import opened PageCodec
  import opened IndexPages
  import opened IndexTree
  import opened IndexGrowth
  import opened PageStore
  import opened IndexRoot
  import opened Streams
  import opened Chains

  datatype Table = Table(fields: seq<Key>, rows: seq<Row>, indexes: seq<seq<Entry>>, generation: nat)

  /** The pages behind a table: the superblock's fields, the three chains, and
      one tree per field. */
  datatype Layout = Layout(sup: SuperFields, schema: seq<nat>, rowPages: seq<nat>, directory: seq<nat>,
      indexes: seq<Index>)

  // ----- indexes as a function of the rows

  /** The entries of one column: each value with its row number. */
  function Column(rows: seq<Row>, f: nat): (c: seq<Entry>)
    ensures |c| == |rows|
  {
    seq(|rows|, i requires 0 <= i < |rows| => Entry(if f < |rows[i]| then rows[i][f] else [], i))
  }

  /** What the index of field `f` has to hold. */
  function ColumnIndex(rows: seq<Row>, f: nat): seq<Entry> { SortEntries(Column(rows, f)) }

  lemma ColumnDistinct(rows: seq<Row>, f: nat)
    ensures Distinct(Column(rows, f))
  {
  }

  lemma ColumnIndexSorted(rows: seq<Row>, f: nat)
    ensures Sorted(ColumnIndex(rows, f))
    ensures multiset(ColumnIndex(rows, f)) == multiset(Column(rows, f))
    ensures forall e :: e in ColumnIndex(rows, f) <==> e in Column(rows, f)
  {
    hide Sorted, SortEntries;
    ColumnDistinct(rows, f);
    SortEntriesSorts(Column(rows, f));
  }

  /** A new row adds its entry at its sorted place. */
  lemma ColumnIndexGrows(rows: seq<Row>, row: Row, f: nat)
    requires f < |row|
    ensures ColumnIndex(rows + [row], f) == InsertSorted(ColumnIndex(rows, f), Entry(row[f], |rows|))
    ensures Entry(row[f], |rows|) !in ColumnIndex(rows, f)
  {
    hide InsertSorted;
    ColumnIndexSorted(rows, f);
    var c := Column(rows + [row], f);
    assert c[..|rows|] == Column(rows, f);
    assert c[|rows|] == Entry(row[f], |rows|);
  }

  lemma ColumnOk(rows: seq<Row>, fieldCount: nat, f: nat)
    requires Rectangular(rows, fieldCount) && f < fieldCount && |rows| < U64
    ensures All(Column(rows, f), EntryOk) && All(ColumnIndex(rows, f), EntryOk)
  {
    hide SortEntries, Sorted;
    var c := Column(rows, f);
    forall i | 0 <= i < |c| ensures EntryOk(c[i]) {
      assert StringOk(rows[i][f]);
    }
    ColumnIndexSorted(rows, f);
    var x := ColumnIndex(rows, f);
    forall i | 0 <= i < |x| ensures EntryOk(x[i]) {
      assert x[i] in x && x[i] in c;
    }
  }

  // ----- ownership

  function OwnedByIndexes(xs: seq<Index>): set<nat> {
    if xs == [] then {} else OwnedByIndexes(xs[..|xs| - 1]) + PagesOf(xs[|xs| - 1])
  }

  ghost predicate IndexesApart(xs: seq<Index>, base: set<nat>) {
    xs == [] || (IndexesApart(xs[..|xs| - 1], base) && PagesOf(xs[|xs| - 1]) !! base + OwnedByIndexes(xs[..|xs| - 1]))
  }

  /** Pages owned by the superblock and the chains. */
  function ChainPages(l: Layout): set<nat> { {0} + SetOf(l.schema) + SetOf(l.rowPages) + SetOf(l.directory) }

  ghost predicate ChainsApart(l: Layout) {
    && SetOf(l.schema) !! {0} && SetOf(l.rowPages) !! {0} + SetOf(l.schema)
    && SetOf(l.directory) !! {0} + SetOf(l.schema) + SetOf(l.rowPages)
  }

  function RootsOf(xs: seq<Index>): (r: seq<nat>)
    ensures |r| == |xs|
  {
    seq(|xs|, i requires 0 <= i < |xs| => RootOf(xs[i]))
  }

  // ----- the relation

  ghost predicate FieldsOk(fields: seq<Key>) {
    && 1 <= |fields| <= MAX_FIELDS && StringsOk(fields) && [] !in fields
    && forall i, j :: 0 <= i < j < |fields| ==> fields[i] != fields[j]
  }

  ghost predicate SuperDenotes(pages: seq<Page>, s: SuperFields, t: Table) {
    && pages != [] && pages[0].ptype == PageType.Superblock && pages[0].next == NO_PAGE && IsSuper(pages[0].payload, s)
    && s.pageCount == |pages| && s.fieldCount == |t.fields| && s.rowCount == |t.rows| && s.generation == t.generation
  }

  ghost predicate StreamsDenote(pages: seq<Page>, l: Layout, t: Table) {
    && Chained(pages, l.sup.schemaHead, l.schema, PageType.Schema) && Payloads(pages, l.schema) == SchemaBytes(t.fields)
    && Chained(pages, l.sup.rowsHead, l.rowPages, PageType.Rows) && Payloads(pages, l.rowPages) == RowBytes(t.rows)
    && Chained(pages, l.sup.directoryHead, l.directory, PageType.IndexDirectory)
    && Payloads(pages, l.directory) == DirectoryBytes(RootsOf(l.indexes))
  }

  ghost predicate IndexDenotes(pages: seq<Page>, x: Index, rows: seq<Row>, f: nat, entries: seq<Entry>) {
    && IndexOk(pages, x) && (x.Present? ==> x.level < U16) && (x.Absent? ==> rows == [])
    && EntriesOf(x) == entries == ColumnIndex(rows, f)
  }

  ghost predicate IndexesDenote(pages: seq<Page>, l: Layout, t: Table) {
    && |l.indexes| == |t.indexes| == |t.fields|
    && forall f :: 0 <= f < |l.indexes| ==> IndexDenotes(pages, l.indexes[f], t.rows, f, t.indexes[f])
  }

  ghost predicate Partition(pages: seq<Page>, l: Layout) {
    && ChainsApart(l) && IndexesApart(l.indexes, ChainPages(l))
    && ChainPages(l) + OwnedByIndexes(l.indexes) == Range(0, |pages|)
  }

  /** The pages store exactly the table `t`: every stream decodes to it, every
      index is the sorted column, and every page has one owner. */
  ghost predicate Denotes(pages: seq<Page>, l: Layout, t: Table) {
    && PagesOk(pages) && FieldsOk(t.fields) && Rectangular(t.rows, |t.fields|)
    && SuperDenotes(pages, l.sup, t) && StreamsDenote(pages, l, t) && IndexesDenote(pages, l, t) && Partition(pages, l)
  }

  // ----- an image denotes at most one table

  lemma RectangularRowsOk(rows: seq<Row>, fieldCount: nat)
    requires Rectangular(rows, fieldCount) && fieldCount < U32
    ensures All(rows, RowOk)
  {
    hide StringsOk;
  }

  lemma DenotesUnique(pages: seq<Page>, l: Layout, t: Table, l': Layout, t': Table)
    requires Denotes(pages, l, t) && Denotes(pages, l', t')
    ensures t == t'
  {
    hide Payloads, Follow, Typed, NoDup, SuperBytes, SchemaBytes, RowBytes, DirectoryBytes, SetOf, StringsOk,
      ColumnIndex, IndexOk, Partition, RowOk, PagesOk;
    PagesAreBelow(pages);
    SuperInjective(l.sup, l'.sup);
    FollowUnique(pages, l.sup.schemaHead, l.schema, l'.schema);
    FollowUnique(pages, l.sup.rowsHead, l.rowPages, l'.rowPages);
    FieldsAreRow(t.fields);
    FieldsAreRow(t'.fields);
    SchemaBytesInjective(t.fields, t'.fields);
    RectangularRowsOk(t.rows, |t.fields|);
    RectangularRowsOk(t'.rows, |t.fields|);
    RowBytesInjective(t.rows, t'.rows);
    forall f | 0 <= f < |t.indexes| ensures t.indexes[f] == t'.indexes[f] {
      assert IndexDenotes(pages, l.indexes[f], t.rows, f, t.indexes[f]);
      assert IndexDenotes(pages, l'.indexes[f], t'.rows, f, t'.indexes[f]);
    }
  }

  lemma FieldsAreRow(fields: seq<Key>)
    requires FieldsOk(fields)
    ensures RowOk(fields)
  {
  }
}
