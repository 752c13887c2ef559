/** A table under construction or under edit: its chains and indexes are sound
    and disjoint, while the superblock and the streams need not agree yet. */
module TableState {
  import opened Ordering
  import opened Codec
  import opened PageCodec
  import opened IndexTree
  import opened IndexGrowth
  import opened PageStore
  import opened IndexRoot
  import opened Streams
  import opened Chains
  import opened TableImage

  ghost predicate InSome(xs: seq<Index>, p: nat) { exists i :: 0 <= i < |xs| && p in PagesOf(xs[i]) }

  /** Every page below `n` has exactly one owner. */
  ghost predicate Owned(l: Layout, n: nat) {
    && ChainsApart(l)
    && (forall i, j :: 0 <= i < j < |l.indexes| ==> PagesOf(l.indexes[i]) !! PagesOf(l.indexes[j]))
    && (forall i :: 0 <= i < |l.indexes| ==> PagesOf(l.indexes[i]) !! ChainPages(l))
    && (forall p: nat :: p < n <==> p in ChainPages(l) || InSome(l.indexes, p))
  }

  lemma {:induction false} OwnedByIndexesIs(xs: seq<Index>, p: nat)
    ensures p in OwnedByIndexes(xs) <==> InSome(xs, p)
  {
    hide PagesOf;
    if xs != [] {
      var n := |xs| - 1;
      OwnedByIndexesIs(xs[..n], p);
      if InSome(xs[..n], p) {
        var i :| 0 <= i < n && p in PagesOf(xs[..n][i]);
        assert p in PagesOf(xs[i]);
      }
      if InSome(xs, p) && p !in PagesOf(xs[n]) {
        var i :| 0 <= i < |xs| && p in PagesOf(xs[i]);
        assert p in PagesOf(xs[..n][i]);
      }
    }
  }

  lemma {:induction false} IndexesApartIs(xs: seq<Index>, base: set<nat>)
    ensures IndexesApart(xs, base) <==>
      && (forall i, j :: 0 <= i < j < |xs| ==> PagesOf(xs[i]) !! PagesOf(xs[j]))
      && (forall i :: 0 <= i < |xs| ==> PagesOf(xs[i]) !! base)
  {
    hide PagesOf;
    if xs != [] {
      var n := |xs| - 1;
      var a, x := xs[..n], xs[n];
      IndexesApartIs(a, base);
      assert forall i :: 0 <= i < n ==> a[i] == xs[i];
      assert PagesOf(x) !! OwnedByIndexes(a) <==> forall i :: 0 <= i < n ==> PagesOf(xs[i]) !! PagesOf(x) by {
        forall p: nat ensures p in OwnedByIndexes(a) <==> InSome(a, p) { OwnedByIndexesIs(a, p); }
        forall i, p | 0 <= i < n && p in PagesOf(xs[i]) ensures p in OwnedByIndexes(a) { assert p in PagesOf(a[i]); }
      }
    }
  }

  lemma OwnedIsPartition(pages: seq<Page>, l: Layout)
    ensures Owned(l, |pages|) <==> Partition(pages, l)
  {
    hide PagesOf, OwnedByIndexes, ChainPages, IndexesApart, InSome;
    IndexesApartIs(l.indexes, ChainPages(l));
    forall p: nat ensures p in OwnedByIndexes(l.indexes) <==> InSome(l.indexes, p) { OwnedByIndexesIs(l.indexes, p); }
    if Owned(l, |pages|) {
      assert ChainPages(l) + OwnedByIndexes(l.indexes) == Range(0, |pages|);
    }
    if Partition(pages, l) {
      forall p: nat ensures p < |pages| <==> p in ChainPages(l) || InSome(l.indexes, p) {
        assert p in Range(0, |pages|) <==> p < |pages|;
      }
    }
  }

  /** Chains and indexes are in place; the three streams are given. */
  ghost predicate Sound(pages: seq<Page>, l: Layout, schemaBytes: Bytes, rowBytes: Bytes, directoryBytes: Bytes) {
    && PagesOk(pages) && pages != [] && Owned(l, |pages|)
    && Chained(pages, l.sup.schemaHead, l.schema, PageType.Schema) && Payloads(pages, l.schema) == schemaBytes
    && Chained(pages, l.sup.rowsHead, l.rowPages, PageType.Rows) && Payloads(pages, l.rowPages) == rowBytes
    && Chained(pages, l.sup.directoryHead, l.directory, PageType.IndexDirectory)
    && Payloads(pages, l.directory) == directoryBytes
    && forall f :: 0 <= f < |l.indexes| ==> IndexOk(pages, l.indexes[f])
  }

  // ----- frames

  ghost predicate Unchanged(before: seq<Page>, after: seq<Page>, s: set<nat>) {
    |before| <= |after| && forall x :: x in s && x < |before| ==> after[x] == before[x]
  }

  lemma IndexFrame(before: seq<Page>, after: seq<Page>, x: Index)
    requires IndexOk(before, x) && Unchanged(before, after, PagesOf(x))
    ensures IndexOk(after, x)
  {
    hide WF, Apart, Sorted, Ids, Alike, LinkedAt;
    if x.Present? {
      forall i | i in Ids(x.tree) && i < |before| ensures Alike(before[i], after[i]) { AlikeItself(before[i]); }
      HoldsFrame(before, after, x.tree, x.level);
      LeavesAreOwned(x.tree);
      LinkedFrame(before, after, LeafIds(x.tree));
    }
  }

  lemma ChainedUnchanged(before: seq<Page>, after: seq<Page>, head: nat, ids: seq<nat>, ptype: PageType)
    requires Chained(before, head, ids, ptype) && Unchanged(before, after, SetOf(ids))
    ensures Chained(after, head, ids, ptype) && Payloads(after, ids) == Payloads(before, ids)
  {
    ChainedFrame(before, after, head, ids, ptype);
  }

  /** Structures whose pages did not change stay as they are. */
  lemma SoundFrame(before: seq<Page>, after: seq<Page>, l: Layout, a: Bytes, b: Bytes, c: Bytes)
    requires Sound(before, l, a, b, c) && |before| <= |after|
    ensures Unchanged(before, after, SetOf(l.schema)) ==>
      Chained(after, l.sup.schemaHead, l.schema, PageType.Schema) && Payloads(after, l.schema) == a
    ensures Unchanged(before, after, SetOf(l.rowPages)) ==>
      Chained(after, l.sup.rowsHead, l.rowPages, PageType.Rows) && Payloads(after, l.rowPages) == b
    ensures Unchanged(before, after, SetOf(l.directory)) ==>
      Chained(after, l.sup.directoryHead, l.directory, PageType.IndexDirectory) && Payloads(after, l.directory) == c
    ensures forall f :: 0 <= f < |l.indexes| && Unchanged(before, after, PagesOf(l.indexes[f])) ==>
              IndexOk(after, l.indexes[f])
  {
    hide Chained, Payloads, IndexOk, Owned, PagesOk, Unchanged, PagesOf, SetOf;
    if Unchanged(before, after, SetOf(l.schema)) {
      ChainedUnchanged(before, after, l.sup.schemaHead, l.schema, PageType.Schema);
    }
    if Unchanged(before, after, SetOf(l.rowPages)) {
      ChainedUnchanged(before, after, l.sup.rowsHead, l.rowPages, PageType.Rows);
    }
    if Unchanged(before, after, SetOf(l.directory)) {
      ChainedUnchanged(before, after, l.sup.directoryHead, l.directory, PageType.IndexDirectory);
    }
    forall f | 0 <= f < |l.indexes| && Unchanged(before, after, PagesOf(l.indexes[f]))
      ensures IndexOk(after, l.indexes[f])
    {
      IndexFrame(before, after, l.indexes[f]);
    }
  }

  /** All pages outside `s` are the same. */
  ghost predicate OnlyIn(before: seq<Page>, after: seq<Page>, s: set<nat>) {
    |before| <= |after| && forall x :: 0 <= x < |before| && x !in s ==> after[x] == before[x]
  }

  lemma OnlyInSpares(before: seq<Page>, after: seq<Page>, s: set<nat>, t: set<nat>)
    requires OnlyIn(before, after, s) && s !! t
    ensures Unchanged(before, after, t)
  {
  }

  /** Which of the disjoint structures an edit may touch. */
  lemma ApartFrom(l: Layout, n: nat)
    requires Owned(l, n)
    ensures SetOf(l.rowPages) !! SetOf(l.schema) && SetOf(l.rowPages) !! SetOf(l.directory)
    ensures SetOf(l.directory) !! SetOf(l.schema)
    ensures 0 !in SetOf(l.schema) && 0 !in SetOf(l.rowPages) && 0 !in SetOf(l.directory)
    ensures forall f :: 0 <= f < |l.indexes| ==>
              && PagesOf(l.indexes[f]) !! SetOf(l.rowPages) && PagesOf(l.indexes[f]) !! SetOf(l.schema)
              && PagesOf(l.indexes[f]) !! SetOf(l.directory) && 0 !in PagesOf(l.indexes[f])
  {
    hide PagesOf, InSome;
  }

  /** An edit of row pages only. */
  lemma RowsEdited(before: seq<Page>, after: seq<Page>, l: Layout, l': Layout, a: Bytes, b: Bytes, c: Bytes, b': Bytes)
    requires Sound(before, l, a, b, c) && PagesOk(after) && OnlyIn(before, after, SetOf(l.rowPages))
    requires l' == l.(rowPages := l'.rowPages) && SetOf(l'.rowPages) == SetOf(l.rowPages) + Range(|before|, |after|)
    requires Chained(after, l.sup.rowsHead, l'.rowPages, PageType.Rows) && Payloads(after, l'.rowPages) == b'
    ensures Sound(after, l', a, b', c) && after[0] == before[0]
  {
    hide Chained, Payloads, IndexOk, PagesOk, Unchanged, PagesOf, SetOf, OnlyIn, Owned;
    ApartFrom(l, |before|);
    OnlyInSpares(before, after, SetOf(l.rowPages), SetOf(l.schema));
    OnlyInSpares(before, after, SetOf(l.rowPages), SetOf(l.directory));
    forall f | 0 <= f < |l.indexes| ensures Unchanged(before, after, PagesOf(l.indexes[f])) {
      OnlyInSpares(before, after, SetOf(l.rowPages), PagesOf(l.indexes[f]));
    }
    SoundFrame(before, after, l, a, b, c);
    OnlyInSize(before, after, SetOf(l.rowPages));
    RowsOwned(l, l', |before|, |after|);
  }

  lemma OnlyInSize(before: seq<Page>, after: seq<Page>, s: set<nat>)
    requires OnlyIn(before, after, s)
    ensures |before| <= |after|
    ensures before != [] && 0 !in s ==> after[0] == before[0]
  {
  }

  lemma RowsOwned(l: Layout, l': Layout, n: nat, m: nat)
    requires Owned(l, n) && n <= m && l' == l.(rowPages := l'.rowPages)
    requires SetOf(l'.rowPages) == SetOf(l.rowPages) + Range(n, m)
    ensures Owned(l', m)
  {
    hide PagesOf, InSome;
    BelowOwned(l, n);
    assert ChainPages(l') == ChainPages(l) + Range(n, m);
  }

  lemma BelowOwned(l: Layout, n: nat)
    requires Owned(l, n)
    ensures forall x :: x in ChainPages(l) ==> x < n
    ensures forall f, x :: 0 <= f < |l.indexes| && x in PagesOf(l.indexes[f]) ==> x < n
  {
    hide PagesOf, ChainPages;
    forall f, x | 0 <= f < |l.indexes| && x in PagesOf(l.indexes[f]) ensures x < n {
      assert InSome(l.indexes, x);
    }
  }

  /** An edit of directory pages only. */
  lemma DirectoryEdited(before: seq<Page>, after: seq<Page>, l: Layout, a: Bytes, b: Bytes, c: Bytes, c': Bytes)
    requires Sound(before, l, a, b, c) && PagesOk(after) && OnlyIn(before, after, SetOf(l.directory))
    requires |after| == |before|
    requires Chained(after, l.sup.directoryHead, l.directory, PageType.IndexDirectory)
    requires Payloads(after, l.directory) == c'
    ensures Sound(after, l, a, b, c') && after[0] == before[0]
  {
    hide Chained, Payloads, IndexOk, PagesOk, Unchanged, PagesOf, SetOf, OnlyIn, Owned;
    ApartFrom(l, |before|);
    OnlyInSpares(before, after, SetOf(l.directory), SetOf(l.schema));
    OnlyInSpares(before, after, SetOf(l.directory), SetOf(l.rowPages));
    forall f | 0 <= f < |l.indexes| ensures Unchanged(before, after, PagesOf(l.indexes[f])) {
      OnlyInSpares(before, after, SetOf(l.directory), PagesOf(l.indexes[f]));
    }
    SoundFrame(before, after, l, a, b, c);
    OnlyInSize(before, after, SetOf(l.directory));
  }

  /** An edit of the superblock only. */
  lemma SuperEdited(before: seq<Page>, after: seq<Page>, l: Layout, a: Bytes, b: Bytes, c: Bytes)
    requires Sound(before, l, a, b, c) && PagesOk(after) && OnlyIn(before, after, {0}) && |after| == |before|
    ensures Sound(after, l, a, b, c)
  {
    hide Chained, Payloads, IndexOk, PagesOk, Unchanged, PagesOf, SetOf, OnlyIn, Owned;
    ApartFrom(l, |before|);
    OnlyInSpares(before, after, {0}, SetOf(l.schema));
    OnlyInSpares(before, after, {0}, SetOf(l.rowPages));
    OnlyInSpares(before, after, {0}, SetOf(l.directory));
    forall f | 0 <= f < |l.indexes| ensures Unchanged(before, after, PagesOf(l.indexes[f])) {
      OnlyInSpares(before, after, {0}, PagesOf(l.indexes[f]));
    }
    SoundFrame(before, after, l, a, b, c);
  }

  /** One index replaced by a grown one. */
  lemma IndexEdited(before: seq<Page>, after: seq<Page>, l: Layout, f: nat, y: Index, a: Bytes, b: Bytes, c: Bytes)
    requires Sound(before, l, a, b, c) && f < |l.indexes| && PagesOk(after) && IndexOk(after, y)
    requires OnlyIn(before, after, PagesOf(l.indexes[f]))
    requires PagesOf(y) == PagesOf(l.indexes[f]) + Range(|before|, |after|)
    ensures Sound(after, l.(indexes := l.indexes[f := y]), a, b, c) && after[0] == before[0]
  {
    hide Chained, Payloads, IndexOk, PagesOk, Unchanged, PagesOf, SetOf, OnlyIn, Owned;
    var x := l.indexes[f];
    ApartFrom(l, |before|);
    OnlyInSpares(before, after, PagesOf(x), SetOf(l.schema));
    OnlyInSpares(before, after, PagesOf(x), SetOf(l.rowPages));
    OnlyInSpares(before, after, PagesOf(x), SetOf(l.directory));
    IndexesApartPairwise(l, |before|);
    forall g | 0 <= g < |l.indexes| && g != f ensures Unchanged(before, after, PagesOf(l.indexes[g])) {
      OnlyInSpares(before, after, PagesOf(x), PagesOf(l.indexes[g]));
    }
    OnlyInSize(before, after, PagesOf(x));
    SoundFrame(before, after, l, a, b, c);
    IndexOwned(l, f, y, |before|, |after|);
  }

  lemma IndexesApartPairwise(l: Layout, n: nat)
    requires Owned(l, n)
    ensures forall i, j :: 0 <= i < |l.indexes| && 0 <= j < |l.indexes| && i != j ==>
              PagesOf(l.indexes[i]) !! PagesOf(l.indexes[j])
  {
    hide PagesOf, InSome, ChainPages;
  }

  lemma IndexOwned(l: Layout, f: nat, y: Index, n: nat, m: nat)
    requires Owned(l, n) && f < |l.indexes| && n <= m && PagesOf(y) == PagesOf(l.indexes[f]) + Range(n, m)
    ensures Owned(l.(indexes := l.indexes[f := y]), m)
  {
    hide PagesOf, ChainPages;
    BelowOwned(l, n);
    IndexesApartPairwise(l, n);
    var xs, ys := l.indexes, l.indexes[f := y];
    assert ChainPages(l.(indexes := ys)) == ChainPages(l) by { SameChains(l, ys); }
    assert ChainsApart(l.(indexes := ys));
    forall p: nat ensures InSome(ys, p) <==> InSome(xs, p) || n <= p < m {
      if InSome(xs, p) {
        var i :| 0 <= i < |xs| && p in PagesOf(xs[i]);
        assert p in PagesOf(ys[i]);
      }
      if n <= p < m { assert p in PagesOf(ys[f]); }
      if InSome(ys, p) {
        var i :| 0 <= i < |ys| && p in PagesOf(ys[i]);
        assert p in PagesOf(xs[i]) || n <= p < m;
      }
    }
    forall i, j | 0 <= i < j < |ys| ensures PagesOf(ys[i]) !! PagesOf(ys[j]) {}
    forall i | 0 <= i < |ys| ensures PagesOf(ys[i]) !! ChainPages(l) {}
  }

  lemma SameChains(l: Layout, ys: seq<Index>)
    ensures ChainPages(l.(indexes := ys)) == ChainPages(l)
  {
  }

  // ----- from a sound state to a table

  function TableOf(fields: seq<Key>, rows: seq<Row>, generation: nat): Table {
    Table(fields, rows, seq(|fields|, f requires 0 <= f < |fields| => ColumnIndex(rows, f)), generation)
  }

  lemma DenotesTable(pages: seq<Page>, l: Layout, t: Table)
    requires Denotes(pages, l, t)
    ensures t == TableOf(t.fields, t.rows, t.generation) && FieldsOk(t.fields) && Rectangular(t.rows, |t.fields|)
    ensures |l.indexes| == |t.fields|
    ensures Sound(pages, l, SchemaBytes(t.fields), RowBytes(t.rows), DirectoryBytes(RootsOf(l.indexes)))
    ensures forall f :: 0 <= f < |l.indexes| ==> EntriesOf(l.indexes[f]) == ColumnIndex(t.rows, f)
  {
    hide Chained, Payloads, SchemaBytes, RowBytes, DirectoryBytes, ColumnIndex, Owned, Partition, IndexOk, FieldsOk,
      Rectangular;
    OwnedIsPartition(pages, l);
    forall f | 0 <= f < |l.indexes|
      ensures t.indexes[f] == ColumnIndex(t.rows, f) && EntriesOf(l.indexes[f]) == ColumnIndex(t.rows, f)
      ensures IndexOk(pages, l.indexes[f])
    {
      assert IndexDenotes(pages, l.indexes[f], t.rows, f, t.indexes[f]);
    }
    assert t.indexes == TableOf(t.fields, t.rows, t.generation).indexes;
  }

  lemma SoundDenotes(pages: seq<Page>, l: Layout, fields: seq<Key>, rows: seq<Row>, generation: nat)
    requires FieldsOk(fields) && Rectangular(rows, |fields|) && |l.indexes| == |fields|
    requires Sound(pages, l, SchemaBytes(fields), RowBytes(rows), DirectoryBytes(RootsOf(l.indexes)))
    requires forall f :: 0 <= f < |l.indexes| ==> EntriesOf(l.indexes[f]) == ColumnIndex(rows, f)
    requires SuperDenotes(pages, l.sup, TableOf(fields, rows, generation))
    ensures Denotes(pages, l, TableOf(fields, rows, generation))
  {
    hide Chained, Payloads, SchemaBytes, RowBytes, DirectoryBytes, ColumnIndex, Owned, Partition, IndexOk, FieldsOk,
      Rectangular, SuperDenotes;
    OwnedIsPartition(pages, l);
    var t := TableOf(fields, rows, generation);
    forall f | 0 <= f < |l.indexes| ensures IndexDenotes(pages, l.indexes[f], rows, f, t.indexes[f]) {
      LevelFits(pages, l.indexes[f]);
      EmptyColumn(rows, f, l.indexes[f]);
    }
  }

  lemma LevelFits(pages: seq<Page>, x: Index)
    requires PagesOk(pages) && IndexOk(pages, x)
    ensures x.Present? ==> x.level < U16
  {
    hide IndexOk;
    if x.Present? { TreeIsLow(pages, x); }
  }

  lemma EmptyColumn(rows: seq<Row>, f: nat, x: Index)
    requires EntriesOf(x) == ColumnIndex(rows, f)
    ensures x.Absent? ==> rows == []
  {
    hide SortEntries, Sorted;
    ColumnIndexSorted(rows, f);
    assert rows != [] ==> Column(rows, f)[0] in Column(rows, f);
  }
}
