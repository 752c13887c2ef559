/** The row and superblock edits of `build_incremental_insert`, and the insert
    as a whole. */
module RowInsert {
  import opened Ordering
  import opened Codec
  import opened PageCodec
  import opened IndexPages
  import opened IndexTree
  import opened IndexGrowth
  import opened PageStore
  import opened IndexInsert
  import opened IndexRoot
  import opened Streams
  import opened Chains
  import opened TableImage
  import opened TableState

  /** What an insert needs beyond a valid image: the row count on the first row
      page, and the whole directory on its first page. */
  ghost predicate HeadsReady(pages: seq<Page>, l: Layout) {
    && l.rowPages != [] && l.directory != []
    && l.sup.rowsHead == l.rowPages[0] < |pages| && |pages[l.sup.rowsHead].payload| >= 8
    && l.sup.directoryHead == l.directory[0] < |pages| && |pages[l.sup.directoryHead].payload| >= 4 + 4 * |l.indexes|
  }

  lemma SetPayloadOnly(before: seq<Page>, after: seq<Page>, id: nat, payload: Bytes, s: set<nat>)
    requires PagesOk(before) && id < |before| && id in s && |payload| <= PAYLOAD_SIZE
    requires after == before[id := before[id].(payload := payload)]
    ensures PagesOk(after) && OnlyIn(before, after, s)
  {
  }

  /** Rewriting the payload of the first page of a chain. */
  lemma HeadRewritten(before: seq<Page>, after: seq<Page>, head: nat, ids: seq<nat>, ptype: PageType, payload: Bytes)
    requires Chained(before, head, ids, ptype) && ids != [] && head < |before|
    requires after == before[head := before[head].(payload := payload)]
    ensures Chained(after, head, ids, ptype) && ids[0] == head
    ensures Payloads(after, ids) == payload + Payloads(before, ids[1..])
    ensures Payloads(before, ids) == before[head].payload + Payloads(before, ids[1..])
  {
    hide NoDup, Payloads;
    SameNext(before, after, head, ids, NO_PAGE);
    assert ids == [head] + ids[1..];
    HeadNotBehind(ids);
    SamePayloads(before, after, ids[1..]);
    PayloadsSplit(before, [head], ids[1..]);
    PayloadsSplit(after, [head], ids[1..]);
    PayloadsOne(before, head);
    PayloadsOne(after, head);
    assert Typed(after, ids, ptype);
  }

  lemma HeadNotBehind(ids: seq<nat>)
    requires NoDup(ids) && ids != []
    ensures ids[0] !in ids[1..]
  {
  }

  lemma {:induction false} SameNext(before: seq<Page>, after: seq<Page>, head: nat, ids: seq<nat>, end: nat)
    requires Follow(before, head, ids, end) && |after| == |before|
    requires forall x :: 0 <= x < |before| ==> after[x].next == before[x].next
    ensures Follow(after, head, ids, end)
    decreases |ids|
  {
    if ids != [] {
      SameNext(before, after, before[head].next, ids[1..], end);
    }
  }

  // ----- the row count

  lemma CountRewritten(p: Bytes, rest: Bytes, n: nat, m: nat, tail: Bytes)
    requires |p| >= 8 && p + rest == LE(n, 8) + tail
    ensures WriteLE(p, 0, m, 8) + rest == LE(m, 8) + tail && |WriteLE(p, 0, m, 8)| == |p|
  {
    hide LE;
    assert (p + rest)[..8] == LE(n, 8) && (p + rest)[8..] == tail;
    assert p[8..] + rest == tail;
    assert p[..0] == [];
    assert WriteLE(p, 0, m, 8) == LE(m, 8) + p[8..];
  }

  lemma RowCountWritten(before: seq<Page>, after: seq<Page>, l: Layout, a: Bytes, c: Bytes, n: nat, m: nat, tail: Bytes)
    requires Sound(before, l, a, LE(n, 8) + tail, c) && HeadsReady(before, l)
    requires var h := l.sup.rowsHead; after == before[h := before[h].(payload := WriteLE(before[h].payload, 0, m, 8))]
    ensures Sound(after, l, a, LE(m, 8) + tail, c) && HeadsReady(after, l) && after[0] == before[0]
  {
    hide LE, Payloads, WriteLE, Owned, IndexOk, Chained, NoDup;
    var h := l.sup.rowsHead;
    var payload := WriteLE(before[h].payload, 0, m, 8);
    HeadRewritten(before, after, h, l.rowPages, PageType.Rows, payload);
    CountRewritten(before[h].payload, Payloads(before, l.rowPages[1..]), n, m, tail);
    SetPayloadOnly(before, after, h, payload, SetOf(l.rowPages));
    assert Range(|before|, |after|) == {};
    RowsEdited(before, after, l, l, a, LE(n, 8) + tail, c, LE(m, 8) + tail);
  }

  // ----- the new row

  lemma RowBytesGrow(rows: seq<Row>, row: Row)
    ensures RowBytes(rows + [row]) == LE(|rows| + 1, 8) + (EncList(rows, EncRow) + EncRow(row))
  {
    hide LE, EncRow;
    EncListAppend(rows, row, EncRow);
  }

  lemma LastOf(pages: seq<Page>, head: nat, ids: seq<nat>, ptype: PageType)
    requires Chained(pages, head, ids, ptype) && ids != []
    ensures var last := ids[|ids| - 1]; last < |pages| && pages[last].ptype == ptype && pages[last].next == NO_PAGE
  {
    var k := |ids| - 1;
    assert ids == ids[..k] + [ids[k]];
    LastNext(pages, head, ids[..k], ids[k], NO_PAGE);
  }

  lemma {:induction false} LastNext(pages: seq<Page>, head: nat, ids: seq<nat>, last: nat, end: nat)
    requires Follow(pages, head, ids + [last], end)
    ensures last < |pages| && pages[last].next == end
    decreases |ids|
  {
    if ids == [] {
      assert (ids + [last])[1..] == [];
    } else {
      assert (ids + [last])[1..] == ids[1..] + [last];
      LastNext(pages, pages[head].next, ids[1..], last, end);
    }
  }

  /** Walks to the last page of the row chain. */
  method FindLast(pages: seq<Page>, head: nat, ghost ids: seq<nat>, ptype: PageType) returns (last: nat)
    requires PagesOk(pages) && Chained(pages, head, ids, ptype) && ids != []
    ensures last == ids[|ids| - 1] && last < |pages|
  {
    hide NoDup;
    last := head;
    ghost var rest := ids;
    while pages[last].next != NO_PAGE
      invariant rest != [] && Follow(pages, last, rest, NO_PAGE) && rest[|rest| - 1] == ids[|ids| - 1]
      invariant last < |pages|
      decreases |rest|
    {
      NextIsThere(pages, last, rest);
      last := pages[last].next;
      rest := rest[1..];
    }
    OnlyLast(pages, last, rest);
  }

  lemma NextIsThere(pages: seq<Page>, head: nat, ids: seq<nat>)
    requires Follow(pages, head, ids, NO_PAGE) && ids != [] && head < |pages| && pages[head].next != NO_PAGE
    ensures |ids| >= 2 && Follow(pages, pages[head].next, ids[1..], NO_PAGE) && pages[head].next < |pages|
  {
  }

  lemma OnlyLast(pages: seq<Page>, head: nat, ids: seq<nat>)
    requires PagesOk(pages) && Follow(pages, head, ids, NO_PAGE) && ids != [] && head < |pages|
    requires pages[head].next == NO_PAGE
    ensures ids == [head]
  {
    assert Follow(pages, NO_PAGE, ids[1..], NO_PAGE);
  }

  /** Bytes at the end of the last row page. */
  lemma RowsExtended(before: seq<Page>, after: seq<Page>, l: Layout, a: Bytes, b: Bytes, c: Bytes, more: Bytes)
    requires Sound(before, l, a, b, c) && HeadsReady(before, l)
    requires var last := l.rowPages[|l.rowPages| - 1];
      && last < |before| && |before[last].payload| + |more| <= PAYLOAD_SIZE
      && after == before[last := before[last].(payload := before[last].payload + more)]
    ensures Sound(after, l, a, b + more, c) && HeadsReady(after, l) && after[0] == before[0]
  {
    hide Payloads, Owned, IndexOk, NoDup;
    var last := l.rowPages[|l.rowPages| - 1];
    SetPayloadOnly(before, after, last, before[last].payload + more, SetOf(l.rowPages));
    SameNext(before, after, l.sup.rowsHead, l.rowPages, NO_PAGE);
    AllIdsBelow(before, l.rowPages, PageType.Rows);
    PayloadsExtended(before, after, l.rowPages, more);
    assert Range(|before|, |after|) == {};
    assert Typed(after, l.rowPages, PageType.Rows);
    RowsEdited(before, after, l, l, a, b, c, b + more);
  }

  lemma AllIdsBelow(pages: seq<Page>, ids: seq<nat>, ptype: PageType)
    requires Typed(pages, ids, ptype)
    ensures forall x :: x in ids ==> x < |pages|
  {
  }

  /** A fresh, empty page behind the last row page. */
  lemma RowPageAdded(before: seq<Page>, after: seq<Page>, l: Layout, a: Bytes, b: Bytes, c: Bytes)
    requires Sound(before, l, a, b, c) && HeadsReady(before, l) && |before| < NO_PAGE
    requires var last := l.rowPages[|l.rowPages| - 1]; var n := |before|;
      last < n && after == before[last := before[last].(next := n)] + [Page(PageType.Rows, n, NO_PAGE, [])]
    ensures var l' := l.(rowPages := l.rowPages + [|before|]);
      Sound(after, l', a, b, c) && HeadsReady(after, l') && after[0] == before[0]
  {
    hide Payloads, Owned, IndexOk, Chained, NoDup;
    var last, n := l.rowPages[|l.rowPages| - 1], |before|;
    var p := Page(PageType.Rows, n, NO_PAGE, []);
    ChainGrows(before, l.sup.rowsHead, l.rowPages, PageType.Rows, p);
    var l' := l.(rowPages := l.rowPages + [n]);
    assert Range(n, |after|) == {n};
    assert SetOf(l'.rowPages) == SetOf(l.rowPages) + {n};
    assert PagesOk(after);
    assert OnlyIn(before, after, SetOf(l.rowPages));
    RowsEdited(before, after, l, l', a, b, c, b);
  }

  /** The loop that spreads the encoded row over the last page and new ones. */
  method AppendRow(v: PageVector, encoded: Bytes, rowsHead: nat, ghost l: Layout, ghost a: Bytes, ghost b: Bytes,
          ghost c: Bytes)
    returns (ghost l': Layout)
    requires Sound(v.pages, l, a, b, c) && HeadsReady(v.pages, l) && l.sup.rowsHead == rowsHead
    requires |encoded| <= 2 * PAYLOAD_SIZE && |v.pages| + 3 <= NO_PAGE
    modifies v
    ensures Sound(v.pages, l', a, b + encoded, c) && HeadsReady(v.pages, l') && l' == l.(rowPages := l'.rowPages)
    ensures v.pages[0] == old(v.pages[0]) && |old(v.pages)| <= |v.pages| <= |old(v.pages)| + 3
    ensures DirtyCovers(old(v.pages), v.pages, v.dirty) && DirtyGrew(old(v.dirty), v.dirty, |v.pages|)
  {
    hide Sound, PagesOk, Chained, DirtyCovers, DirtyGrew;
    l' := l;
    ghost var start := v.pages;
    SoundParts(v.pages, l, a, b, c);
    var rowPage := FindLast(v.pages, rowsHead, l.rowPages, PageType.Rows);
    var offset: nat := 0;
    assert encoded[..0] == [] && b + [] == b;
    NothingDirty(start, v.dirty);
    while offset < |encoded|
      invariant offset <= |encoded| && Sound(v.pages, l', a, b + encoded[..offset], c) && HeadsReady(v.pages, l')
      invariant l' == l.(rowPages := l'.rowPages) && l'.rowPages != []
      invariant rowPage == l'.rowPages[|l'.rowPages| - 1] < |v.pages| && v.pages[0] == start[0]
      invariant |start| <= |v.pages| && DirtyCovers(start, v.pages, v.dirty)
      invariant DirtyGrew(old(v.dirty), v.dirty, |v.pages|)
      invariant |v.pages[rowPage].payload| <= PAYLOAD_SIZE
      invariant offset < |encoded| ==>
                  || |v.pages| == |start|
                  || (v.pages[rowPage].payload == [] && PAYLOAD_SIZE * (|v.pages| - |start| - 1) <= offset)
      invariant |v.pages| <= |start| + 3
      decreases |encoded| - offset, |v.pages[rowPage].payload|
    {
      ghost var before := v.pages;
      var capacity := PAYLOAD_SIZE - |v.pages[rowPage].payload|;
      var copied := if capacity < |encoded| - offset then capacity else |encoded| - offset;
      var part := encoded[offset..offset + copied];
      ghost var beforeDirty := v.dirty;
      CopyPart(v, rowPage, part, l', a, b + encoded[..offset], c);
      OneMoreDirty(start, before, v.pages, old(v.dirty), beforeDirty, v.dirty, rowPage);
      Reassociate(b, encoded[..offset], part);
      assert encoded[..offset + copied] == encoded[..offset] + part;
      offset := offset + copied;
      if offset < |encoded| {
        ghost var filled, filledDirty, full := v.pages, v.dirty, rowPage;
        rowPage, l' := LinkRowPage(v, rowPage, l', a, b + encoded[..offset], c);
        OnePageMore(start, filled, v.pages, old(v.dirty), filledDirty, v.dirty, full);
      }
    }
    assert encoded[..offset] == encoded;
  }

  method CopyPart(v: PageVector, rowPage: nat, part: Bytes, ghost l: Layout, ghost a: Bytes, ghost b: Bytes,
          ghost c: Bytes)
    requires Sound(v.pages, l, a, b, c) && HeadsReady(v.pages, l) && l.rowPages != []
    requires rowPage == l.rowPages[|l.rowPages| - 1] < |v.pages|
    requires |v.pages[rowPage].payload| + |part| <= PAYLOAD_SIZE
    modifies v
    ensures Sound(v.pages, l, a, b + part, c) && HeadsReady(v.pages, l)
    ensures v.pages == old(v.pages)[rowPage := old(v.pages)[rowPage].(payload := old(v.pages)[rowPage].payload + part)]
    ensures v.dirty == old(v.dirty) + {rowPage} && v.pages[0] == old(v.pages)[0]
  {
    hide Sound, HeadsReady;
    ghost var before := v.pages;
    v.SetPayload(rowPage, v.pages[rowPage].payload + part);
    RowsExtended(before, v.pages, l, a, b, c, part);
  }

  lemma NothingDirty(pages: seq<Page>, dirty: set<nat>)
    ensures DirtyCovers(pages, pages, dirty) && DirtyGrew(dirty, dirty, |pages|)
  {
  }

  lemma OneMoreDirty(start: seq<Page>, before: seq<Page>, after: seq<Page>, first: set<nat>, dirty: set<nat>,
          dirty': set<nat>, x: nat)
    requires DirtyCovers(start, before, dirty) && DirtyGrew(first, dirty, |before|) && dirty' == dirty + {x}
    requires x < |before|
    requires |after| == |before| && forall y :: 0 <= y < |after| && y != x ==> after[y] == before[y]
    ensures DirtyCovers(start, after, dirty') && DirtyGrew(first, dirty', |after|)
  {
  }

  lemma OnePageMore(start: seq<Page>, before: seq<Page>, after: seq<Page>, first: set<nat>, dirty: set<nat>,
          dirty': set<nat>, x: nat)
    requires DirtyCovers(start, before, dirty) && DirtyGrew(first, dirty, |before|) && dirty' == dirty + {|before|}
    requires x in dirty
    requires |after| == |before| + 1 && forall y :: 0 <= y < |before| && y != x ==> after[y] == before[y]
    ensures DirtyCovers(start, after, dirty') && DirtyGrew(first, dirty', |after|)
  {
  }

  /** A full row page gets an empty successor. */
  method LinkRowPage(v: PageVector, rowPage: nat, ghost l: Layout, ghost a: Bytes, ghost b: Bytes, ghost c: Bytes)
    returns (next: nat, ghost l': Layout)
    requires Sound(v.pages, l, a, b, c) && HeadsReady(v.pages, l) && |v.pages| < NO_PAGE
    requires rowPage == l.rowPages[|l.rowPages| - 1] < |v.pages|
    modifies v
    ensures next == old(|v.pages|) && l' == l.(rowPages := l.rowPages + [next]) && Sound(v.pages, l', a, b, c)
    ensures HeadsReady(v.pages, l')
    ensures v.pages ==
              old(v.pages)[rowPage := old(v.pages)[rowPage].(next := next)] + [Page(PageType.Rows, next, NO_PAGE, [])]
    ensures v.dirty == old(v.dirty) + {next} && v.pages != [] && old(v.pages) != [] && v.pages[0] == old(v.pages[0])
  {
    hide Sound, HeadsReady;
    ghost var filled := v.pages;
    next := |v.pages|;
    SoundParts(filled, l, a, b, c);
    v.pages := v.pages[rowPage := v.pages[rowPage].(next := next)] + [Page(PageType.Rows, next, NO_PAGE, [])];
    v.dirty := v.dirty + {next};
    RowPageAdded(filled, v.pages, l, a, b, c);
    l' := l.(rowPages := l.rowPages + [next]);
  }

  lemma SoundParts(pages: seq<Page>, l: Layout, a: Bytes, b: Bytes, c: Bytes)
    requires Sound(pages, l, a, b, c) && HeadsReady(pages, l)
    ensures PagesOk(pages) && Chained(pages, l.sup.rowsHead, l.rowPages, PageType.Rows)
    ensures |pages| <= NO_PAGE
    ensures var last := l.rowPages[|l.rowPages| - 1]; last < |pages| && |pages[last].payload| <= PAYLOAD_SIZE
  {
    hide Payloads, Owned, IndexOk, NoDup, Follow;
  }

  // ----- the directory

  lemma {:induction false} IdSlot(roots: seq<nat>, f: nat, r: nat)
    requires f < |roots|
    ensures |EncList(roots, EncId)| == 4 * |roots|
    ensures WriteLE(EncList(roots, EncId), 4 * f, r, 4) == EncList(roots[f := r], EncId)
    decreases |roots|
  {
    hide LE;
    var n := |roots| - 1;
    var last := roots[n];
    assert roots == roots[..n] + [last];
    EncListAppend(roots[..n], last, EncId);
    if f == n {
      assert roots[f := r] == roots[..n] + [r];
      EncListAppend(roots[..n], r, EncId);
      IdsSize(roots[..n]);
      var e := EncList(roots[..n], EncId);
      assert WriteLE(e + LE(last, 4), 4 * n, r, 4) == e + LE(r, 4);
    } else {
      IdSlot(roots[..n], f, r);
      var e := EncList(roots[..n], EncId);
      assert roots[f := r] == roots[..n][f := r] + [last];
      EncListAppend(roots[..n][f := r], last, EncId);
      assert WriteLE(e + LE(last, 4), 4 * f, r, 4) == WriteLE(e, 4 * f, r, 4) + LE(last, 4);
    }
  }

  lemma {:induction false} IdsSize(roots: seq<nat>)
    ensures |EncList(roots, EncId)| == 4 * |roots|
  {
    hide LE;
    if roots != [] {
      IdsSize(roots[1..]);
    }
  }

  lemma DirectorySlot(roots: seq<nat>, f: nat, r: nat)
    requires f < |roots|
    ensures |DirectoryBytes(roots)| == 4 + 4 * |roots|
    ensures WriteLE(DirectoryBytes(roots), 4 + f * 4, r, 4) == DirectoryBytes(roots[f := r])
  {
    hide LE, EncList;
    IdSlot(roots, f, r);
    var h, e := LE(|roots|, 4), EncList(roots, EncId);
    assert WriteLE(h + e, 4 + 4 * f, r, 4) == h + WriteLE(e, 4 * f, r, 4);
  }

  /** The head page holds the whole directory. */
  lemma WholeDirectory(pages: seq<Page>, l: Layout, a: Bytes, b: Bytes)
    requires Sound(pages, l, a, b, DirectoryBytes(RootsOf(l.indexes))) && HeadsReady(pages, l)
    ensures pages[l.sup.directoryHead].payload == DirectoryBytes(RootsOf(l.indexes))
    ensures Payloads(pages, l.directory[1..]) == []
  {
    hide LE, EncList, Owned, IndexOk, NoDup, Payloads;
    var d := l.sup.directoryHead;
    var same := pages[d := pages[d].(payload := pages[d].payload)];
    assert same == pages;
    HeadRewritten(pages, same, d, l.directory, PageType.IndexDirectory, pages[d].payload);
    DirectorySize(RootsOf(l.indexes));
  }

  lemma DirectorySize(roots: seq<nat>)
    ensures |DirectoryBytes(roots)| == 4 + 4 * |roots|
  {
    hide LE, EncList;
    IdsSize(roots);
  }

  lemma RootWritten(before: seq<Page>, after: seq<Page>, l: Layout, a: Bytes, b: Bytes, roots: seq<nat>, f: nat, r: nat)
    requires Sound(before, l, a, b, DirectoryBytes(roots)) && HeadsReady(before, l) && f < |roots| == |l.indexes|
    requires before[l.sup.directoryHead].payload == DirectoryBytes(roots) && Payloads(before, l.directory[1..]) == []
    requires var d := l.sup.directoryHead;
      && 4 + f * 4 + 4 <= |before[d].payload|
      && after == before[d := before[d].(payload := WriteLE(before[d].payload, 4 + f * 4, r, 4))]
    ensures Sound(after, l, a, b, DirectoryBytes(roots[f := r])) && HeadsReady(after, l) && after[0] == before[0]
    ensures after[l.sup.directoryHead].payload == DirectoryBytes(roots[f := r])
    ensures Payloads(after, l.directory[1..]) == []
  {
    hide LE, Payloads, WriteLE, Owned, IndexOk, Follow, Typed, NoDup, DirectoryBytes;
    var d := l.sup.directoryHead;
    var payload := WriteLE(before[d].payload, 4 + f * 4, r, 4);
    HeadRewritten(before, after, d, l.directory, PageType.IndexDirectory, payload);
    DirectorySlot(roots, f, r);
    SetPayloadOnly(before, after, d, payload, SetOf(l.directory));
    TailKept(before, after, l.directory, d);
    DirectoryEdited(before, after, l, a, b, DirectoryBytes(roots), DirectoryBytes(roots[f := r]));
  }

  lemma TailKept(before: seq<Page>, after: seq<Page>, ids: seq<nat>, d: nat)
    requires ids != [] && ids[0] == d && NoDup(ids) && |after| == |before|
    requires forall x :: 0 <= x < |before| && x != d ==> after[x] == before[x]
    ensures Payloads(after, ids[1..]) == Payloads(before, ids[1..])
  {
    hide Payloads;
    HeadNotBehind(ids);
    SamePayloads(before, after, ids[1..]);
  }

  // ----- all indexes

  /** The indexes in the middle of the loop: the first `f` hold the new row. */
  ghost predicate HalfWay(xs: seq<Index>, rows: seq<Row>, row: Row, f: nat) {
    forall g :: 0 <= g < |xs| ==>
      EntriesOf(xs[g]) == (if g < f then ColumnIndex(rows + [row], g) else ColumnIndex(rows, g))
  }

  ghost predicate EditState(pages: seq<Page>, l: Layout, a: Bytes, b: Bytes, roots: seq<nat>) {
    && Sound(pages, l, a, b, DirectoryBytes(roots)) && HeadsReady(pages, l) && |roots| == |l.indexes|
    && pages[l.sup.directoryHead].payload == DirectoryBytes(roots) && Payloads(pages, l.directory[1..]) == []
  }

  lemma IndexStep(before: seq<Page>, mid: seq<Page>, l: Layout, a: Bytes, b: Bytes, roots: seq<nat>, f: nat, y: Index,
          e: Entry)
    requires EditState(before, l, a, b, roots) && f < |roots|
    requires Grew(before, mid, l.indexes[f], y, e)
    ensures var l' := l.(indexes := l.indexes[f := y]);
      EditState(mid, l', a, b, roots) && mid[0] == before[0]
  {
    hide Follow, Typed, NoDup, Payloads, IndexOk, PagesOk, PagesOf, DirectoryBytes, Owned;
    IndexEdited(before, mid, l, f, y, a, b, DirectoryBytes(roots));
    HeadsApart(before, l, f);
    TailUntouched(before, mid, l, f);
  }

  /** The chain heads are not index pages. */
  lemma HeadsApart(pages: seq<Page>, l: Layout, f: nat)
    requires Owned(l, |pages|) && HeadsReady(pages, l) && f < |l.indexes|
    ensures l.sup.rowsHead !in PagesOf(l.indexes[f]) && l.sup.directoryHead !in PagesOf(l.indexes[f])
  {
    hide PagesOf, Owned;
    ApartFrom(l, |pages|);
    assert l.rowPages[0] in SetOf(l.rowPages) && l.directory[0] in SetOf(l.directory);
  }

  lemma TailUntouched(before: seq<Page>, after: seq<Page>, l: Layout, f: nat)
    requires Owned(l, |before|) && f < |l.indexes| && l.directory != []
    requires Typed(before, l.directory, PageType.IndexDirectory)
    requires |before| <= |after|
    requires forall x :: 0 <= x < |before| && x !in PagesOf(l.indexes[f]) ==> after[x] == before[x]
    ensures Payloads(after, l.directory[1..]) == Payloads(before, l.directory[1..])
  {
    hide PagesOf, Owned, Payloads;
    ApartFrom(l, |before|);
    AllIdsBelow(before, l.directory, PageType.IndexDirectory);
    forall x | x in l.directory[1..] ensures x < |before| && after[x] == before[x] {
      assert x in l.directory && x in SetOf(l.directory);
    }
    SamePayloads(before, after, l.directory[1..]);
  }

  lemma HalfWayStep(xs: seq<Index>, rows: seq<Row>, row: Row, f: nat, y: Index)
    requires HalfWay(xs, rows, row, f) && f < |xs| && f < |row|
    requires EntriesOf(y) == InsertSorted(EntriesOf(xs[f]), Entry(row[f], |rows|))
    ensures HalfWay(xs[f := y], rows, row, f + 1)
  {
    hide ColumnIndex, InsertSorted, EntriesOf;
    ColumnIndexGrows(rows, row, f);
  }

  lemma NewEntry(xs: seq<Index>, rows: seq<Row>, row: Row, f: nat)
    requires HalfWay(xs, rows, row, f) && f < |xs| && f < |row| && StringsOk(row) && |rows| < U64
    ensures var e := Entry(row[f], |rows|); EntryOk(e) && e !in EntriesOf(xs[f])
  {
    hide ColumnIndex, EntriesOf;
    ColumnIndexGrows(rows, row, f);
  }

  method InsertIntoIndexes(v: PageVector, directoryHead: nat, roots0: seq<nat>, row: Row, recordId: nat,
          ghost l: Layout, ghost a: Bytes, ghost b: Bytes, ghost rows: seq<Row>)
    returns (r: Result<()>, ghost l': Layout, ghost roots: seq<nat>)
    requires EditState(v.pages, l, a, b, roots0) && roots0 == RootsOf(l.indexes) && l.sup.directoryHead == directoryHead
    requires HalfWay(l.indexes, rows, row, 0) && |row| == |l.indexes| && StringsOk(row) && recordId == |rows| < U64
    requires |v.pages| + INDEX_GROWTH * |row| <= NO_PAGE
    modifies v
    ensures r.Ok? && EditState(v.pages, l', a, b, roots) && roots == RootsOf(l'.indexes)
    ensures l' == l.(indexes := l'.indexes) && |l'.indexes| == |l.indexes| && HalfWay(l'.indexes, rows, row, |row|)
    ensures v.pages[0] == old(v.pages[0]) && |old(v.pages)| <= |v.pages| <= |old(v.pages)| + INDEX_GROWTH * |row|
    ensures DirtyCovers(old(v.pages), v.pages, v.dirty) && DirtyGrew(old(v.dirty), v.dirty, |v.pages|)
  {
    hide Sound, HalfWay, StringsOk, EntryOk, Grew, IndexOk, EntriesOf, WriteLE, Payloads;
    l', roots := l, roots0;
    r := Ok(());
    ghost var start := v.pages;
    var current := roots0;
    EditParts(v.pages, l', a, b, roots);
    for f := 0 to |row|
      invariant EditState(v.pages, l', a, b, roots) && roots == current == RootsOf(l'.indexes) && |roots| == |row|
      invariant l' == l.(indexes := l'.indexes) && HalfWay(l'.indexes, rows, row, f) && r.Ok?
      invariant |start| <= |v.pages| <= |start| + INDEX_GROWTH * f && v.pages != [] && v.pages[0] == start[0]
      invariant DirtyCovers(start, v.pages, v.dirty) && DirtyGrew(old(v.dirty), v.dirty, |v.pages|)
    {
      ghost var before, beforeDirty := v.pages, v.dirty;
      EditParts(v.pages, l', a, b, roots);
      NewEntry(l'.indexes, rows, row, f);
      var root;
      ghost var y;
      root, y := InsertIntoIndex(v, current[f], Entry(row[f], recordId), l'.indexes[f]);
      if root.Err? { r := Err(LogicError); return; }
      ghost var mid := v.pages;
      GrewParts(before, mid, l'.indexes[f], y, Entry(row[f], recordId));
      DirtyComposes(start, before, beforeDirty, mid, v.dirty);
      IndexStep(before, mid, l', a, b, roots, f, y, Entry(row[f], recordId));
      HalfWayStep(l'.indexes, rows, row, f, y);
      l' := l'.(indexes := l'.indexes[f := y]);
      DirectorySlot(roots, f, root.value);
      v.SetPayload(directoryHead, WriteLE(v.pages[directoryHead].payload, 4 + f * 4, root.value, 4));
      RootWritten(mid, v.pages, l', a, b, roots, f, root.value);
      current := current[f := root.value];
      roots := roots[f := root.value];
      assert roots == RootsOf(l'.indexes);
    }
  }

  lemma EditParts(pages: seq<Page>, l: Layout, a: Bytes, b: Bytes, roots: seq<nat>)
    requires EditState(pages, l, a, b, roots)
    ensures PagesOk(pages) && pages != [] && |roots| == |l.indexes|
    ensures forall f :: 0 <= f < |l.indexes| ==> IndexOk(pages, l.indexes[f])
    ensures l.sup.directoryHead < |pages| && |pages[l.sup.directoryHead].payload| == 4 + 4 * |roots|
    ensures Sound(pages, l, a, b, DirectoryBytes(roots)) && HeadsReady(pages, l) && |pages| < U32
    ensures pages[l.sup.directoryHead].payload == DirectoryBytes(roots)
  {
    hide Chained, Payloads, Owned, IndexOk, DirectoryBytes;
    DirectorySize(roots);
  }

  lemma GrewParts(before: seq<Page>, after: seq<Page>, x: Index, y: Index, e: Entry)
    requires Grew(before, after, x, y, e)
    ensures |before| <= |after| <= |before| + INDEX_GROWTH && EntriesOf(y) == InsertSorted(EntriesOf(x), e)
  {
  }

  // ----- the superblock

  function SuperAfter(s: SuperFields, pageCount: nat): SuperFields {
    s.(generation := s.generation + 1, pageCount := pageCount, rowCount := s.rowCount + 1)
  }

  lemma SuperRewritten(s: SuperFields, g: nat, n: nat, m: nat)
    ensures WriteLE(WriteLE(WriteLE(SuperBytes(s), 0, g, 8), 12, n, 4), 36, m, 8)
         == SuperBytes(s.(generation := g, pageCount := n, rowCount := m))
  {
    hide LE, SuperBytes;
    SuperAt(s);
    var b1 := WriteLE(SuperBytes(s), 0, g, 8);
    var b2 := WriteLE(b1, 12, n, 4);
    var b3 := WriteLE(b2, 36, m, 8);
    WriteAt(SuperBytes(s), 0, g, 8);
    WriteAt(b1, 12, n, 4);
    WriteAt(b2, 36, m, 8);
    Pieces(SuperBytes(s), b1, 0, 8);
    Pieces(b1, b2, 12, 16);
    Pieces(b2, b3, 36, 44);
    SuperFrom(b3, s.(generation := g, pageCount := n, rowCount := m));
  }

  lemma WriteAt(b: Bytes, offset: nat, v: nat, width: nat)
    requires offset + width <= |b|
    ensures var w := WriteLE(b, offset, v, width);
      && w[offset..offset + width] == LE(v, width) && w[..offset] == b[..offset]
      && w[offset + width..] == b[offset + width..]
  {
    hide LE;
  }

  /** Fields outside the rewritten one are the same. */
  lemma Pieces(b: Bytes, w: Bytes, lo: nat, hi: nat)
    requires lo <= hi <= |b| == |w| && w[..lo] == b[..lo] && w[hi..] == b[hi..]
    ensures forall i, j :: 0 <= i <= j <= lo ==> w[i..j] == b[i..j]
    ensures forall i, j :: hi <= i <= j <= |b| ==> w[i..j] == b[i..j]
  {
    assert forall k :: 0 <= k < lo ==> w[k] == w[..lo][k] == b[..lo][k] == b[k];
    assert forall k :: hi <= k < |b| ==> w[k] == w[hi..][k - hi] == b[hi..][k - hi] == b[k];
  }

  lemma SuperWritten(before: seq<Page>, after: seq<Page>, l: Layout, a: Bytes, b: Bytes, c: Bytes, t: Table, t': Table)
    requires Sound(before, l, a, b, c) && HeadsReady(before, l) && |before| < U32
    requires before[0].ptype == PageType.Superblock && before[0].next == NO_PAGE
    requires before[0].payload == SuperBytes(l.sup) && SuperOk(l.sup)
    requires t'.generation == l.sup.generation + 1 < U64 && |t'.rows| == l.sup.rowCount + 1 < U64
    requires |t'.fields| == l.sup.fieldCount
    requires after == before[0 := before[0].(payload := SuperBytes(SuperAfter(l.sup, |before|)))]
    ensures var l' := l.(sup := SuperAfter(l.sup, |before|));
      Sound(after, l', a, b, c) && HeadsReady(after, l') && SuperDenotes(after, l'.sup, t')
  {
    hide Chained, Payloads, Owned, IndexOk, SuperBytes, ChainPages;
    var l' := l.(sup := SuperAfter(l.sup, |before|));
    SetPayloadOnly(before, after, 0, after[0].payload, {0});
    SuperEdited(before, after, l, a, b, c);
    ApartFrom(l, |before|);
    assert l.rowPages[0] in SetOf(l.rowPages) && l.directory[0] in SetOf(l.directory);
    OwnedIgnoresSuper(l, l', |after|);
  }

  lemma OwnedIgnoresSuper(l: Layout, l': Layout, n: nat)
    requires Owned(l, n) && l' == l.(sup := l'.sup)
    ensures Owned(l', n)
  {
    hide PagesOf, InSome;
    assert ChainPages(l') == ChainPages(l);
  }

  // ----- the statement

  datatype IncrementalImage = IncrementalImage(image: Bytes, dirtyPages: set<nat>, generation: nat)

  /** Pages one insert may append: row pages, and a path per index. */
  const MAX_GROWTH := 3 + INDEX_GROWTH * MAX_FIELDS

  /** A row the table takes. */
  ghost predicate RowFits(t: Table, row: Row) {
    |row| == |t.fields| && StringsOk(row) && t.generation + 1 < U64
  }

  method ValuesFit(row: Row) returns (ok: bool)
    ensures ok <==> StringsOk(row)
  {
    for i := 0 to |row|
      invariant StringsOk(row[..i])
    {
      if |row[i]| > MAX_VALUE_LENGTH {
        assert !StringOk(row[i]);
        return false;
      }
      assert row[..i + 1] == row[..i] + [row[i]];
    }
    assert row[..|row|] == row;
    ok := true;
  }

  method EncodeRow(row: Row) returns (r: Result<Bytes>)
    ensures r == if StringsOk(row) then Ok(EncRow(row)) else Err(LengthError)
  {
    hide LE, EncString, EncList;
    var encoded := AppendLE([], |row|, 4);
    EncNothing(EncString);
    assert encoded == LE(|row|, 4) + EncList(row[..0], EncString);
    for i := 0 to |row|
      invariant encoded == LE(|row|, 4) + EncList(row[..i], EncString) && StringsOk(row[..i])
    {
      var next := AppendString(encoded, row[i]);
      if next.Err? {
        assert !StringOk(row[i]);
        return next;
      }
      EncListAppend(row[..i], row[i], EncString);
      assert row[..i + 1] == row[..i] + [row[i]];
      Reassociate(LE(|row|, 4), EncList(row[..i], EncString), EncString(row[i]));
      encoded := next.value;
    }
    assert row[..|row|] == row;
    r := Ok(encoded);
  }

  lemma {:induction false} StringsSize(s: seq<Key>)
    requires StringsOk(s)
    ensures |EncList(s, EncString)| <= 102 * |s|
  {
    hide LE;
    if s != [] {
      StringsSize(s[1..]);
      assert StringOk(s[0]);
    }
  }

  lemma RowSize(row: Row)
    requires StringsOk(row) && |row| <= MAX_FIELDS
    ensures |EncRow(row)| <= 2 * PAYLOAD_SIZE
  {
    hide LE, EncList;
    StringsSize(row);
  }

  /** The whole-directory read of the head page: count, then the roots. */
  method HeadRoots(payload: Bytes, fieldCount: nat) returns (r: Result<seq<nat>>)
    requires fieldCount < U32
    ensures r.Ok? ==> |payload| >= 4 + 4 * fieldCount && |r.value| == fieldCount
    ensures forall roots :: |roots| == fieldCount && All(roots, IdOk) && payload == DirectoryBytes(roots) ==>
              r == Ok(roots)
  {
    hide LE, EncList, EncId, Capacity, All;
    Widths();
    var reader := new Reader(payload);
    var count := reader.Unsigned(4);
    if count.None? { return Err(Corruption); }
    ghost var rest := reader.Rest();
    forall roots | |roots| == fieldCount && payload == DirectoryBytes(roots)
      ensures count.value == fieldCount && rest == EncList(roots, EncId)
    {
      IntPrefixFree(fieldCount, count.value, 4, EncList(roots, EncId), rest);
    }
    if count.value != fieldCount { return Err(Corruption); }
    var ids := ReadIds(reader, fieldCount);
    if ids.None? { return Err(Corruption); }
    IdsSize(ids.value);
    forall roots | |roots| == fieldCount && All(roots, IdOk) && payload == DirectoryBytes(roots)
      ensures ids.value == roots
    {
      SameIds(ids.value, roots, reader.Rest());
    }
    r := Ok(ids.value);
  }

  lemma SameIds(a: seq<nat>, b: seq<nat>, tail: Bytes)
    requires |a| == |b| && All(a, IdOk) && All(b, IdOk) && EncList(a, EncId) + tail == EncList(b, EncId)
    ensures a == b
  {
    hide EncList, EncId;
    IdsArePrefixFree();
    assert EncList(b, EncId) + [] == EncList(b, EncId);
    EncListInjective(a, b, EncId, IdOk, tail, []);
  }
}
