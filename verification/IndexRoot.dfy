/** A whole index of one field: the tree behind one slot of the index
    directory, and an insertion that may replace its root. */
module IndexRoot {
  import opened Ordering
  import opened Codec
  import opened PageCodec
  import opened IndexPages
  import opened IndexTree
  import opened IndexGrowth
  import opened PageStore
  import opened IndexInsert
  import SplitBounds

  /** The index of one field: absent as long as the table has no rows. */
  datatype Index = Absent | Present(tree: Tree, level: nat)

  function RootOf(x: Index): nat { if x.Absent? then NO_PAGE else x.tree.id }

  function EntriesOf(x: Index): seq<Entry> { if x.Absent? then [] else Entries(x.tree) }

  function PagesOf(x: Index): set<nat> { if x.Absent? then {} else Ids(x.tree) }

  /** Ordered entries, exact separators, uniform levels, no shared page, and
      sibling links that follow the leaves. */
  ghost predicate IndexOk(pages: seq<Page>, x: Index) {
    x.Present? ==>
      && WF(x.tree, x.level) && Holds(pages, x.tree, x.level) && Apart(x.tree)
      && Sorted(Entries(x.tree)) && Linked(pages, LeafIds(x.tree))
  }

  // ----- trees are low

  function Pow2(n: nat): (p: nat)
    ensures p >= 1
  {
    if n == 0 then 1 else 2 * Pow2(n - 1)
  }

  lemma {:induction false} TreeIsWide(t: Tree, level: nat)
    requires WF(t, level) && Apart(t)
    ensures |Ids(t)| >= Pow2(level)
    decreases t, 1
  {
    hide AllIds, AllApart, Entries, NodeSize, LeafSize, EntryOk, Separators, AllEntries, AllLeafIds, LeafIds;
    if t.Node? {
      KidsAreWide(t, level);
    }
  }

  /** Two children already own disjoint page sets. */
  lemma KidsAreWide(t: Tree, level: nat)
    requires t.Node? && WF(t, level) && Apart(t)
    ensures |Ids(t)| >= Pow2(level)
    decreases t, 0
  {
    hide AllIds, AllApart, Entries, NodeSize, EntryOk, Separators, AllEntries, AllLeafIds, LeafIds, Ids, Apart;
    NodeParts(t);
    WFKids(t, level);
    TwoKids(t.kids);
    TreeIsWide(t.kids[0], level - 1);
    TreeIsWide(t.kids[1], level - 1);
    var both := Ids(t.kids[0]) + Ids(t.kids[1]);
    assert |both| == |Ids(t.kids[0])| + |Ids(t.kids[1])|;
    SubsetSize(both, Ids(t));
  }

  lemma TwoKids(kids: seq<Tree>)
    requires |kids| >= 2 && AllApart(kids)
    ensures Apart(kids[0]) && Apart(kids[1])
    ensures Ids(kids[0]) !! Ids(kids[1]) && Ids(kids[0]) + Ids(kids[1]) <= AllIds(kids)
  {
    hide Ids, Apart;
  }

  lemma SubsetSize(a: set<nat>, b: set<nat>)
    requires a <= b
    ensures |a| <= |b|
  {
    assert b == a + (b - a);
  }

  lemma {:induction false} RangeSize(lo: nat, hi: nat)
    requires lo <= hi
    ensures |Range(lo, hi)| == hi - lo
    decreases hi - lo
  {
    if lo < hi {
      RangeSize(lo + 1, hi);
      assert Range(lo, hi) == {lo} + Range(lo + 1, hi);
    }
  }

  lemma {:induction false} Pow2Grows(m: nat, n: nat)
    requires m <= n
    ensures Pow2(m) <= Pow2(n)
    decreases n - m
  {
    if m < n {
      Pow2Grows(m + 1, n);
    }
  }

  const MAX_LEVEL := 31

  lemma TreeIsLow(pages: seq<Page>, x: Index)
    requires PagesOk(pages) && IndexOk(pages, x) && x.Present?
    ensures x.level <= MAX_LEVEL
  {
    hide IndexOk, PagesOk, Ids, Range, WF, Apart, Holds, Pow2;
    TreeParts(pages, x);
    TreeIsWide(x.tree, x.level);
    AllBelowPages(pages, x.tree, x.level);
    RangeSize(0, |pages|);
    SubsetSize(Ids(x.tree), Range(0, |pages|));
    Pow2Of32();
    if x.level > MAX_LEVEL {
      Pow2Grows(MAX_LEVEL + 1, x.level);
    }
  }

  lemma TreeParts(pages: seq<Page>, x: Index)
    requires PagesOk(pages) && IndexOk(pages, x) && x.Present?
    ensures WF(x.tree, x.level) && Apart(x.tree) && Holds(pages, x.tree, x.level) && |pages| <= NO_PAGE < U32
  {
  }

  lemma Pow2Of32()
    ensures Pow2(32) == U32
  {
    assert Pow2(8) == 256;
    assert Pow2(16) == 0x1_0000;
    assert Pow2(24) == 0x100_0000;
  }

  // ----- one insertion into one index

  /** Pages that one index may gain: a page per level, and a new root. */
  const INDEX_GROWTH := MAX_LEVEL + 2

  ghost predicate Grew(before: seq<Page>, after: seq<Page>, x: Index, y: Index, e: Entry) {
    && |before| <= |after| <= |before| + INDEX_GROWTH
    && PagesOk(after) && IndexOk(after, y) && y.Present?
    && EntriesOf(y) == InsertSorted(EntriesOf(x), e)
    && PagesOf(y) == PagesOf(x) + Range(|before|, |after|)
    && forall i :: 0 <= i < |before| && i !in PagesOf(x) ==> after[i] == before[i]
  }

  lemma FirstEntry(before: seq<Page>, after: seq<Page>, e: Entry)
    requires PagesOk(before) && |before| < NO_PAGE && EntryOk(e)
    requires after == before + [Page(IndexLeaf, |before|, NO_PAGE, LeafPayload(NO_PAGE, [e]))]
    ensures Grew(before, after, Absent, Present(Leaf(|before|, [e]), 0), e)
  {
    hide LeafPayload, PreviousOf, EntryOk;
    var p := after[|before|];
    OneEntryFits(e);
    LeafRewritten(p.(payload := []), p, NO_PAGE, [e]);
    var t := Leaf(|before|, [e]);
    assert LeafIds(t) == [|before|];
    assert LinkedAt(after, LeafIds(t), 0);
    assert Entries(t) == [e] && InsertSorted([], e) == [e];
    assert Ids(t) == Range(|before|, |after|);
  }

  lemma OneEntryFits(e: Entry)
    requires EntryOk(e)
    ensures LeafSize([e]) <= PAYLOAD_SIZE
  {
    SplitBounds.SizeOne(e, 10);
  }

  lemma ReadyAtRoot(pages: seq<Page>, x: Index, e: Entry)
    requires PagesOk(pages) && |pages| + INDEX_GROWTH <= NO_PAGE && IndexOk(pages, x) && x.Present? && EntryOk(e)
    requires e !in EntriesOf(x)
    ensures Ready(pages, x.tree, x.level, e, LeafIds(x.tree)) && x.level <= MAX_LEVEL
    ensures x.tree.id < |pages| && x.tree.id in Ids(x.tree)
  {
    hide WF, Apart, Linked, Sorted, Ids, EntryOk, NoDup, LeafIds, Entries;
    TreeIsLow(pages, x);
    LeavesAreDistinct(x.tree);
    RootIsOwned(x.tree);
  }

  lemma FramedAtRoot(before: seq<Page>, after: seq<Page>, t: Tree)
    requires Framed(before, after, Ids(t), LeafIds(t))
    ensures |before| <= |after| && forall i :: 0 <= i < |before| && i !in Ids(t) ==> after[i] == before[i]
  {
    hide Alike;
    LeavesAreOwned(t);
  }

  lemma RootKept(before: seq<Page>, after: seq<Page>, x: Index, e: Entry, repl: seq<Tree>, hit: Option<nat>)
    requires x.Present? && x.level <= MAX_LEVEL && PagesOk(before) && IndexOk(before, x) && e !in EntriesOf(x)
    requires AfterInsert(before, after, x.tree, x.level, e, LeafIds(x.tree), repl, hit) && |repl| == 1
    ensures Grew(before, after, x, Present(repl[0], x.level), e)
  {
    hide WF, Apart, Holds, Linked, EntryOk, Less, Sorted, InsertSorted, Entries, Ids, LeafIds, AllApart, Framed;
    FramedAtRoot(before, after, x.tree);
    assert repl == [repl[0]];
    WalkOne(x.tree);
    WalkOne(repl[0]);
    ApartOne(repl[0]);
    InsertSortedIsSorted(Entries(x.tree), e);
  }

  /** A root that was cut gets a parent one level up. */
  lemma RootRaised(before: seq<Page>, mid: seq<Page>, after: seq<Page>, x: Index, e: Entry, repl: seq<Tree>,
          hit: Option<nat>, sep: Entry)
    requires x.Present? && x.level <= MAX_LEVEL && PagesOk(before) && IndexOk(before, x) && e !in EntriesOf(x)
    requires |before| + INDEX_GROWTH <= NO_PAGE
    requires AfterInsert(before, mid, x.tree, x.level, e, LeafIds(x.tree), repl, hit)
    requires |repl| == 2 && Entries(repl[1]) != [] && sep == Entries(repl[1])[0]
    requires after ==
               mid
               + [Page(IndexInternal, |mid|, NO_PAGE, InternalBytes(InternalContents(x.level + 1, [sep], Roots(repl))))]
    ensures Grew(before, after, x, Present(Node(|mid|, [sep], repl), x.level + 1), e)
  {
    hide WF, Apart, Holds, Linked, EntryOk, Less, Sorted, InsertSorted, Entries, Ids, LeafIds, AllApart, Framed,
      InternalBytes, AllEntries, AllIds, AllLeafIds, NodePage, NodeSize;
    var n := Node(|mid|, [sep], repl);
    FramedAtRoot(before, mid, x.tree);
    WalkOne(x.tree);
    NodeParts(n);
    AllBelowPages(before, x.tree, x.level);
    NewRootOk(mid, after, n, x.level, sep);
    InsertSortedIsSorted(Entries(x.tree), e);
    AppendedLinks(mid, after, LeafIds(n));
  }

  lemma AppendedLinks(mid: seq<Page>, after: seq<Page>, chain: seq<nat>)
    requires Linked(mid, chain) && |mid| <= |after| && forall i :: 0 <= i < |mid| ==> after[i] == mid[i]
    ensures Linked(after, chain)
  {
    hide Linked;
    LinkedFrame(mid, after, chain);
  }

  lemma NewRootOk(mid: seq<Page>, after: seq<Page>, n: Tree, level: nat, sep: Entry)
    requires n.Node? && n.id == |mid| && n.seps == [sep] && |n.kids| == 2 && |mid| < NO_PAGE
    requires Stored(mid, n.kids, level) && Entries(n.kids[1]) != [] && sep == Entries(n.kids[1])[0]
    requires after ==
               mid
               + [Page(IndexInternal, |mid|, NO_PAGE, InternalBytes(InternalContents(level + 1, [sep], Roots(n.kids))))]
    ensures WF(n, level + 1) && Holds(after, n, level + 1) && PagesOk(after)
  {
    hide InternalBytes, Entries, EntryOk;
    EntriesOk(n.kids[1], level);
    assert EntryOk(sep);
    assert NodeSize([sep]) <= PAYLOAD_SIZE by { OneBranchFits(sep); }
    var p := after[|mid|];
    NodeWritten(p.(payload := []), p, level + 1, [sep], Roots(n.kids));
    forall j | 0 <= j < 2 ensures Holds(after, n.kids[j], level) {
      forall x | x in Ids(n.kids[j]) && x < |mid| ensures Alike(mid[x], after[x]) { AlikeItself(mid[x]); }
      HoldsFrame(mid, after, n.kids[j], level);
    }
  }

  lemma OneBranchFits(sep: Entry)
    requires EntryOk(sep)
    ensures NodeSize([sep]) <= PAYLOAD_SIZE
  {
    SplitBounds.SizeOne(sep, 14);
  }

  /** One turn of the loop over the fields: the entry goes into the index
      behind `root`, and the new root is returned. */
  method InsertIntoIndex(v: PageVector, root: nat, e: Entry, ghost x: Index)
    returns (r: Result<nat>, ghost y: Index)
    requires PagesOk(v.pages) && |v.pages| + INDEX_GROWTH <= NO_PAGE && IndexOk(v.pages, x) && RootOf(x) == root
    requires EntryOk(e) && e !in EntriesOf(x)
    modifies v
    ensures Grew(old(v.pages), v.pages, x, y, e) && r == Ok(RootOf(y))
    ensures DirtyCovers(old(v.pages), v.pages, v.dirty) && DirtyGrew(old(v.dirty), v.dirty, |v.pages|)
  {
    hide Grew, IndexOk, DirtyCovers, AfterInsert, EntryOk, LeafPayload, InternalBytes, Holds, Ready, Entries, Ids;
    ghost var before, dirty0 := v.pages, v.dirty;
    y := x;
    if root == NO_PAGE {
      AbsentRoot(before, x, e);
      var fresh_ := |v.pages|;
      var payload := EncodeLeafPayload(NO_PAGE, [e]);
      KeyIsOk(e);
      if payload.Err? { return Err(LogicError), y; }
      v.PushBack(Page(IndexLeaf, fresh_, NO_PAGE, payload.value));
      y := Present(Leaf(fresh_, [e]), 0);
      FirstEntry(before, v.pages, e);
      PushedIsDirty(before, v.pages, v.dirty);
      return Ok(fresh_), y;
    }
    PresentRoot(x);
    ReadyAtRoot(before, x, e);
    var split;
    ghost var repl, hit;
    split, repl, hit := v.InsertIndexEntry(root, e, x.tree, x.level, LeafIds(x.tree));
    ghost var mid, midDirty := v.pages, v.dirty;
    if split.value.None? {
      y := Present(repl[0], x.level);
      RootKept(before, mid, x, e, repl, hit);
      return Ok(root), y;
    }
    AfterInsertSize(before, mid, x.tree, x.level, e, LeafIds(x.tree), repl, hit);
    var newRoot := |v.pages|;
    ghost var sep := split.value.value.separator;
    assert Roots(repl) == [root, split.value.value.rightPage];
    var level := NodeLevel(v.pages[root], mid, repl[0], x.level, before, x.tree, e, LeafIds(x.tree), repl, hit);
    var payload := EncodeInternalPayload(InternalContents((level + 1) % U16, [split.value.value.separator],
        [root, split.value.value.rightPage]));
    SepKeyIsOk(mid, repl, x.level, before, x.tree, e, LeafIds(x.tree), hit);
    if payload.Err? { return Err(LogicError), y; }
    v.PushBack(Page(IndexInternal, newRoot, NO_PAGE, payload.value));
    y := Present(Node(newRoot, [sep], repl), x.level + 1);
    RootRaised(before, mid, v.pages, x, e, repl, hit, sep);
    PushedIsDirty(mid, v.pages, v.dirty);
    DirtyComposes(before, mid, midDirty, v.pages, v.dirty);
    r := Ok(newRoot);
  }

  lemma AbsentRoot(pages: seq<Page>, x: Index, e: Entry)
    requires PagesOk(pages) && IndexOk(pages, x) && RootOf(x) == NO_PAGE
    ensures x == Absent
  {
    hide WF, Apart, Linked, Sorted, Entries;
  }

  lemma PresentRoot(x: Index)
    requires RootOf(x) != NO_PAGE
    ensures x.Present? && RootOf(x) == x.tree.id
  {
  }

  lemma KeyIsOk(e: Entry)
    requires EntryOk(e)
    ensures KeysOk([e])
  {
  }

  lemma PushedIsDirty(before: seq<Page>, after: seq<Page>, dirty: set<nat>)
    requires |after| == |before| + 1 && after[..|before|] == before && |before| in dirty
    ensures DirtyCovers(before, after, dirty)
  {
  }

  lemma SepKeyIsOk(mid: seq<Page>, repl: seq<Tree>, level: nat, before: seq<Page>, t: Tree, e: Entry, chain: seq<nat>,
          hit: Option<nat>)
    requires AfterInsert(before, mid, t, level, e, chain, repl, hit) && |repl| == 2 && Entries(repl[1]) != []
    ensures KeysOk([Entries(repl[1])[0]])
  {
    hide Entries, Grown, Linked, Framed;
    EntriesOk(repl[1], level);
  }

  /** `node_level`: zero for a leaf, the stored level of an internal page. */
  method NodeLevel(p: Page, ghost mid: seq<Page>, ghost t: Tree, ghost level: nat, ghost before: seq<Page>,
          ghost old_: Tree, ghost e: Entry,
                   ghost chain: seq<nat>, ghost repl: seq<Tree>, ghost hit: Option<nat>) returns (r: nat)
    requires AfterInsert(before, mid, old_, level, e, chain, repl, hit) && repl != [] && repl[0] == t && t.id < |mid|
    requires p == mid[t.id]
    requires level < U16
    ensures r == level
  {
    hide AfterInsert, IsInternal, InternalBytes;
    LevelIsStored(before, mid, old_, level, e, chain, repl, hit);
    r := 0;
    if p.ptype == IndexLeaf { return; }
    var c := DecodeInternalContents(p.payload);
    if c.Ok? {
      InternalContentsUnique(p.payload, c.value, InternalContents(level, t.seps, Roots(t.kids)));
      r := c.value.level;
    }
  }

  lemma LevelIsStored(before: seq<Page>, mid: seq<Page>, t: Tree, level: nat, e: Entry, chain: seq<nat>,
          repl: seq<Tree>, hit: Option<nat>)
    requires AfterInsert(before, mid, t, level, e, chain, repl, hit) && repl != [] && repl[0].id < |mid| && level < U16
    ensures var r := repl[0]; var p := mid[r.id];
      && (p.ptype == IndexLeaf <==> level == 0)
      && (r.Leaf? <==> level == 0)
      && (r.Node? ==> IsInternal(p.payload, InternalContents(level, r.seps, Roots(r.kids))))
  {
    hide Grown, Linked, Framed, InternalBytes, EntryOk, NodeSize, Entries, AllIds, Roots, Separators;
    var r := repl[0];
    if r.Node? {
      SplitBoundsCount(r.seps);
      forall j | 0 <= j < |r.kids| ensures r.kids[j].id < U32 {
        RootIsOwned(r.kids[j]);
        AllBelowPages(mid, r.kids[j], level - 1);
        PagesAreFew(mid);
      }
      RootsAreSmall(r.kids);
    }
  }

  lemma SplitBoundsCount(seps: seq<Entry>)
    requires All(seps, EntryOk) && NodeSize(seps) <= PAYLOAD_SIZE
    ensures |seps| < U16
  {
    SplitBounds.NodeCountFits(seps);
  }

}
