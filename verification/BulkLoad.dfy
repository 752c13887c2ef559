/** The bulk loader: packed leaves, sibling links, then parent levels until one
    root is left. */
module BulkLoad {
  import opened Ordering
  import opened Codec
  import opened PageCodec
  import opened IndexPages
  import opened IndexTree
  import opened IndexGrowth
  import opened SplitBounds
  import opened PageStore
  import opened IndexInsert
  import opened IndexRoot

  // ----- leaves

  lemma SizeAppend(es: seq<Entry>, e: Entry, overhead: nat)
    ensures EntriesSize(es + [e], overhead) == EntriesSize(es, overhead) + overhead + |e.key|
  {
    SizeSplit(es, [e], overhead);
    SizeOne(e, overhead);
  }

  /** Patching the leading count of a payload under construction. */
  lemma CountPatched(previous: nat, es: seq<Entry>)
    ensures WriteLE(LE(0, 2) + LE(previous, 4) + LE(0, 2) + EncList(es, EncEntry), 0, |es|, 2) ==
              LeafPayload(previous, es)
  {
    hide LE, EncList;
    var tail := LE(previous, 4) + LE(0, 2) + EncList(es, EncEntry);
    assert LE(0, 2) + LE(previous, 4) + LE(0, 2) + EncList(es, EncEntry) == LE(0, 2) + tail;
    assert LeafPayload(previous, es) == LE(|es|, 2) + tail;
  }

  /** A leaf is only left for the next one when it has this many entries. */
  const LEAF_MINIMUM := 35

  lemma FullLeaf(es: seq<Entry>, e: Entry)
    requires All(es, EntryOk) && EntryOk(e) && LeafSize(es) + 10 + |e.key| > PAYLOAD_SIZE
    ensures |es| >= LEAF_MINIMUM
  {
    SizeBound(es, 10);
  }

  /** A bound on the leaves that hold `n` entries. */
  function LeafBudget(n: nat): nat { n / LEAF_MINIMUM + 1 }

  /** Packs entries from `first` on into one leaf payload. */
  method FillLeaf(entries: seq<Entry>, first: nat) returns (r: Result<Bytes>, cursor: nat)
    requires first < |entries| && All(entries, EntryOk)
    ensures first < cursor <= |entries| && r == Ok(LeafPayload(NO_PAGE, entries[first..cursor]))
    ensures LeafSize(entries[first..cursor]) <= PAYLOAD_SIZE && (cursor == |entries| || cursor - first >= LEAF_MINIMUM)
  {
    hide LE, EncList, EncEntry, LeafPayload, EntriesSize, WriteLE;
    var payload := EncodeHeader(0, 2, NO_PAGE, 4, 0, 2);
    ghost var header := payload;
    var count := 0;
    cursor := first;
    EncNothing(EncEntry);
    EmptySizes();
    assert entries[first..cursor] == [];
    while cursor < |entries|
      invariant first <= cursor <= |entries| && count == cursor - first && All(entries[first..cursor], EntryOk)
      invariant payload == header + EncList(entries[first..cursor], EncEntry)
      invariant |payload| == LeafSize(entries[first..cursor]) <= PAYLOAD_SIZE
    {
      assert EntryOk(entries[cursor]);
      var entrySize := 2 + |entries[cursor].key| + 8;
      if |payload| + entrySize > PAYLOAD_SIZE {
        FullLeaf(entries[first..cursor], entries[cursor]);
        break;
      }
      var next := AppendEntry(payload, entries[cursor]);
      if next.Err? { return Err(LengthError), cursor; }
      EncListAppend(entries[first..cursor], entries[cursor], EncEntry);
      SizeAppend(entries[first..cursor], entries[cursor], 10);
      assert entries[first..cursor + 1] == entries[first..cursor] + [entries[cursor]];
      Reassociate(header, EncList(entries[first..cursor], EncEntry), EncEntry(entries[cursor]));
      payload := next.value;
      count := count + 1;
      cursor := cursor + 1;
    }
    if count == 0 { return Err(LogicError), cursor; }
    AllParts(entries, first, EntryOk);
    AllParts(entries[first..], count, EntryOk);
    assert entries[first..][..count] == entries[first..cursor];
    LeafCountFits(entries[first..cursor]);
    CountPatched(NO_PAGE, entries[first..cursor]);
    r := Ok(WriteLE(payload, 0, count % U16, 2));
  }

  lemma EmptySizes()
    ensures EntriesSize([], 10) == 0 && EntriesSize([], 14) == 0
  {
  }

  ghost predicate LeafStored(pages: seq<Page>, t: Tree, id: nat) {
    id < |pages| && t.Leaf? && t.id == id && WF(t, 0) && LeafPage(pages[id], t.entries) && |pages[id].payload| >= 8
  }

  /** Leaves `leaves` with consecutive identifiers from `base` on, not linked yet. */
  ghost predicate LeafRun(pages: seq<Page>, leaves: seq<Tree>, base: nat, entries: seq<Entry>) {
    && |pages| == base + |leaves| && PagesOk(pages)
    && (forall i :: 0 <= i < |leaves| ==> LeafStored(pages, leaves[i], base + i))
    && AllEntries(leaves) == entries
    && AllLeafIds(leaves) == Consecutive(base, |leaves|)
    && AllIds(leaves) == Range(base, base + |leaves|) && AllApart(leaves)
  }

  function Consecutive(base: nat, n: nat): (c: seq<nat>)
    ensures |c| == n && forall i :: 0 <= i < n ==> c[i] == base + i
  {
    seq(n, i requires 0 <= i < n => base + i)
  }

  lemma LeafAdded(pages: seq<Page>, leaves: seq<Tree>, base: nat, entries: seq<Entry>, es: seq<Entry>)
    requires LeafRun(pages, leaves, base, entries) && |pages| < NO_PAGE
    requires es != [] && All(es, EntryOk) && LeafSize(es) <= PAYLOAD_SIZE
    ensures LeafRun(pages + [Page(IndexLeaf, |pages|, NO_PAGE, LeafPayload(NO_PAGE, es))],
                leaves + [Leaf(|pages|, es)], base, entries + es)
  {
    hide LeafSize, LeafPayload, EntryOk, AllEntries, AllLeafIds, AllIds, AllApart, PreviousOf, WF, LeafPage,
      Consecutive, Range;
    var p, t := Page(IndexLeaf, |pages|, NO_PAGE, LeafPayload(NO_PAGE, es)), Leaf(|pages|, es);
    LeafRewritten(p.(payload := []), p, NO_PAGE, es);
    LeafLegal(|pages|, es);
    WalksAdded(leaves, t, base, |pages|);
    forall i | 0 <= i < |leaves| + 1 ensures LeafStored(pages + [p], (leaves + [t])[i], base + i) {
      assert i < |leaves| ==> LeafStored(pages, leaves[i], base + i);
    }
  }

  lemma LeafLegal(id: nat, es: seq<Entry>)
    requires es != [] && All(es, EntryOk) && LeafSize(es) <= PAYLOAD_SIZE
    ensures WF(Leaf(id, es), 0)
  {
  }

  lemma WalksAdded(leaves: seq<Tree>, t: Tree, base: nat, id: nat)
    requires t.Leaf? && t.id == id == base + |leaves|
    requires AllLeafIds(leaves) == Consecutive(base, |leaves|) && AllIds(leaves) == Range(base, base + |leaves|)
    requires AllApart(leaves)
    ensures AllEntries(leaves + [t]) == AllEntries(leaves) + t.entries
    ensures AllLeafIds(leaves + [t]) == Consecutive(base, |leaves| + 1)
    ensures AllIds(leaves + [t]) == Range(base, base + |leaves| + 1) && AllApart(leaves + [t])
  {
    hide AllEntries, AllLeafIds, AllIds, AllApart;
    WalkSplit(leaves, [t]);
    WalkOne(t);
    ApartSplit(leaves, [t]);
    ApartOne(t);
    assert Consecutive(base, |leaves| + 1) == Consecutive(base, |leaves|) + [id];
    RangeSnoc(base, base + |leaves|);
  }

  datatype ChildDescriptor = ChildDescriptor(id: nat, minimum: Entry, level: nat)

  /** The descriptors of one level describe its trees. */
  ghost predicate Describes(level: seq<ChildDescriptor>, trees: seq<Tree>, l: nat) {
    && |level| == |trees|
    && forall i :: 0 <= i < |trees| ==>
         && level[i].id == trees[i].id && level[i].level == l && Entries(trees[i]) != []
         && level[i].minimum == Entries(trees[i])[0]
  }

  method BuildLeaves(pages0: seq<Page>, entries: seq<Entry>)
    returns (r: Result<seq<Page>>, level: seq<ChildDescriptor>, ghost leaves: seq<Tree>)
    requires PagesOk(pages0) && |pages0| + LeafBudget(|entries|) <= NO_PAGE && entries != [] && All(entries, EntryOk)
    ensures r.Ok? && |pages0| <= |r.value| && r.value[..|pages0|] == pages0
    ensures LeafRun(r.value, leaves, |pages0|, entries) && Describes(level, leaves, 0)
    ensures 1 <= |leaves| <= LeafBudget(|entries|)
  {
    hide LeafRun, LeafPayload, LeafSize, EntryOk, Describes;
    var pages, cursor := pages0, 0;
    level, leaves := [], [];
    NoLeaves(pages0);
    while cursor < |entries|
      invariant cursor <= |entries| && (cursor > 0 ==> |leaves| >= 1)
      invariant LEAF_MINIMUM * |leaves| <= (if cursor < |entries| then cursor else cursor + LEAF_MINIMUM)
      invariant LeafRun(pages, leaves, |pages0|, entries[..cursor]) && Describes(level, leaves, 0)
      invariant |pages| == |pages0| + |leaves| && pages[..|pages0|] == pages0
    {
      var first := cursor;
      var payload;
      payload, cursor := FillLeaf(entries, first);
      if payload.Err? { return Err(LogicError), level, leaves; }
      ghost var es := entries[first..cursor];
      assert All(es, EntryOk);
      LeafAdded(pages, leaves, |pages0|, entries[..first], es);
      DescribesOne(level, leaves, 0, ChildDescriptor(|pages|, entries[first], 0), Leaf(|pages|, es));
      level := level + [ChildDescriptor(|pages|, entries[first], 0)];
      leaves := leaves + [Leaf(|pages|, es)];
      pages := pages + [Page(IndexLeaf, |pages|, NO_PAGE, payload.value)];
      assert entries[..cursor] == entries[..first] + es;
    }
    assert entries[..|entries|] == entries;
    r := Ok(pages);
  }

  lemma NoLeaves(pages: seq<Page>)
    requires PagesOk(pages)
    ensures LeafRun(pages, [], |pages|, []) && Describes([], [], 0)
  {
    EmptyWalk();
    assert Consecutive(|pages|, 0) == [];
  }

  lemma DescribesOne(level: seq<ChildDescriptor>, trees: seq<Tree>, l: nat, d: ChildDescriptor, t: Tree)
    requires Describes(level, trees, l) && Entries(t) != [] && d == ChildDescriptor(t.id, Entries(t)[0], l)
    ensures Describes(level + [d], trees + [t], l)
  {
    hide Entries;
  }

  /** The second pass over the leaves sets both sibling links. */
  method LinkLeaves(pages0: seq<Page>, ghost leaves: seq<Tree>, ghost entries: seq<Entry>, base: nat, n: nat)
    returns (pages: seq<Page>)
    requires LeafRun(pages0, leaves, base, entries) && n == |leaves|
    ensures LeafRun(pages, leaves, base, entries) && Linked(pages, Consecutive(base, n))
    ensures pages[..base] == pages0[..base]
  {
    hide LeafRun, Consecutive, WriteLE, LinkedAt;
    pages := pages0;
    LeafRunParts(pages, leaves, base, entries);
    for i := 0 to n
      invariant LeafRun(pages, leaves, base, entries) && |pages| == base + n && pages[..base] == pages0[..base]
      invariant forall j :: 0 <= j < i ==> LinkedAt(pages, Consecutive(base, n), j)
    {
      LeafRunParts(pages, leaves, base, entries);
      var p := pages[base + i];
      var next := if i + 1 < n then base + i + 1 else NO_PAGE;
      var previous := if i == 0 then NO_PAGE else base + i - 1;
      var q := p.(next := next, payload := WriteLE(p.payload, 2, previous, 4));
      LinkOne(pages, leaves, base, entries, i, q);
      pages := pages[base + i := q];
    }
  }

  lemma LeafRunParts(pages: seq<Page>, leaves: seq<Tree>, base: nat, entries: seq<Entry>)
    requires LeafRun(pages, leaves, base, entries)
    ensures |pages| == base + |leaves| && forall i :: base <= i < |pages| ==> |pages[i].payload| >= 8
  {
    hide WF, AllEntries, AllLeafIds, AllIds, AllApart, LeafPage, Range;
    forall i | base <= i < |pages| ensures |pages[i].payload| >= 8 {
      assert LeafStored(pages, leaves[i - base], base + (i - base));
    }
  }

  lemma LinkOne(pages: seq<Page>, leaves: seq<Tree>, base: nat, entries: seq<Entry>, i: nat, q: Page)
    requires LeafRun(pages, leaves, base, entries) && i < |leaves|
    requires var p := pages[base + i];
      var previous := if i == 0 then NO_PAGE else base + i - 1;
      && |p.payload| >= 8
      && q ==
           p.(next := if i + 1 < |leaves| then base + i + 1 else NO_PAGE, payload := WriteLE(p.payload, 2, previous, 4))
    ensures LeafRun(pages[base + i := q], leaves, base, entries)
    ensures var c := Consecutive(base, |leaves|); var pages' := pages[base + i := q];
      && LinkedAt(pages', c, i)
      && forall j :: 0 <= j < |leaves| && j != i && LinkedAt(pages, c, j) ==> LinkedAt(pages', c, j)
  {
    hide WF, AllEntries, AllLeafIds, AllIds, AllApart, PreviousOf, LeafPage, WriteLE, Range, LeafRun, PageOk;
    LeafAt(pages, leaves, base, entries, i);
    var p := pages[base + i];
    var previous := if i == 0 then NO_PAGE else base + i - 1;
    RelinkLeaf(p, leaves[i].entries, previous, q.next);
    assert q == p.(next := q.next, payload := WriteLE(p.payload, 2, previous, 4));
    LeafReplaced(pages, leaves, base, entries, i, q);
    assert LinkedAt(pages[base + i := q], Consecutive(base, |leaves|), i);
  }

  lemma LeafAt(pages: seq<Page>, leaves: seq<Tree>, base: nat, entries: seq<Entry>, i: nat)
    requires LeafRun(pages, leaves, base, entries) && i < |leaves|
    ensures |pages| == base + |leaves| <= NO_PAGE && leaves[i].Leaf? && LeafPage(pages[base + i], leaves[i].entries)
    ensures |pages[base + i].payload| >= 8 && PageOk(pages[base + i]) && pages[base + i].id == base + i
  {
    hide WF, AllEntries, AllLeafIds, AllIds, AllApart, PreviousOf, LeafPage, Range, PageOk;
    assert LeafStored(pages, leaves[i], base + i);
  }

  lemma LeafReplaced(pages: seq<Page>, leaves: seq<Tree>, base: nat, entries: seq<Entry>, i: nat, q: Page)
    requires LeafRun(pages, leaves, base, entries) && i < |leaves| && base + i < |pages|
    requires leaves[i].Leaf? && LeafPage(q, leaves[i].entries) && |q.payload| >= 8 && PageOk(q) && q.id == base + i
    ensures LeafRun(pages[base + i := q], leaves, base, entries)
  {
    hide WF, AllEntries, AllLeafIds, AllIds, AllApart, PreviousOf, LeafPage, Range, PageOk, Consecutive;
    var after := pages[base + i := q];
    forall j | 0 <= j < |leaves| ensures LeafStored(after, leaves[j], base + j) {
      assert LeafStored(pages, leaves[j], base + j);
    }
  }

  lemma RelinkLeaf(p: Page, entries: seq<Entry>, previous: nat, next: nat)
    requires LeafPage(p, entries) && PageOk(p) && |p.payload| >= 8 && previous < U32 && next < U32
    ensures var q := p.(next := next, payload := WriteLE(p.payload, 2, previous, 4));
      LeafPage(q, entries) && q.ptype == IndexLeaf && PageOk(q) && |q.payload| >= 8 && PreviousOf(q.payload) == previous
  {
    hide LeafPayload, WriteLE, PreviousOf;
    LeafRepointed(PreviousOf(p.payload), entries, previous);
    LeafPrevious(previous, entries);
    assert |WriteLE(p.payload, 2, previous, 4)| == |p.payload|;
  }

  // ----- parent levels

  function Minima(level: seq<ChildDescriptor>): (m: seq<Entry>)
    ensures |m| == |level|
  {
    seq(|level|, i requires 0 <= i < |level| => level[i].minimum)
  }

  /** How many children the next internal page takes, starting at `begin`. */
  method TakeGroup(level: seq<ChildDescriptor>, begin: nat) returns (r: Result<nat>)
    requires begin + 2 <= |level| && All(Minima(level), EntryOk)
    ensures r.Ok? && begin + 2 <= r.value <= |level| && |level| - r.value != 1
    ensures NodeSize(Minima(level)[begin + 1..r.value]) <= PAYLOAD_SIZE
  {
    hide EntriesSize, EntryOk;
    ghost var minima := Minima(level);
    var end := begin + 1;
    var encodedSize := 8;
    EmptySizes();
    assert minima[begin + 1..end] == [];
    while end < |level|
      invariant begin + 1 <= end <= |level| && encodedSize == NodeSize(minima[begin + 1..end]) <= PAYLOAD_SIZE
    {
      var entrySize := 2 + |level[end].minimum.key| + 8 + 4;
      if encodedSize + entrySize > PAYLOAD_SIZE {
        assert EntryOk(minima[end]);
        assert All(minima[begin + 1..end], EntryOk);
        FullGroup(minima[begin + 1..end], minima[end]);
        break;
      }
      SizeAppend(minima[begin + 1..end], minima[end], 14);
      assert minima[begin + 1..end + 1] == minima[begin + 1..end] + [minima[end]];
      encodedSize := encodedSize + entrySize;
      end := end + 1;
    }
    if |level| - end == 1 && end - begin > 2 {
      ShorterGroup(minima[begin + 1..end]);
      end := end - 1;
      assert minima[begin + 1..end + 1][..end - begin - 1] == minima[begin + 1..end];
    }
    if end - begin < 2 { return Err(LogicError); }
    r := Ok(end);
  }

  /** A page that cannot take one more branch already has 34 of them. */
  lemma FullGroup(seps: seq<Entry>, e: Entry)
    requires All(seps, EntryOk) && EntryOk(e) && NodeSize(seps) + 14 + |e.key| > PAYLOAD_SIZE
    ensures |seps| >= 34
  {
    SizeBound(seps, 14);
  }

  lemma ShorterGroup(seps: seq<Entry>)
    requires seps != []
    ensures NodeSize(seps[..|seps| - 1]) <= NodeSize(seps)
  {
    hide EntriesSize;
    SizeSplit(seps[..|seps| - 1], seps[|seps| - 1..], 14);
    assert seps == seps[..|seps| - 1] + seps[|seps| - 1..];
  }

  /** The trees of one level, on all pages from `base` on. */
  ghost predicate LevelRun(pages: seq<Page>, trees: seq<Tree>, l: nat, base: nat, entries: seq<Entry>, chain: seq<nat>)
  {
    && base <= |pages| && PagesOk(pages) && GoodKids(trees, l)
    && (forall i :: 0 <= i < |trees| ==> Holds(pages, trees[i], l))
    && AllEntries(trees) == entries && AllLeafIds(trees) == chain && AllApart(trees)
    && AllIds(trees) == Range(base, |pages|)
    && Linked(pages, chain)
  }

  /** The parents made so far, for the children before `child`. */
  ghost predicate Parents(mark: seq<Page>, pages: seq<Page>, trees: seq<Tree>, parents: seq<Tree>, child: nat, l: nat) {
    && child <= |trees| && |pages| == |mark| + |parents| && 2 * |parents| <= child && pages[..|mark|] == mark
    && PagesOk(pages) && GoodKids(parents, l + 1)
    && (forall i :: 0 <= i < |parents| ==> Holds(pages, parents[i], l + 1))
    && AllEntries(parents) == AllEntries(trees[..child]) && AllLeafIds(parents) == AllLeafIds(trees[..child])
    && AllApart(parents) && AllIds(parents) == AllIds(trees[..child]) + Range(|mark|, |pages|)
  }

  /** One group of children under a new page. */
  ghost predicate NewParent(pages: seq<Page>, kids: seq<Tree>, seps: seq<Entry>, l: nat, p: Page) {
    && |kids| == |seps| + 1 && |kids| >= 2 && |seps| < U16
    && p == Page(IndexInternal, |pages|, NO_PAGE, InternalBytes(InternalContents(l + 1, seps, Roots(kids))))
    && Separators(seps, kids) && All(seps, EntryOk) && NodeSize(seps) <= PAYLOAD_SIZE
  }

  lemma AppendedHolds(pages: seq<Page>, p: Page, trees: seq<Tree>, l: nat)
    requires forall i :: 0 <= i < |trees| ==> Holds(pages, trees[i], l)
    ensures forall i :: 0 <= i < |trees| ==> Holds(pages + [p], trees[i], l)
  {
    hide Holds, Ids;
    forall i | 0 <= i < |trees| ensures Holds(pages + [p], trees[i], l) {
      forall x | x in Ids(trees[i]) && x < |pages| ensures Alike(pages[x], (pages + [p])[x]) { AlikeItself(pages[x]); }
      HoldsFrame(pages, pages + [p], trees[i], l);
    }
  }

  lemma NewParentHolds(pages: seq<Page>, kids: seq<Tree>, seps: seq<Entry>, l: nat, p: Page)
    requires NewParent(pages, kids, seps, l, p) && PagesOk(pages) && |pages| < NO_PAGE && GoodKids(kids, l)
    requires forall i :: 0 <= i < |kids| ==> Holds(pages, kids[i], l)
    ensures var n := Node(|pages|, seps, kids);
      && PagesOk(pages + [p]) && Holds(pages + [p], n, l + 1) && WF(n, l + 1) && Entries(n) != []
      && Entries(n)[0] == Entries(kids[0])[0]
  {
    hide InternalBytes, NodeSize, Entries, EntryOk, Holds, WF, NodePage, Separators, PageOk, All, AllEntries;
    var n := Node(|pages|, seps, kids);
    PageIsOk(p);
    NodeWritten(p.(payload := []), p, l + 1, seps, Roots(kids));
    AppendedHolds(pages, p, kids, l);
    NodeParts(n);
    FirstOfAll(kids);
    NodeHeld(pages + [p], n, l + 1);
    NodeLegal(n, l + 1);
  }

  lemma PageIsOk(p: Page)
    requires p.ptype == IndexInternal && p.next == NO_PAGE && p.id < NO_PAGE
    ensures PageOk(p.(payload := []))
  {
  }

  lemma NodeHeld(pages: seq<Page>, n: Tree, level: nat)
    requires n.Node? && level >= 1 && n.id < |pages| && NodePage(pages[n.id], level, n.seps, Roots(n.kids))
    requires forall i :: 0 <= i < |n.kids| ==> Holds(pages, n.kids[i], level - 1)
    ensures Holds(pages, n, level)
  {
    hide NodePage;
  }

  lemma NodeLegal(n: Tree, level: nat)
    requires n.Node? && level >= 1 && |n.kids| == |n.seps| + 1 && |n.seps| >= 1 && All(n.seps, EntryOk)
    requires NodeSize(n.seps) <= PAYLOAD_SIZE
    requires GoodKids(n.kids, level - 1) && Separators(n.seps, n.kids)
    ensures WF(n, level)
  {
    hide EntryOk, NodeSize, Entries, Separators;
  }

  lemma ParentAdded(mark: seq<Page>, pages: seq<Page>, trees: seq<Tree>, parents: seq<Tree>, begin: nat, end: nat,
          l: nat, seps: seq<Entry>, p: Page)
    requires Parents(mark, pages, trees, parents, begin, l) && begin + 2 <= end <= |trees| && |pages| < NO_PAGE
    requires GoodKids(trees, l) && AllApart(trees) && AllBelow(trees, |mark|)
    requires forall i :: 0 <= i < |trees| ==> Holds(mark, trees[i], l)
    requires NewParent(pages, trees[begin..end], seps, l, p)
    ensures Parents(mark, pages + [p], trees, parents + [Node(|pages|, seps, trees[begin..end])], end, l)
    ensures var n := Node(|pages|, seps, trees[begin..end]);
      Entries(n) != [] && Entries(n)[0] == Entries(trees[begin])[0]
  {
    hide Holds, WF, AllEntries, AllLeafIds, AllIds, AllApart, Entries, Ids, NewParent, Apart, LeafIds;
    var kids := trees[begin..end];
    var n := Node(|pages|, seps, kids);
    StillHeld(mark, pages, trees, l);
    NewParentHolds(pages, kids, seps, l, p);
    AppendedHolds(pages, p, parents, l + 1);
    ParentWalk(mark, pages, trees, parents, begin, end, n);
  }

  lemma StillHeld(mark: seq<Page>, pages: seq<Page>, trees: seq<Tree>, l: nat)
    requires |mark| <= |pages| && pages[..|mark|] == mark
    requires forall i :: 0 <= i < |trees| ==> Holds(mark, trees[i], l)
    ensures forall i :: 0 <= i < |trees| ==> Holds(pages, trees[i], l)
  {
    hide Holds, Ids;
    forall i | 0 <= i < |trees| ensures Holds(pages, trees[i], l) {
      forall x | x in Ids(trees[i]) && x < |mark| ensures Alike(mark[x], pages[x]) { AlikeItself(mark[x]); }
      HoldsFrame(mark, pages, trees[i], l);
    }
  }

  lemma ParentWalk(mark: seq<Page>, pages: seq<Page>, trees: seq<Tree>, parents: seq<Tree>, begin: nat, end: nat,
          n: Tree)
    requires begin <= end <= |trees| && n.Node? && n.id == |pages| && n.kids == trees[begin..end] && |mark| <= |pages|
    requires AllApart(trees) && AllBelow(trees, |mark|)
    requires AllEntries(parents) == AllEntries(trees[..begin]) && AllLeafIds(parents) == AllLeafIds(trees[..begin])
    requires AllApart(parents) && AllIds(parents) == AllIds(trees[..begin]) + Range(|mark|, |pages|)
    ensures AllEntries(parents + [n]) == AllEntries(trees[..end])
    ensures AllLeafIds(parents + [n]) == AllLeafIds(trees[..end])
    ensures AllApart(parents + [n]) && AllIds(parents + [n]) == AllIds(trees[..end]) + Range(|mark|, |pages| + 1)
  {
    hide *;
    assert trees[..end] == trees[..begin] + trees[begin..end];
    WalkSplit(trees[..begin], trees[begin..end]);
    WalkSplit(parents, [n]);
    WalkOne(n);
    NodeParts(n);
    ParentPages(mark, pages, trees, parents, begin, end, n);
  }

  lemma ParentPages(mark: seq<Page>, pages: seq<Page>, trees: seq<Tree>, parents: seq<Tree>, begin: nat, end: nat,
          n: Tree)
    requires begin <= end <= |trees| && n.Node? && n.id == |pages| && n.kids == trees[begin..end] && |mark| <= |pages|
    requires AllApart(trees) && AllBelow(trees, |mark|)
    requires AllApart(parents) && AllIds(parents) == AllIds(trees[..begin]) + Range(|mark|, |pages|)
    ensures AllApart(parents + [n])
    ensures AllIds(parents + [n]) == AllIds(trees[..begin]) + AllIds(trees[begin..end]) + Range(|mark|, |pages| + 1)
  {
    hide *;
    GroupApart(trees, begin, end, |mark|);
    WalkSplit(parents, [n]);
    ApartSplit(parents, [n]);
    WalkOne(n);
    ApartOne(n);
    NodeParts(n);
    NewPageApart(AllIds(trees[..begin]), AllIds(trees[begin..end]), |mark|, |pages|);
  }

  lemma NewPageApart(a: set<nat>, b: set<nat>, lo: nat, hi: nat)
    requires lo <= hi && a !! b && (forall x :: x in b ==> x < lo) && forall x :: x in a ==> x < lo
    ensures (a + Range(lo, hi)) !! ({hi} + b) && hi !in b
    ensures a + Range(lo, hi) + ({hi} + b) == a + b + Range(lo, hi + 1)
  {
    RangeSnoc(lo, hi);
  }

  lemma GroupApart(trees: seq<Tree>, begin: nat, end: nat, n: nat)
    requires begin <= end <= |trees| && AllApart(trees) && AllBelow(trees, n)
    ensures AllApart(trees[begin..end]) && AllIds(trees[..begin]) !! AllIds(trees[begin..end])
    ensures forall x :: x in AllIds(trees[begin..end]) ==> x < n
    ensures forall x :: x in AllIds(trees[..begin]) ==> x < n
  {
    hide AllApart, AllIds, AllEntries, AllLeafIds;
    var a, b, c := trees[..begin], trees[begin..end], trees[end..];
    assert trees[..end] == a + b;
    assert trees == trees[..end] + c;
    WalkSplit(a, b);
    WalkSplit(trees[..end], c);
    ApartSplit(trees[..end], c);
    ApartSplit(a, b);
  }

  lemma RangeSnoc(lo: nat, hi: nat)
    requires lo <= hi
    ensures Range(lo, hi + 1) == Range(lo, hi) + {hi}
  {
  }

  /** The children and separators of one new page, from the descriptors. */
  method BuildParent(pages: seq<Page>, level: seq<ChildDescriptor>, begin: nat, end: nat, ghost trees: seq<Tree>,
          ghost l: nat)
    returns (r: Result<Page>, ghost seps: seq<Entry>)
    requires begin + 2 <= end <= |level| && Describes(level, trees, l) && l + 1 < U16
    requires GoodKids(trees, l) && NodeSize(Minima(level)[begin + 1..end]) <= PAYLOAD_SIZE
    ensures r.Ok? && NewParent(pages, trees[begin..end], seps, l, r.value)
  {
    hide InternalBytes, NodeSize, EntryOk, Entries, WF;
    var separators, children := [], [level[begin].id];
    seps := Minima(level)[begin + 1..end];
    ghost var roots := Roots(trees[begin..end]);
    for child := begin + 1 to end
      invariant separators == seps[..child - begin - 1] && children == roots[..child - begin]
    {
      separators := separators + [level[child].minimum];
      children := children + [level[child].id];
    }
    assert separators == seps && children == roots;
    GroupIsLegal(level, trees, begin, end, l);
    var payload := EncodeInternalPayload(InternalContents((level[begin].level + 1) % U16, separators, children));
    if payload.Err? { return Err(LogicError), seps; }
    r := Ok(Page(IndexInternal, |pages|, NO_PAGE, payload.value));
  }

  lemma GroupIsLegal(level: seq<ChildDescriptor>, trees: seq<Tree>, begin: nat, end: nat, l: nat)
    requires begin + 2 <= end <= |level| && Describes(level, trees, l) && GoodKids(trees, l)
    requires NodeSize(Minima(level)[begin + 1..end]) <= PAYLOAD_SIZE
    ensures var seps := Minima(level)[begin + 1..end];
      Separators(seps, trees[begin..end]) && All(seps, EntryOk) && KeysOk(seps) && |seps| < U16
  {
    hide NodeSize, Entries, WF, EntryOk;
    MinimaOk(level, trees, l);
    var seps := Minima(level)[begin + 1..end];
    assert All(seps, EntryOk);
    NodeCountFits(seps);
    SeparatorKeysOk(seps);
  }

  lemma MinimaOk(level: seq<ChildDescriptor>, trees: seq<Tree>, l: nat)
    requires Describes(level, trees, l) && GoodKids(trees, l)
    ensures All(Minima(level), EntryOk)
  {
    hide Entries, WF, EntryOk;
    forall i | 0 <= i < |level| ensures EntryOk(Minima(level)[i]) {
      EntriesOk(trees[i], l);
    }
  }

  /** One turn of the inner loop: the next group of children gets its page. */
  method BuildGroup(ghost mark: seq<Page>, pages0: seq<Page>, level: seq<ChildDescriptor>, begin: nat,
          up0: seq<ChildDescriptor>, ghost trees: seq<Tree>, ghost parents0: seq<Tree>, ghost l: nat)
    returns (r: Result<seq<Page>>, end: nat, up: seq<ChildDescriptor>, ghost parents: seq<Tree>)
    requires Parents(mark, pages0, trees, parents0, begin, l) && Describes(level, trees, l)
    requires Describes(up0, parents0, l + 1)
    requires begin + 2 <= |level| && |mark| + |trees| <= NO_PAGE && l + 1 < U16
    requires GoodKids(trees, l) && AllApart(trees) && AllBelow(trees, |mark|)
    requires forall i :: 0 <= i < |trees| ==> Holds(mark, trees[i], l)
    ensures r.Ok? && begin + 2 <= end <= |level| && |level| - end != 1 && parents != []
    ensures Parents(mark, r.value, trees, parents, end, l) && Describes(up, parents, l + 1)
  {
    hide Parents, NewParent, Describes, NodeSize, EntryOk, GoodKids, Holds, AllApart, AllBelow;
    end, up, parents := begin, up0, parents0;
    ParentsParts(mark, pages0, trees, parents0, begin, l);
    DescribedSize(level, trees, l);
    MinimaOk(level, trees, l);
    var group := TakeGroup(level, begin);
    if group.Err? { return Err(LogicError), end, up, parents; }
    end := group.value;
    var page;
    ghost var seps;
    page, seps := BuildParent(pages0, level, begin, end, trees, l);
    if page.Err? { return Err(LogicError), end, up, parents; }
    ParentAdded(mark, pages0, trees, parents0, begin, end, l, seps, page.value);
    ghost var n := Node(|pages0|, seps, trees[begin..end]);
    var d := ChildDescriptor(|pages0|, level[begin].minimum, (level[begin].level + 1) % U16);
    DescribedAt(level, trees, l, begin);
    DescribesOne(up0, parents0, l + 1, d, n);
    up, parents := up0 + [d], parents0 + [n];
    r := Ok(pages0 + [page.value]);
  }

  /** One pass of the outer loop: a level of at least two trees gets parents. */
  method BuildLevel(pages0: seq<Page>, level: seq<ChildDescriptor>, ghost trees: seq<Tree>, ghost l: nat,
          ghost base: nat, ghost entries: seq<Entry>, ghost chain: seq<nat>)
    returns (r: Result<seq<Page>>, up: seq<ChildDescriptor>, ghost parents: seq<Tree>)
    requires LevelRun(pages0, trees, l, base, entries, chain) && Describes(level, trees, l) && |trees| >= 2
    requires l + 1 < U16
    requires |pages0| + |trees| <= NO_PAGE
    ensures r.Ok? && LevelRun(r.value, parents, l + 1, base, entries, chain) && Describes(up, parents, l + 1)
    ensures 1 <= |parents| && 2 * |parents| <= |trees| && |r.value| == |pages0| + |parents|
    ensures r.value[..|pages0|] == pages0
  {
    hide LevelRun, Parents, Describes, EntryOk, GoodKids, Holds, AllApart, AllBelow;
    var pages, child := pages0, 0;
    up, parents := [], [];
    LevelParts(pages0, level, trees, l, base, entries, chain);
    NoParents(pages0, trees, l);
    NothingDescribed(l + 1);
    while child < |level|
      invariant child <= |level| && |level| - child != 1 && (child > 0 ==> parents != [])
      invariant Parents(pages0, pages, trees, parents, child, l) && Describes(up, parents, l + 1)
    {
      var next;
      next, child, up, parents := BuildGroup(pages0, pages, level, child, up, trees, parents, l);
      if next.Err? { return Err(LogicError), up, parents; }
      pages := next.value;
    }
    LevelDone(pages0, pages, trees, parents, l, base, entries, chain);
    r := Ok(pages);
  }

  lemma NothingDescribed(l: nat)
    ensures Describes([], [], l)
  {
  }

  lemma DescribedAt(level: seq<ChildDescriptor>, trees: seq<Tree>, l: nat, i: nat)
    requires Describes(level, trees, l) && i < |level|
    ensures |trees| == |level| && level[i].id == trees[i].id && level[i].level == l
    ensures Entries(trees[i]) != [] && level[i].minimum == Entries(trees[i])[0]
  {
    hide Entries;
  }

  lemma LevelParts(pages: seq<Page>, level: seq<ChildDescriptor>, trees: seq<Tree>, l: nat, base: nat,
          entries: seq<Entry>, chain: seq<nat>)
    requires LevelRun(pages, trees, l, base, entries, chain) && Describes(level, trees, l)
    ensures |level| == |trees| && GoodKids(trees, l) && AllApart(trees) && AllBelow(trees, |pages|) && PagesOk(pages)
    ensures forall i :: 0 <= i < |trees| ==> Holds(pages, trees[i], l)
  {
    hide Holds, WF, AllApart, AllIds, Entries;
  }

  lemma NoParents(pages: seq<Page>, trees: seq<Tree>, l: nat)
    requires PagesOk(pages)
    ensures Parents(pages, pages, trees, [], 0, l)
  {
    EmptyWalk();
    assert trees[..0] == [];
    assert Range(|pages|, |pages|) == {};
  }

  lemma ParentsParts(mark: seq<Page>, pages: seq<Page>, trees: seq<Tree>, parents: seq<Tree>, child: nat, l: nat)
    requires Parents(mark, pages, trees, parents, child, l)
    ensures child <= |trees| && |pages| == |mark| + |parents| && 2 * |parents| <= child && pages[..|mark|] == mark
  {
  }

  lemma LevelDone(mark: seq<Page>, pages: seq<Page>, trees: seq<Tree>, parents: seq<Tree>, l: nat, base: nat,
          entries: seq<Entry>, chain: seq<nat>)
    requires Parents(mark, pages, trees, parents, |trees|, l) && LevelRun(mark, trees, l, base, entries, chain)
    ensures LevelRun(pages, parents, l + 1, base, entries, chain) && 2 * |parents| <= |trees|
    ensures |pages| == |mark| + |parents| && pages[..|mark|] == mark
  {
    hide Holds, WF, AllEntries, AllLeafIds, AllApart, AllIds, Entries, Linked;
    assert trees[..|trees|] == trees;
    AppendedLinks(mark, pages, chain);
    assert Range(base, |pages|) == Range(base, |mark|) + Range(|mark|, |pages|);
  }

  /** `build_index`: for every sorted entry list it terminates, never throws,
      and leaves a well-formed index holding exactly the list. */
  method BuildIndex(pages0: seq<Page>, entries: seq<Entry>) returns (r: Result<seq<Page>>, root: nat, ghost x: Index)
    requires PagesOk(pages0) && |pages0| + 2 * LeafBudget(|entries|) <= NO_PAGE && Sorted(entries)
    requires All(entries, EntryOk)
    ensures r.Ok? && |pages0| <= |r.value| <= |pages0| + 2 * LeafBudget(|entries|) && r.value[..|pages0|] == pages0
    ensures PagesOk(r.value) && IndexOk(r.value, x) && EntriesOf(x) == entries && RootOf(x) == root
    ensures PagesOf(x) == Range(|pages0|, |r.value|)
  {
    hide LevelRun, Describes, LeafRun, IndexOk, EntryOk, Sorted, All, Entries, Ids;
    root, x := NO_PAGE, Absent;
    if entries == [] {
      NoIndex(pages0);
      r := Ok(pages0);
      return;
    }
    var level;
    ghost var trees, l := [], 0;
    r, level, trees := BuildLeaves(pages0, entries);
    if r.Err? { return; }
    ghost var base, chain := |pages0|, Consecutive(|pages0|, |trees|);
    LeafRunParts(r.value, trees, base, entries);
    DescribedSize(level, trees, 0);
    var pages := LinkLeaves(r.value, trees, entries, |pages0|, |level|);
    LeavesMakeLevel(pages, trees, base, entries);
    LeafRunParts(pages, trees, base, entries);
    while |level| > 1
      invariant |level| == |trees| >= 1 && LevelRun(pages, trees, l, base, entries, chain) && Describes(level, trees, l)
      invariant |pages0| <= |pages| && |pages| + |trees| <= |pages0| + 2 * LeafBudget(|entries|)
      invariant pages[..|pages0|] == pages0
    {
      LevelIsLow(pages, trees, l, base, entries, chain);
      var next;
      ghost var before := pages;
      next, level, trees := BuildLevel(pages, level, trees, l, base, entries, chain);
      if next.Err? { r := Err(LogicError); return; }
      pages := next.value;
      l := l + 1;
      DescribedSize(level, trees, l);
      assert pages[..|pages0|] == pages[..|before|][..|pages0|];
    }
    DescribedAt(level, trees, l, 0);
    x := Present(trees[0], l);
    RootAlone(pages, trees, l, base, entries, chain);
    r, root := Ok(pages), level[0].id;
  }

  lemma NoIndex(pages: seq<Page>)
    ensures IndexOk(pages, Absent) && PagesOf(Absent) == Range(|pages|, |pages|)
  {
  }

  lemma DescribedSize(level: seq<ChildDescriptor>, trees: seq<Tree>, l: nat)
    requires Describes(level, trees, l)
    ensures |level| == |trees|
  {
  }

  lemma LeavesMakeLevel(pages: seq<Page>, leaves: seq<Tree>, base: nat, entries: seq<Entry>)
    requires LeafRun(pages, leaves, base, entries) && Linked(pages, Consecutive(base, |leaves|))
    ensures LevelRun(pages, leaves, 0, base, entries, Consecutive(base, |leaves|))
  {
    hide AllEntries, AllLeafIds, AllApart, AllIds, Linked, LeafPage, LeafSize, EntryOk;
    forall i | 0 <= i < |leaves| ensures WF(leaves[i], 0) && Entries(leaves[i]) != [] && Holds(pages, leaves[i], 0) {
      assert leaves[i].Leaf? && leaves[i].id == base + i;
    }
  }

  lemma LevelIsLow(pages: seq<Page>, trees: seq<Tree>, l: nat, base: nat, entries: seq<Entry>, chain: seq<nat>)
    requires LevelRun(pages, trees, l, base, entries, chain) && trees != []
    ensures l <= MAX_LEVEL
  {
    hide WF, Holds, AllEntries, AllLeafIds, Entries, Linked, Ids, PagesOk, Pow2;
    assert AllApart(trees[..1]) && AllApart(trees[1..]) && Apart(trees[0]) by { ApartAround(trees, 0); }
    TreeIsWide(trees[0], l);
    AllBelowPages(pages, trees[0], l);
    RangeSize(0, |pages|);
    SubsetSize(Ids(trees[0]), Range(0, |pages|));
    PagesAreFew(pages);
    Pow2Of32();
    if l > MAX_LEVEL {
      Pow2Grows(MAX_LEVEL + 1, l);
    }
  }

  lemma RootAlone(pages: seq<Page>, trees: seq<Tree>, l: nat, base: nat, entries: seq<Entry>, chain: seq<nat>)
    requires LevelRun(pages, trees, l, base, entries, chain) && |trees| == 1 && Sorted(entries)
    ensures IndexOk(pages, Present(trees[0], l)) && Entries(trees[0]) == entries
    ensures Ids(trees[0]) == Range(base, |pages|) && PagesOk(pages)
  {
    hide WF, Holds, AllEntries, AllLeafIds, AllApart, AllIds, Entries, Linked, Ids, Apart, LeafIds, Sorted;
    assert trees == [trees[0]];
    WalkOne(trees[0]);
    ApartOne(trees[0]);
  }
}
