/** Incremental B+ tree insertion on pages: the recursive descent, the leaf and
    internal splits, and the new root. */
module IndexInsert {
  import opened Ordering
  import opened Codec
  import opened PageCodec
  import opened IndexPages
  import opened IndexTree
  import opened IndexGrowth
  import opened SplitBounds
  import opened PageStore

  /** The relation between the pages before and after inserting `e` into `t`:
      `repl` now stands in the place of `t`. */
  ghost predicate AfterInsert(before: seq<Page>, after: seq<Page>, t: Tree, level: nat, e: Entry, chain: seq<nat>,
          repl: seq<Tree>, hit: Option<nat>)
  {
    && |before| <= |after| <= |before| + level + 1
    && Stored(after, repl, level) && repl[0].id == t.id
    && Grown([t], repl, e, |before|, |after|, hit)
    && Linked(after, Relink(chain, hit, |before|))
    && Framed(before, after, Ids(t), chain)
  }

  // ----- a leaf

  lemma PayloadsFit(pages: seq<Page>, id: nat, entries: seq<Entry>)
    requires PagesOk(pages) && Holds(pages, Leaf(id, entries), 0)
    ensures id < |pages| && PreviousOf(pages[id].payload) < U32 && LeafPage(pages[id], entries)
    ensures pages[id].id == id && pages[id].next < U32
  {
    Widths();
  }

  lemma LeafGrown(id: nat, entries: seq<Entry>, e: Entry, n: nat)
    requires Sorted(entries) && e !in entries
    ensures Grown([Leaf(id, entries)], [Leaf(id, InsertSorted(entries, e))], e, n, n, None)
  {
    hide InsertSorted;
    WalkOne(Leaf(id, entries));
    WalkOne(Leaf(id, InsertSorted(entries, e)));
    ApartOne(Leaf(id, InsertSorted(entries, e)));
  }

  lemma EntriesStayOk(entries: seq<Entry>, e: Entry)
    requires All(entries, EntryOk) && EntryOk(e)
    ensures All(InsertSorted(entries, e), EntryOk)
    ensures LeafSize(InsertSorted(entries, e)) == LeafSize(entries) + 10 + |e.key|
    ensures InsertSorted(entries, e) != []
  {
    hide EntriesSize, EntryOk, Less;
    SizeAfterInsert(entries, LowerBound(entries, e), e, 10);
  }

  lemma LeafStays(before: seq<Page>, after: seq<Page>, id: nat, entries: seq<Entry>, e: Entry, chain: seq<nat>)
    requires Ready(before, Leaf(id, entries), 0, e, chain)
    requires LeafSize(InsertSorted(entries, e)) <= PAYLOAD_SIZE
    requires after ==
               before[id := before[id].(payload :=
                 LeafPayload(PreviousOf(before[id].payload), InsertSorted(entries, e)))]
    ensures AfterInsert(before, after, Leaf(id, entries), 0, e, chain, [Leaf(id, InsertSorted(entries, e))], None)
  {
    hide InsertSorted, LeafSize, LeafPayload, PreviousOf, EntryOk, Sorted, Alike;
    var es := InsertSorted(entries, e);
    PayloadsFit(before, id, entries);
    EntriesStayOk(entries, e);
    LeafRewritten(before[id], after[id], PreviousOf(before[id].payload), es);
    LinkedFrame(before, after, chain);
    LeafGrown(id, entries, e, |before|);
    forall x | 0 <= x < |before| && x != id ensures Alike(before[x], after[x]) { AlikeItself(before[x]); }
    assert Framed(before, after, {id}, chain);
  }

  lemma LeafRewritten(p: Page, q: Page, previous: nat, es: seq<Entry>)
    requires p.ptype == IndexLeaf && previous < U32 && PageOk(p) && q == p.(payload := LeafPayload(previous, es))
    requires LeafSize(es) <= PAYLOAD_SIZE
    ensures LeafPage(q, es) && PageOk(q) && PreviousOf(q.payload) == previous && |q.payload| >= 8
  {
    hide LeafPayload, PreviousOf, LeafSize;
    LeafPrevious(previous, es);
    LeafPayloadSize(previous, es);
    LeafRepointed(previous, es, previous);
  }

  /** The pages after a leaf was cut: see `Relinked`. */
  ghost predicate LeafCut(before: seq<Page>, after: seq<Page>, id: nat, left: seq<Entry>, right: seq<Entry>) {
    && id < |before| && before[id].ptype == IndexLeaf
    && |after| == |before| + 1
    && after[id] == before[id].(payload := LeafPayload(PreviousOf(before[id].payload), left), next := |before|)
    && after[|before|] == Page(IndexLeaf, |before|, before[id].next, LeafPayload(id, right))
    && forall x :: 0 <= x < |before| && x != id ==>
         if x == before[id].next then Repointed(before[x], after[x], |before|) else after[x] == before[x]
  }

  lemma LeafCutRelinks(before: seq<Page>, after: seq<Page>, id: nat, left: seq<Entry>, right: seq<Entry>)
    requires PagesOk(before) && |before| < NO_PAGE && LeafCut(before, after, id, left, right)
    requires LeafSize(left) <= PAYLOAD_SIZE && LeafSize(right) <= PAYLOAD_SIZE
    ensures Relinked(before, after, id, |before|) && PagesOk(after) && |after| == |before| + 1
    ensures LeafPage(after[id], left) && LeafPage(after[|before|], right)
  {
    hide LeafPayload, PreviousOf, LeafSize, WriteLE;
    Widths();
    PreviousIsSmall(before[id].payload);
    LeafRewritten(before[id].(next := |before|), after[id], PreviousOf(before[id].payload), left);
    var sibling := after[|before|];
    LeafRewritten(sibling.(payload := []), sibling, id, right);
    forall x | 0 <= x < |before| && x != id ensures after[x].id == x && PageOk(after[x]) {
      if x == before[id].next {
        assert Repointed(before[x], after[x], |before|);
      }
    }
  }

  lemma PreviousIsSmall(payload: Bytes)
    ensures PreviousOf(payload) < U32
  {
    Widths();
  }

  lemma HalvesOfLeaf(id: nat, n: nat, entries: seq<Entry>, es: seq<Entry>, e: Entry, half: nat)
    requires es == InsertSorted(entries, e) && half <= |es| && id < n
    ensures Grown([Leaf(id, entries)], [Leaf(id, es[..half]), Leaf(n, es[half..])], e, n, n + 1, Some(id))
  {
    hide InsertSorted;
    var l, r := Leaf(id, es[..half]), Leaf(n, es[half..]);
    WalkOne(Leaf(id, entries));
    WalkOne(l);
    WalkOne(r);
    WalkSplit([l], [r]);
    ApartSplit([l], [r]);
    ApartOne(l);
    ApartOne(r);
    assert [l, r] == [l] + [r] && es == es[..half] + es[half..];
    assert Relink([id], Some(id), n) == [id, n];
  }

  lemma LeafSplits(before: seq<Page>, after: seq<Page>, id: nat, entries: seq<Entry>, e: Entry, chain: seq<nat>,
          half: nat)
    requires Ready(before, Leaf(id, entries), 0, e, chain)
    requires var es := InsertSorted(entries, e);
      && 0 < half < |es| && LeafSize(es[..half]) <= PAYLOAD_SIZE && LeafSize(es[half..]) <= PAYLOAD_SIZE
      && LeafCut(before, after, id, es[..half], es[half..])
    ensures var es := InsertSorted(entries, e);
      AfterInsert(before, after, Leaf(id, entries), 0, e, chain, [Leaf(id, es[..half]), Leaf(|before|, es[half..])],
          Some(id))
  {
    hide InsertSorted, LeafSize, LeafPayload, PreviousOf, EntryOk, Sorted, Relinked, InsertAfter, Less, LeafCut, Alike,
      Linked;
    var es, n := InsertSorted(entries, e), |before|;
    EntriesStayOk(entries, e);
    AllParts(es, half, EntryOk);
    LeafCutRelinks(before, after, id, es[..half], es[half..]);
    assert id in LeafIds(Leaf(id, entries));
    RelinkedFrame(before, after, chain, id, n);
    LeafChain(before, after, chain, id, n);
    HalvesOfLeaf(id, n, entries, es, e, half);
  }

  lemma LeafChain(before: seq<Page>, after: seq<Page>, chain: seq<nat>, id: nat, n: nat)
    requires Linked(before, chain) && NoDup(chain) && id in chain && n < NO_PAGE && Relinked(before, after, id, n)
    ensures Linked(after, Relink(chain, Some(id), n))
  {
    hide Linked, Relinked, InsertAfter;
    var k :| 0 <= k < |chain| && chain[k] == id;
    InsertAfterAt(chain, id, n, k);
    RelinkedChain(before, after, chain, k, n);
  }

  // ----- an internal page

  lemma KidReady(pages: seq<Page>, t: Tree, level: nat, e: Entry, chain: seq<nat>)
    requires Ready(pages, t, level, e, chain) && t.Node?
    ensures var i := UpperBound(t.seps, e);
      Routed(t.seps, t.kids, e, i) && level >= 1 && Ready(pages, t.kids[i], level - 1, e, chain)
  {
    hide Less, PagesOk, Linked, NoDup, EntryOk, AllEntries, Entries, AllLeafIds, LeafIds, AllApart, NodePage, NodeSize,
      Sorted, AllIds;
    WFKids(t, level);
    NodeParts(t);
    SeparatorsRoute(t.seps, t.kids, e);
    var i := UpperBound(t.seps, e);
    WalkAround(t.kids, i);
    ApartAround(t.kids, i);
    RoutedInsert(t.seps, t.kids, e, i);
  }

  /** What is known once the chosen child was replaced by `crepl`, before the
      node's own page is written. */
  ghost predicate ChildReplaced(before: seq<Page>, mid: seq<Page>, t: Tree, level: nat, e: Entry, chain: seq<nat>,
          seps: seq<Entry>, kids: seq<Tree>, hit: Option<nat>)
    requires t.Node?
  {
    && level >= 1 && t.id < |before| <= |mid| && mid[t.id] == before[t.id] && before[t.id].ptype == IndexInternal
    && before[t.id].next == NO_PAGE
    && t.id !in AllIds(t.kids) && AllBelow(t.kids, |before|) && PagesOk(mid)
    && GoodKids(kids, level - 1) && Separators(seps, kids) && All(seps, EntryOk)
    && Grown(t.kids, kids, e, |before|, |mid|, hit)
    && (forall j :: 0 <= j < |kids| ==> Holds(mid, kids[j], level - 1))
    && Linked(mid, Relink(chain, hit, |before|)) && t.id !in Relink(chain, hit, |before|)
    && Framed(before, mid, AllIds(t.kids), chain)
  }

  lemma {:induction false} NotInserted(chain: seq<nat>, hit: Option<nat>, n: nat, x: nat)
    requires x !in chain && x != n
    ensures x !in Relink(chain, hit, n)
    decreases |chain|
  {
    if hit.Some? && chain != [] && chain[0] != hit.value {
      NotInserted(chain[1..], hit, n, x);
    }
  }

  lemma HeldKids(before: seq<Page>, mid: seq<Page>, t: Tree, level: nat, chain: seq<nat>, i: nat, crepl: seq<Tree>)
    requires t.Node? && i < |t.kids| && level >= 1 && Holds(before, t, level) && Apart(t)
    requires Stored(mid, crepl, level - 1) && Framed(before, mid, Ids(t.kids[i]), chain)
    ensures var kids := Spliced(t.kids, i, crepl);
      forall j :: 0 <= j < |kids| ==> Holds(mid, kids[j], level - 1)
  {
    hide NodePage, AllApart, Ids, AllIds, Legal, PagesOk, Alike;
    ApartAround(t.kids, i);
    forall j | 0 <= j < |t.kids| && j != i ensures Holds(mid, t.kids[j], level - 1) {
      var part := if j < i then t.kids[..i] else t.kids[i + 1..];
      var k := if j < i then j else j - i - 1;
      assert part[k] == t.kids[j];
      forall x | x in Ids(t.kids[j]) ensures x !in Ids(t.kids[i]) {
        InAllIds(part, x);
      }
      HoldsFrame(before, mid, t.kids[j], level - 1);
    }
    var kids := Spliced(t.kids, i, crepl);
    forall j | 0 <= j < |kids| ensures Holds(mid, kids[j], level - 1) {
      assert kids[j] == if j < i then t.kids[j] else if j < i + |crepl| then crepl[j - i] else t.kids[j - |crepl| + 1];
    }
  }

  lemma GoodSpliced(t: Tree, level: nat, i: nat, crepl: seq<Tree>)
    requires t.Node? && WF(t, level) && i < |t.kids| && level >= 1 && Legal(crepl, level - 1)
    ensures GoodKids(Spliced(t.kids, i, crepl), level - 1)
    ensures All(GrownSeps(t.seps, i, crepl), EntryOk)
  {
    hide NodeSize, EntryOk, Separators, Entries;
    var kids := Spliced(t.kids, i, crepl);
    forall j | 0 <= j < |kids| ensures WF(kids[j], level - 1) && Entries(kids[j]) != [] {
      assert kids[j] == if j < i then t.kids[j] else if j < i + |crepl| then crepl[j - i] else t.kids[j - |crepl| + 1];
    }
    if |crepl| == 2 {
      EntriesOk(crepl[1], level - 1);
    }
  }

  lemma NodeOffChain(before: seq<Page>, t: Tree, level: nat, e: Entry, chain: seq<nat>)
    requires Ready(before, t, level, e, chain) && t.Node?
    ensures t.id !in chain && t.id < |before| && before[t.id].ptype == IndexInternal && before[t.id].next == NO_PAGE
    ensures t.id !in AllIds(t.kids) && AllBelow(t.kids, |before|) && AllApart(t.kids)
  {
    hide WF, PagesOk, NoDup, EntryOk, Entries, LeafIds, Ids, Apart, AllEntries, AllLeafIds, AllApart, AllIds;
    NodeParts(t);
    forall k | 0 <= k < |chain| ensures chain[k] != t.id {
      assert LinkedAt(before, chain, k);
    }
    AllBelowPages(before, t, level);
  }

  lemma ChildDone(before: seq<Page>, mid: seq<Page>, t: Tree, level: nat, e: Entry, chain: seq<nat>, crepl: seq<Tree>,
          hit: Option<nat>)
    requires Ready(before, t, level, e, chain) && t.Node? && level >= 1
    requires var i := UpperBound(t.seps, e);
      i < |t.kids| && AfterInsert(before, mid, t.kids[i], level - 1, e, chain, crepl, hit)
    ensures var i := UpperBound(t.seps, e);
      ChildReplaced(before, mid, t, level, e, chain, GrownSeps(t.seps, i, crepl), Spliced(t.kids, i, crepl), hit)
  {
    hide Less, PagesOk, Linked, NoDup, EntryOk, AllEntries, Entries, AllLeafIds, LeafIds, AllApart, NodePage, NodeSize,
      Sorted, AllIds, Ids, Holds, Grown, GoodKids, Spliced, GrownSeps, Alike, InsertSorted, AllBelow, Apart;
    var i := UpperBound(t.seps, e);
    NodeOffChain(before, t, level, e, chain);
    KidReady(before, t, level, e, chain);
    WFKids(t, level);
    HeldKids(before, mid, t, level, chain, i, crepl);
    GoodSpliced(t, level, i, crepl);
    ReplacedEntries(t.kids, e, i, crepl, |before|, |mid|, hit);
    GrownSeparators(t.seps, t.kids, e, i, crepl);
    NodeParts(t);
    GrownAt(t.seps, t.kids, e, i, crepl, |before|, |mid|, hit);
    NotInserted(chain, hit, |before|, t.id);
    WalkAround(t.kids, i);
    assert Framed(before, mid, AllIds(t.kids), chain);
  }

  lemma NodeParts(t: Tree)
    requires t.Node?
    ensures Entries(t) == AllEntries(t.kids) && LeafIds(t) == AllLeafIds(t.kids) && Ids(t) == {t.id} + AllIds(t.kids)
    ensures Apart(t) <==> t.id !in AllIds(t.kids) && AllApart(t.kids)
  {
  }

  lemma ReplacedEntries(kids: seq<Tree>, e: Entry, i: nat, crepl: seq<Tree>, lo: nat, hi: nat, hit: Option<nat>)
    requires i < |kids| && Grown([kids[i]], crepl, e, lo, hi, hit)
    ensures AllEntries(crepl) == InsertSorted(Entries(kids[i]), e)
  {
    hide Entries, InsertSorted, AllEntries;
    WalkOne(kids[i]);
  }

  /** Only the node's own page changed after `mid`, and pages were appended. */
  ghost predicate OnlyNode(mid: seq<Page>, after: seq<Page>, id: nat) {
    |mid| <= |after| && forall x :: 0 <= x < |mid| && x != id ==> after[x] == mid[x]
  }

  lemma RewriteKeeps(before: seq<Page>, mid: seq<Page>, after: seq<Page>, t: Tree, level: nat, e: Entry,
          chain: seq<nat>, seps: seq<Entry>, kids: seq<Tree>, hit: Option<nat>)
    requires t.Node? && ChildReplaced(before, mid, t, level, e, chain, seps, kids, hit) && OnlyNode(mid, after, t.id)
    ensures forall j :: 0 <= j < |kids| ==> Holds(after, kids[j], level - 1)
    ensures Linked(after, Relink(chain, hit, |before|))
    ensures Framed(before, after, Ids(t), chain)
  {
    hide PagesOk, GoodKids, Separators, Linked, Relink, AllEntries, AllLeafIds, AllApart, Holds, Alike, EntryOk, AllIds;
    LinkedFrame(mid, after, Relink(chain, hit, |before|));
    forall j | 0 <= j < |kids| ensures Holds(after, kids[j], level - 1) {
      forall x | x in Ids(kids[j]) ensures x != t.id { InAllIds(kids, x); }
      forall x | x in Ids(kids[j]) && x < |mid| ensures Alike(mid[x], after[x]) { AlikeItself(mid[x]); }
      HoldsFrame(mid, after, kids[j], level - 1);
    }
    NodeParts(t);
  }

  lemma NodeWritten(p: Page, q: Page, level: nat, seps: seq<Entry>, children: seq<nat>)
    requires |children| == |seps| + 1 && p.ptype == IndexInternal && p.next == NO_PAGE && PageOk(p)
    requires NodeSize(seps) <= PAYLOAD_SIZE
    requires q == p.(payload := InternalBytes(InternalContents(level, seps, children)))
    ensures NodePage(q, level, seps, children) && PageOk(q) && q.id == p.id
  {
    hide InternalBytes, NodeSize;
    InternalBytesSize(InternalContents(level, seps, children));
  }

  lemma NodeStays(before: seq<Page>, mid: seq<Page>, after: seq<Page>, t: Tree, level: nat, e: Entry, chain: seq<nat>,
          seps: seq<Entry>, kids: seq<Tree>, hit: Option<nat>)
    requires t.Node? && ChildReplaced(before, mid, t, level, e, chain, seps, kids, hit)
    requires |seps| >= 1 && NodeSize(seps) <= PAYLOAD_SIZE && |mid| <= |before| + level
    requires |kids| == |seps| + 1
    requires after == mid[t.id := mid[t.id].(payload := InternalBytes(InternalContents(level, seps, Roots(kids))))]
    ensures AfterInsert(before, after, t, level, e, chain, [Node(t.id, seps, kids)], hit)
  {
    hide Linked, Relink, AllEntries, AllLeafIds, AllApart, Alike, EntryOk, AllIds, InternalBytes, NodeSize, Entries,
      LeafIds, Ids, Apart, InsertSorted, Framed, AllBelow, Grown;
    RewriteKeeps(before, mid, after, t, level, e, chain, seps, kids, hit);
    NodeWritten(mid[t.id], after[t.id], level, seps, Roots(kids));
    NodeGrown(t.id, t.seps, seps, kids, t.kids, e, |before|, |mid|, hit);
    assert t == Node(t.id, t.seps, t.kids);
    var n := Node(t.id, seps, kids);
    assert WF(n, level);
    WFHasEntries(n, level);
    assert Holds(after, n, level);
  }

  lemma NodeSplits(before: seq<Page>, mid: seq<Page>, after: seq<Page>, t: Tree, level: nat, e: Entry,
          chain: seq<nat>, seps: seq<Entry>, kids: seq<Tree>, hit: Option<nat>, half: nat)
    requires t.Node? && ChildReplaced(before, mid, t, level, e, chain, seps, kids, hit)
    requires 2 <= half && half + 2 <= |kids| && |kids| == |seps| + 1 && |mid| <= |before| + level && |mid| < NO_PAGE
    requires NodeSize(seps[..half - 1]) <= PAYLOAD_SIZE && NodeSize(seps[half..]) <= PAYLOAD_SIZE
    requires var children := Roots(kids);
      after ==
        mid[t.id := mid[t.id].(payload := InternalBytes(InternalContents(level, seps[..half - 1], children[..half])))]
               + [Page(IndexInternal, |mid|, NO_PAGE,
                   InternalBytes(InternalContents(level, seps[half..], children[half..])))]
    ensures AfterInsert(before, after, t, level, e, chain, Halves(t.id, |mid|, seps, kids, half), hit)
    ensures Entries(Halves(t.id, |mid|, seps, kids, half)[1]) != []
    ensures Entries(Halves(t.id, |mid|, seps, kids, half)[1])[0] == seps[half - 1]
  {
    hide Linked, Relink, AllEntries, AllLeafIds, AllApart, Alike, EntryOk, AllIds, InternalBytes, NodeSize, Entries,
      LeafIds, Ids, Apart, InsertSorted, Framed, AllBelow, Grown, WF, GoodKids, Separators, NodePage;
    var n := |mid|;
    RewriteKeeps(before, mid, after, t, level, e, chain, seps, kids, hit);
    var children := Roots(kids);
    assert children[..half] == Roots(kids[..half]) && children[half..] == Roots(kids[half..]);
    NodeWritten(mid[t.id], after[t.id], level, seps[..half - 1], Roots(kids[..half]));
    NodeWritten(after[n].(payload := []), after[n], level, seps[half..], Roots(kids[half..]));
    HalvesLegal(t.id, n, seps, kids, half, level);
    HalvesGrown(t.id, n, t.seps, seps, kids, half, t.kids, e, |before|, hit);
    assert t == Node(t.id, t.seps, t.kids);
    HalvesHeld(after, t.id, n, seps, kids, half, level);
  }

  lemma HalvesHeld(pages: seq<Page>, id: nat, n: nat, seps: seq<Entry>, kids: seq<Tree>, half: nat, level: nat)
    requires 1 <= half < |kids| && |kids| == |seps| + 1 && level >= 1 && id < |pages| && n < |pages|
    requires forall j :: 0 <= j < |kids| ==> Holds(pages, kids[j], level - 1)
    requires NodePage(pages[id], level, seps[..half - 1], Roots(kids[..half]))
    requires NodePage(pages[n], level, seps[half..], Roots(kids[half..]))
    ensures var r := Halves(id, n, seps, kids, half); Holds(pages, r[0], level) && Holds(pages, r[1], level)
  {
    hide NodePage;
  }

  // ----- the statement's pages, edited in place

  class PageVector {
    var pages: seq<Page>
    var dirty: set<nat>

    constructor (initial: seq<Page>)
      ensures pages == initial && dirty == {}
    {
      pages := initial;
      dirty := {};
    }

    method PushBack(p: Page)
      modifies this
      ensures pages == old(pages) + [p] && dirty == old(dirty) + {|old(pages)|}
    {
      dirty := dirty + {|pages|};
      pages := pages + [p];
    }

    method SetPayload(id: nat, payload: Bytes)
      requires id < |pages|
      modifies this
      ensures pages == old(pages)[id := old(pages)[id].(payload := payload)] && dirty == old(dirty) + {id}
    {
      pages := pages[id := pages[id].(payload := payload)];
      dirty := dirty + {id};
    }

    /** Cuts an overflowing leaf at half its entries and repairs the sibling links. */
    method SplitLeaf(id: nat, contents: LeafContents, entries: seq<Entry>) returns (r: Result<Option<NodeSplit>>)
      requires PagesOk(pages) && |pages| < NO_PAGE && id < |pages| && pages[id].ptype == IndexLeaf
      requires contents.previous == PreviousOf(pages[id].payload)
      requires 2 <= |entries| < U16 && KeysOk(entries)
      requires pages[id].next != id
      requires pages[id].next != NO_PAGE ==>
        pages[id].next < |pages| && pages[pages[id].next].ptype == IndexLeaf && |pages[pages[id].next].payload| >= 8
      modifies this
      ensures r == Ok(Some(NodeSplit(entries[|entries| / 2], old(|pages|))))
      ensures LeafCut(old(pages), pages, id, entries[..|entries| / 2], entries[|entries| / 2..])
      ensures DirtyCovers(old(pages), pages, dirty) && DirtyGrew(old(dirty), dirty, |pages|)
    {
      hide LeafPayload, PreviousOf, WriteLE;
      var splitAt := |entries| / 2;
      var left, right := entries[..splitAt], entries[splitAt..];
      var oldNext := pages[id].next;
      var rightId := |pages|;
      var leftPayload := EncodeLeafPayload(contents.previous, left);
      if leftPayload.Err? { return Err(LogicError); }
      var rightPayload := EncodeLeafPayload(id, right);
      if rightPayload.Err? { return Err(LogicError); }
      pages := pages[id := pages[id].(payload := leftPayload.value, next := rightId)];
      pages := pages + [Page(IndexLeaf, rightId, oldNext, rightPayload.value)];
      dirty := dirty + {id, rightId};
      if oldNext != NO_PAGE {
        if oldNext >= |pages| || pages[oldNext].ptype != IndexLeaf { return Err(Corruption); }
        if 2 + 4 > |pages[oldNext].payload| { return Err(LogicError); }
        pages := pages[oldNext := pages[oldNext].(payload := WriteLE(pages[oldNext].payload, 2, rightId, 4))];
        dirty := dirty + {oldNext};
      }
      r := Ok(Some(NodeSplit(right[0], rightId)));
    }

    method InsertIntoLeaf(pageId: nat, e: Entry, ghost t: Tree, ghost chain: seq<nat>)
      returns (r: Result<Option<NodeSplit>>, ghost repl: seq<Tree>, ghost hit: Option<nat>)
      requires Ready(pages, t, 0, e, chain) && t.id == pageId
      modifies this
      ensures r.Ok? && AfterInsert(old(pages), pages, t, 0, e, chain, repl, hit) && Reported(r.value, t, repl)
      ensures DirtyCovers(old(pages), pages, dirty) && DirtyGrew(old(dirty), dirty, |pages|)
    {
      hide Ready, AfterInsert, Reported, DirtyCovers, PagesOk, IsLeaf, LeafPayload, PreviousOf, LeafSize, LeafCut,
        KeysOk, EntryOk, Less, LowerBound, InsertSorted, All;
      repl, hit := [], None;
      ghost var before := pages;
      LeafFacts(pages, t, e, chain);
      var leaf := DecodeLeafContents(pages[pageId].payload);
      if leaf.Err? { return Err(Corruption), repl, hit; }
      LeafContentsUnique(pages[pageId].payload, leaf.value, LeafContents(PreviousOf(pages[pageId].payload), t.entries));
      var position := LowerBound(leaf.value.entries, e);
      if position < |leaf.value.entries| && leaf.value.entries[position] == e { return Err(Corruption), repl, hit; }
      var entries := leaf.value.entries[..position] + [e] + leaf.value.entries[position..];
      InsertedLeafFacts(t, e, entries);
      var payload := EncodeLeafPayload(leaf.value.previous, entries);
      if payload.Err? { return Err(LengthError), repl, hit; }
      LeafPayloadSize(leaf.value.previous, entries);
      if |payload.value| <= PAYLOAD_SIZE {
        SetPayload(pageId, payload.value);
        repl := [Leaf(pageId, entries)];
        r := Ok(None);
        LeafStayed(before, pages, t, e, chain, entries, payload.value, dirty);
      } else {
        r := SplitLeaf(pageId, leaf.value, entries);
        repl, hit := [Leaf(pageId, entries[..|entries| / 2]), Leaf(|before|, entries[|entries| / 2..])], Some(pageId);
        LeafWasSplit(before, pages, t, e, chain, entries, repl, r.value);
      }
    }

    /** Writes an internal page that gained a branch, cutting it when it overflows. */
    method StoreInternal(pageId: nat, c: InternalContents) returns (r: Result<Option<NodeSplit>>)
      requires PagesOk(pages) && |pages| < NO_PAGE && pageId < |pages|
      requires c.level != 0 && Paired(c) && |c.children| >= 2 && All(c.separators, EntryOk)
      requires NodeSize(c.separators) <= PAYLOAD_SIZE + 114
      modifies this
      ensures NodeSize(c.separators) <= PAYLOAD_SIZE ==> r == Ok(None) && pages == Rewritten(old(pages), pageId, c)
      ensures NodeSize(c.separators) > PAYLOAD_SIZE ==>
        var half := |c.children| / 2;
        && 2 <= half && half + 2 <= |c.children|
        && NodeSize(c.separators[..half - 1]) <= PAYLOAD_SIZE && NodeSize(c.separators[half..]) <= PAYLOAD_SIZE
        && r == Ok(Some(NodeSplit(c.separators[half - 1], |old(pages)|)))
        && pages == Rewritten(old(pages), pageId, LeftHalf(c, half))
                    + [Page(IndexInternal, |old(pages)|, NO_PAGE, InternalBytes(RightHalf(c, half)))]
      ensures DirtyCovers(old(pages), pages, dirty) && DirtyGrew(old(dirty), dirty, |pages|)
    {
      hide InternalBytes, NodeSize, EntryOk, All;
      NodeCountFits(c.separators);
      SeparatorKeysOk(c.separators);
      var payload := EncodeInternalPayload(c);
      if payload.Err? { return Err(LogicError); }
      InternalBytesSize(c);
      if |payload.value| <= PAYLOAD_SIZE {
        SetPayload(pageId, payload.value);
        return Ok(None);
      }
      var half := |c.children| / 2;
      NodeSplitFits(c.separators);
      if half < 2 || |c.children| - half < 2 { return Err(LogicError); }
      var promoted := c.separators[half - 1];
      var left := EncodeInternalPayload(LeftHalf(c, half));
      if left.Err? { return Err(LogicError); }
      SetPayload(pageId, left.value);
      var rightId := |pages|;
      var right := EncodeInternalPayload(RightHalf(c, half));
      if right.Err? { return Err(LogicError); }
      PushBack(Page(IndexInternal, rightId, NO_PAGE, right.value));
      r := Ok(Some(NodeSplit(promoted, rightId)));
    }

    /** `insert_index_entry`: the entry goes into the subtree `t` stored at
        `pageId`, which is replaced by one or two trees of the same level. */
    method InsertIndexEntry(pageId: nat, e: Entry, ghost t: Tree, ghost level: nat, ghost chain: seq<nat>)
      returns (r: Result<Option<NodeSplit>>, ghost repl: seq<Tree>, ghost hit: Option<nat>)
      requires Ready(pages, t, level, e, chain) && t.id == pageId
      modifies this
      ensures r.Ok? && AfterInsert(old(pages), pages, t, level, e, chain, repl, hit) && Reported(r.value, t, repl)
      ensures DirtyCovers(old(pages), pages, dirty) && DirtyGrew(old(dirty), dirty, |pages|)
      decreases level
    {
      hide Ready, AfterInsert, Reported, DirtyCovers, PagesOk, IsInternal, LeftHalf, RightHalf, NodeSize, All, EntryOk,
        Less, UpperBound, ChildReplaced, Branched, IsNode;
      repl, hit := [], None;
      ghost var before := pages;
      KindOfPage(pages, t, level, e, chain);
      if pageId >= |pages| { return Err(Corruption), repl, hit; }
      if pages[pageId].ptype == IndexLeaf {
        r, repl, hit := InsertIntoLeaf(pageId, e, t, chain);
        return;
      }
      if pages[pageId].ptype != IndexInternal { return Err(Corruption), repl, hit; }
      var node := DecodeInternalContents(pages[pageId].payload);
      if node.Err? { return Err(Corruption), repl, hit; }
      var c := node.value;
      NodeContents(pages, t, level, e, chain, c);
      var childIndex := UpperBound(c.separators, e);
      ghost var i := childIndex;
      var childSplit;
      childSplit, repl, hit := InsertIndexEntry(c.children[childIndex], e, t.kids[i], level - 1, chain);
      ghost var mid, midDirty := pages, dirty;
      if childSplit.value.None? {
        ChildOnly(before, mid, t, level, e, chain, c, repl, hit);
        repl := [Node(pageId, c.separators, Spliced(t.kids, i, repl))];
        return Ok(None), repl, hit;
      }
      AfterInsertSize(before, mid, t.kids[i], level - 1, e, chain, repl, hit);
      var split := childSplit.value.value;
      ChildSplit(before, mid, t, level, e, chain, c, repl, hit, split);
      c := InternalContents(c.level,
                            c.separators[..childIndex] + [split.separator] + c.separators[childIndex..],
                            c.children[..childIndex + 1] + [split.rightPage] + c.children[childIndex + 1..]);
      r, repl := StoreBranched(pageId, c, before, t, level, e, chain, Spliced(t.kids, i, repl), hit);
      DirtyComposes(before, mid, midDirty, pages, dirty);
    }

    method StoreBranched(pageId: nat, c: InternalContents, ghost before: seq<Page>, ghost t: Tree, ghost level: nat,
            ghost e: Entry, ghost chain: seq<nat>, ghost kids: seq<Tree>, ghost hit: Option<nat>)
      returns (r: Result<Option<NodeSplit>>, ghost repl: seq<Tree>)
      requires t.id == pageId && Branched(before, pages, t, level, e, chain, c, kids, hit)
      modifies this
      ensures r.Ok? && AfterInsert(before, pages, t, level, e, chain, repl, hit) && Reported(r.value, t, repl)
      ensures |old(pages)| <= |pages|
      ensures DirtyCovers(old(pages), pages, dirty) && DirtyGrew(old(dirty), dirty, |pages|)
    {
      hide AfterInsert, Reported, DirtyCovers, DirtyGrew, PagesOk, LeftHalf, RightHalf, Rewritten, NodeSize, EntryOk,
        Branched, InternalBytes;
      ghost var mid := pages;
      BranchedParts(before, pages, t, level, e, chain, c, kids, hit);
      r := StoreInternal(pageId, c);
      repl := StoredTrees(pageId, |mid|, c, kids);
      NodeDone(before, mid, pages, t, level, e, chain, c, kids, hit, r.value, repl);
      AfterStore(mid, pages, pageId, c);
    }
  }

  lemma BranchedParts(before: seq<Page>, mid: seq<Page>, t: Tree, level: nat, e: Entry, chain: seq<nat>,
          c: InternalContents, kids: seq<Tree>, hit: Option<nat>)
    requires Branched(before, mid, t, level, e, chain, c, kids, hit)
    ensures PagesOk(mid) && |mid| < NO_PAGE && t.id < |mid| && c.level != 0 && Paired(c) && |c.children| >= 2
    ensures All(c.separators, EntryOk) && NodeSize(c.separators) <= PAYLOAD_SIZE + 114 && |kids| == |c.children|
  {
  }

  lemma AfterStore(mid: seq<Page>, after: seq<Page>, id: nat, c: InternalContents)
    requires id < |mid| && Paired(c) && |c.children| >= 2
    requires
      || after == Rewritten(mid, id, c)
      || exists c', p :: Paired(c') && after == Rewritten(mid, id, c') + [p]
    ensures |mid| <= |after|
  {
  }

  lemma SeparatorKeysOk(seps: seq<Entry>)
    requires All(seps, EntryOk)
    ensures KeysOk(seps) && forall k :: 0 <= k <= |seps| ==> KeysOk(seps[..k]) && KeysOk(seps[k..])
  {
  }

  function Rewritten(pages: seq<Page>, id: nat, c: InternalContents): seq<Page>
    requires id < |pages| && Paired(c)
  {
    pages[id := pages[id].(payload := InternalBytes(c))]
  }

  function LeftHalf(c: InternalContents, half: nat): (l: InternalContents)
    requires Paired(c) && 1 <= half < |c.children|
    ensures Paired(l) && l.level == c.level && |l.children| == half && l.separators == c.separators[..half - 1]
  {
    InternalContents(c.level, c.separators[..half - 1], c.children[..half])
  }

  function RightHalf(c: InternalContents, half: nat): (r: InternalContents)
    requires Paired(c) && 1 <= half < |c.children|
    ensures Paired(r) && r.level == c.level && |r.children| == |c.children| - half
    ensures r.separators == c.separators[half..]
  {
    InternalContents(c.level, c.separators[half..], c.children[half..])
  }

  ghost predicate IsNode(t: Tree, level: nat, c: InternalContents) {
    t.Node? && c == InternalContents(level, t.seps, Roots(t.kids)) && |t.kids| == |t.seps| + 1
  }

  lemma KindOfPage(pages: seq<Page>, t: Tree, level: nat, e: Entry, chain: seq<nat>)
    requires Ready(pages, t, level, e, chain)
    ensures t.id < |pages| && pages[t.id].ptype == (if t.Leaf? then IndexLeaf else IndexInternal)
    ensures t.Leaf? <==> level == 0
    ensures t.Node? ==> IsInternal(pages[t.id].payload, InternalContents(level, t.seps, Roots(t.kids)))
  {
    hide PagesOk, EntryOk, InternalBytes, Linked, Sorted, NodeSize, AllIds, Roots, Separators, Entries;
    if t.Node? {
      NodeCountFits(t.seps);
      forall j | 0 <= j < |t.kids| ensures t.kids[j].id < U32 {
        assert t.kids[j].id in Ids(t.kids[j]);
        AllBelowPages(pages, t.kids[j], level - 1);
        PagesAreFew(pages);
      }
      RootsAreSmall(t.kids);
    }
  }

  lemma PagesAreFew(pages: seq<Page>)
    requires PagesOk(pages)
    ensures |pages| < U32
  {
  }

  lemma RootsAreSmall(kids: seq<Tree>)
    requires forall j :: 0 <= j < |kids| ==> kids[j].id < U32
    ensures forall j :: 0 <= j < |kids| ==> Roots(kids)[j] < U32
  {
  }

  lemma NodeContents(pages: seq<Page>, t: Tree, level: nat, e: Entry, chain: seq<nat>, c: InternalContents)
    requires Ready(pages, t, level, e, chain) && t.Node? && t.id < |pages| && IsInternal(pages[t.id].payload, c)
    ensures IsNode(t, level, c) && level >= 1 && c.level == level && c.separators == t.seps && Paired(c)
    ensures var i := UpperBound(c.separators, e);
      i < |t.kids| && c.children[i] == t.kids[i].id && Ready(pages, t.kids[i], level - 1, e, chain)
  {
    hide Ready, IsInternal, UpperBound, Routed;
    KindOfPage(pages, t, level, e, chain);
    InternalContentsUnique(pages[t.id].payload, c, InternalContents(level, t.seps, Roots(t.kids)));
    KidReady(pages, t, level, e, chain);
    NodeShape(pages, t, level, e, chain);
  }

  lemma NodeShape(pages: seq<Page>, t: Tree, level: nat, e: Entry, chain: seq<nat>)
    requires Ready(pages, t, level, e, chain) && t.Node?
    ensures |t.kids| == |t.seps| + 1 && UpperBound(t.seps, e) < |t.kids| && |t.seps| >= 1 && level >= 1
    ensures All(t.seps, EntryOk) && NodeSize(t.seps) <= PAYLOAD_SIZE && level < U16 && |pages| + level + 1 <= NO_PAGE
    ensures Holds(pages, t, level) && t.id < |pages|
  {
    hide NodeSize, EntryOk;
  }

  /** After the child was replaced: either nothing to write, or one more branch. */
  ghost predicate Branched(before: seq<Page>, mid: seq<Page>, t: Tree, level: nat, e: Entry, chain: seq<nat>,
          c: InternalContents, kids: seq<Tree>, hit: Option<nat>)
  {
    && t.Node? && level >= 1 && c.level == level && level < U16 && Paired(c) && |c.children| >= 2
    && c.children == Roots(kids)
    && All(c.separators, EntryOk) && NodeSize(c.separators) <= PAYLOAD_SIZE + 114
    && |mid| <= |before| + level && |mid| < NO_PAGE && t.id < |mid|
    && ChildReplaced(before, mid, t, level, e, chain, c.separators, kids, hit)
  }

  lemma ChildOnly(before: seq<Page>, mid: seq<Page>, t: Tree, level: nat, e: Entry, chain: seq<nat>,
          c: InternalContents, crepl: seq<Tree>, hit: Option<nat>)
    requires Ready(before, t, level, e, chain) && IsNode(t, level, c) && level >= 1 && Paired(c)
    requires var i := UpperBound(c.separators, e);
      && i < |t.kids| && AfterInsert(before, mid, t.kids[i], level - 1, e, chain, crepl, hit)
      && Reported(None, t.kids[i], crepl)
    ensures var i := UpperBound(c.separators, e);
      var repl := [Node(t.id, c.separators, Spliced(t.kids, i, crepl))];
      AfterInsert(before, mid, t, level, e, chain, repl, hit) && Reported(None, t, repl)
  {
    hide Ready, AfterInsert, ChildReplaced, UpperBound, NodeSize, EntryOk, Entries;
    var i := UpperBound(c.separators, e);
    var kids := Spliced(t.kids, i, crepl);
    ChildDone(before, mid, t, level, e, chain, crepl, hit);
    AfterInsertSize(before, mid, t.kids[i], level - 1, e, chain, crepl, hit);
    assert Roots(kids) == Roots(t.kids);
    NodeUnchanged(before, mid, t, level, e, chain, t.seps, kids, hit);
  }

  /** The node's contents with the new branch in its place. */
  function WithBranch(c: InternalContents, i: nat, split: NodeSplit): (r: InternalContents)
    requires Paired(c) && i <= |c.separators|
    ensures Paired(r) && r.level == c.level && |r.children| == |c.children| + 1
  {
    InternalContents(c.level,
                     c.separators[..i] + [split.separator] + c.separators[i..],
                     c.children[..i + 1] + [split.rightPage] + c.children[i + 1..])
  }

  lemma ChildSplit(before: seq<Page>, mid: seq<Page>, t: Tree, level: nat, e: Entry, chain: seq<nat>,
          c: InternalContents, crepl: seq<Tree>, hit: Option<nat>, split: NodeSplit)
    requires Ready(before, t, level, e, chain) && IsNode(t, level, c) && level >= 1 && Paired(c)
    requires var i := UpperBound(c.separators, e);
      && i < |t.kids| && AfterInsert(before, mid, t.kids[i], level - 1, e, chain, crepl, hit)
      && Reported(Some(split), t.kids[i], crepl)
    ensures var i := UpperBound(c.separators, e);
      Branched(before, mid, t, level, e, chain, WithBranch(c, i, split), Spliced(t.kids, i, crepl), hit)
  {
    hide Ready, AfterInsert, ChildReplaced, UpperBound, NodeSize, EntryOk, Entries, All, Spliced, Roots, Holds;
    var i := UpperBound(c.separators, e);
    var kids := Spliced(t.kids, i, crepl);
    NodeShape(before, t, level, e, chain);
    ChildDone(before, mid, t, level, e, chain, crepl, hit);
    AfterInsertSize(before, mid, t.kids[i], level - 1, e, chain, crepl, hit);
    RootsAfterSplit(t.kids, i, crepl, split.rightPage);
    GrownSepsOk(before, mid, t, level, e, chain, GrownSeps(t.seps, i, crepl), kids, hit);
    BranchSize(t.seps, i, split.separator);
  }

  lemma RootsAfterSplit(kids: seq<Tree>, i: nat, crepl: seq<Tree>, right: nat)
    requires i < |kids| && |crepl| == 2 && crepl[0].id == kids[i].id && crepl[1].id == right
    ensures Roots(Spliced(kids, i, crepl)) == Roots(kids)[..i + 1] + [right] + Roots(kids)[i + 1..]
  {
    hide Spliced;
    var k := Spliced(kids, i, crepl);
    assert k == kids[..i] + crepl + kids[i + 1..] by { SplicedIs(kids, i, crepl); }
  }

  lemma SplicedIs<T>(s: seq<T>, i: nat, mid: seq<T>)
    requires i < |s|
    ensures Spliced(s, i, mid) == s[..i] + mid + s[i + 1..]
  {
  }

  lemma BranchSize(seps: seq<Entry>, i: nat, sep: Entry)
    requires i <= |seps| && All(seps[..i] + [sep] + seps[i..], EntryOk)
    ensures NodeSize(seps[..i] + [sep] + seps[i..]) <= NodeSize(seps) + 114
  {
    hide EntriesSize;
    SizeAfterInsert(seps, i, sep, 14);
    assert (seps[..i] + [sep] + seps[i..])[i] == sep;
  }

  lemma GrownSepsOk(before: seq<Page>, mid: seq<Page>, t: Tree, level: nat, e: Entry, chain: seq<nat>,
          seps: seq<Entry>, kids: seq<Tree>, hit: Option<nat>)
    requires t.Node? && ChildReplaced(before, mid, t, level, e, chain, seps, kids, hit)
    ensures All(seps, EntryOk) && |kids| == |seps| + 1 && t.id < |before| <= |mid| && PagesOk(mid)
  {
  }

  lemma AfterInsertSize(before: seq<Page>, after: seq<Page>, t: Tree, level: nat, e: Entry, chain: seq<nat>,
          repl: seq<Tree>, hit: Option<nat>)
    requires AfterInsert(before, after, t, level, e, chain, repl, hit)
    ensures |before| <= |after| <= |before| + level + 1 && PagesOk(after)
  {
  }

  lemma NodeUnchanged(before: seq<Page>, mid: seq<Page>, t: Tree, level: nat, e: Entry, chain: seq<nat>,
          seps: seq<Entry>, kids: seq<Tree>, hit: Option<nat>)
    requires Ready(before, t, level, e, chain) && t.Node? && seps == t.seps && Roots(kids) == Roots(t.kids)
    requires ChildReplaced(before, mid, t, level, e, chain, seps, kids, hit) && |mid| <= |before| + level
    ensures AfterInsert(before, mid, t, level, e, chain, [Node(t.id, seps, kids)], hit)
  {
    hide Ready, NodeSize, EntryOk, AfterInsert, InternalBytes;
    NodeShape(before, t, level, e, chain);
    GrownSepsOk(before, mid, t, level, e, chain, seps, kids, hit);
    assert mid == mid[t.id := mid[t.id].(payload := InternalBytes(InternalContents(level, seps, Roots(kids))))] by {
      assert mid[t.id] == before[t.id];
      assert NodePage(before[t.id], level, t.seps, Roots(t.kids));
    }
    NodeStays(before, mid, mid, t, level, e, chain, seps, kids, hit);
  }

  /** The trees that the stored contents stand for. */
  function StoredTrees(id: nat, n: nat, c: InternalContents, kids: seq<Tree>): seq<Tree>
    requires Paired(c) && |kids| == |c.children| && |c.children| >= 2
  {
    if NodeSize(c.separators) <= PAYLOAD_SIZE then [Node(id, c.separators, kids)]
    else Halves(id, n, c.separators, kids, |c.children| / 2)
  }

  lemma NodeDone(before: seq<Page>, mid: seq<Page>, after: seq<Page>, t: Tree, level: nat, e: Entry, chain: seq<nat>,
          c: InternalContents, kids: seq<Tree>, hit: Option<nat>, split: Option<NodeSplit>, repl: seq<Tree>)
    requires Branched(before, mid, t, level, e, chain, c, kids, hit)
    requires t.id < |mid| && Paired(c) && |c.children| >= 2 && |kids| == |c.children|
    requires repl == StoredTrees(t.id, |mid|, c, kids)
    requires NodeSize(c.separators) <= PAYLOAD_SIZE ==> split == None && after == Rewritten(mid, t.id, c)
    requires NodeSize(c.separators) > PAYLOAD_SIZE ==>
      var half := |c.children| / 2;
      && 2 <= half && half + 2 <= |c.children|
      && NodeSize(c.separators[..half - 1]) <= PAYLOAD_SIZE && NodeSize(c.separators[half..]) <= PAYLOAD_SIZE
      && split == Some(NodeSplit(c.separators[half - 1], |mid|))
      && after ==
           Rewritten(mid, t.id, LeftHalf(c, half))
           + [Page(IndexInternal, |mid|, NO_PAGE, InternalBytes(RightHalf(c, half)))]
    ensures AfterInsert(before, after, t, level, e, chain, repl, hit) && Reported(split, t, repl)
  {
    hide ChildReplaced, NodeSize, EntryOk, AfterInsert, InternalBytes, Entries, All;
    assert c == InternalContents(level, c.separators, Roots(kids));
    if NodeSize(c.separators) <= PAYLOAD_SIZE {
      NodeStays(before, mid, after, t, level, e, chain, c.separators, kids, hit);
    } else {
      NodeSplits(before, mid, after, t, level, e, chain, c.separators, kids, hit, |c.children| / 2);
    }
  }

  lemma DirtyComposes(before: seq<Page>, mid: seq<Page>, midDirty: set<nat>, after: seq<Page>, dirty: set<nat>)
    requires |before| <= |mid| <= |after| && DirtyCovers(before, mid, midDirty) && DirtyCovers(mid, after, dirty)
    requires midDirty <= dirty
    ensures DirtyCovers(before, after, dirty)
  {
  }

  lemma LeafFacts(pages: seq<Page>, t: Tree, e: Entry, chain: seq<nat>)
    requires Ready(pages, t, 0, e, chain)
    ensures t.Leaf? && t.id < |pages| && pages[t.id].ptype == IndexLeaf && PagesOk(pages) && |pages| < NO_PAGE
    ensures IsLeaf(pages[t.id].payload, LeafContents(PreviousOf(pages[t.id].payload), t.entries))
    ensures pages[t.id].next != t.id
    ensures var next := pages[t.id].next;
      next != NO_PAGE ==> next < |pages| && pages[next].ptype == IndexLeaf && |pages[next].payload| >= 8
    ensures e !in t.entries && All(t.entries, EntryOk) && LeafSize(t.entries) <= PAYLOAD_SIZE && EntryOk(e)
  {
    hide LeafPayload, PreviousOf, EntryOk, Sorted, LeafSize;
    PayloadsFit(pages, t.id, t.entries);
    LeafCountFits(t.entries);
    assert t.id in LeafIds(t);
    var k :| 0 <= k < |chain| && chain[k] == t.id;
    assert LinkedAt(pages, chain, k);
    if k + 1 < |chain| {
      assert LinkedAt(pages, chain, k + 1);
    }
  }

  lemma InsertedLeafFacts(t: Tree, e: Entry, entries: seq<Entry>)
    requires t.Leaf? && All(t.entries, EntryOk) && EntryOk(e) && LeafSize(t.entries) <= PAYLOAD_SIZE
    requires entries == t.entries[..LowerBound(t.entries, e)] + [e] + t.entries[LowerBound(t.entries, e)..]
    ensures entries == InsertSorted(t.entries, e) && entries != [] && |entries| < U16 && All(entries, EntryOk)
    ensures KeysOk(entries)
    ensures LeafSize(entries) <= PAYLOAD_SIZE + 110
    ensures LeafSize(entries) > PAYLOAD_SIZE ==> 2 <= |entries|
  {
    hide Less, EntriesSize;
    EntriesStayOk(t.entries, e);
    LeafCountFits(entries);
    SizeBound(entries, 10);
  }

  lemma LeafStayed(before: seq<Page>, after: seq<Page>, t: Tree, e: Entry, chain: seq<nat>, entries: seq<Entry>,
          payload: Bytes, dirty: set<nat>)
    requires Ready(before, t, 0, e, chain) && t.Leaf? && t.id < |before| && entries == InsertSorted(t.entries, e)
    requires LeafSize(entries) <= PAYLOAD_SIZE
    requires payload == LeafPayload(PreviousOf(before[t.id].payload), entries)
    requires after == before[t.id := before[t.id].(payload := payload)] && t.id in dirty
    ensures AfterInsert(before, after, t, 0, e, chain, [Leaf(t.id, entries)], None)
    ensures Reported(None, t, [Leaf(t.id, entries)]) && DirtyCovers(before, after, dirty)
  {
    hide InsertSorted, LeafPayload, PreviousOf, AfterInsert;
    LeafStays(before, after, t.id, t.entries, e, chain);
  }

  lemma LeafWasSplit(before: seq<Page>, after: seq<Page>, t: Tree, e: Entry, chain: seq<nat>, entries: seq<Entry>,
          repl: seq<Tree>, split: Option<NodeSplit>)
    requires Ready(before, t, 0, e, chain) && t.Leaf? && entries == InsertSorted(t.entries, e)
    requires All(entries, EntryOk) && PAYLOAD_SIZE < LeafSize(entries) <= PAYLOAD_SIZE + 110 && |entries| >= 2
    requires LeafCut(before, after, t.id, entries[..|entries| / 2], entries[|entries| / 2..])
    requires repl == [Leaf(t.id, entries[..|entries| / 2]), Leaf(|before|, entries[|entries| / 2..])]
    requires split == Some(NodeSplit(entries[|entries| / 2], |before|))
    ensures AfterInsert(before, after, t, 0, e, chain, repl, Some(t.id)) && Reported(split, t, repl)
  {
    hide InsertSorted, AfterInsert, LeafCut, LeafSize, EntryOk, Ready;
    LeafSplitFits(entries);
    LeafSplits(before, after, t.id, t.entries, e, chain, |entries| / 2);
    assert Entries(repl[1]) == entries[|entries| / 2..];
  }
}
