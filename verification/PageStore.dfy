/** The growing vector of pages that a statement edits, with the set of pages it
    touched, and the incremental B+ tree insertion on it. */
module PageStore {
  import opened Ordering
  import opened Codec
  import opened PageCodec
  import opened IndexPages
  import opened IndexTree
  import opened IndexGrowth

  /** Every page sits at its own identifier and can be encoded. */
  ghost predicate PagesOk(pages: seq<Page>) {
    |pages| <= NO_PAGE && forall i :: 0 <= i < |pages| ==> pages[i].id == i && PageOk(pages[i])
  }

  /** Outside `owned` only the sibling links of leaves in `chain` may change. */
  ghost predicate Framed(before: seq<Page>, after: seq<Page>, owned: set<nat>, chain: seq<nat>) {
    && |before| <= |after|
    && forall x :: 0 <= x < |before| && x !in owned ==>
         Alike(before[x], after[x]) && (x !in chain ==> after[x] == before[x])
  }

  /** Every page that is new or differs is in the dirty set. */
  ghost predicate DirtyCovers(before: seq<Page>, after: seq<Page>, dirty: set<nat>) {
    forall x :: 0 <= x < |after| && x !in dirty ==> x < |before| && after[x] == before[x]
  }

  ghost predicate DirtyGrew(before: set<nat>, after: set<nat>, n: nat) {
    before <= after && forall x :: x in after ==> x in before || x < n
  }

  datatype NodeSplit = NodeSplit(separator: Entry, rightPage: nat)

  /** What an insertion below page `id` needs to know about the pages. */
  ghost predicate Ready(pages: seq<Page>, t: Tree, level: nat, e: Entry, chain: seq<nat>) {
    && PagesOk(pages) && |pages| + level + 1 <= NO_PAGE && level < U16
    && WF(t, level) && Holds(pages, t, level) && Apart(t)
    && EntryOk(e) && Sorted(Entries(t)) && e !in Entries(t)
    && Linked(pages, chain) && NoDup(chain) && forall x :: x in LeafIds(t) ==> x in chain
  }

  /** What it leaves: `repl` in the place of `t`. */
  ghost predicate Stored(pages: seq<Page>, repl: seq<Tree>, level: nat) {
    PagesOk(pages) && Legal(repl, level) && forall i :: 0 <= i < |repl| ==> Holds(pages, repl[i], level)
  }

  ghost predicate Reported(split: Option<NodeSplit>, t: Tree, repl: seq<Tree>) {
    && 1 <= |repl| <= 2 && repl[0].id == t.id
    && (split.Some? <==> |repl| == 2)
    && (split.Some? ==>
          && repl[1].id == split.value.rightPage && Entries(repl[1]) != []
          && split.value.separator == Entries(repl[1])[0])
  }

  // ----- frames

  lemma AllBelowPages(pages: seq<Page>, t: Tree, level: nat)
    requires Holds(pages, t, level)
    ensures forall x :: x in Ids(t) ==> x < |pages|
    decreases t
  {
    hide AllIds, LeafPage, NodePage;
    if t.Node? {
      forall x | x in Ids(t) ensures x < |pages| {
        assert x == t.id || x in AllIds(t.kids);
        InAllIds(t.kids, x);
        if i :| 0 <= i < |t.kids| && x in Ids(t.kids[i]) {
          AllBelowPages(pages, t.kids[i], level - 1);
        }
      }
    }
  }

  ghost predicate SameLinks(p: Page, q: Page) {
    q == p || (
      && q.ptype == IndexLeaf && |q.payload| >= 8
      && PreviousOf(q.payload) == PreviousOf(p.payload) && q.next == p.next)
  }

  lemma LinkedFrame(before: seq<Page>, after: seq<Page>, chain: seq<nat>)
    requires Linked(before, chain) && |before| <= |after|
    requires forall x :: x in chain && x < |before| ==> SameLinks(before[x], after[x])
    ensures Linked(after, chain)
  {
    hide PreviousOf;
    forall i | 0 <= i < |chain| ensures LinkedAt(after, chain, i) {
      assert LinkedAt(before, chain, i) && chain[i] in chain;
    }
  }

  // ----- leaf split: the sibling links

  /** The pages after leaf `p` was cut: `p` points at the new page `n`, and the
      old right neighbour of `p` points back at it. */
  ghost predicate Relinked(before: seq<Page>, after: seq<Page>, p: nat, n: nat) {
    && n == |before| && |after| == n + 1 && p < n && after[p].ptype == IndexLeaf && after[n].ptype == IndexLeaf
    && |after[p].payload| >= 8 && |after[n].payload| >= 8
    && PreviousOf(after[p].payload) == PreviousOf(before[p].payload) && after[p].next == n
    && PreviousOf(after[n].payload) == p && after[n].next == before[p].next
    && forall x :: 0 <= x < n && x != p ==>
         if x == before[p].next then Repointed(before[x], after[x], n) else after[x] == before[x]
  }

  ghost predicate Repointed(p: Page, q: Page, n: nat) {
    |p.payload| >= 8 && q == p.(payload := WriteLE(p.payload, 2, n, 4))
  }

  lemma RepointedLink(p: Page, q: Page, n: nat)
    requires Repointed(p, q, n) && n < U32
    ensures PreviousOf(q.payload) == n && |q.payload| == |p.payload| && q.next == p.next && q.ptype == p.ptype
    ensures q.id == p.id
    ensures p.ptype == IndexLeaf ==> Alike(p, q)
  {
    Widths();
    FromLEOfLE(n, 4);
    assert q.payload[2..6] == LE(n, 4);
  }

  lemma RelinkedChain(before: seq<Page>, after: seq<Page>, chain: seq<nat>, k: nat, n: nat)
    requires Linked(before, chain) && NoDup(chain) && k < |chain| && n < NO_PAGE
    requires Relinked(before, after, chain[k], n)
    ensures Linked(after, chain[..k + 1] + [n] + chain[k + 1..])
  {
    hide PreviousOf;
    var p := chain[k];
    var c := chain[..k + 1] + [n] + chain[k + 1..];
    assert LinkedAt(before, chain, k);
    forall i | 0 <= i < |c| ensures LinkedAt(after, c, i) {
      if i <= k {
        assert c[i] == chain[i];
        ChainStep(before, after, chain, k, n, i);
      } else if i > k + 1 {
        assert c[i] == chain[i - 1];
        ChainStep(before, after, chain, k, n, i - 1);
      }
    }
  }

  /** What an old chain member looks like afterwards. */
  lemma ChainStep(before: seq<Page>, after: seq<Page>, chain: seq<nat>, k: nat, n: nat, i: nat)
    requires Linked(before, chain) && NoDup(chain) && k < |chain| && i < |chain| && n < NO_PAGE
    requires Relinked(before, after, chain[k], n)
    ensures chain[i] < |after| && after[chain[i]].ptype == IndexLeaf && |after[chain[i]].payload| >= 8
    ensures PreviousOf(after[chain[i]].payload) == (if i == k + 1 then n else if i == 0 then NO_PAGE else chain[i - 1])
    ensures after[chain[i]].next == (if i == k then n else if i == |chain| - 1 then NO_PAGE else chain[i + 1])
  {
    hide PreviousOf, WriteLE;
    var p, x := chain[k], chain[i];
    assert LinkedAt(before, chain, i) && LinkedAt(before, chain, k);
    assert i != k ==> x != p;
    assert x == before[p].next <==> i == k + 1;
    if i == k + 1 {
      RepointedLink(before[x], after[x], n);
    }
  }

  lemma RelinkedFrame(before: seq<Page>, after: seq<Page>, chain: seq<nat>, p: nat, n: nat)
    requires Linked(before, chain) && NoDup(chain) && p in chain && n < NO_PAGE && Relinked(before, after, p, n)
    ensures Framed(before, after, {p}, chain)
    ensures before[p].next == NO_PAGE || (before[p].next in chain && before[p].next < n && before[p].next != p)
  {
    hide PreviousOf, WriteLE, Alike;
    var k :| 0 <= k < |chain| && chain[k] == p;
    assert LinkedAt(before, chain, k);
    if k + 1 < |chain| {
      var x := chain[k + 1];
      assert LinkedAt(before, chain, k + 1);
      RepointedLink(before[x], after[x], n);
    }
    forall x | 0 <= x < |before| && x != p && x != before[p].next ensures Alike(before[x], after[x]) {
      AlikeItself(before[x]);
    }
  }

  lemma AlikeItself(p: Page)
    ensures Alike(p, p)
  {
  }
}
