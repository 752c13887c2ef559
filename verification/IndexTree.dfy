/** The B+ tree that a set of pages stores, as a value: what it contains, which
    pages it owns, and what makes it well formed. */
module IndexTree {
  import opened Ordering
  import opened Codec
  import opened PageCodec
  import opened IndexPages

  datatype Tree =
    | Leaf(id: nat, entries: seq<Entry>)
    | Node(id: nat, seps: seq<Entry>, kids: seq<Tree>)

  /** The entries of a tree from left to right. */
  function Entries(t: Tree): seq<Entry>
    decreases t, 0
  {
    match t
    case Leaf(_, entries) => entries
    case Node(_, _, kids) => AllEntries(kids)
  }

  function AllEntries(ts: seq<Tree>): seq<Entry>
    decreases ts, 0
  {
    if ts == [] then [] else Entries(ts[0]) + AllEntries(ts[1..])
  }

  /** The leaf pages from left to right. */
  function LeafIds(t: Tree): seq<nat>
    decreases t, 0
  {
    match t
    case Leaf(id, _) => [id]
    case Node(_, _, kids) => AllLeafIds(kids)
  }

  function AllLeafIds(ts: seq<Tree>): seq<nat>
    decreases ts, 0
  {
    if ts == [] then [] else LeafIds(ts[0]) + AllLeafIds(ts[1..])
  }

  /** All pages of a tree. */
  function Ids(t: Tree): set<nat>
    decreases t, 0
  {
    match t
    case Leaf(id, _) => {id}
    case Node(id, _, kids) => {id} + AllIds(kids)
  }

  function AllIds(ts: seq<Tree>): set<nat>
    decreases ts, 0
  {
    if ts == [] then {} else Ids(ts[0]) + AllIds(ts[1..])
  }

  function Roots(ts: seq<Tree>): (r: seq<nat>)
    ensures |r| == |ts|
  {
    seq(|ts|, i requires 0 <= i < |ts| => ts[i].id)
  }

  // ----- the three walks split at any child

  lemma {:induction false} WalkSplit(a: seq<Tree>, b: seq<Tree>)
    ensures AllEntries(a + b) == AllEntries(a) + AllEntries(b)
    ensures AllLeafIds(a + b) == AllLeafIds(a) + AllLeafIds(b)
    ensures AllIds(a + b) == AllIds(a) + AllIds(b)
  {
    hide Entries, LeafIds, Ids;
    if a == [] {
      assert a + b == b;
    } else {
      assert (a + b)[0] == a[0] && (a + b)[1..] == a[1..] + b;
      WalkSplit(a[1..], b);
      Reassociate(Entries(a[0]), AllEntries(a[1..]), AllEntries(b));
      Reassociate(LeafIds(a[0]), AllLeafIds(a[1..]), AllLeafIds(b));
    }
  }

  lemma WalkOne(t: Tree)
    ensures AllEntries([t]) == Entries(t) && AllLeafIds([t]) == LeafIds(t) && AllIds([t]) == Ids(t)
  {
    hide Entries, LeafIds, Ids;
    assert [t][1..] == [];
  }

  lemma WalkAround(ts: seq<Tree>, i: nat)
    requires i < |ts|
    ensures AllEntries(ts) == AllEntries(ts[..i]) + Entries(ts[i]) + AllEntries(ts[i + 1..])
    ensures AllLeafIds(ts) == AllLeafIds(ts[..i]) + LeafIds(ts[i]) + AllLeafIds(ts[i + 1..])
    ensures AllIds(ts) == AllIds(ts[..i]) + Ids(ts[i]) + AllIds(ts[i + 1..])
  {
    hide *;
    var a, m, b := ts[..i], [ts[i]], ts[i + 1..];
    assert ts == a + m + b;
    WalkSplit(a + m, b);
    WalkSplit(a, m);
    WalkOne(ts[i]);
  }

  lemma {:induction false} InAllIds(ts: seq<Tree>, x: nat)
    ensures x in AllIds(ts) <==> exists i :: 0 <= i < |ts| && x in Ids(ts[i])
  {
    hide Ids;
    if ts != [] {
      InAllIds(ts[1..], x);
      if x in AllIds(ts[1..]) {
        var i :| 0 <= i < |ts[1..]| && x in Ids(ts[1..][i]);
        assert x in Ids(ts[i + 1]);
      }
      if i :| 0 <= i < |ts| && x in Ids(ts[i]) {
        if i > 0 {
          assert x in Ids(ts[1..][i - 1]);
        }
      }
    }
  }

  lemma RootIsOwned(t: Tree)
    ensures t.id in Ids(t)
  {
  }

  lemma {:induction false} LeavesAreOwned(t: Tree)
    ensures forall x :: x in LeafIds(t) ==> x in Ids(t)
    decreases t, 0
  {
    if t.Node? {
      AllLeavesAreOwned(t.kids);
    }
  }

  lemma {:induction false} AllLeavesAreOwned(ts: seq<Tree>)
    ensures forall x :: x in AllLeafIds(ts) ==> x in AllIds(ts)
    decreases ts, 0
  {
    if ts != [] {
      LeavesAreOwned(ts[0]);
      AllLeavesAreOwned(ts[1..]);
    }
  }

  // ----- well-formedness

  /** Uniform levels, legal fan-out, encodable entries, and every separator the
      smallest entry of the child to its right. */
  ghost predicate WF(t: Tree, level: nat)
    decreases t
  {
    match t
    case Leaf(_, entries) =>
      level == 0 && entries != [] && All(entries, EntryOk) && LeafSize(entries) <= PAYLOAD_SIZE
    case Node(_, seps, kids) =>
      && level >= 1 && |kids| == |seps| + 1 && |seps| >= 1
      && All(seps, EntryOk) && NodeSize(seps) <= PAYLOAD_SIZE
      && (forall i :: 0 <= i < |kids| ==> WF(kids[i], level - 1) && Entries(kids[i]) != [])
      && Separators(seps, kids)
  }

  ghost predicate Separators(seps: seq<Entry>, kids: seq<Tree>) {
    && |kids| == |seps| + 1
    && forall i :: 1 <= i < |kids| ==> Entries(kids[i]) != [] && seps[i - 1] == Entries(kids[i])[0]
  }

  /** No page occurs twice in the tree. */
  ghost predicate Apart(t: Tree)
    decreases t, 0
  {
    match t
    case Leaf(_, _) => true
    case Node(id, _, kids) => id !in AllIds(kids) && AllApart(kids)
  }

  ghost predicate AllApart(ts: seq<Tree>)
    decreases ts, 0
  {
    ts == [] || (Apart(ts[0]) && Ids(ts[0]) !! AllIds(ts[1..]) && AllApart(ts[1..]))
  }

  lemma {:induction false} ApartSplit(a: seq<Tree>, b: seq<Tree>)
    ensures AllApart(a + b) <==> AllApart(a) && AllApart(b) && AllIds(a) !! AllIds(b)
  {
    hide Apart, Ids;
    if a == [] {
      assert a + b == b;
    } else {
      assert (a + b)[0] == a[0] && (a + b)[1..] == a[1..] + b;
      ApartSplit(a[1..], b);
      WalkSplit(a[1..], b);
    }
  }

  lemma ApartOne(t: Tree)
    ensures AllApart([t]) <==> Apart(t)
  {
    hide Apart, Ids;
    assert [t][1..] == [];
  }

  lemma ApartAround(ts: seq<Tree>, i: nat)
    requires i < |ts|
    ensures AllApart(ts) <==>
      && AllApart(ts[..i]) && Apart(ts[i]) && AllApart(ts[i + 1..])
      && AllIds(ts[..i]) !! Ids(ts[i]) && (AllIds(ts[..i]) + Ids(ts[i])) !! AllIds(ts[i + 1..])
  {
    hide AllApart, Apart, Ids, AllIds;
    ApartSplit(ts[..i] + [ts[i]], ts[i + 1..]);
    ApartSplit(ts[..i], [ts[i]]);
    ApartOne(ts[i]);
    WalkSplit(ts[..i], [ts[i]]);
    WalkOne(ts[i]);
    assert ts == ts[..i] + [ts[i]] + ts[i + 1..];
  }

  // ----- what pages store a tree

  ghost predicate LeafPage(p: Page, entries: seq<Entry>) {
    p.ptype == IndexLeaf && p.payload == LeafPayload(PreviousOf(p.payload), entries)
  }

  ghost predicate NodePage(p: Page, level: nat, seps: seq<Entry>, children: seq<nat>) {
    && p.ptype == IndexInternal && p.next == NO_PAGE && |children| == |seps| + 1
    && p.payload == InternalBytes(InternalContents(level, seps, children))
  }

  ghost predicate Holds(pages: seq<Page>, t: Tree, level: nat)
    decreases t
  {
    && t.id < |pages|
    && match t
       case Leaf(id, entries) => LeafPage(pages[id], entries)
       case Node(id, seps, kids) =>
         && level >= 1 && NodePage(pages[id], level, seps, Roots(kids))
         && forall i :: 0 <= i < |kids| ==> Holds(pages, kids[i], level - 1)
  }

  /** Equal, except that a leaf may have other sibling links. */
  ghost predicate Alike(p: Page, q: Page) {
    p == q || (
      && p.ptype == q.ptype == IndexLeaf && p.id == q.id && |p.payload| >= 8
      && q.payload == WriteLE(p.payload, 2, PreviousOf(q.payload), 4))
  }

  lemma AlikeLeaf(p: Page, q: Page, entries: seq<Entry>)
    requires Alike(p, q) && LeafPage(p, entries)
    ensures LeafPage(q, entries)
  {
    hide WriteLE, LeafPayload, PreviousOf;
    LeafRepointed(PreviousOf(p.payload), entries, PreviousOf(q.payload));
  }

  lemma {:induction false} HoldsFrame(pages: seq<Page>, pages': seq<Page>, t: Tree, level: nat)
    requires Holds(pages, t, level) && |pages| <= |pages'|
    requires forall x :: x in Ids(t) && x < |pages| ==> Alike(pages[x], pages'[x])
    ensures Holds(pages', t, level)
    decreases t
  {
    hide LeafPage, NodePage, AllIds;
    assert t.id in Ids(t);
    match t {
      case Leaf(id, entries) =>
        AlikeLeaf(pages[id], pages'[id], entries);
      case Node(id, seps, kids) =>
        InternalUnchanged(pages[id], pages'[id], level, seps, Roots(kids));
        forall i | 0 <= i < |kids| ensures Holds(pages', kids[i], level - 1) {
          KidIds(t, i);
          HoldsFrame(pages, pages', kids[i], level - 1);
        }
    }
  }

  lemma InternalUnchanged(p: Page, q: Page, level: nat, seps: seq<Entry>, children: seq<nat>)
    requires Alike(p, q) && NodePage(p, level, seps, children)
    ensures NodePage(q, level, seps, children)
  {
  }

  lemma KidIds(t: Tree, i: nat)
    requires t.Node? && i < |t.kids|
    ensures Ids(t.kids[i]) <= Ids(t)
  {
    hide AllIds;
    forall x | x in Ids(t.kids[i]) ensures x in Ids(t) {
      InAllIds(t.kids, x);
    }
  }

  // ----- sibling links

  /** The leaves of `chain` point at each other in both directions, and the two
      ends point nowhere. */
  ghost predicate Linked(pages: seq<Page>, chain: seq<nat>) {
    forall i :: 0 <= i < |chain| ==> LinkedAt(pages, chain, i)
  }

  ghost predicate LinkedAt(pages: seq<Page>, chain: seq<nat>, i: nat)
    requires i < |chain|
  {
    && chain[i] < |pages| && pages[chain[i]].ptype == IndexLeaf && |pages[chain[i]].payload| >= 8
    && PreviousOf(pages[chain[i]].payload) == (if i == 0 then NO_PAGE else chain[i - 1])
    && pages[chain[i]].next == (if i == |chain| - 1 then NO_PAGE else chain[i + 1])
  }

  ghost predicate NoDup(s: seq<nat>) { forall i, j :: 0 <= i < j < |s| ==> s[i] != s[j] }

  lemma {:induction false} LeavesAreDistinct(t: Tree)
    requires Apart(t)
    ensures NoDup(LeafIds(t))
    decreases t, 0
  {
    if t.Node? {
      AllLeavesAreDistinct(t.kids);
    }
  }

  lemma {:induction false} AllLeavesAreDistinct(ts: seq<Tree>)
    requires AllApart(ts)
    ensures NoDup(AllLeafIds(ts))
    decreases ts, 0
  {
    hide Ids, AllIds, LeafIds;
    if ts != [] {
      LeavesAreDistinct(ts[0]);
      AllLeavesAreDistinct(ts[1..]);
      LeavesAreOwned(ts[0]);
      AllLeavesAreOwned(ts[1..]);
      JoinDistinct(LeafIds(ts[0]), AllLeafIds(ts[1..]), Ids(ts[0]), AllIds(ts[1..]));
    }
  }

  lemma JoinDistinct(a: seq<nat>, b: seq<nat>, x: set<nat>, y: set<nat>)
    requires NoDup(a) && NoDup(b) && x !! y
    requires (forall n :: n in a ==> n in x) && (forall n :: n in b ==> n in y)
    ensures NoDup(a + b)
  {
    forall i, j | 0 <= i < j < |a + b| ensures (a + b)[i] != (a + b)[j] {
      if i < |a| <= j {
        assert a[i] in x && b[j - |a|] in y;
      }
    }
  }

  /** The chain with leaf `n` put in behind leaf `hit`. */
  function InsertAfter(chain: seq<nat>, hit: nat, n: nat): seq<nat> {
    if chain == [] then []
    else if chain[0] == hit then [hit, n] + chain[1..]
    else [chain[0]] + InsertAfter(chain[1..], hit, n)
  }

  lemma {:induction false} InsertAfterAt(chain: seq<nat>, hit: nat, n: nat, k: nat)
    requires k < |chain| && chain[k] == hit && hit !in chain[..k]
    ensures InsertAfter(chain, hit, n) == chain[..k + 1] + [n] + chain[k + 1..]
  {
    if k == 0 {
      assert chain[..1] == [hit];
      assert [hit, n] == [hit] + [n];
    } else {
      assert chain[0] == chain[..k][0] && chain[1..][..k - 1] == chain[..k][1..];
      InsertAfterAt(chain[1..], hit, n, k - 1);
      assert chain[..k + 1] == [chain[0]] + chain[1..][..k];
      assert chain[1..][k..] == chain[k + 1..];
    }
  }

  lemma {:induction false} InsertAfterJoin(a: seq<nat>, b: seq<nat>, hit: nat, n: nat)
    ensures hit in a ==> InsertAfter(a + b, hit, n) == InsertAfter(a, hit, n) + b
    ensures hit !in a ==> InsertAfter(a + b, hit, n) == a + InsertAfter(b, hit, n)
  {
    if a == [] {
      assert a + b == b;
    } else {
      assert (a + b)[0] == a[0] && (a + b)[1..] == a[1..] + b;
      InsertAfterJoin(a[1..], b, hit, n);
      assert a[1..] + b == (a + b)[1..];
      assert a == [a[0]] + a[1..];
    }
  }
}
