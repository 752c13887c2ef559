/** Insertion into the 2-3 B+ tree: recursive descent, split of a full child,
    and growth at the root. */
module HeapInsert {
  import opened Ordering
  import opened ArrayFunctions
  import opened BTreeNodes
  import opened HeapShapes
  import opened ShapeOrder

  // ----- what a split leaves in the heap

  lemma HalvesOwned(c: Shape, sp: Node)
    requires |DataOf(c)| == MAXIMUM + 1 && (c.Inner? ==> |c.kids| == MAXIMUM + 2) && Apart(c) && sp.Repr !! Owned(c)
    ensures var l, r := LowerHalf(c), UpperHalf(c, sp);
      Owned(l) + Owned(r) == Owned(c) + sp.Repr && Owned(l) !! Owned(r) && l.node == c.node && r.node == sp
    ensures c.Inner? ==> AllOwned(c.kids[..2]) + AllOwned(c.kids[2..]) == AllOwned(c.kids)
  {
    hide AllOwned, AllApart;
    if c.Inner? {
      assert c.kids == c.kids[..2] + c.kids[2..];
      WalkSplit(c.kids[..2], c.kids[2..]);
      ApartSplit(c.kids[..2], c.kids[2..]);
    }
  }

  /** `fix_excess` on a planted child. */
  method FixExcessAt(node: Node, i: nat, ghost c: Shape, ghost behind: Node?) returns (ghost sp: Node)
    requires node.Ok() && i < node.childCount <= MAXIMUM + 1 && node.dataCount <= MAXIMUM && node.subset[i] == c.node
    requires Planted(c, behind) && node.Repr !! Owned(c)
    requires |DataOf(c)| == MAXIMUM + 1 && (c.Inner? ==> |c.kids| == MAXIMUM + 2) && Ascending(DataOf(c))
    modifies node.Repr, c.node.Repr
    ensures node.Ok() && fresh(sp.Repr) && node.next == old(node.next)
    ensures node.Items() == InsertAt(old(node.Items()), FirstGe(old(node.Items()), DataOf(c)[1].key), DataOf(c)[1])
    ensures node.Kids() == InsertAt(old(node.Kids()), i + 1, sp)
    ensures Planted(LowerHalf(c), Behind(Leaves(UpperHalf(c, sp)), behind)) && Planted(UpperHalf(c, sp), behind)
  {
    hide InsertAt, FirstGe, Ascending, Forest, Planted, Roots, Leaves, AllLeaves, Owned, AllOwned;
    ghost var l, kid := LowerHalf(c), c.node;
    OwnedInner(c);
    ApartIsSeparate(node, kid);
    if c.Leaf? {
      PlantedLeaf(c, behind);
    } else {
      PlantedInner(c, behind);
      KidsInHalves(c, behind);
    }
    assert allocated(Owned(c));
    sp := node.FixExcess(i, kid);
    ghost var r := UpperHalf(c, sp);
    LeafLeaves(r);
    if c.Leaf? {
      PlantedLeaf(r, behind);
      PlantedLeaf(l, Behind(Leaves(r), behind));
    } else {
      PlantedInner(r, behind);
      PlantedInner(l, Behind(Leaves(r), behind));
    }
  }

  lemma KidsInHalves(c: Shape, behind: Node?)
    requires c.Inner? && |c.kids| == MAXIMUM + 2
    ensures var a, b := c.kids[..2], c.kids[2..];
      && (Forest(c.kids, behind) <==>
            Forest(a, Behind(AllLeaves(b), behind)) && Forest(b, behind) && AllOwned(a) !! AllOwned(b))
      && AllOwned(c.kids) == AllOwned(a) + AllOwned(b) && Roots(a) == Roots(c.kids)[..2]
      && Roots(b) == Roots(c.kids)[2..]
  {
    hide Forest, AllLeaves, AllOwned;
    assert c.kids == c.kids[..2] + c.kids[2..];
    ForestJoin(c.kids[..2], c.kids[2..], behind);
    WalkSplit(c.kids[..2], c.kids[2..]);
  }

  lemma LeafLeaves(t: Shape)
    ensures t.Leaf? ==> Leaves(t) == [t.node]
    ensures t.Inner? ==> Leaves(t) == AllLeaves(t.kids)
  {
  }

  // ----- the descent

  /** What a call below `t` may rely on. */
  ghost predicate Usable(t: Shape, h: nat, after: Node?)
    reads Owned(t)
  {
    Planted(t, after) && WF(t, h) && Ascending(Entries(t)) && |DataOf(t)| <= MAXIMUM
  }

  /** A node agrees with its shape. */
  ghost predicate Top(t: Shape)
    reads t.node`dataCount, t.node`childCount, t.node.data, t.node.subset
  {
    t.node.Ok() && t.node.Items() == DataOf(t) && t.node.Kids() == if t.Leaf? then [] else Roots(t.kids)
  }

  lemma PlantedTop(t: Shape, after: Node?)
    requires Planted(t, after)
    ensures Top(t) && Leaves(t) != [] && (t.node.childCount == 0 <==> t.Leaf?)
  {
    hide Linked, AllHold, AllApart, Apart;
    LeavesNonEmpty(t);
  }

  /** The child to descend into, with what surrounds it. */
  lemma Descend(t: Shape, h: nat, after: Node?, i: nat)
    requires Planted(t, after) && WF(t, h) && Ascending(Entries(t)) && t.Inner? && i <= |t.seps|
    ensures |t.kids| == |t.seps| + 1 && h >= 1 && SepsOk(t.seps, t.kids) && KidsWF(t.kids, h - 1)
    ensures Ascending(AllEntries(t.kids))
    ensures var behind := AllLeaves(t.kids[i + 1..]);
      && Usable(t.kids[i], h - 1, Behind(behind, after)) && Sized(t.kids[i])
      && Forest(t.kids[..i], Behind(Leaves(t.kids[i]) + behind, after)) && Forest(t.kids[i + 1..], after)
    ensures AllOwned(t.kids[..i]) !! Owned(t.kids[i])
    ensures (AllOwned(t.kids[..i]) + Owned(t.kids[i])) !! AllOwned(t.kids[i + 1..])
    ensures t.node.Repr !! AllOwned(t.kids)
    ensures AllOwned(t.kids) == AllOwned(t.kids[..i]) + Owned(t.kids[i]) + AllOwned(t.kids[i + 1..])
    ensures Owned(t) == t.node.Repr + AllOwned(t.kids) && Entries(t) == AllEntries(t.kids) && Top(t)
  {
    hide Forest, Planted, Ascending, Entries, AllEntries, WF, Leaves, AllLeaves, Owned, AllOwned, KeyLess;
    WFInner(t, h);
    PlantedInner(t, after);
    ForestAround(t.kids, i, after);
    WalkAround(t.kids, i);
    OwnedInner(t);
    LeafEntries(t);
    KidAscending(t.kids, i);
  }

  lemma KidAscending(kids: seq<Shape>, i: nat)
    requires i < |kids| && Ascending(AllEntries(kids))
    ensures Ascending(Entries(kids[i]))
  {
    hide KeyLess, Entries, AllEntries, Ascending;
    WalkAround(kids, i);
    AscendingSplit(AllEntries(kids[..i]) + Entries(kids[i]), AllEntries(kids[i + 1..]));
    AscendingSplit(AllEntries(kids[..i]), Entries(kids[i]));
  }

  /** One child replaced by a tree planted at the same place. */
  lemma Replant(t: Shape, after: Node?, i: nat, c: Shape)
    requires t.Inner? && i < |t.kids| && Top(t) && c.node == t.kids[i].node && Leaves(c) != []
    requires var tail := t.kids[i + 1..];
      && Forest(t.kids[..i], Behind(Leaves(c) + AllLeaves(tail), after)) && Planted(c, Behind(AllLeaves(tail), after))
      && Forest(tail, after)
      && AllOwned(t.kids[..i]) !! Owned(c) && (AllOwned(t.kids[..i]) + Owned(c)) !! AllOwned(tail)
      && t.node.Repr !! AllOwned(t.kids[..i]) && t.node.Repr !! Owned(c) && t.node.Repr !! AllOwned(tail)
    ensures Planted(t.(kids := t.kids[i := c]), after)
    ensures Owned(t.(kids := t.kids[i := c])) ==
              t.node.Repr + AllOwned(t.kids[..i]) + Owned(c) + AllOwned(t.kids[i + 1..])
  {
    hide Forest, Planted, Leaves, AllLeaves, Owned, AllOwned;
    var kids := t.kids[i := c];
    assert kids[..i] == t.kids[..i] && kids[i + 1..] == t.kids[i + 1..];
    ForestAround(kids, i, after);
    WalkAround(kids, i);
    assert Roots(kids) == Roots(t.kids);
    PlantedInner(t.(kids := kids), after);
    OwnedInner(t.(kids := kids));
  }

  lemma WFLeaf(t: Shape, h: nat)
    requires t.Leaf?
    ensures WF(t, h) <==> h == 0
  {
  }

  lemma RouteFound(seps: seq<Item>, k: Key, ge: nat, found: bool)
    requires ge == FirstGe(seps, k) && (found <==> ge < |seps| && !KeyLess(k, seps[ge].key))
    ensures found <==> Found(seps, k)
  {
    hide KeyLess;
    KeyLessIsStrictTotalOrder();
  }

  /** `loose_insert`: afterwards the node may hold one item too many. */
  method LooseInsert(node: Node, e: Item, ghost t: Shape, ghost h: nat, ghost after: Node?)
    returns (r: bool, ghost t': Shape)
    requires t.node == node && Usable(t, h, after)
    modifies Owned(t)
    ensures t'.node == node && Planted(t', after) && WF(t', h) && (t'.Leaf? <==> t.Leaf?)
    ensures Entries(t') == InsertByKey(Entries(t), e) && (r <==> !Found(Entries(t), e.key)) && (!r ==> t' == t)
    ensures |DataOf(t)| <= |DataOf(t')| <= |DataOf(t)| + 1
    ensures Owned(t) <= Owned(t') && fresh(Owned(t') - Owned(t))
    ensures Leaves(t) != [] && Leaves(t') != [] && Leaves(t')[0] == Leaves(t)[0]
    ensures t.Inner? ==> node.next == old(node.next)
    decreases h, 1
  {
    hide KeyLess, FirstGe, Ascending, Forest, Planted, Leaves, AllLeaves, Owned, AllOwned, Entries, AllEntries, WF,
      InsertAt;
    PlantedTop(t, after);
    assert allocated(Owned(t));
    OwnedInner(t);
    LeafEntries(t);
    t' := t;
    var ge := FindFirstGe(node.data, node.dataCount, e.key);
    var found := ge < node.dataCount && !KeyLess(e.key, node.data[ge].key);
    RouteFound(DataOf(t), e.key, ge, found);
    if node.IsLeaf() {
      LeafLeaves(t);
      if found { return false, t; }
      PlantedLeaf(t, after);
      node.InsertData(ge, e);
      t' := Leaf(node, InsertAt(t.items, ge, e));
      PlantedLeaf(t', after);
      LeafEntries(t');
      WFLeaf(t, h);
      WFLeaf(t', h);
      LeafLeaves(t');
      OwnedInner(t');
      return true, t';
    }
    var i := if found then ge + 1 else ge;
    r, t' := InsertIntoChild(node, i, e, t, h, after);
  }

  lemma Split2Is(kids: seq<Shape>, i: nat, l: Shape, r: Shape)
    requires i < |kids|
    ensures Split2(kids, i, l, r) == kids[..i] + [l, r] + kids[i + 1..] && Split2(kids, i, l, r) != []
  {
  }

  lemma Split2Roots(kids: seq<Shape>, i: nat, l: Shape, r: Shape)
    requires i < |kids| && l.node == kids[i].node
    ensures Roots(Split2(kids, i, l, r)) == InsertAt<Node?>(Roots(kids), i + 1, r.node)
  {
  }

  /** Two trees in the place of one child. */
  lemma ReplantSplit(t: Shape, after: Node?, i: nat, l: Shape, r: Shape, seps: seq<Item>)
    requires t.Inner? && i < |t.kids| && t.node.Ok() && t.node.Items() == seps && l.node == t.kids[i].node
    requires Leaves(l) != []
    requires t.node.Kids() == InsertAt<Node?>(Roots(t.kids), i + 1, r.node)
    requires var tail := t.kids[i + 1..];
      && Forest(t.kids[..i], Behind(Leaves(l), Behind(Leaves(r), Behind(AllLeaves(tail), after))))
      && Planted(l, Behind(Leaves(r), Behind(AllLeaves(tail), after))) && Planted(r, Behind(AllLeaves(tail), after))
      && Forest(tail, after)
      && AllOwned(t.kids[..i]) !! (Owned(l) + Owned(r))
      && (AllOwned(t.kids[..i]) + Owned(l) + Owned(r)) !! AllOwned(tail)
      && Owned(l) !! Owned(r) && t.node.Repr !! (AllOwned(t.kids[..i]) + Owned(l) + Owned(r) + AllOwned(tail))
    ensures var t' := Inner(t.node, seps, Split2(t.kids, i, l, r));
      && Planted(t', after)
      && Owned(t') == t.node.Repr + AllOwned(t.kids[..i]) + Owned(l) + Owned(r) + AllOwned(t.kids[i + 1..])
  {
    hide Forest, Planted, Leaves, AllLeaves, Owned, AllOwned, InsertAt, Split2, Behind, Roots;
    var tail := t.kids[i + 1..];
    TwoInForest(t.kids[..i], l, r, tail, after);
    Split2Is(t.kids, i, l, r);
    Split2Roots(t.kids, i, l, r);
    PlantedInner(Inner(t.node, seps, Split2(t.kids, i, l, r)), after);
    OwnedInner(Inner(t.node, seps, Split2(t.kids, i, l, r)));
  }

  lemma FirstLeafOf(a: seq<Node>, m: seq<Node>, b: seq<Node>, m': seq<Node>)
    requires m != [] && m' != [] && m[0] == m'[0]
    ensures (a + m + b)[0] == (a + m' + b)[0]
  {
  }

  /** A planted node whose child `i` has one item too many. */
  ghost predicate Overfull(t: Shape, h: nat, after: Node?, i: nat)
    reads Owned(t)
  {
    && t.Inner? && i < |t.kids| && Planted(t, after) && h >= 1 && SepsOk(t.seps, t.kids) && KidsBut(t.kids, h - 1, i)
    && Ascending(AllEntries(t.kids)) && |t.seps| <= MAXIMUM && |DataOf(t.kids[i])| == MAXIMUM + 1
    && Entries(t.kids[i]) != []
  }

  lemma OverfullParts(t: Shape, h: nat, after: Node?, i: nat)
    requires Overfull(t, h, after, i)
    ensures var behind := AllLeaves(t.kids[i + 1..]);
      && Planted(t.kids[i], Behind(behind, after)) && WF(t.kids[i], h - 1) && Ascending(DataOf(t.kids[i]))
      && (t.kids[i].Inner? ==> |t.kids[i].kids| == MAXIMUM + 2)
      && Forest(t.kids[..i], Behind(Leaves(t.kids[i]) + behind, after)) && Forest(t.kids[i + 1..], after)
    ensures AllOwned(t.kids[..i]) !! Owned(t.kids[i])
    ensures (AllOwned(t.kids[..i]) + Owned(t.kids[i])) !! AllOwned(t.kids[i + 1..])
    ensures t.node.Repr !! AllOwned(t.kids)
    ensures AllOwned(t.kids) == AllOwned(t.kids[..i]) + Owned(t.kids[i]) + AllOwned(t.kids[i + 1..])
    ensures Owned(t) == t.node.Repr + AllOwned(t.kids) && Entries(t) == AllEntries(t.kids) && Top(t)
    ensures Leaves(t.kids[i]) != []
    ensures Leaves(t) == AllLeaves(t.kids[..i]) + Leaves(t.kids[i]) + AllLeaves(t.kids[i + 1..])
  {
    hide Forest, Planted, Ascending, Entries, AllEntries, WF, Leaves, AllLeaves, Owned, AllOwned, KeyLess;
    PlantedInner(t, after);
    ForestAround(t.kids, i, after);
    WalkAround(t.kids, i);
    OwnedInner(t);
    LeafEntries(t);
    LeafLeaves(t);
    KidAscending(t.kids, i);
    PlantedTop(t.kids[i], Behind(AllLeaves(t.kids[i + 1..]), after));
    DataAscending(t.kids[i], h - 1);
  }

  lemma DataAscending(c: Shape, h: nat)
    requires WF(c, h) && Ascending(Entries(c))
    ensures Ascending(DataOf(c)) && (c.Inner? ==> |c.kids| == |c.seps| + 1)
  {
    hide Ascending, KeyLess;
    if c.Inner? { SepsAscend(c.seps, c.kids); }
  }

  /** The overfull child is split in two. */
  method SplitChild(node: Node, i: nat, ghost t: Shape, ghost h: nat, ghost after: Node?) returns (ghost t': Shape)
    requires t.node == node && Overfull(t, h, after, i)
    modifies Owned(t)
    ensures t'.node == node && Planted(t', after) && WF(t', h) && t'.Inner? && Entries(t') == Entries(t)
    ensures |DataOf(t')| == |DataOf(t)| + 1
    ensures Owned(t) <= Owned(t') && fresh(Owned(t') - Owned(t))
    ensures Leaves(t) != [] && Leaves(t') != [] && Leaves(t')[0] == Leaves(t)[0] && node.next == old(node.next)
  {
    hide KeyLess, FirstGe, Ascending, Forest, Planted, Leaves, AllLeaves, Owned, AllOwned, Entries, AllEntries, WF,
      InsertAt, LowerHalf, UpperHalf, Split2;
    OverfullParts(t, h, after, i);
    ghost var c, tail := t.kids[i], t.kids[i + 1..];
    ghost var behind, leaves := Behind(AllLeaves(tail), after), Leaves(c);
    OwnedRoot(c);
    assert node.subset[i] == node.Kids()[i] == Roots(t.kids)[i] == c.node;
    assert allocated(Owned(t));
    PlantedApart(c, behind);
    ghost var sp := FixExcessAt(node, i, c, behind);
    ghost var l, r := LowerHalf(c), UpperHalf(c, sp);
    SplitKeeps(t.seps, t.kids, h - 1, i, sp);
    HalvesOwned(c, sp);
    PlantedTop(l, Behind(Leaves(r), behind));
    HalvesLeaves(c);
    ReplantSplit(t, after, i, l, r, InsertAt(t.seps, i, DataOf(c)[1]));
    t' := Inner(node, InsertAt(t.seps, i, DataOf(c)[1]), Split2(t.kids, i, l, r));
    WFInner(t', h);
    LeafEntries(t');
    TwoInForest(t.kids[..i], l, r, tail, after);
    Split2Is(t.kids, i, l, r);
    LeafLeaves(t');
    FirstLeafOf(AllLeaves(t.kids[..i]), Leaves(c), AllLeaves(tail), Leaves(l) + Leaves(r));
  }

  lemma PlantedApart(t: Shape, after: Node?)
    requires Planted(t, after)
    ensures Apart(t)
  {
  }

  lemma HalvesLeaves(c: Shape)
    requires |DataOf(c)| == MAXIMUM + 1 && (c.Inner? ==> |c.kids| == MAXIMUM + 2) && Leaves(LowerHalf(c)) != []
    ensures Leaves(c) != [] && Leaves(LowerHalf(c))[0] == Leaves(c)[0]
  {
    hide AllLeaves;
    if c.Inner? {
      assert c.kids == c.kids[..2] + c.kids[2..];
      WalkSplit(c.kids[..2], c.kids[2..]);
    }
  }

  lemma FirstLeafStays(t: Shape, i: nat, c: Shape)
    requires t.Inner? && i < |t.kids| && Leaves(t.kids[i]) != [] && Leaves(c) != []
    requires Leaves(c)[0] == Leaves(t.kids[i])[0]
    ensures Leaves(t) != [] && Leaves(t.(kids := t.kids[i := c])) != []
    ensures Leaves(t.(kids := t.kids[i := c]))[0] == Leaves(t)[0]
  {
    hide Leaves, AllLeaves;
    var kids := t.kids[i := c];
    assert kids[..i] == t.kids[..i] && kids[i + 1..] == t.kids[i + 1..];
    WalkAround(t.kids, i);
    WalkAround(kids, i);
    LeafLeaves(t);
    LeafLeaves(t.(kids := kids));
    FirstLeafOf(AllLeaves(t.kids[..i]), Leaves(t.kids[i]), AllLeaves(t.kids[i + 1..]), Leaves(c));
  }

  /** The recursive call, and the split when the child got too many items. */
  method InsertIntoChild(node: Node, i: nat, e: Item, ghost t: Shape, ghost h: nat, ghost after: Node?)
    returns (r: bool, ghost t': Shape)
    requires t.node == node && Usable(t, h, after) && t.Inner? && i == RouteOf(t.seps, e.key)
    modifies Owned(t)
    ensures t'.node == node && Planted(t', after) && WF(t', h) && t'.Inner?
    ensures Entries(t') == InsertByKey(Entries(t), e) && (r <==> !Found(Entries(t), e.key)) && (!r ==> t' == t)
    ensures |DataOf(t)| <= |DataOf(t')| <= |DataOf(t)| + 1
    ensures Owned(t) <= Owned(t') && fresh(Owned(t') - Owned(t))
    ensures Leaves(t) != [] && Leaves(t') != [] && Leaves(t')[0] == Leaves(t)[0] && node.next == old(node.next)
    decreases h, 0
  {
    hide KeyLess, FirstGe, Ascending, Forest, Planted, Leaves, AllLeaves, Owned, AllOwned, Entries, AllEntries, WF,
      InsertAt, RouteOf, Found, InsertByKey;
    Descend(t, h, after, i);
    ghost var kid, tail := t.kids[i], t.kids[i + 1..];
    ghost var behind := Behind(AllLeaves(tail), after);
    assert allocated(Owned(t));
    var child := node.subset[i];
    assert child == node.Kids()[i] == Roots(t.kids)[i] == kid.node;
    OwnedRoot(kid);
    ghost var c;
    r, c := LooseInsert(child, e, kid, h - 1, behind);
    KidGrew(t.seps, t.kids, h - 1, c, e);
    Replant(t, after, i, c);
    t' := t.(kids := t.kids[i := c]);
    PlantedTop(c, behind);
    LeafEntries(t');
    FirstLeafStays(t, i, c);
    if child.dataCount > MAXIMUM {
      t' := SplitChild(node, i, t', h, after);
    } else {
      WFInner(t', h);
    }
  }

  // ----- the root

  /** The whole tree below a root that is never the child of another node. */
  ghost predicate RootOk(t: Shape, h: nat)
    reads Owned(t), t.node
  {
    Usable(t, h, null) && t.node.next == null && (t.Inner? ==> |t.seps| >= MINIMUM)
  }

  /** The content of an overfull root, moved below it. */
  ghost function Moved(t: Shape, n: Node): Shape {
    match t
    case Leaf(_, items) => Leaf(n, items)
    case Inner(_, seps, kids) => Inner(n, seps, kids)
  }

  lemma MovedIs(t: Shape, n: Node, h: nat)
    ensures var c := Moved(t, n);
      && Entries(c) == Entries(t) && (WF(c, h) <==> WF(t, h)) && DataOf(c) == DataOf(t) && c.node == n
      && Owned(c) == if t.Leaf? then n.Repr else n.Repr + AllOwned(t.kids)
  {
  }

  /** Moving keeps the planted children. */
  lemma MovedPlanted(t: Shape, n: Node)
    requires n.Ok() && n.Items() == DataOf(t) && n.Kids() == (if t.Leaf? then [] else Roots(t.kids)) && n.next == null
    requires t.Inner? ==> t.kids != [] && Forest(t.kids, null) && n.Repr !! AllOwned(t.kids)
    ensures Planted(Moved(t, n), null)
  {
    hide Forest, Planted, AllOwned;
    if t.Leaf? {
      PlantedLeaf(Moved(t, n), null);
    } else {
      PlantedInner(Moved(t, n), null);
    }
  }

  /** The empty node above the moved content. */
  lemma AboveMoved(root: Node, c: Shape, h: nat)
    requires Planted(c, null) && WF(c, h) && Ascending(Entries(c)) && Entries(c) != [] && |DataOf(c)| == MAXIMUM + 1
    requires root.Ok() && root.Items() == [] && root.Kids() == [c.node] && root.Repr !! Owned(c)
    ensures Overfull(Inner(root, [], [c]), h + 1, null, 0) && Entries(Inner(root, [], [c])) == Entries(c)
    ensures Owned(Inner(root, [], [c])) == root.Repr + Owned(c)
  {
    hide Forest, Planted, AllOwned, Owned, Entries, AllEntries, Ascending, WF;
    var t := Inner(root, [], [c]);
    ForestOne(c, null);
    WalkOne(c);
    PlantedInner(t, null);
    OwnedInner(t);
    LeafEntries(t);
  }

  lemma NonEmptyEntries(t: Shape, h: nat)
    requires WF(t, h) && DataOf(t) != []
    ensures Entries(t) != []
  {
    if t.Inner? {
      FirstOfAll(t.kids);
    }
  }

  /** The root gets a new child in its place, which is then split. */
  method RaiseRoot(root: Node, ghost t: Shape, ghost h: nat) returns (ghost t': Shape)
    requires t.node == root && Planted(t, null) && WF(t, h) && Ascending(Entries(t)) && |DataOf(t)| == MAXIMUM + 1
    requires root.next == null
    modifies Owned(t)
    ensures t'.node == root && RootOk(t', h + 1) && Entries(t') == Entries(t)
    ensures Owned(t) <= Owned(t') && fresh(Owned(t') - Owned(t))
  {
    hide KeyLess, FirstGe, Ascending, Forest, Planted, Leaves, AllLeaves, Owned, AllOwned, Entries, AllEntries, WF,
      Moved, Overfull;
    PlantedTop(t, null);
    OwnedInner(t);
    assert allocated(Owned(t));
    if t.Inner? { PlantedInner(t, null); }
    NonEmptyEntries(t, h);
    var ans := root.PushDown();
    ghost var c := Moved(t, ans);
    MovedIs(t, ans, h);
    MovedPlanted(t, ans);
    AboveMoved(root, c, h);
    ghost var t1 := Inner(root, [], [c]);
    assert Owned(t1) == Owned(t) + ans.Repr;
    label Split: t' := SplitChild(root, 0, t1, h + 1, null);
    forall o | o in Owned(t') && o !in Owned(t) ensures fresh(o) {
      if o !in ans.Repr { assert fresh@Split(o); }
    }
  }

  lemma LeafNext(t: Shape, after: Node?)
    requires Planted(t, after) && t.Leaf?
    ensures t.node.next == after
  {
    hide Planted;
    PlantedLeaf(t, after);
  }

  /** `insert`: keeps the tree valid and inserts exactly if the key is new. */
  method Insert(root: Node, e: Item, ghost t: Shape, ghost h: nat) returns (r: bool, ghost t': Shape, ghost h': nat)
    requires t.node == root && RootOk(t, h)
    modifies Owned(t)
    ensures t'.node == root && RootOk(t', h')
    ensures Entries(t') == InsertByKey(Entries(t), e) && (r <==> !HasKey(Entries(t), e.key))
    ensures Owned(t) <= Owned(t') && fresh(Owned(t') - Owned(t))
  {
    hide KeyLess, FirstGe, Ascending, Forest, Planted, Leaves, AllLeaves, Owned, AllOwned, Entries, AllEntries, WF,
      Found, InsertByKey, HasKey, Moved, Overfull;
    FoundIsMembership(Entries(t), e.key);
    InsertAscending(Entries(t), e);
    OwnedInner(t);
    assert allocated(Owned(t));
    h' := h;
    r, t' := LooseInsert(root, e, t, h, null);
    if t'.Leaf? { LeafNext(t', null); }
    PlantedTop(t', null);
    if !r { return; }
    if root.dataCount > MAXIMUM {
      t' := RaiseRoot(root, t', h);
      h' := h + 1;
    }
  }
}
