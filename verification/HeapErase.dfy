/** Removal from the 2-3 B+ tree: recursive descent, borrowing and merging, and
    the repair of the separator that went out of date. */
module HeapErase {
  import opened Ordering
  import opened ArrayFunctions
  import opened BTreeNodes
  import opened HeapShapes
  import opened ShapeOrder
  import opened ShapeErase
  import opened HeapInsert

  // ----- a pair of planted neighbours

  /** Two planted neighbours below a node, apart from it and from each other. */
  ghost predicate Neighbours(node: Node, l: Shape, r: Shape, behind: Node?)
    reads Owned(l), Owned(r)
  {
    && Planted(l, Behind(Leaves(r), behind)) && Planted(r, behind)
    && Owned(l) !! Owned(r) && node.Repr !! Owned(l) && node.Repr !! Owned(r)
  }

  lemma NeighbourTops(node: Node, l: Shape, r: Shape, behind: Node?)
    requires Neighbours(node, l, r, behind)
    ensures Top(l) && Top(r) && Separate(node, l.node) && Separate(node, r.node) && Separate(l.node, r.node)
    ensures Leaves(l) != [] && Leaves(r) != [] && (l.node.childCount == 0 <==> l.Leaf?)
    ensures r.node.childCount == 0 <==> r.Leaf?
    ensures l.node.Repr <= Owned(l) && r.node.Repr <= Owned(r)
  {
    hide Planted, Owned, Leaves;
    PlantedTop(l, Behind(Leaves(r), behind));
    PlantedTop(r, behind);
    OwnedRoot(l);
    OwnedRoot(r);
    ApartIsSeparate(node, l.node);
    ApartIsSeparate(node, r.node);
    ApartIsSeparate(l.node, r.node);
  }

  /** The children of both, as one forest. */
  lemma NeighbourKids(node: Node, l: Shape, r: Shape, behind: Node?)
    requires Neighbours(node, l, r, behind) && l.Inner? && r.Inner?
    ensures Forest(l.kids + r.kids, behind) && l.kids != [] && r.kids != []
    ensures l.node.Repr !! AllOwned(l.kids + r.kids) && r.node.Repr !! AllOwned(l.kids + r.kids)
    ensures node.Repr !! AllOwned(l.kids + r.kids)
    ensures AllOwned(l.kids + r.kids) == AllOwned(l.kids) + AllOwned(r.kids)
    ensures Owned(l) == l.node.Repr + AllOwned(l.kids) && Owned(r) == r.node.Repr + AllOwned(r.kids)
    ensures Leaves(l) + Leaves(r) == AllLeaves(l.kids + r.kids)
  {
    hide Forest, Planted, Leaves, AllLeaves, Owned, AllOwned, Roots;
    PlantedInner(l, Behind(Leaves(r), behind));
    PlantedInner(r, behind);
    LeafLeaves(l);
    LeafLeaves(r);
    OwnedInner(l);
    OwnedInner(r);
    WalkSplit(l.kids, r.kids);
    ForestJoin(l.kids, r.kids, behind);
  }

  /** The same children, dealt out again to the two nodes. */
  lemma Redealt(node: Node, l: Shape, r: Shape, behind: Node?, all: seq<Shape>)
    requires l.Inner? && r.Inner? && l.kids + r.kids == all && l.kids != [] && r.kids != [] && Forest(all, behind)
    requires l.node.Ok() && r.node.Ok() && l.node.Items() == l.seps && r.node.Items() == r.seps
    requires l.node.Kids() == Roots(l.kids) && r.node.Kids() == Roots(r.kids)
    requires l.node.Repr !! AllOwned(all) && r.node.Repr !! AllOwned(all) && node.Repr !! AllOwned(all)
    requires l.node.Repr !! r.node.Repr && node.Repr !! l.node.Repr && node.Repr !! r.node.Repr
    ensures Neighbours(node, l, r, behind) && Owned(l) + Owned(r) == l.node.Repr + r.node.Repr + AllOwned(all)
    ensures Leaves(l) + Leaves(r) == AllLeaves(all)
  {
    hide Forest, Planted, Leaves, AllLeaves, Owned, AllOwned, Roots;
    ForestJoin(l.kids, r.kids, behind);
    WalkSplit(l.kids, r.kids);
    LeafLeaves(l);
    LeafLeaves(r);
    OwnedInner(l);
    OwnedInner(r);
    PlantedInner(r, behind);
    PlantedInner(l, Behind(Leaves(r), behind));
  }

  /** `transfer_from_left` on planted neighbours. */
  method BorrowFromLeft(node: Node, i: nat, ghost l: Shape, ghost r: Shape, ghost behind: Node?)
    requires node.Ok() && 0 < i < node.childCount && i <= node.dataCount <= MAXIMUM
    requires node.subset[i - 1] == l.node && node.subset[i] == r.node && Neighbours(node, l, r, behind)
    requires (l.Leaf? <==> r.Leaf?) && |DataOf(l)| == MAXIMUM && DataOf(r) == []
    requires l.Inner? ==> |l.kids| == |l.seps| + 1 && |r.kids| == 1
    modifies node.Repr, l.node.Repr, r.node.Repr
    ensures var l', r' := GivesLast(l), TakesLast(l, old(node.Items())[i - 1], r);
      && Neighbours(node, l', r', behind) && Owned(l') + Owned(r') == Owned(l) + Owned(r)
      && Leaves(l') + Leaves(r') == Leaves(l) + Leaves(r)
    ensures node.Ok() && node.Kids() == old(node.Kids()) && node.next == old(node.next)
    ensures node.Items() ==
              if l.Leaf? then old(node.Items())[i - 1 := LastData(l)]
              else Replaced(old(node.Items()), i - 1, LastData(l))
  {
    hide Forest, Planted, Leaves, AllLeaves, Owned, AllOwned, Replaced;
    NeighbourTops(node, l, r, behind);
    ghost var l', r' := GivesLast(l), TakesLast(l, node.Items()[i - 1], r);
    ghost var all := if l.Inner? then l.kids + r.kids else [];
    assert allocated(AllOwned(all));
    if l.Inner? {
      NeighbourKids(node, l, r, behind);
    } else {
      PlantedLeaf(l, Behind(Leaves(r), behind));
      PlantedLeaf(r, behind);
    }
    node.TransferFromLeft(i, l.node, r.node);
    if l.Inner? {
      assert l'.kids + r'.kids == all;
      Redealt(node, l', r', behind, all);
    } else {
      OneLeafEach(l, r);
      OneLeafEach(l', r');
      PlantedLeaf(l', Behind(Leaves(r), behind));
      PlantedLeaf(r', behind);
    }
  }

  lemma OneLeafEach(l: Shape, r: Shape)
    requires l.Leaf? && r.Leaf?
    ensures Leaves(l) == [l.node] && Leaves(r) == [r.node] && Owned(l) == l.node.Repr && Owned(r) == r.node.Repr
  {
  }

  /** `transfer_from_right` on planted neighbours. */
  method BorrowFromRight(node: Node, i: nat, ghost l: Shape, ghost r: Shape, ghost behind: Node?)
    requires node.Ok() && i + 1 < node.childCount && i < node.dataCount <= MAXIMUM
    requires node.subset[i] == l.node && node.subset[i + 1] == r.node && Neighbours(node, l, r, behind)
    requires (l.Leaf? <==> r.Leaf?) && |DataOf(r)| == MAXIMUM && DataOf(l) == []
    requires r.Inner? ==> |r.kids| == |r.seps| + 1 && |l.kids| == 1
    modifies node.Repr, l.node.Repr, r.node.Repr
    ensures var l', r' := TakesFirst(l, old(node.Items())[i], r), GivesFirst(r);
      && Neighbours(node, l', r', behind) && Owned(l') + Owned(r') == Owned(l) + Owned(r)
      && Leaves(l') + Leaves(r') == Leaves(l) + Leaves(r)
    ensures node.Ok() && node.Kids() == old(node.Kids()) && node.next == old(node.next)
    ensures node.Items() ==
              if l.Leaf? then old(node.Items())[i := NextFirst(r)] else Replaced(old(node.Items()), i, NextFirst(r))
  {
    hide Forest, Planted, Leaves, AllLeaves, Owned, AllOwned, Replaced;
    NeighbourTops(node, l, r, behind);
    ghost var l', r' := TakesFirst(l, node.Items()[i], r), GivesFirst(r);
    ghost var all := if l.Inner? then l.kids + r.kids else [];
    assert allocated(AllOwned(all));
    if l.Inner? {
      NeighbourKids(node, l, r, behind);
    } else {
      PlantedLeaf(l, Behind(Leaves(r), behind));
      PlantedLeaf(r, behind);
    }
    node.TransferFromRight(i, l.node, r.node);
    if l.Inner? {
      RootsWithout(r.kids);
      assert l'.kids + r'.kids == all;
      Redealt(node, l', r', behind, all);
    } else {
      OneLeafEach(l, r);
      OneLeafEach(l', r');
      PlantedLeaf(l', Behind(Leaves(r), behind));
      PlantedLeaf(r', behind);
    }
  }

  lemma RootsWithout(kids: seq<Shape>)
    requires kids != []
    ensures Roots(DeleteAt(kids, 0)) == DeleteAt<Node?>(Roots(kids), 0)
  {
  }

  /** `merge_with_next_subset` on planted neighbours. */
  method MergePair(node: Node, j: nat, ghost l: Shape, ghost r: Shape, ghost behind: Node?) returns (merged: Node)
    requires node.Ok() && j + 1 < node.childCount && j < node.dataCount
    requires node.subset[j] == l.node && node.subset[j + 1] == r.node && Neighbours(node, l, r, behind)
    requires (l.Leaf? <==> r.Leaf?) && |DataOf(l)| + |DataOf(r)| <= MINIMUM
    requires l.Inner? ==> |l.kids| == |l.seps| + 1 && |r.kids| == |r.seps| + 1
    modifies node.Repr, l.node.Repr, r.node.Repr
    ensures var m := Joined(l, old(node.Items())[j], r);
      && Planted(m, behind) && Owned(m) <= Owned(l) + Owned(r) && merged == m.node && Leaves(l) != [] && Leaves(m) != []
      && Leaves(m)[0] == Leaves(l)[0]
    ensures node.Ok() && node.next == old(node.next) && node.Items() == DeleteAt(old(node.Items()), j)
    ensures node.Kids() == DeleteAt(old(node.Kids()), j + 1)
  {
    hide Forest, Planted, Leaves, AllLeaves, Owned, AllOwned, DeleteAt, Joined, Behind;
    NeighbourTops(node, l, r, behind);
    BeforeMerge(node, l, r, behind);
    ghost var s, all := node.Items()[j], if l.Inner? then l.kids + r.kids else [];
    assert allocated(AllOwned(all));
    merged := node.MergeWithNextSubset(j, l.node, r.node);
    AfterMerge(l, s, r, behind, all);
  }

  lemma BeforeMerge(node: Node, l: Shape, r: Shape, behind: Node?)
    requires Neighbours(node, l, r, behind) && (l.Leaf? <==> r.Leaf?)
    ensures l.Inner? ==>
      && Forest(l.kids + r.kids, behind) && l.kids != [] && r.kids != []
      && l.node.Repr !! AllOwned(l.kids + r.kids) && r.node.Repr !! AllOwned(l.kids + r.kids)
      && node.Repr !! AllOwned(l.kids + r.kids)
    ensures l.Leaf? ==> r.node.next == behind
  {
    hide Forest, Planted, Leaves, AllLeaves, Owned, AllOwned;
    if l.Inner? {
      NeighbourKids(node, l, r, behind);
    } else {
      PlantedLeaf(r, behind);
    }
  }

  lemma AfterMerge(l: Shape, s: Item, r: Shape, behind: Node?, all: seq<Shape>)
    requires (l.Leaf? <==> r.Leaf?) && l.node.Ok()
    requires l.node.Items() == if l.Leaf? then DataOf(l) + DataOf(r) else DataOf(l) + [s] + DataOf(r)
    requires l.Inner? ==>
      && all == l.kids + r.kids && l.kids != [] && Forest(all, behind) && l.node.Repr !! AllOwned(all)
      && l.node.Kids() == Roots(l.kids) + Roots(r.kids)
    requires l.Leaf? ==> l.node.next == behind && l.node.childCount == 0
    requires Leaves(l) != []
    ensures var m := Joined(l, s, r);
      && Planted(m, behind) && Owned(m) <= Owned(l) + Owned(r) && m.node == l.node && Leaves(m) != []
      && Leaves(m)[0] == Leaves(l)[0]
  {
    hide Forest, Planted, Leaves, AllLeaves, Owned, AllOwned;
    var m := Joined(l, s, r);
    LeafLeaves(m);
    LeafLeaves(l);
    OwnedInner(m);
    OwnedInner(l);
    OwnedInner(r);
    if l.Inner? {
      WalkSplit(l.kids, r.kids);
      PlantedInner(m, behind);
    } else {
      PlantedLeaf(m, behind);
    }
  }

  // ----- the pair among its siblings

  lemma PairParts(t: Shape, after: Node?, j: nat)
    requires t.Inner? && Planted(t, after) && j + 1 < |t.kids|
    ensures var l, r, tail := t.kids[j], t.kids[j + 1], t.kids[j + 2..];
      && Neighbours(t.node, l, r, Behind(AllLeaves(tail), after)) && Forest(tail, after)
      && Forest(t.kids[..j], Behind(Leaves(l), Behind(Leaves(r), Behind(AllLeaves(tail), after))))
      && AllOwned(t.kids[..j]) !! (Owned(l) + Owned(r))
      && (AllOwned(t.kids[..j]) + Owned(l) + Owned(r)) !! AllOwned(tail)
      && t.node.Repr !! AllOwned(t.kids[..j]) && t.node.Repr !! AllOwned(tail)
      && Owned(t) == t.node.Repr + (AllOwned(t.kids[..j]) + (Owned(l) + Owned(r)) + AllOwned(tail))
      && Leaves(t) == AllLeaves(t.kids[..j]) + (Leaves(l) + Leaves(r)) + AllLeaves(tail)
    ensures Top(t) && Leaves(t.kids[j]) != [] && Leaves(t) != []
  {
    hide Forest, Planted, Leaves, AllLeaves, Owned, AllOwned;
    var l, r, tail := t.kids[j], t.kids[j + 1], t.kids[j + 2..];
    assert t.kids == t.kids[..j] + [l, r] + tail;
    PlantedInner(t, after);
    TwoInForest(t.kids[..j], l, r, tail, after);
    OwnedInner(t);
    LeafLeaves(t);
    PlantedTop(t, after);
    PlantedTop(l, Behind(Leaves(r), Behind(AllLeaves(tail), after)));
  }

  /** The heap around a rearranged pair: what `PairParts` gave, after the change. */
  ghost predicate Around(t: Shape, after: Node?, j: nat, first: Node, own: set<object>)
    requires t.Inner? && j + 1 < |t.kids|
    reads AllOwned(t.kids[..j]), AllOwned(t.kids[j + 2..])
  {
    && Forest(t.kids[j + 2..], after) && Forest(t.kids[..j], first)
    && AllOwned(t.kids[..j]) !! own && (AllOwned(t.kids[..j]) + own) !! AllOwned(t.kids[j + 2..])
    && t.node.Repr !! AllOwned(t.kids[..j]) && t.node.Repr !! AllOwned(t.kids[j + 2..])
  }

  lemma ReplantPair(t: Shape, after: Node?, j: nat, seps: seq<Item>, l: Shape, r: Shape, own: set<object>)
    requires t.Inner? && j + 1 < |t.kids| && l.node == t.kids[j].node && r.node == t.kids[j + 1].node && Leaves(l) != []
    requires t.node.Ok() && t.node.Items() == seps && t.node.Kids() == Roots(t.kids)
    requires Neighbours(t.node, l, r, Behind(AllLeaves(t.kids[j + 2..]), after)) && Owned(l) + Owned(r) <= own
    requires Around(t, after, j, Leaves(l)[0], own)
    ensures var t' := Inner(t.node, seps, Pair2(t.kids, j, l, r));
      && Planted(t', after) && Owned(t') <= t.node.Repr + (AllOwned(t.kids[..j]) + own + AllOwned(t.kids[j + 2..]))
      && Leaves(t') == AllLeaves(t.kids[..j]) + (Leaves(l) + Leaves(r)) + AllLeaves(t.kids[j + 2..])
  {
    hide Forest, Planted, Leaves, AllLeaves, Owned, AllOwned;
    var t' := Inner(t.node, seps, Pair2(t.kids, j, l, r));
    TwoInForest(t.kids[..j], l, r, t.kids[j + 2..], after);
    assert Roots(t'.kids) == Roots(t.kids);
    PlantedInner(t', after);
    OwnedInner(t');
    LeafLeaves(t');
  }

  lemma ReplantMerged(t: Shape, after: Node?, j: nat, seps: seq<Item>, m: Shape, own: set<object>)
    requires t.Inner? && j + 1 < |t.kids| && m.node == t.kids[j].node && Leaves(m) != []
    requires t.node.Ok() && t.node.Items() == seps && t.node.Kids() == DeleteAt<Node?>(Roots(t.kids), j + 1)
    requires Planted(m, Behind(AllLeaves(t.kids[j + 2..]), after)) && Owned(m) <= own && t.node.Repr !! own
    requires Around(t, after, j, Leaves(m)[0], own)
    ensures var t' := Inner(t.node, seps, Pair1(t.kids, j, m));
      && Planted(t', after) && Owned(t') <= t.node.Repr + (AllOwned(t.kids[..j]) + own + AllOwned(t.kids[j + 2..]))
      && Leaves(t') == AllLeaves(t.kids[..j]) + Leaves(m) + AllLeaves(t.kids[j + 2..])
  {
    hide Forest, Planted, Leaves, AllLeaves, Owned, AllOwned;
    var t' := Inner(t.node, seps, Pair1(t.kids, j, m));
    OneInForest(t.kids[..j], m, t.kids[j + 2..], after);
    assert Roots(t'.kids) == DeleteAt<Node?>(Roots(t.kids), j + 1);
    PlantedInner(t', after);
    OwnedInner(t');
    LeafLeaves(t');
  }

  // ----- fixing a shortage

  ghost predicate Short(t: Shape, h: nat, after: Node?, i: nat, d: nat)
    reads Owned(t)
  {
    Planted(t, after) && ShortOrder(t, h, i, d)
  }

  /** What each way of fixing leaves in the heap. */
  ghost predicate Fixed(t: Shape, m: Repair, h: nat, after: Node?, d: nat)
    reads Owned(m.t)
  {
    && After(t, m, h, d) && Planted(m.t, after) && Owned(m.t) <= Owned(t) && Leaves(t) != [] && Leaves(m.t) != []
    && Leaves(m.t)[0] == Leaves(t)[0]
  }

  lemma ShortFacts(t: Shape, h: nat, i: nat, d: nat)
    requires ShortOrder(t, h, i, d)
    ensures t.Inner? && i < |t.kids| == |t.seps| + 1 && 1 <= |t.seps| <= MAXIMUM && DataOf(t.kids[i]) == []
    ensures d == 0 || d == i
    ensures forall j :: 0 <= j < |t.kids| && j != i ==> Sized(t.kids[j])
  {
    hide Entries, AllEntries, WF;
  }

  method FixFromLeft(node: Node, i: nat, ghost t: Shape, ghost h: nat, ghost after: Node?, ghost d: nat)
    returns (ghost m: Repair)
    requires t.node == node && Short(t, h, after, i, d) && i > 0 && |DataOf(t.kids[i - 1])| == MAXIMUM
    modifies Owned(t)
    ensures Fixed(t, m, h, after, d) && node.next == old(node.next) && m.t.kids[m.f].node == t.kids[i].node
  {
    hide Forest, Planted, Leaves, AllLeaves, Owned, AllOwned, After, ShortOrder, Entries, AllEntries, GivesLast,
      TakesLast, Neighbours, Replaced, Pair2, LastData;
    ShortFacts(t, h, i, d);
    ghost var j, l, r := i - 1, t.kids[i - 1], t.kids[i];
    ghost var behind, own := Behind(AllLeaves(t.kids[i + 1..]), after), Owned(l) + Owned(r);
    PairParts(t, after, j);
    BorrowLeftMends(t, h, i, d);
    assert allocated(Owned(t));
    NeighbourTops(node, l, r, behind);
    BorrowFromLeft(node, i, l, r, behind);
    ghost var l', r' := GivesLast(l), TakesLast(l, t.seps[j], r);
    NeighbourTops(node, l', r', behind);
    SameNodes(l, t.seps[j], r);
    SameFirst(Leaves(l'), Leaves(r'), Leaves(l), Leaves(r));
    ReplantPair(t, after, j, t.seps[j := LastData(l)], l', r', own);
    m := Repair(Inner(node, t.seps[j := LastData(l)], Pair2(t.kids, j, l', r')), i,
        if d != 0 && r.Inner? then 1 else 0, 0);
    Pair2At(t.kids, j, l', r');
  }

  lemma SameNodes(l: Shape, s: Item, r: Shape)
    requires (l.Leaf? <==> r.Leaf?) && (l.Inner? ==> |l.kids| == |l.seps| + 1)
    ensures DataOf(l) != [] ==> GivesLast(l).node == l.node && TakesLast(l, s, r).node == r.node
    ensures DataOf(r) != [] && (r.Inner? ==> r.kids != []) ==>
              TakesFirst(l, s, r).node == l.node && GivesFirst(r).node == r.node
    ensures Joined(l, s, r).node == l.node
  {
  }

  lemma Pair2At(kids: seq<Shape>, j: nat, l: Shape, r: Shape)
    requires j + 1 < |kids|
    ensures Pair2(kids, j, l, r)[j] == l && Pair2(kids, j, l, r)[j + 1] == r && |Pair2(kids, j, l, r)| == |kids|
  {
  }

  method FixFromRight(node: Node, i: nat, ghost t: Shape, ghost h: nat, ghost after: Node?, ghost d: nat)
    returns (ghost m: Repair)
    requires t.node == node && Short(t, h, after, i, d) && i + 1 < |t.kids| && |DataOf(t.kids[i + 1])| == MAXIMUM
    modifies Owned(t)
    ensures Fixed(t, m, h, after, d) && node.next == old(node.next) && m.t.kids[m.f].node == t.kids[i].node
  {
    hide Forest, Planted, Leaves, AllLeaves, Owned, AllOwned, After, ShortOrder, Entries, AllEntries, GivesFirst,
      TakesFirst, Neighbours, Replaced, Pair2, NextFirst;
    ShortFacts(t, h, i, d);
    ghost var l, r := t.kids[i], t.kids[i + 1];
    ghost var behind, own := Behind(AllLeaves(t.kids[i + 2..]), after), Owned(l) + Owned(r);
    PairParts(t, after, i);
    BorrowRightMends(t, h, i, d);
    assert allocated(Owned(t));
    NeighbourTops(node, l, r, behind);
    BorrowFromRight(node, i, l, r, behind);
    ghost var l', r' := TakesFirst(l, t.seps[i], r), GivesFirst(r);
    NeighbourTops(node, l', r', behind);
    SameNodes(l, t.seps[i], r);
    SameFirst(Leaves(l'), Leaves(r'), Leaves(l), Leaves(r));
    ReplantPair(t, after, i, t.seps[i := NextFirst(r)], l', r', own);
    m := Repair(Inner(node, t.seps[i := NextFirst(r)], Pair2(t.kids, i, l', r')), i, 0, d);
    Pair2At(t.kids, i, l', r');
  }

  method FixByMerge(node: Node, i: nat, j: nat, ghost t: Shape, ghost h: nat, ghost after: Node?, ghost d: nat)
    returns (fixed: Node, ghost m: Repair)
    requires t.node == node && Short(t, h, after, i, d) && j + 1 < |t.kids| && (j + 1 == i || (j == i && d == 0))
    requires |DataOf(t.kids[j])| + |DataOf(t.kids[j + 1])| == MINIMUM
    modifies Owned(t)
    ensures Fixed(t, m, h, after, d) && node.next == old(node.next) && m.t.kids[m.f].node == fixed
  {
    hide Forest, Planted, Leaves, AllLeaves, Owned, AllOwned, After, ShortOrder, Entries, AllEntries, Joined,
      Neighbours, Pair1, DeleteAt;
    ShortFacts(t, h, i, d);
    ghost var l, r := t.kids[j], t.kids[j + 1];
    ghost var behind, own := Behind(AllLeaves(t.kids[j + 2..]), after), Owned(l) + Owned(r);
    PairParts(t, after, j);
    MergeMends(t, h, i, d, j);
    assert allocated(Owned(t));
    NeighbourTops(node, l, r, behind);
    NodeApart(node, l, r, behind);
    fixed := MergePair(node, j, l, r, behind);
    ghost var joined := Joined(l, t.seps[j], r);
    SameNodes(l, t.seps[j], r);
    ReplantMerged(t, after, j, DeleteAt(t.seps, j), joined, own);
    m := Repair(Inner(node, DeleteAt(t.seps, j), Pair1(t.kids, j, joined)), j,
        if d != 0 && l.Inner? then |l.kids| else 0, 0);
    Pair1At(t.kids, j, joined);
  }

  lemma NodeApart(node: Node, l: Shape, r: Shape, behind: Node?)
    requires Neighbours(node, l, r, behind)
    ensures node.Repr !! (Owned(l) + Owned(r))
  {
    hide Planted, Owned, Leaves;
  }

  lemma Pair1At(kids: seq<Shape>, j: nat, m: Shape)
    requires j + 1 < |kids|
    ensures Pair1(kids, j, m)[j] == m && |Pair1(kids, j, m)| == |kids| - 1
  {
  }

  /** `fix_shortage`: borrow from the left, else from the right, else merge. */
  method FixShortage(node: Node, i: nat, ghost t: Shape, ghost h: nat, ghost after: Node?, ghost d: nat)
    returns (fixed: Node, ghost m: Repair)
    requires t.node == node && Short(t, h, after, i, d)
    modifies Owned(t)
    ensures Fixed(t, m, h, after, d) && node.next == old(node.next) && m.t.kids[m.f].node == fixed
  {
    hide Forest, Planted, Leaves, AllLeaves, Owned, AllOwned, After, ShortOrder, Entries, AllEntries, Fixed;
    ShortFacts(t, h, i, d);
    PlantedTop(t, after);
    ghost var kids := t.kids;
    KidTops(t, after, i);
    if i > 0 && node.subset[i - 1].dataCount > MINIMUM {
      fixed := node.subset[i];
      m := FixFromLeft(node, i, t, h, after, d);
      return;
    }
    if i < node.childCount - 1 && node.subset[i + 1].dataCount > MINIMUM {
      fixed := node.subset[i];
      m := FixFromRight(node, i, t, h, after, d);
      return;
    }
    if i > 0 && node.subset[i - 1].dataCount <= MINIMUM {
      fixed, m := FixByMerge(node, i, i - 1, t, h, after, d);
      return;
    }
    fixed, m := FixByMerge(node, i, i, t, h, after, d);
  }

  /** The children a node points at are those of its shape. */
  lemma KidTops(t: Shape, after: Node?, i: nat)
    requires t.Inner? && Planted(t, after)
    ensures t.node.Ok() && t.node.childCount == |t.kids| && t.node.dataCount == |t.seps|
    ensures forall j :: 0 <= j < |t.kids| ==>
              t.node.subset[j] == t.kids[j].node && t.kids[j].node.dataCount == |DataOf(t.kids[j])|
  {
    hide Forest, Leaves, AllLeaves, Owned, AllOwned, Planted;
    PlantedTop(t, after);
    forall j | 0 <= j < |t.kids|
      ensures t.node.subset[j] == t.kids[j].node && t.kids[j].node.dataCount == |DataOf(t.kids[j])|
    {
      PlantedInner(t, after);
      ForestAround(t.kids, j, after);
      PlantedTop(t.kids[j], Behind(AllLeaves(t.kids[j + 1..]), after));
      assert t.node.subset[j] == t.node.Kids()[j];
    }
  }

  // ----- the smallest item

  /** `get_small`: the item at the far left. */
  method GetSmall(node: Node, ghost t: Shape, ghost h: nat, ghost after: Node?) returns (x: Item)
    requires t.node == node && Planted(t, after) && WF(t, h) && Entries(t) != []
    ensures x == Entries(t)[0]
    decreases h
  {
    hide Forest, Planted, Leaves, AllLeaves, Owned, AllOwned, Entries, AllEntries, WF;
    PlantedTop(t, after);
    LeafEntries(t);
    if node.IsLeaf() {
      assert node.data[0] == node.Items()[0];
      return node.data[0];
    }
    WFInner(t, h);
    KidTops(t, after, 0);
    PlantedInner(t, after);
    ForestAround(t.kids, 0, after);
    FirstOfAll(t.kids);
    x := GetSmall(node.subset[0], t.kids[0], h - 1, Behind(AllLeaves(t.kids[1..]), after));
  }

  /** Replaces separator `x - 1` by the smallest item of child `x`. */
  method Refresh(node: Node, x: nat, ghost t: Shape, ghost h: nat, ghost after: Node?)
    requires t.node == node && t.Inner? && Planted(t, after) && 1 <= x < |t.kids| == |t.seps| + 1 && WF(t.kids[x], h)
    requires Entries(t.kids[x]) != []
    modifies node.data
    ensures Planted(t.(seps := t.seps[x - 1 := Entries(t.kids[x])[0]]), after)
  {
    hide Forest, Planted, Leaves, AllLeaves, Owned, AllOwned, Entries, AllEntries, WF;
    PlantedTop(t, after);
    KidTops(t, after, x);
    PlantedInner(t, after);
    ForestAround(t.kids, x, after);
    assert allocated(AllOwned(t.kids));
    var small := GetSmall(node.subset[x], t.kids[x], h, Behind(AllLeaves(t.kids[x + 1..]), after));
    node.SetData(x - 1, small);
    PlantedInner(t.(seps := t.seps[x - 1 := Entries(t.kids[x])[0]]), after);
  }

  // ----- the descent

  /** Unsigned subtraction of one. */
  function LessOne(n: nat): nat { if n == 0 then 0xffff_ffff_ffff_ffff else n - 1 }

  /** `loose_erase`: afterwards the node may hold one item too few. */
  method LooseErase(node: Node, k: Key, ghost t: Shape, ghost h: nat, ghost after: Node?)
    returns (r: bool, ghost t': Shape)
    requires t.node == node && Usable(t, h, after) && (t.Inner? ==> |t.seps| >= MINIMUM)
    modifies Owned(t)
    ensures t'.node == node && Planted(t', after) && WF(t', h) && (t'.Leaf? <==> t.Leaf?)
    ensures Entries(t') == EraseByKey(Entries(t), k) && (r <==> Found(Entries(t), k))
    ensures |DataOf(t)| - 1 <= |DataOf(t')| <= |DataOf(t)| && Owned(t') <= Owned(t) && (!r ==> t' == t)
    ensures Leaves(t) != [] && Leaves(t') != [] && Leaves(t')[0] == Leaves(t)[0]
    ensures t.Inner? ==> node.next == old(node.next)
    decreases h, 2
  {
    hide KeyLess, FirstGe, Ascending, Forest, Planted, Leaves, AllLeaves, Owned, AllOwned, Entries, AllEntries, WF,
      DeleteAt;
    PlantedTop(t, after);
    assert allocated(Owned(t));
    OwnedInner(t);
    LeafEntries(t);
    t' := t;
    var ge := FindFirstGe(node.data, node.dataCount, k);
    var found := ge < node.dataCount && !KeyLess(k, node.data[ge].key);
    RouteFound(DataOf(t), k, ge, found);
    if node.IsLeaf() {
      LeafLeaves(t);
      if !found { return false, t; }
      PlantedLeaf(t, after);
      var item := node.DeleteData(ge);
      t' := Leaf(node, DeleteAt(t.items, ge));
      PlantedLeaf(t', after);
      LeafEntries(t');
      WFLeaf(t, h);
      WFLeaf(t', h);
      LeafLeaves(t');
      OwnedInner(t');
      return true, t';
    }
    r, t' := EraseFromChild(node, ge, found, k, t, h, after);
  }

  lemma SepsDontMatter(t: Shape, seps: seq<Item>)
    requires t.Inner?
    ensures var u := t.(seps := seps);
      Entries(u) == Entries(t) && Leaves(u) == Leaves(t) && Owned(u) == Owned(t) && u.node == t.node
  {
  }

  /** `Refresh` inside child `f`. */
  method RefreshInChild(node: Node, ghost f: nat, x: nat, ghost t: Shape, ghost h: nat, ghost after: Node?)
    returns (ghost c: Shape)
    requires t.Inner? && f < |t.kids| && node == t.kids[f].node && Planted(t, after) && t.kids[f].Inner?
    requires 1 <= x < |t.kids[f].kids| == |t.kids[f].seps| + 1 && WF(t.kids[f].kids[x], h)
    requires Entries(t.kids[f].kids[x]) != []
    modifies Owned(t)
    ensures c == t.kids[f].(seps := t.kids[f].seps[x - 1 := Entries(t.kids[f].kids[x])[0]])
    ensures Planted(t.(kids := t.kids[f := c]), after) && t.node.next == old(t.node.next)
    ensures Entries(t.(kids := t.kids[f := c])) == Entries(t) && Leaves(t.(kids := t.kids[f := c])) == Leaves(t)
    ensures Owned(t.(kids := t.kids[f := c])) == Owned(t)
  {
    hide Forest, Planted, Leaves, AllLeaves, Owned, AllOwned, Entries, AllEntries, WF;
    ghost var kid, tail := t.kids[f], t.kids[f + 1..];
    ghost var behind := Behind(AllLeaves(tail), after);
    c := kid.(seps := kid.seps[x - 1 := Entries(kid.kids[x])[0]]);
    PlantedInner(t, after);
    ForestAround(t.kids, f, after);
    OwnedInner(t);
    OwnedRoot(kid);
    assert allocated(Owned(t));
    WalkAround(t.kids, f);
    Refresh(node, x, kid, h, behind);
    SepsDontMatter(kid, c.seps);
    PlantedTop(c, behind);
    BehindTwo(Leaves(c), AllLeaves(tail), after);
    Replant(t, after, f, c);
    SameWalks(t, f, c);
  }

  lemma SameWalks(t: Shape, f: nat, c: Shape)
    requires t.Inner? && f < |t.kids| && Entries(c) == Entries(t.kids[f]) && Leaves(c) == Leaves(t.kids[f])
    requires Owned(c) == Owned(t.kids[f])
    ensures var u := t.(kids := t.kids[f := c]);
      Entries(u) == Entries(t) && Leaves(u) == Leaves(t) && Owned(u) == Owned(t)
  {
    hide Entries, Leaves, Owned, AllEntries, AllLeaves, AllOwned;
    var kids := t.kids[f := c];
    assert kids[..f] == t.kids[..f] && kids[f + 1..] == t.kids[f + 1..];
    WalkAround(t.kids, f);
    WalkAround(kids, f);
    LeafEntries(t);
    LeafLeaves(t);
    OwnedInner(t);
    var u := t.(kids := kids);
    LeafEntries(u);
    LeafLeaves(u);
    OwnedInner(u);
  }

  lemma KidTop(t: Shape, after: Node?, i: nat)
    requires t.Inner? && Planted(t, after) && i < |t.kids|
    ensures Top(t.kids[i]) && (t.kids[i].node.childCount == 0 <==> t.kids[i].Leaf?)
    ensures t.kids[i].node.Repr <= AllOwned(t.kids)
  {
    hide Forest, Leaves, AllLeaves, Owned, AllOwned, Planted;
    PlantedInner(t, after);
    ForestAround(t.kids, i, after);
    WalkAround(t.kids, i);
    OwnedRoot(t.kids[i]);
    PlantedTop(t.kids[i], Behind(AllLeaves(t.kids[i + 1..]), after));
  }

  /** The two searches for the stale separator after a shortage was fixed. */
  method RepairStale(node: Node, fixed: Node, k: Key, ghost m: Repair, ghost h: nat, ghost after: Node?)
    returns (done: bool, ghost t': Shape)
    requires m.t.node == node && Planted(m.t, after) && Mended(m, h) && Locates(m, k) && fixed == m.t.kids[m.f].node
    requires !HasKey(AllEntries(m.t.kids), k) && |m.t.seps| <= MAXIMUM
    modifies Owned(m.t)
    ensures t'.node == node && t'.Inner? && Planted(t', after) && |t'.seps| == |m.t.seps| && node.next == old(node.next)
    ensures Entries(t') == Entries(m.t) && Leaves(t') == Leaves(m.t) && Owned(t') == Owned(m.t)
    ensures if done then WF(t', h) else t' == m.t && m.q == 0 && m.d == 0
  {
    hide KeyLess, FirstGe, Forest, Planted, Leaves, AllLeaves, Owned, AllOwned, Entries, AllEntries, WF, HasKey, Mended,
      Locates, Found;
    t' := m.t;
    assert allocated(Owned(m.t));
    MendedInner(m, h);
    StaleIsFound(m, h, k);
    KidTops(m.t, after, m.f);
    KidTop(m.t, after, m.f);
    PlantedTop(m.t, after);
    var dataIdx := FindFirstGe(node.data, node.dataCount, k);
    var subsetIdx := FindFirstGe(fixed.data, fixed.dataCount, k);
    var foundX := dataIdx < node.dataCount && !KeyLess(k, node.data[dataIdx].key);
    RouteFound(m.t.seps, k, dataIdx, foundX);
    if dataIdx < LessOne(node.childCount) && foundX {
      OwnedRoot(m.t);
      t' := RepairHere(node, dataIdx, m, h, after);
      return true, t';
    }
    foundX := subsetIdx < fixed.dataCount && !KeyLess(k, fixed.data[subsetIdx].key);
    RouteFound(DataOf(m.t.kids[m.f]), k, subsetIdx, foundX);
    if subsetIdx < LessOne(fixed.childCount) && foundX {
      t' := RepairInChild(fixed, subsetIdx, m, h, after);
      return true, t';
    }
    done := false;
  }

  method RepairHere(node: Node, dataIdx: nat, ghost m: Repair, ghost h: nat, ghost after: Node?)
    returns (ghost t': Shape)
    requires m.t.node == node && Planted(m.t, after) && Mended(m, h) && m.d == dataIdx + 1 < |m.t.kids| && m.q == 0
    modifies node.data
    ensures t'.node == node && t'.Inner? && Planted(t', after) && |t'.seps| == |m.t.seps| && WF(t', h)
    ensures Entries(t') == Entries(m.t) && Leaves(t') == Leaves(m.t) && Owned(t') == Owned(m.t)
  {
    hide Planted, Leaves, Owned, Entries, WF, WFBut;
    RepairedTop(m, h);
    Refresh(node, dataIdx + 1, m.t, h - 1, after);
    t' := m.t.(seps := m.t.seps[dataIdx := Entries(m.t.kids[dataIdx + 1])[0]]);
    SepsDontMatter(m.t, t'.seps);
  }

  method RepairInChild(fixed: Node, subsetIdx: nat, ghost m: Repair, ghost h: nat, ghost after: Node?)
    returns (ghost t': Shape)
    requires Planted(m.t, after) && Mended(m, h) && m.d == 0 && m.q == subsetIdx + 1 && fixed == m.t.kids[m.f].node
    requires m.t.kids[m.f].Inner?
    requires m.q <= |m.t.kids[m.f].seps|
    modifies Owned(m.t)
    ensures t'.node == m.t.node && t'.Inner? && Planted(t', after) && |t'.seps| == |m.t.seps| && WF(t', h)
    ensures m.t.node.next == old(m.t.node.next)
    ensures Entries(t') == Entries(m.t) && Leaves(t') == Leaves(m.t) && Owned(t') == Owned(m.t)
  {
    hide Planted, Leaves, Owned, Entries, WF;
    RepairedBelow(m, h);
    ghost var c := RefreshInChild(fixed, m.f, subsetIdx + 1, m.t, h - 2, after);
    t' := m.t.(kids := m.t.kids[m.f := c]);
  }

  /** The node after the recursive call below child `i`. */
  ghost predicate Erased(t: Shape, t1: Shape, h: nat, after: Node?, i: nat, d: nat, k: Key)
    reads Owned(t1)
  {
    && t.Inner? && t1.Inner? && t1.node == t.node && t1.seps == t.seps && i < |t1.kids| && Planted(t1, after) && h >= 1
    && (d == 0 || d == i)
    && MINIMUM <= |t.seps| <= MAXIMUM && SepsBut(t1.seps, t1.kids, d) && KidsBut(t1.kids, h - 1, i)
    && |DataOf(t1.kids[i])| <= MAXIMUM
    && Ascending(t1.seps) && Ascending(AllEntries(t1.kids))
    && (d != 0 ==> Below(AllEntries(t1.kids[..i]), k) && t1.seps[d - 1].key == k)
    && AllEntries(t1.kids) == EraseByKey(Entries(t), k) && !HasKey(AllEntries(t1.kids), k)
    && Owned(t1) <= Owned(t) && Leaves(t) != [] && Leaves(t1) != [] && Leaves(t1)[0] == Leaves(t)[0]
  }

  method EraseBelow(node: Node, i: nat, k: Key, ghost t: Shape, ghost h: nat, ghost after: Node?, ghost d: nat)
    returns (r: bool, ghost t1: Shape)
    requires t.node == node && Usable(t, h, after) && t.Inner? && |t.seps| >= MINIMUM
    requires i == RouteOf(t.seps, k) && d == if Found(t.seps, k) then i else 0
    modifies Owned(t)
    ensures Erased(t, t1, h, after, i, d, k) && (r <==> Found(Entries(t), k)) && (d != 0 ==> r)
    ensures !r ==> t1 == t && Sized(t.kids[i])
    ensures node.next == old(node.next)
    decreases h, 0
  {
    hide KeyLess, FirstGe, Ascending, Forest, Planted, Leaves, AllLeaves, Owned, AllOwned, Entries, AllEntries, WF,
      RouteOf, Found, EraseByKey, HasKey, Below;
    Descend(t, h, after, i);
    ghost var kid, tail := t.kids[i], t.kids[i + 1..];
    ghost var behind := Behind(AllLeaves(tail), after);
    SepsAscend(t.seps, t.kids);
    assert allocated(Owned(t));
    var child := node.subset[i];
    assert child == node.Kids()[i] == Roots(t.kids)[i] == kid.node;
    OwnedRoot(kid);
    ghost var c;
    r, c := LooseErase(child, k, kid, h - 1, behind);
    KidShrank(t.seps, t.kids, h - 1, c, k);
    Replant(t, after, i, c);
    t1 := t.(kids := t.kids[i := c]);
    FirstLeafStays(t, i, c);
  }

  lemma ErasedIsShort(t: Shape, t1: Shape, h: nat, after: Node?, i: nat, d: nat, k: Key)
    requires Erased(t, t1, h, after, i, d, k) && DataOf(t1.kids[i]) == []
    ensures Short(t1, h, after, i, d) && (d != 0 ==> d <= |t1.seps| && t1.seps[d - 1].key == k)
  {
    hide KeyLess, Ascending, Planted, Leaves, Owned, Entries, AllEntries, WF, EraseByKey, HasKey, Below;
  }

  lemma ErasedParts(t: Shape, t1: Shape, h: nat, after: Node?, i: nat, d: nat, k: Key)
    requires Erased(t, t1, h, after, i, d, k)
    ensures t.Inner? && t1.Inner? && t1.node == t.node && t1.seps == t.seps && i < |t1.kids| == |t1.seps| + 1
    ensures Planted(t1, after) && h >= 1
    ensures AllEntries(t1.kids) == Entries(t1) == EraseByKey(Entries(t), k) && !HasKey(AllEntries(t1.kids), k)
    ensures MINIMUM <= |t.seps| <= MAXIMUM
    ensures Owned(t1) <= Owned(t) && Leaves(t) != [] && Leaves(t1) != [] && Leaves(t1)[0] == Leaves(t)[0]
    ensures DataOf(t1.kids[i]) != [] ==> KidsWF(t1.kids, h - 1) && SepsBut(t1.seps, t1.kids, d)
    ensures DataOf(t1.kids[i]) != [] && d == 0 ==> WF(t1, h)
  {
    hide KeyLess, Ascending, Planted, Leaves, Owned, Entries, AllEntries, WF, EraseByKey, HasKey, Below;
    LeafEntries(t1);
    if DataOf(t1.kids[i]) != [] {
      NonEmptyEntries(t1.kids[i], h - 1);
      WFInner(t1, h);
    }
  }

  lemma RefreshedWF(t: Shape, h: nat, d: nat, x: nat)
    requires t.Inner? && h >= 1 && SepsBut(t.seps, t.kids, d) && KidsWF(t.kids, h - 1) && 1 <= x < |t.kids|
    requires d == 0 || d == x
    ensures WF(t.(seps := t.seps[x - 1 := Entries(t.kids[x])[0]]), h)
  {
    hide WF, Entries;
    Refreshed(t.seps, t.kids, d, x);
    WFInner(t.(seps := t.seps[x - 1 := Entries(t.kids[x])[0]]), h);
  }

  lemma MendedInner(m: Repair, h: nat)
    requires Mended(m, h)
    ensures m.t.Inner? && m.f < |m.t.kids| && |m.t.kids| == |m.t.seps| + 1
  {
  }

  lemma MendedKids(m: Repair, h: nat)
    requires Mended(m, h) && m.q == 0 && m.d == 0
    ensures m.t.Inner? && h >= 1 && SepsBut(m.t.seps, m.t.kids, 0) && KidsWF(m.t.kids, h - 1)
    ensures |m.t.kids| == |m.t.seps| + 1
  {
    hide Entries, WF, WFBut;
    ExactIsWF(m.t.kids[m.f], h - 1);
  }

  method RefreshSeparator(node: Node, ge: nat, ghost t: Shape, ghost h: nat, ghost after: Node?)
    returns (ghost t': Shape)
    requires t.node == node && t.Inner? && Planted(t, after) && h >= 1 && KidsWF(t.kids, h - 1) && ge < |t.seps|
    requires |t.kids| == |t.seps| + 1
    modifies node.data
    ensures t' == t.(seps := t.seps[ge := Entries(t.kids[ge + 1])[0]]) && Planted(t', after)
    ensures Entries(t') == Entries(t) && Leaves(t') == Leaves(t) && Owned(t') == Owned(t)
  {
    hide Planted, Leaves, Owned, Entries, WF;
    Refresh(node, ge + 1, t, h - 1, after);
    t' := t.(seps := t.seps[ge := Entries(t.kids[ge + 1])[0]]);
    SepsDontMatter(t, t'.seps);
  }

  /** The recursive call, the shortage it may cause, and the separator it may
      put out of date. */
  method EraseFromChild(node: Node, ge: nat, found: bool, k: Key, ghost t: Shape, ghost h: nat, ghost after: Node?)
    returns (r: bool, ghost t': Shape)
    requires t.node == node && Usable(t, h, after) && t.Inner? && |t.seps| >= MINIMUM
    requires ge == FirstGe(t.seps, k) && (found <==> Found(t.seps, k))
    modifies Owned(t)
    ensures t'.node == node && Planted(t', after) && WF(t', h) && t'.Inner?
    ensures Entries(t') == EraseByKey(Entries(t), k) && (r <==> Found(Entries(t), k))
    ensures |DataOf(t)| - 1 <= |DataOf(t')| <= |DataOf(t)| && Owned(t') <= Owned(t) && (!r ==> t' == t)
    ensures Leaves(t) != [] && Leaves(t') != [] && Leaves(t')[0] == Leaves(t)[0] && node.next == old(node.next)
    decreases h, 1
  {
    hide KeyLess, FirstGe, Ascending, Forest, Planted, Leaves, AllLeaves, Owned, AllOwned, Entries, AllEntries, WF,
      EraseByKey, HasKey, Below, Mended, SepsBut, KidsBut, KidsWF, SepsOk, Erased, Short, Locates;
    var i := if found then ge + 1 else ge;
    ghost var d := if found then i else 0;
    r, t' := EraseBelow(node, i, k, t, h, after, d);
    ghost var t1 := t';
    ErasedParts(t, t1, h, after, i, d, k);
    OwnedRoot(t);
    KidTops(t', after, i);
    var short := node.subset[i].dataCount < MINIMUM;
    if short {
      ErasedIsShort(t, t1, h, after, i, d, k);
      var fixed;
      ghost var m;
      fixed, m := FixShortage(node, i, t1, h, after, d);
      MendedInner(m, h);
      LeafEntries(m.t);
      t' := m.t;
      if !found {
        MendedExactly(m, h);
        return;
      }
      var done;
      done, t' := RepairStale(node, fixed, k, m, h, after);
      if done { return; }
      MendedExactly(m, h);
      MendedKids(m, h);
    } else if !found {
      return;
    }
    KidTops(t', after, i);
    if ge < node.dataCount && node.subset[ge + 1].dataCount >= MINIMUM {
      RefreshedWF(t', h, if short then 0 else d, ge + 1);
      t' := RefreshSeparator(node, ge, t', h, after);
    }
  }

  // ----- the root

  /** A root without items hands over to its only child. */
  method LowerRoot(root: Node, ghost t: Shape, ghost h: nat) returns (ghost t': Shape)
    requires t.node == root && t.Inner? && Planted(t, null) && WF(t, h) && t.seps == [] && root.next == null
    requires Ascending(Entries(t))
    modifies Owned(t)
    ensures h >= 1 && t'.node == root && RootOk(t', h - 1) && Entries(t') == Entries(t) && Owned(t') <= Owned(t)
  {
    hide Forest, Planted, Leaves, AllLeaves, Owned, AllOwned, Entries, AllEntries, WF, Ascending, Moved;
    WFInner(t, h);
    PlantedInner(t, null);
    ghost var c := t.kids[0];
    assert t.kids == [c];
    ForestOne(c, null);
    WalkOne(c);
    OwnedInner(t);
    OwnedInner(c);
    LeafEntries(t);
    PlantedTop(c, null);
    KidTops(t, null, 0);
    ApartIsSeparate(root, c.node);
    if c.Inner? { PlantedInner(c, null); }
    assert allocated(Owned(t));
    root.PullUp(c.node);
    MovedIs(c, root, h - 1);
    MovedPlanted(c, root);
    t' := Moved(c, root);
  }

  /** `erase`: keeps the tree valid and removes exactly the target. */
  method Erase(root: Node, k: Key, ghost t: Shape, ghost h: nat) returns (r: bool, ghost t': Shape, ghost h': nat)
    requires t.node == root && RootOk(t, h)
    modifies Owned(t)
    ensures t'.node == root && RootOk(t', h')
    ensures Entries(t') == EraseByKey(Entries(t), k) && (r <==> HasKey(Entries(t), k)) && Owned(t') <= Owned(t)
  {
    hide KeyLess, FirstGe, Ascending, Forest, Planted, Leaves, AllLeaves, Owned, AllOwned, Entries, AllEntries, WF,
      Found, EraseByKey, HasKey, Moved;
    FoundIsMembership(Entries(t), k);
    EraseAscending(Entries(t), k);
    assert allocated(Owned(t));
    h' := h;
    r, t' := LooseErase(root, k, t, h, null);
    if t'.Leaf? { LeafNext(t', null); }
    PlantedTop(t', null);
    if !r { return; }
    if root.dataCount < MINIMUM && root.childCount > 0 {
      t' := LowerRoot(root, t', h);
      h' := h - 1;
    }
  }
}
