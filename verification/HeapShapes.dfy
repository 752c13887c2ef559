/** The shapes that nodes of the in-memory B+ tree form: which objects a shape
    owns, which items its leaves hold and in which order, and what the heap has
    to hold for a shape to be there. */
module HeapShapes {
  import opened Ordering
  import opened ArrayFunctions
  import opened BTreeNodes

  /** The tree below a node.  Items live in the leaves; inner nodes hold copies
      of items whose value lists may be out of date. */
  datatype Shape =
    | Leaf(node: Node, items: seq<Item>)
    | Inner(node: Node, seps: seq<Item>, kids: seq<Shape>)

  ghost function DataOf(t: Shape): seq<Item> { if t.Leaf? then t.items else t.seps }

  // ----- walks

  ghost function Entries(t: Shape): seq<Item>
    decreases t, 0
  {
    match t
    case Leaf(_, items) => items
    case Inner(_, _, kids) => AllEntries(kids)
  }

  ghost function AllEntries(ts: seq<Shape>): seq<Item>
    decreases ts, 0
  {
    if ts == [] then [] else Entries(ts[0]) + AllEntries(ts[1..])
  }

  ghost function Leaves(t: Shape): (s: seq<Node>)
    decreases t, 0
  {
    match t
    case Leaf(node, _) => [node]
    case Inner(_, _, kids) => AllLeaves(kids)
  }

  ghost function AllLeaves(ts: seq<Shape>): seq<Node>
    decreases ts, 0
  {
    if ts == [] then [] else Leaves(ts[0]) + AllLeaves(ts[1..])
  }

  /** All objects of a shape. */
  ghost function Owned(t: Shape): set<object>
    decreases t, 0
  {
    match t
    case Leaf(node, _) => node.Repr
    case Inner(node, _, kids) => node.Repr + AllOwned(kids)
  }

  ghost function AllOwned(ts: seq<Shape>): set<object>
    decreases ts, 0
  {
    if ts == [] then {} else Owned(ts[0]) + AllOwned(ts[1..])
  }

  ghost function Roots(ts: seq<Shape>): (r: seq<Node>)
    ensures |r| == |ts|
  {
    seq(|ts|, i requires 0 <= i < |ts| => ts[i].node)
  }

  lemma {:induction false} WalkSplit(a: seq<Shape>, b: seq<Shape>)
    ensures AllEntries(a + b) == AllEntries(a) + AllEntries(b)
    ensures AllLeaves(a + b) == AllLeaves(a) + AllLeaves(b)
    ensures AllOwned(a + b) == AllOwned(a) + AllOwned(b)
  {
    hide Entries, Leaves, Owned;
    if a == [] {
      assert a + b == b;
    } else {
      assert (a + b)[0] == a[0] && (a + b)[1..] == a[1..] + b;
      WalkSplit(a[1..], b);
      Reassociate(Entries(a[0]), AllEntries(a[1..]), AllEntries(b));
      Reassociate(Leaves(a[0]), AllLeaves(a[1..]), AllLeaves(b));
    }
  }

  lemma WalkOne(t: Shape)
    ensures AllEntries([t]) == Entries(t) && AllLeaves([t]) == Leaves(t) && AllOwned([t]) == Owned(t)
  {
    hide Entries, Leaves, Owned;
    assert [t][1..] == [];
  }

  lemma WalkAround(ts: seq<Shape>, i: nat)
    requires i < |ts|
    ensures AllEntries(ts) == AllEntries(ts[..i]) + Entries(ts[i]) + AllEntries(ts[i + 1..])
    ensures AllLeaves(ts) == AllLeaves(ts[..i]) + Leaves(ts[i]) + AllLeaves(ts[i + 1..])
    ensures AllOwned(ts) == AllOwned(ts[..i]) + Owned(ts[i]) + AllOwned(ts[i + 1..])
  {
    hide *;
    var a, m, b := ts[..i], [ts[i]], ts[i + 1..];
    assert ts == a + m + b;
    WalkSplit(a + m, b);
    WalkSplit(a, m);
    WalkOne(ts[i]);
  }

  lemma OwnedRoot(t: Shape)
    ensures t.node.Repr <= Owned(t)
  {
  }

  lemma OwnedInner(t: Shape)
    ensures t.Inner? ==> Owned(t) == t.node.Repr + AllOwned(t.kids)
    ensures t.Leaf? ==> Owned(t) == t.node.Repr
  {
  }

  lemma LeavesAreOwned(t: Shape)
    ensures forall n :: n in Leaves(t) ==> n.Repr <= Owned(t)
    decreases t, 0
  {
    if t.Inner? { AllLeavesAreOwned(t.kids); }
  }

  lemma AllLeavesAreOwned(ts: seq<Shape>)
    ensures forall n :: n in AllLeaves(ts) ==> n.Repr <= AllOwned(ts)
    decreases ts, 0
  {
    if ts != [] {
      LeavesAreOwned(ts[0]);
      AllLeavesAreOwned(ts[1..]);
    }
  }

  // ----- separation

  /** No object belongs to two nodes. */
  ghost predicate Apart(t: Shape)
    decreases t, 0
  {
    match t
    case Leaf(_, _) => true
    case Inner(node, _, kids) => node.Repr !! AllOwned(kids) && AllApart(kids)
  }

  ghost predicate AllApart(ts: seq<Shape>)
    decreases ts, 0
  {
    ts == [] || (Apart(ts[0]) && Owned(ts[0]) !! AllOwned(ts[1..]) && AllApart(ts[1..]))
  }

  lemma {:induction false} ApartSplit(a: seq<Shape>, b: seq<Shape>)
    ensures AllApart(a + b) <==> AllApart(a) && AllApart(b) && AllOwned(a) !! AllOwned(b)
  {
    hide Apart, Owned;
    if a == [] {
      assert a + b == b;
    } else {
      assert (a + b)[0] == a[0] && (a + b)[1..] == a[1..] + b;
      ApartSplit(a[1..], b);
      WalkSplit(a[1..], b);
    }
  }

  lemma ApartOne(t: Shape)
    ensures AllApart([t]) <==> Apart(t)
  {
    hide Apart, Owned;
    assert [t][1..] == [];
  }

  lemma ApartAround(ts: seq<Shape>, i: nat)
    requires i < |ts|
    ensures AllApart(ts) <==>
      && AllApart(ts[..i]) && Apart(ts[i]) && AllApart(ts[i + 1..])
      && AllOwned(ts[..i]) !! Owned(ts[i]) && (AllOwned(ts[..i]) + Owned(ts[i])) !! AllOwned(ts[i + 1..])
  {
    hide AllApart, Apart, Owned, AllOwned;
    ApartSplit(ts[..i] + [ts[i]], ts[i + 1..]);
    ApartSplit(ts[..i], [ts[i]]);
    ApartOne(ts[i]);
    WalkSplit(ts[..i], [ts[i]]);
    WalkOne(ts[i]);
    assert ts == ts[..i] + [ts[i]] + ts[i + 1..];
  }

  // ----- what the heap has to hold

  ghost function NodesIn(t: Shape): set<Node>
    decreases t, 0
  {
    match t
    case Leaf(node, _) => {node}
    case Inner(node, _, kids) => {node} + AllNodesIn(kids)
  }

  ghost function AllNodesIn(ts: seq<Shape>): set<Node>
    decreases ts, 0
  {
    if ts == [] then {} else NodesIn(ts[0]) + AllNodesIn(ts[1..])
  }

  ghost function Buffers(t: Shape): set<object>
    decreases t, 0
  {
    match t
    case Leaf(node, _) => {node.data, node.subset}
    case Inner(node, _, kids) => {node.data, node.subset} + AllBuffers(kids)
  }

  ghost function AllBuffers(ts: seq<Shape>): set<object>
    decreases ts, 0
  {
    if ts == [] then {} else Buffers(ts[0]) + AllBuffers(ts[1..])
  }

  lemma {:induction false} FrameIsOwned(t: Shape)
    ensures NodesIn(t) + Buffers(t) == Owned(t)
    decreases t, 0
  {
    if t.Inner? { AllFramesAreOwned(t.kids); }
  }

  lemma {:induction false} AllFramesAreOwned(ts: seq<Shape>)
    ensures AllNodesIn(ts) + AllBuffers(ts) == AllOwned(ts)
    decreases ts, 0
  {
    if ts != [] {
      FrameIsOwned(ts[0]);
      AllFramesAreOwned(ts[1..]);
    }
  }

  /** Counts and buffers are as the shape says; links are not looked at. */
  ghost predicate Holds(t: Shape)
    reads NodesIn(t)`dataCount, NodesIn(t)`childCount, Buffers(t)
    decreases t, 0
  {
    && t.node.Ok()
    && match t
       case Leaf(node, items) => node.Items() == items && node.childCount == 0
       case Inner(node, seps, kids) => node.Items() == seps && node.Kids() == Roots(kids) && kids != [] && AllHold(kids)
  }

  ghost predicate AllHold(ts: seq<Shape>)
    reads AllNodesIn(ts)`dataCount, AllNodesIn(ts)`childCount, AllBuffers(ts)
    decreases ts, 0
  {
    ts == [] || (Holds(ts[0]) && AllHold(ts[1..]))
  }

  lemma {:induction false} HoldSplit(a: seq<Shape>, b: seq<Shape>)
    ensures AllHold(a + b) <==> AllHold(a) && AllHold(b)
  {
    hide Holds, Owned;
    if a == [] {
      assert a + b == b;
    } else {
      assert (a + b)[0] == a[0] && (a + b)[1..] == a[1..] + b;
      HoldSplit(a[1..], b);
    }
  }

  lemma HoldOne(t: Shape)
    ensures AllHold([t]) <==> Holds(t)
  {
    hide Holds, Owned;
    assert [t][1..] == [];
  }

  lemma HoldAround(ts: seq<Shape>, i: nat)
    requires i < |ts|
    ensures AllHold(ts) <==> AllHold(ts[..i]) && Holds(ts[i]) && AllHold(ts[i + 1..])
  {
    hide AllHold, Holds, Owned, AllOwned;
    HoldSplit(ts[..i] + [ts[i]], ts[i + 1..]);
    HoldSplit(ts[..i], [ts[i]]);
    HoldOne(ts[i]);
    assert ts == ts[..i] + [ts[i]] + ts[i + 1..];
  }

  // ----- the leaf chain

  ghost function NodesOf(chain: seq<Node>): set<object> { set n | n in chain }

  ghost function Successor(chain: seq<Node>, i: nat, after: Node?): Node?
    requires i < |chain|
  {
    if i + 1 < |chain| then chain[i + 1] else after
  }

  /** Each leaf points at the next one, the last one at `after`. */
  ghost predicate Linked(chain: seq<Node>, after: Node?)
    reads NodesOf(chain)
  {
    forall i :: 0 <= i < |chain| ==> chain[i].next == Successor(chain, i, after)
  }

  /** What comes behind the leaves `a` when `b` follow them. */
  ghost function Behind(b: seq<Node>, after: Node?): Node? { if b == [] then after else b[0] }

  lemma LinkedSplit(a: seq<Node>, b: seq<Node>, after: Node?)
    ensures Linked(a + b, after) <==> Linked(a, Behind(b, after)) && Linked(b, after)
  {
    var c := a + b;
    assert forall i :: 0 <= i < |a| ==> c[i] == a[i] && Successor(c, i, after) == Successor(a, i, Behind(b, after));
    assert forall i :: 0 <= i < |b| ==> c[|a| + i] == b[i] && Successor(c, |a| + i, after) == Successor(b, i, after);
    if Linked(c, after) {
      forall i | 0 <= i < |b|
        ensures b[i].next == Successor(b, i, after)
      {
        assert c[|a| + i].next == Successor(c, |a| + i, after);
      }
      forall i | 0 <= i < |a|
        ensures a[i].next == Successor(a, i, Behind(b, after))
      {
        assert c[i].next == Successor(c, i, after);
      }
    }
  }

  lemma {:induction false} LeavesNonEmpty(t: Shape)
    requires Holds(t)
    ensures Leaves(t) != []
    decreases t
  {
    if t.Inner? {
      assert Holds(t.kids[0]);
      LeavesNonEmpty(t.kids[0]);
    }
  }

  // ----- trees and forests in the heap

  /** The heap holds the shape, no node is shared, and its leaves are linked. */
  ghost predicate Planted(t: Shape, after: Node?)
    reads Owned(t)
  {
    LeavesAreOwned(t);
    FrameIsOwned(t);
    Holds(t) && Apart(t) && Linked(Leaves(t), after)
  }

  ghost predicate Forest(ts: seq<Shape>, after: Node?)
    reads AllOwned(ts)
  {
    AllLeavesAreOwned(ts);
    AllFramesAreOwned(ts);
    AllHold(ts) && AllApart(ts) && Linked(AllLeaves(ts), after)
  }

  lemma ForestAround(ts: seq<Shape>, i: nat, after: Node?)
    requires i < |ts|
    ensures Forest(ts, after) <==>
      && Forest(ts[..i], Behind(Leaves(ts[i]) + AllLeaves(ts[i + 1..]), after))
      && Planted(ts[i], Behind(AllLeaves(ts[i + 1..]), after))
      && Forest(ts[i + 1..], after)
      && AllOwned(ts[..i]) !! Owned(ts[i]) && (AllOwned(ts[..i]) + Owned(ts[i])) !! AllOwned(ts[i + 1..])
  {
    hide *;
    HoldAround(ts, i);
    ApartAround(ts, i);
    WalkAround(ts, i);
    var a, m, b := AllLeaves(ts[..i]), Leaves(ts[i]), AllLeaves(ts[i + 1..]);
    Reassociate(a, m, b);
    LinkedSplit(a, m + b, after);
    LinkedSplit(m, b, after);
    ForestIs(ts, after);
    ForestIs(ts[..i], Behind(m + b, after));
    ForestIs(ts[i + 1..], after);
    PlantedIs(ts[i], Behind(b, after));
  }

  lemma ForestJoin(a: seq<Shape>, b: seq<Shape>, after: Node?)
    ensures Forest(a + b, after) <==>
              Forest(a, Behind(AllLeaves(b), after)) && Forest(b, after) && AllOwned(a) !! AllOwned(b)
  {
    hide *;
    HoldSplit(a, b);
    ApartSplit(a, b);
    WalkSplit(a, b);
    LinkedSplit(AllLeaves(a), AllLeaves(b), after);
    ForestIs(a + b, after);
    ForestIs(a, Behind(AllLeaves(b), after));
    ForestIs(b, after);
  }

  lemma ForestOne(t: Shape, after: Node?)
    ensures Forest([t], after) <==> Planted(t, after)
  {
    hide *;
    HoldOne(t);
    ApartOne(t);
    WalkOne(t);
    ForestIs([t], after);
    PlantedIs(t, after);
  }

  lemma BehindTwo(a: seq<Node>, b: seq<Node>, after: Node?)
    ensures Behind(a + b, after) == Behind(a, Behind(b, after))
  {
  }

  lemma OneInForest(a: seq<Shape>, m: Shape, b: seq<Shape>, after: Node?)
    ensures Forest(a + [m] + b, after) <==>
      && Forest(a, Behind(Leaves(m), Behind(AllLeaves(b), after))) && Planted(m, Behind(AllLeaves(b), after))
      && Forest(b, after)
      && AllOwned(a) !! Owned(m) && (AllOwned(a) + Owned(m)) !! AllOwned(b)
    ensures AllOwned(a + [m] + b) == AllOwned(a) + Owned(m) + AllOwned(b)
    ensures AllLeaves(a + [m] + b) == AllLeaves(a) + Leaves(m) + AllLeaves(b)
  {
    hide *;
    WalkOne(m);
    WalkSplit(a, [m]);
    WalkSplit(a + [m], b);
    ForestOne(m, Behind(AllLeaves(b), after));
    ForestJoin(a, [m], Behind(AllLeaves(b), after));
    ForestJoin(a + [m], b, after);
  }

  lemma TwoInForest(a: seq<Shape>, l: Shape, r: Shape, b: seq<Shape>, after: Node?)
    ensures Forest(a + [l, r] + b, after) <==>
      && Forest(a, Behind(Leaves(l), Behind(Leaves(r), Behind(AllLeaves(b), after))))
      && Planted(l, Behind(Leaves(r), Behind(AllLeaves(b), after))) && Planted(r, Behind(AllLeaves(b), after))
      && Forest(b, after)
      && Owned(l) !! Owned(r) && AllOwned(a) !! (Owned(l) + Owned(r))
      && (AllOwned(a) + Owned(l) + Owned(r)) !! AllOwned(b)
    ensures AllOwned(a + [l, r] + b) == AllOwned(a) + (Owned(l) + Owned(r)) + AllOwned(b)
    ensures AllLeaves(a + [l, r] + b) == AllLeaves(a) + (Leaves(l) + Leaves(r)) + AllLeaves(b)
  {
    hide *;
    assert a + [l, r] + b == (a + [l]) + [r] + b;
    OneInForest(a + [l], r, b, after);
    WalkOne(l);
    WalkSplit(a, [l]);
    ForestOne(l, Behind(Leaves(r), Behind(AllLeaves(b), after)));
    ForestJoin(a, [l], Behind(Leaves(r), Behind(AllLeaves(b), after)));
    Reassociate(AllLeaves(a), Leaves(l), Leaves(r));
  }

  lemma ForestIs(ts: seq<Shape>, after: Node?)
    ensures Forest(ts, after) <==> AllHold(ts) && AllApart(ts) && Linked(AllLeaves(ts), after)
  {
  }

  lemma PlantedIs(t: Shape, after: Node?)
    ensures Planted(t, after) <==> Holds(t) && Apart(t) && Linked(Leaves(t), after)
  {
  }

  lemma PlantedInner(t: Shape, after: Node?)
    requires t.Inner?
    ensures Planted(t, after) <==>
      && t.node.Ok() && t.node.Items() == t.seps && t.node.Kids() == Roots(t.kids) && t.kids != []
      && t.node.Repr !! AllOwned(t.kids) && Forest(t.kids, after)
  {
    hide Linked, AllHold, AllApart, AllOwned, AllLeaves, Roots;
    ForestIs(t.kids, after);
  }

  lemma PlantedLeaf(t: Shape, after: Node?)
    requires t.Leaf?
    ensures Planted(t, after) <==>
              t.node.Ok() && t.node.Items() == t.items && t.node.childCount == 0 && t.node.next == after
  {
    var chain := [t.node];
    assert Leaves(t) == chain && Successor(chain, 0, after) == after;
    assert Linked(chain, after) <==> chain[0].next == after;
  }
}
