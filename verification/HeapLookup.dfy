/** Reading the 2-3 B+ tree: lookups by descent, and iteration along the leaf
    chain, which visits the entries of the tree in order. */
module HeapLookup {
  import opened Ordering
  import opened ArrayFunctions
  import opened BTreeNodes
  import opened HeapShapes
  import opened ShapeOrder
  import opened HeapInsert
  import opened HeapErase

  // ----- lookups by descent

  /** `contains`. */
  method Contains(node: Node, k: Key, ghost t: Shape, ghost h: nat, ghost after: Node?) returns (r: bool)
    requires t.node == node && Planted(t, after) && WF(t, h) && Ascending(Entries(t))
    ensures r <==> Found(Entries(t), k)
    decreases h
  {
    hide KeyLess, FirstGe, Ascending, Forest, Planted, Leaves, AllLeaves, Owned, AllOwned, Entries, AllEntries, WF,
      Found, RouteOf;
    PlantedTop(t, after);
    LeafEntries(t);
    assert allocated(Owned(t));
    var index := FindFirstGe(node.data, node.dataCount, k);
    var found := index < node.dataCount && !KeyLess(k, node.data[index].key);
    RouteFound(DataOf(t), k, index, found);
    if node.IsLeaf() { return found; }
    var i := if found then index + 1 else index;
    EnterChild(t, h, after, k, i);
    r := Contains(node.subset[i], k, t.kids[i], h - 1, Behind(AllLeaves(t.kids[i + 1..]), after));
  }

  lemma EnterChild(t: Shape, h: nat, after: Node?, k: Key, i: nat)
    requires t.Inner? && Planted(t, after) && WF(t, h) && Ascending(Entries(t))
    requires i == if Found(t.seps, k) then FirstGe(t.seps, k) + 1 else FirstGe(t.seps, k)
    ensures h >= 1 && i < |t.kids| == t.node.childCount <= t.node.subset.Length && t.node.subset[i] == t.kids[i].node
    ensures Planted(t.kids[i], Behind(AllLeaves(t.kids[i + 1..]), after)) && WF(t.kids[i], h - 1)
    ensures Ascending(Entries(t.kids[i]))
    ensures Found(Entries(t.kids[i]), k) <==> Found(Entries(t), k)
    ensures FirstGe(Entries(t), k) == |AllEntries(t.kids[..i])| + FirstGe(Entries(t.kids[i]), k)
    ensures Entries(t) == AllEntries(t.kids[..i]) + Entries(t.kids[i]) + AllEntries(t.kids[i + 1..])
  {
    hide KeyLess, FirstGe, Ascending, Forest, Planted, Leaves, AllLeaves, Owned, AllOwned, Entries, AllEntries, WF,
      Below, Above;
    WFInner(t, h);
    LeafEntries(t);
    KidTops(t, after, i);
    PlantedInner(t, after);
    ForestAround(t.kids, i, after);
    RouteSeparates(t.seps, t.kids, k);
    WalkAround(t.kids, i);
    FirstGeBetween(AllEntries(t.kids[..i]), Entries(t.kids[i]), AllEntries(t.kids[i + 1..]), k);
    KidAscending(t.kids, i);
  }

  // ----- the items of each leaf

  ghost function LeafItems(t: Shape): seq<seq<Item>>
    decreases t, 0
  {
    match t
    case Leaf(_, items) => [items]
    case Inner(_, _, kids) => AllLeafItems(kids)
  }

  ghost function AllLeafItems(ts: seq<Shape>): seq<seq<Item>>
    decreases ts, 0
  {
    if ts == [] then [] else LeafItems(ts[0]) + AllLeafItems(ts[1..])
  }

  ghost function Flatten(s: seq<seq<Item>>): seq<Item> { if s == [] then [] else s[0] + Flatten(s[1..]) }

  lemma {:induction false} FlattenSplit(a: seq<seq<Item>>, b: seq<seq<Item>>)
    ensures Flatten(a + b) == Flatten(a) + Flatten(b)
  {
    if a == [] {
      assert a + b == b;
    } else {
      assert (a + b)[1..] == a[1..] + b;
      FlattenSplit(a[1..], b);
    }
  }

  lemma {:induction false} LeafItemsFlatten(t: Shape)
    ensures Flatten(LeafItems(t)) == Entries(t) && |LeafItems(t)| == |Leaves(t)|
    decreases t, 0
  {
    if t.Inner? {
      AllLeafItemsFlatten(t.kids);
    } else {
      assert [t.items][1..] == [];
    }
  }

  lemma {:induction false} AllLeafItemsFlatten(ts: seq<Shape>)
    ensures Flatten(AllLeafItems(ts)) == AllEntries(ts) && |AllLeafItems(ts)| == |AllLeaves(ts)|
    decreases ts, 0
  {
    if ts != [] {
      LeafItemsFlatten(ts[0]);
      AllLeafItemsFlatten(ts[1..]);
      FlattenSplit(LeafItems(ts[0]), AllLeafItems(ts[1..]));
    }
  }

  lemma {:induction false} LeafHolds(t: Shape, a: nat)
    requires Holds(t) && a < |Leaves(t)|
    ensures |LeafItems(t)| == |Leaves(t)| && Leaves(t)[a].Ok() && Leaves(t)[a].Items() == LeafItems(t)[a]
    decreases t, 0
  {
    LeafItemsFlatten(t);
    if t.Inner? { AllLeafHolds(t.kids, a); }
  }

  lemma {:induction false} AllLeafHolds(ts: seq<Shape>, a: nat)
    requires AllHold(ts) && a < |AllLeaves(ts)|
    ensures |AllLeafItems(ts)| == |AllLeaves(ts)| && AllLeaves(ts)[a].Ok()
    ensures AllLeaves(ts)[a].Items() == AllLeafItems(ts)[a]
    decreases ts, 0
  {
    AllLeafItemsFlatten(ts);
    if ts != [] {
      LeafItemsFlatten(ts[0]);
      var n := |Leaves(ts[0])|;
      if a < n { LeafHolds(ts[0], a); } else { AllLeafHolds(ts[1..], a - n); }
    }
  }

  ghost predicate NoEmptyLeaf(s: seq<seq<Item>>) { forall i :: 0 <= i < |s| ==> s[i] != [] }

  lemma {:induction false} LeavesAreFilled(t: Shape, h: nat)
    requires WF(t, h) && (t.Leaf? ==> t.items != [])
    ensures NoEmptyLeaf(LeafItems(t))
    decreases t, 0
  {
    if t.Inner? { AllLeavesAreFilled(t.kids, h - 1); }
  }

  lemma {:induction false} AllLeavesAreFilled(ts: seq<Shape>, h: nat)
    requires KidsWF(ts, h)
    ensures NoEmptyLeaf(AllLeafItems(ts))
    decreases ts, 0
  {
    hide WF, Entries;
    if ts != [] {
      LeavesAreFilled(ts[0], h);
      AllLeavesAreFilled(ts[1..], h);
    }
  }

  // ----- iterators

  datatype Iterator = Iterator(node: Node?, index: nat)

  const END := Iterator(null, 0)

  /** The iterator stands at entry `p` of the tree, in leaf `a`. */
  ghost predicate InLeaf(t: Shape, it: Iterator, p: nat, a: nat) {
    && a < |Leaves(t)| == |LeafItems(t)| && it.node == Leaves(t)[a] && it.index < |LeafItems(t)[a]|
    && p == |Flatten(LeafItems(t)[..a])| + it.index
  }

  ghost predicate PointsAt(t: Shape, it: Iterator, p: nat) {
    if p >= |Entries(t)| then p == |Entries(t)| && it == END else exists a: nat :: InLeaf(t, it, p, a)
  }

  lemma InLeafItem(t: Shape, after: Node?, it: Iterator, p: nat, a: nat)
    requires Planted(t, after) && InLeaf(t, it, p, a)
    ensures it.node != null && it.node.Ok() && it.node.dataCount == |LeafItems(t)[a]| && p < |Entries(t)|
    ensures it.index < it.node.dataCount && it.node.data[it.index] == Entries(t)[p]
    ensures it.node.next == if a + 1 < |Leaves(t)| then Leaves(t)[a + 1] else after
  {
    hide Entries, Leaves, LeafItems, Holds, Apart;
    LeafHolds(t, a);
    LeafItemsFlatten(t);
    var s := LeafItems(t);
    assert s == s[..a] + ([s[a]] + s[a + 1..]);
    FlattenSplit(s[..a], [s[a]] + s[a + 1..]);
    FlattenSplit([s[a]], s[a + 1..]);
    assert Flatten([s[a]]) == s[a] by { assert [s[a]][1..] == []; }
    assert it.node.data[it.index] == it.node.Items()[it.index];
    assert Leaves(t)[a].next == Successor(Leaves(t), a, after);
  }

  /** Dereferencing gives the entry. */
  lemma PointsAtItem(t: Shape, after: Node?, it: Iterator, p: nat)
    requires Planted(t, after) && PointsAt(t, it, p) && p < |Entries(t)|
    ensures it.node != null && it.node.Ok() && it.index < it.node.dataCount && it.node.data[it.index] == Entries(t)[p]
    ensures it != END
  {
    hide Entries, Planted, InLeaf;
    var a: nat :| InLeaf(t, it, p, a);
    InLeafItem(t, after, it, p, a);
  }

  /** The far left leaf. */
  method GetSmallestNode(node: Node, ghost t: Shape, ghost h: nat, ghost after: Node?) returns (n: Node)
    requires t.node == node && Planted(t, after) && WF(t, h)
    ensures Leaves(t) != [] && n == Leaves(t)[0]
    decreases h
  {
    hide Forest, Planted, Leaves, AllLeaves, Owned, AllOwned, Entries, AllEntries, WF;
    PlantedTop(t, after);
    LeafLeaves(t);
    if node.IsLeaf() { return node; }
    WFInner(t, h);
    KidTops(t, after, 0);
    PlantedInner(t, after);
    ForestAround(t.kids, 0, after);
    WalkAround(t.kids, 0);
    assert t.kids[..0] == [];
    NoLeaves();
    PlantedTop(t.kids[0], Behind(AllLeaves(t.kids[1..]), after));
    n := GetSmallestNode(node.subset[0], t.kids[0], h - 1, Behind(AllLeaves(t.kids[1..]), after));
  }

  lemma NoLeaves()
    ensures AllLeaves([]) == []
  {
  }

  lemma WalkableLeaves(t: Shape, h: nat)
    requires RootOk(t, h) && Entries(t) != []
    ensures NoEmptyLeaf(LeafItems(t)) && |LeafItems(t)| == |Leaves(t)| && Leaves(t) != []
  {
    hide Planted, Ascending;
    LeavesAreFilled(t, h);
    LeafItemsFlatten(t);
    PlantedTop(t, null);
  }

  /** `begin`. */
  method Begin(root: Node, ghost t: Shape, ghost h: nat) returns (it: Iterator)
    requires t.node == root && RootOk(t, h)
    ensures PointsAt(t, it, 0)
  {
    hide Planted, WF, Entries, Leaves, LeafItems, Ascending;
    PlantedTop(t, null);
    LeafEntries(t);
    if root.dataCount == 0 && root.IsLeaf() { return END; }
    NonEmptyEntries(t, h);
    WalkableLeaves(t, h);
    var n := GetSmallestNode(root, t, h, null);
    it := Iterator(n, 0);
    assert LeafItems(t)[..0] == [];
    assert InLeaf(t, it, 0, 0);
  }

  /** `operator ++`. */
  method Advance(it: Iterator, ghost t: Shape, ghost h: nat, ghost p: nat) returns (it': Iterator)
    requires RootOk(t, h) && PointsAt(t, it, p) && p < |Entries(t)|
    ensures PointsAt(t, it', p + 1)
  {
    hide Planted, WF, Entries, Leaves, LeafItems, Ascending, Flatten;
    PointsAtItem(t, null, it, p);
    ghost var a: nat :| InLeaf(t, it, p, a);
    InLeafItem(t, null, it, p, a);
    WalkableLeaves(t, h);
    NextPosition(t, it, p, a);
    if it.index == it.node.dataCount - 1 {
      it' := Iterator(it.node.next, 0);
      if p + 1 < |Entries(t)| { assert InLeaf(t, it', p + 1, a + 1); }
    } else {
      it' := Iterator(it.node, it.index + 1);
      assert InLeaf(t, it', p + 1, a);
    }
  }

  lemma NextPosition(t: Shape, it: Iterator, p: nat, a: nat)
    requires InLeaf(t, it, p, a) && NoEmptyLeaf(LeafItems(t))
    ensures it.index + 1 < |LeafItems(t)[a]| ==> p + 1 < |Entries(t)|
    ensures it.index + 1 == |LeafItems(t)[a]| ==> p + 1 == |Flatten(LeafItems(t)[..a + 1])|
    ensures it.index + 1 == |LeafItems(t)[a]| ==> (a + 1 < |Leaves(t)| <==> p + 1 < |Entries(t)|)
    ensures it.index + 1 == |LeafItems(t)[a]| && a + 1 == |Leaves(t)| ==> p + 1 == |Entries(t)|
  {
    hide Entries, Leaves, LeafItems;
    LeafItemsFlatten(t);
    var s := LeafItems(t);
    assert a < |s|;
    assert s[..a + 1] == s[..a] + [s[a]];
    assert s == s[..a + 1] + s[a + 1..];
    FlattenSplit(s[..a], [s[a]]);
    FlattenSplit(s[..a + 1], s[a + 1..]);
    assert Flatten([s[a]]) == s[a] by { assert [s[a]][1..] == []; }
    if a + 1 < |s| { assert s[a + 1..][0] == s[a + 1] != []; }
  }

  /** `size`, by walking the chain. */
  method Size(root: Node, ghost t: Shape, ghost h: nat) returns (n: nat)
    requires t.node == root && RootOk(t, h)
    ensures n == |Entries(t)|
  {
    hide Planted, WF, Entries, Leaves, LeafItems, Ascending, PointsAt;
    n := 0;
    assert allocated(Owned(t));
    var it := Begin(root, t, h);
    AtEnd(t, it, 0);
    while it != END
      invariant RootOk(t, h) && n <= |Entries(t)| && PointsAt(t, it, n) && (it == END <==> n == |Entries(t)|)
      decreases |Entries(t)| - n
    {
      it := Advance(it, t, h, n);
      n := n + 1;
      AtEnd(t, it, n);
    }
  }

  lemma AtEnd(t: Shape, it: Iterator, p: nat)
    requires PointsAt(t, it, p)
    ensures p <= |Entries(t)| && (it == END <==> p == |Entries(t)|)
  {
    hide Entries, Leaves, LeafItems, Flatten;
  }

  /** The entries in the order the chain visits them. */
  method Collect(root: Node, ghost t: Shape, ghost h: nat) returns (items: seq<Item>)
    requires t.node == root && RootOk(t, h)
    ensures items == Entries(t)
  {
    hide Planted, WF, Entries, Leaves, LeafItems, Ascending, PointsAt;
    items := [];
    assert allocated(Owned(t));
    var it := Begin(root, t, h);
    AtEnd(t, it, 0);
    while it != END
      invariant RootOk(t, h) && |items| <= |Entries(t)| && items == Entries(t)[..|items|] && PointsAt(t, it, |items|)
      invariant it == END <==> |items| == |Entries(t)|
      decreases |Entries(t)| - |items|
    {
      PointsAtItem(t, null, it, |items|);
      var item := it.node.data[it.index];
      it := Advance(it, t, h, |items|);
      items := items + [item];
      AtEnd(t, it, |items|);
    }
  }

  /** `lower_bound`: the first entry whose key is not below `k`. */
  method LowerBoundOf(root: Node, k: Key, ghost t: Shape, ghost h: nat) returns (it: Iterator)
    requires t.node == root && RootOk(t, h)
    ensures PointsAt(t, it, FirstGe(Entries(t), k))
  {
    hide Planted, WF, Entries, Leaves, LeafItems, Ascending, PointsAt, KeyLess, FirstGe;
    assert allocated(Owned(t));
    it := Begin(root, t, h);
    AtEnd(t, it, 0);
    ghost var p: nat := 0;
    while it != END
      invariant RootOk(t, h) && p <= |Entries(t)| && PointsAt(t, it, p) && (it == END <==> p == |Entries(t)|)
      invariant forall i :: 0 <= i < p ==> KeyLess(Entries(t)[i].key, k)
      decreases |Entries(t)| - p
    {
      PointsAtItem(t, null, it, p);
      if !KeyLess(it.node.data[it.index].key, k) {
        FirstGeIs(Entries(t), k, p);
        return it;
      }
      it := Advance(it, t, h, p);
      p := p + 1;
      AtEnd(t, it, p);
    }
    FirstGeIs(Entries(t), k, p);
  }

  /** The first entry whose key is above `k`. */
  ghost function FirstGt(s: seq<Item>, k: Key): (r: nat)
    ensures r <= |s|
    ensures forall i :: 0 <= i < r ==> !KeyLess(k, s[i].key)
    ensures r < |s| ==> KeyLess(k, s[r].key)
  {
    if s == [] || KeyLess(k, s[0].key) then 0 else 1 + FirstGt(s[1..], k)
  }

  lemma FirstGtIs(s: seq<Item>, k: Key, r: nat)
    requires r <= |s|
    requires forall i :: 0 <= i < r ==> !KeyLess(k, s[i].key)
    requires r < |s| ==> KeyLess(k, s[r].key)
    ensures FirstGt(s, k) == r
  {
  }

  /** `upper_bound`: the first entry whose key is above `k`. */
  method UpperBoundOf(root: Node, k: Key, ghost t: Shape, ghost h: nat) returns (it: Iterator)
    requires t.node == root && RootOk(t, h)
    ensures PointsAt(t, it, FirstGt(Entries(t), k))
  {
    hide Planted, WF, Entries, Leaves, LeafItems, Ascending, PointsAt, KeyLess, FirstGt;
    assert allocated(Owned(t));
    it := Begin(root, t, h);
    AtEnd(t, it, 0);
    ghost var p: nat := 0;
    while it != END
      invariant RootOk(t, h) && p <= |Entries(t)| && PointsAt(t, it, p) && (it == END <==> p == |Entries(t)|)
      invariant forall i :: 0 <= i < p ==> !KeyLess(k, Entries(t)[i].key)
      decreases |Entries(t)| - p
    {
      PointsAtItem(t, null, it, p);
      if KeyLess(k, it.node.data[it.index].key) {
        FirstGtIs(Entries(t), k, p);
        return it;
      }
      it := Advance(it, t, h, p);
      p := p + 1;
      AtEnd(t, it, p);
    }
    FirstGtIs(Entries(t), k, p);
  }

  // ----- find

  /** A position in child `i` is one in the tree. */
  lemma LiftInLeaf(t: Shape, i: nat, it: Iterator, p: nat, a: nat)
    requires t.Inner? && i < |t.kids| && InLeaf(t.kids[i], it, p, a)
    ensures InLeaf(t, it, |AllEntries(t.kids[..i])| + p, |AllLeaves(t.kids[..i])| + a)
  {
    hide Leaves, LeafItems, AllLeaves, AllLeafItems, Entries, AllEntries, Flatten;
    var x, y := t.kids[..i], t.kids[i + 1..];
    LeafItemsAround(t.kids, i);
    WalkAround(t.kids, i);
    AllLeafItemsFlatten(x);
    LeafItemsFlatten(t.kids[i]);
    LeafItemsFlatten(t);
    LeafLeaves(t);
    LeafItemsInner(t);
    var u, v, w := AllLeafItems(x), LeafItems(t.kids[i]), AllLeafItems(y);
    assert (u + v + w)[..|u| + a] == u + v[..a];
    FlattenSplit(u, v[..a]);
  }

  lemma LeafItemsInner(t: Shape)
    requires t.Inner?
    ensures LeafItems(t) == AllLeafItems(t.kids)
  {
  }

  lemma LeafItemsAround(ts: seq<Shape>, i: nat)
    requires i < |ts|
    ensures AllLeafItems(ts) == AllLeafItems(ts[..i]) + LeafItems(ts[i]) + AllLeafItems(ts[i + 1..])
  {
    hide LeafItems, AllLeafItems;
    var a, b, c := ts[..i], [ts[i]], ts[i + 1..];
    assert ts == a + (b + c);
    LeafItemsSplit(a, b + c);
    LeafItemsSplit(b, c);
    LeafItemsOne(ts[i]);
    Reassociate(AllLeafItems(a), AllLeafItems(b), AllLeafItems(c));
  }

  lemma LeafItemsOne(t: Shape)
    ensures AllLeafItems([t]) == LeafItems(t)
  {
    hide LeafItems;
    assert [t][1..] == [];
  }

  lemma {:induction false} LeafItemsSplit(a: seq<Shape>, b: seq<Shape>)
    ensures AllLeafItems(a + b) == AllLeafItems(a) + AllLeafItems(b)
  {
    hide LeafItems;
    if a == [] {
      assert a + b == b;
    } else {
      assert (a + b)[1..] == a[1..] + b && (a + b)[0] == a[0];
      LeafItemsSplit(a[1..], b);
    }
  }

  /** `find`, and the position behind the reference that `get` returns. */
  method Find(node: Node, k: Key, ghost t: Shape, ghost h: nat, ghost after: Node?) returns (it: Iterator, ghost a: nat)
    requires t.node == node && Planted(t, after) && WF(t, h) && Ascending(Entries(t))
    ensures if Found(Entries(t), k) then InLeaf(t, it, FirstGe(Entries(t), k), a) else it == END
    decreases h
  {
    hide KeyLess, FirstGe, Ascending, Forest, Planted, Owned, AllOwned, WF, Entries, AllEntries, AllLeaves, InLeaf,
      Found;
    PlantedTop(t, after);
    LeafEntries(t);
    assert allocated(Owned(t));
    var index := FindFirstGe(node.data, node.dataCount, k);
    var found := index < node.dataCount && !KeyLess(k, node.data[index].key);
    RouteFound(DataOf(t), k, index, found);
    it, a := END, 0;
    if node.IsLeaf() {
      if found {
        it := Iterator(node, index);
        InOnlyLeaf(t, index);
      }
      return;
    }
    var i := if found then index + 1 else index;
    EnterChild(t, h, after, k, i);
    ghost var a';
    it, a' := Find(node.subset[i], k, t.kids[i], h - 1, Behind(AllLeaves(t.kids[i + 1..]), after));
    if Found(Entries(t), k) {
      LiftInLeaf(t, i, it, FirstGe(Entries(t.kids[i]), k), a');
      a := |AllLeaves(t.kids[..i])| + a';
    }
  }

  lemma InOnlyLeaf(t: Shape, index: nat)
    requires t.Leaf? && index < |t.items|
    ensures InLeaf(t, Iterator(t.node, index), index, 0)
  {
    assert LeafItems(t) == [t.items] && [t.items][..0] == [];
  }
}
