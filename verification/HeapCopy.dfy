/** Copying the 2-3 B+ tree: fresh nodes throughout, equal items, and a leaf
    chain of its own. */
module HeapCopy {
  import opened BTreeNodes
  import opened HeapShapes
  import opened ShapeOrder
  import opened HeapInsert

  // ----- equal but for the nodes

  ghost predicate SameTree(a: Shape, b: Shape)
    decreases a
  {
    if a.Leaf? then b.Leaf? && a.items == b.items
    else
      && b.Inner? && a.seps == b.seps && |a.kids| == |b.kids|
      && forall i :: 0 <= i < |a.kids| ==> SameTree(a.kids[i], b.kids[i])
  }

  ghost predicate SameTrees(a: seq<Shape>, b: seq<Shape>) {
    |a| == |b| && forall i :: 0 <= i < |a| ==> SameTree(a[i], b[i])
  }

  lemma {:induction false} SameTreeEntries(a: Shape, b: Shape)
    requires SameTree(a, b)
    ensures Entries(a) == Entries(b) && DataOf(a) == DataOf(b) && (a.Leaf? <==> b.Leaf?)
    decreases a, 0
  {
    if a.Inner? { SameTreesEntries(a.kids, b.kids); }
  }

  lemma {:induction false} SameTreesEntries(a: seq<Shape>, b: seq<Shape>)
    requires SameTrees(a, b)
    ensures AllEntries(a) == AllEntries(b)
    decreases a, 0
  {
    hide Entries, SameTree;
    if a != [] {
      SameTreeEntries(a[0], b[0]);
      SameTreesEntries(a[1..], b[1..]);
    }
  }

  lemma {:induction false} SameTreeWF(a: Shape, b: Shape, h: nat)
    requires SameTree(a, b) && WF(b, h)
    ensures WF(a, h)
    decreases a
  {
    hide Entries;
    if a.Inner? {
      forall i | 0 <= i < |a.kids|
        ensures WF(a.kids[i], h - 1) && Entries(a.kids[i]) == Entries(b.kids[i])
        ensures DataOf(a.kids[i]) == DataOf(b.kids[i])
      {
        SameTreeWF(a.kids[i], b.kids[i], h - 1);
        SameTreeEntries(a.kids[i], b.kids[i]);
      }
      forall i | 1 <= i < |a.kids| ensures SepAt(a.seps, a.kids, i) { assert SepAt(b.seps, b.kids, i); }
    }
  }

  // ----- distinct leaves

  lemma {:induction false} LeavesDistinct(t: Shape)
    requires Apart(t)
    ensures forall i, j :: 0 <= i < j < |Leaves(t)| ==> Leaves(t)[i] != Leaves(t)[j]
    decreases t, 0
  {
    if t.Inner? { AllLeavesDistinct(t.kids); }
  }

  lemma {:induction false} AllLeavesDistinct(ts: seq<Shape>)
    requires AllApart(ts)
    ensures forall i, j :: 0 <= i < j < |AllLeaves(ts)| ==> AllLeaves(ts)[i] != AllLeaves(ts)[j]
    decreases ts, 0
  {
    hide Leaves, Owned;
    if ts != [] {
      LeavesDistinct(ts[0]);
      AllLeavesDistinct(ts[1..]);
      LeavesAreOwned(ts[0]);
      AllLeavesAreOwned(ts[1..]);
      var a, b := Leaves(ts[0]), AllLeaves(ts[1..]);
      forall i, j | 0 <= i < |a| && 0 <= j < |b| ensures a[i] != b[j] {
        assert a[i] in a[i].Repr && b[j] in b[j].Repr;
      }
    }
  }

  // ----- copying

  lemma {:induction false} BuffersAreNoNodes(t: Shape)
    ensures forall x :: x in Buffers(t) ==> !(x is Node)
    decreases t, 0
  {
    if t.Inner? { AllBuffersAreNoNodes(t.kids); }
  }

  lemma {:induction false} AllBuffersAreNoNodes(ts: seq<Shape>)
    ensures forall x :: x in AllBuffers(ts) ==> !(x is Node)
    decreases ts, 0
  {
    if ts != [] {
      BuffersAreNoNodes(ts[0]);
      AllBuffersAreNoNodes(ts[1..]);
    }
  }

  ghost function Links(last: Node?): set<Node> { if last == null then {} else {last} }

  /** The copy made so far: the first children, chained, ending at `current`. */
  ghost predicate CopiedSoFar(dest: Node, done: seq<Shape>, ts: Shape, last: Node?, current: Node?)
    requires ts.Inner?
    reads dest, dest.data, dest.subset, AllOwned(done), Links(last)
  {
    && dest.Ok() && dest.Items() == ts.seps && dest.childCount == |ts.kids| && |done| <= |ts.kids|
    && SameTrees(done, ts.kids[..|done|])
    && (forall i :: 0 <= i < |done| ==> dest.subset[i] == done[i].node) && Forest(done, null)
    && dest.Repr !! AllOwned(done)
    && (done == [] ==> current == last)
    && (done != [] ==>
          && AllLeaves(done) != [] && current == AllLeaves(done)[|AllLeaves(done)| - 1]
          && (last != null ==> last.next == AllLeaves(done)[0]))
  }

  lemma CopyDone(dest: Node, done: seq<Shape>, ts: Shape, last: Node?, current: Node?)
    requires ts.Inner? && CopiedSoFar(dest, done, ts, last, current) && |done| == |ts.kids| && done != []
    ensures var td := Inner(dest, ts.seps, done);
      && SameTree(td, ts) && Planted(td, null) && Leaves(td) != [] && current == Leaves(td)[|Leaves(td)| - 1]
      && (last != null ==> last.next == Leaves(td)[0]) && Owned(td) == dest.Repr + AllOwned(done)
  {
    hide Forest, AllLeaves, AllOwned, Owned, Planted, Leaves, SameTree;
    var td := Inner(dest, ts.seps, done);
    assert ts.kids[..|done|] == ts.kids;
    SameTreeIs(td, ts);
    LeafLeaves(td);
    assert dest.Kids() == Roots(done);
    PlantedInner(td, null);
    OwnedInner(td);
  }

  lemma SameTreeIs(a: Shape, b: Shape)
    requires a.Inner? && b.Inner?
    ensures SameTree(a, b) <==> a.seps == b.seps && SameTrees(a.kids, b.kids)
  {
  }

  /** A copy hung behind the leaves copied before it. */
  method CopyBehind(n: Node, kid: Node, current: Node?, ghost tk: Shape, ghost done: seq<Shape>)
    returns (current': Node, ghost c: Shape)
    requires tk.node == kid && Holds(tk) && n.Ok() && n.Repr !! Owned(tk) && n.Repr !! AllOwned(done)
    requires Forest(done, null)
    requires AllLeaves(done) != [] ==> current == AllLeaves(done)[|AllLeaves(done)| - 1]
    requires current != null ==> current !in Owned(tk) && current != n
    modifies n.Repr, Links(current)`next
    ensures c.node == n && SameTree(c, tk) && Planted(c, null) && Leaves(c) != []
    ensures current' == Leaves(c)[|Leaves(c)| - 1]
    ensures current != null ==> current.next == Leaves(c)[0]
    ensures fresh(Owned(c) - n.Repr) && Forest(done, Leaves(c)[0])
    decreases tk, 3
  {
    hide Forest, Planted, AllLeaves, AllOwned, SameTree, Owned, AllHold, Holds, Leaves, Linked, NodesIn, Buffers,
      AllNodesIn, AllBuffers, AllApart;
    assert allocated(AllOwned(done)) && allocated(Owned(tk));
    ghost var chain := AllLeaves(done);
    ForestIs(done, null);
    AllLeavesDistinct2(done);
    LinkedIs(chain, null);
    AllFramesAreOwned(done);
    AllBuffersAreNoNodes(done);
    current', c := CopyTree(n, kid, current, tk);
    forall j | 0 <= j < |chain| ensures chain[j].next == Successor(chain, j, Leaves(c)[0]) {
      assert old(chain[j].next) == Successor(chain, j, null);
    }
    LinkedIs(chain, Leaves(c)[0]);
    ForestIs(done, Leaves(c)[0]);
  }

  /** One child more. */
  method CopyKid(dest: Node, kid: Node, i: nat, current: Node?, ghost ts: Shape, ghost done: seq<Shape>,
          ghost last: Node?)
    returns (current': Node, ghost c: Shape)
    requires ts.Inner? && CopiedSoFar(dest, done, ts, last, current) && i == |done| < |ts.kids|
    requires ts.kids[i].node == kid
    requires AllHold(ts.kids) && dest.Repr !! AllOwned(ts.kids) && AllOwned(done) !! AllOwned(ts.kids)
    requires last != null ==> last !in dest.Repr && last !in AllOwned(done) && last !in AllOwned(ts.kids)
    modifies dest.subset, Links(current)`next
    ensures fresh(Owned(c)) && CopiedSoFar(dest, done + [c], ts, last, current')
    decreases ts, 0
  {
    hide Forest, Planted, AllLeaves, AllOwned, SameTree, Owned, AllHold, Holds, Leaves, Linked, NodesIn, Buffers,
      AllNodesIn, AllBuffers;
    assert allocated(AllOwned(done)) && allocated(AllOwned(ts.kids));
    CurrentIsElsewhere(dest, done, ts, last, current, i);
    HoldAround(ts.kids, i);
    WalkAround(ts.kids, i);
    FrameIsOwned(ts.kids[i]);
    assert done == [] ==> AllLeaves(done) == [] by { NothingLinked(); }
    var n := new Node();
    dest.subset[i] := n;
    label Before:
    current', c := CopyBehind(n, kid, current, ts.kids[i], done);
    forall o | o in Owned(c) ensures fresh(o) {
      if o !in n.Repr { assert fresh@Before(o); }
    }
    CopiedOneMore(dest, done, ts, last, c, current');
  }

  lemma CopiedOneMore(dest: Node, done: seq<Shape>, ts: Shape, last: Node?, c: Shape, current: Node)
    requires ts.Inner? && |done| < |ts.kids| && dest.Ok() && dest.Items() == ts.seps && dest.childCount == |ts.kids|
    requires SameTrees(done, ts.kids[..|done|]) && SameTree(c, ts.kids[|done|])
    requires (forall i :: 0 <= i < |done| ==> dest.subset[i] == done[i].node) && dest.subset[|done|] == c.node
    requires Leaves(c) != [] && Forest(done, Leaves(c)[0]) && Planted(c, null) && AllOwned(done) !! Owned(c)
    requires dest.Repr !! AllOwned(done) && dest.Repr !! Owned(c) && current == Leaves(c)[|Leaves(c)| - 1]
    requires last != null ==> last.next == if done == [] then Leaves(c)[0] else (AllLeaves(done) + Leaves(c))[0]
    ensures CopiedSoFar(dest, done + [c], ts, last, current)
  {
    hide Forest, Planted, AllLeaves, AllOwned, SameTree, Owned, Leaves;
    ForestOne(c, null);
    ForestJoin(done, [c], null);
    WalkSplit(done, [c]);
    WalkOne(c);
    SameTreesGrow(done, ts, c);
    if done == [] {
      assert done + [c] == [c];
    }
  }

  lemma LinkedIs(chain: seq<Node>, after: Node?)
    ensures Linked(chain, after) <==> forall i :: 0 <= i < |chain| ==> chain[i].next == Successor(chain, i, after)
  {
  }

  lemma AllLeavesDistinct2(ts: seq<Shape>)
    requires Forest(ts, null)
    ensures forall i, j :: 0 <= i < j < |AllLeaves(ts)| ==> AllLeaves(ts)[i] != AllLeaves(ts)[j]
    ensures forall i :: 0 <= i < |AllLeaves(ts)| ==> AllLeaves(ts)[i] in AllOwned(ts)
  {
    hide AllLeaves, AllOwned;
    AllLeavesDistinct(ts);
    AllLeavesAreOwned(ts);
    forall i | 0 <= i < |AllLeaves(ts)| ensures AllLeaves(ts)[i] in AllOwned(ts) {
      var n := AllLeaves(ts)[i];
      assert n in AllLeaves(ts) && n in n.Repr;
    }
  }

  lemma SameTreesGrow(done: seq<Shape>, ts: Shape, c: Shape)
    requires ts.Inner? && |done| < |ts.kids| && SameTrees(done, ts.kids[..|done|]) && SameTree(c, ts.kids[|done|])
    ensures SameTrees(done + [c], ts.kids[..|done + [c]|])
  {
    hide SameTree;
  }

  /** The leaf to link from is no part of the source. */
  lemma CurrentIsElsewhere(dest: Node, done: seq<Shape>, ts: Shape, last: Node?, current: Node?, i: nat)
    requires ts.Inner? && i < |ts.kids| && AllOwned(done) !! AllOwned(ts.kids)
    requires last != null ==> last !in AllOwned(ts.kids)
    requires done == [] ==> current == last
    requires done != [] ==> AllLeaves(done) != [] && current == AllLeaves(done)[|AllLeaves(done)| - 1]
    ensures current != null ==> current !in Owned(ts.kids[i])
    ensures current != null && done != [] ==> current in AllOwned(done)
  {
    hide AllLeaves, AllOwned, Owned;
    WalkAround(ts.kids, i);
    AllLeavesAreOwned(done);
    if done != [] {
      assert current in AllLeaves(done) && current in current.Repr;
    }
  }

  lemma HoldsTop(t: Shape)
    requires Holds(t)
    ensures t.node.Ok() && t.node.Items() == DataOf(t) && (t.Leaf? <==> t.node.childCount == 0)
    ensures t.Inner? ==> t.node.Kids() == Roots(t.kids) && AllHold(t.kids) && t.kids != []
  {
  }

  /** All children of an inner node. */
  method CopyKids(dest: Node, source: Node, last: Node?, ghost ts: Shape) returns (last': Node, ghost td: Shape)
    requires ts.Inner? && ts.node == source && Holds(ts) && dest.Ok() && dest.Repr !! Owned(ts)
    requires dest.Items() == ts.seps
    requires dest.childCount == |ts.kids| && dest.next == null
    requires last != null ==> last !in Owned(ts) && last !in dest.Repr
    modifies dest.subset, Links(last)`next
    ensures td.node == dest && SameTree(td, ts) && Planted(td, null) && Leaves(td) != []
    ensures last' == Leaves(td)[|Leaves(td)| - 1]
    ensures last != null ==> last.next == Leaves(td)[0]
    ensures fresh(Owned(td) - dest.Repr) && (td.Inner? ==> dest.next == null)
    decreases ts, 1
  {
    hide Forest, Planted, AllLeaves, AllOwned, SameTree, Owned, CopiedSoFar, AllHold, Holds, NodesIn, Buffers;
    assert allocated(Owned(ts));
    OwnedInner(ts);
    FrameIsOwned(ts);
    HoldsTop(ts);
    ghost var done: seq<Shape> := [];
    var current: Node? := last;
    NothingCopied(dest, ts, last);
    assert AllOwned(done) == {} by { NothingOwned(); }
    for i := 0 to source.childCount
      invariant CopiedSoFar(dest, done, ts, last, current) && |done| == i
      invariant Holds(ts) && fresh(AllOwned(done)) && dest.next == null
    {
      ghost var c;
      HoldsTop(ts);
      assert source.subset[i] == source.Kids()[i] == ts.kids[i].node;
      CurrentKnown(dest, done, ts, last, current);
      label Kid:
      current, c := CopyKid(dest, source.subset[i], i, current, ts, done, last);
      WalkSplit(done, [c]);
      WalkOne(c);
      forall o | o in AllOwned(done + [c]) ensures fresh(o) {
        if o in Owned(c) { assert fresh@Kid(o); }
      }
      done := done + [c];
    }
    CopyDone(dest, done, ts, last, current);
    td := Inner(dest, ts.seps, done);
    last' := current;
  }

  lemma CurrentKnown(dest: Node, done: seq<Shape>, ts: Shape, last: Node?, current: Node?)
    requires ts.Inner? && CopiedSoFar(dest, done, ts, last, current)
    ensures current == last || (current != null && current in AllOwned(done))
  {
    hide Forest, AllLeaves, AllOwned;
    AllLeavesAreOwned(done);
    if done != [] {
      assert current in AllLeaves(done) && current in current.Repr;
    }
  }

  lemma NothingLinked()
    ensures AllLeaves([]) == []
  {
  }

  lemma NothingOwned()
    ensures AllOwned([]) == {}
  {
  }

  lemma NothingCopied(dest: Node, ts: Shape, last: Node?)
    requires ts.Inner? && dest.Ok() && dest.Items() == ts.seps && dest.childCount == |ts.kids|
    ensures CopiedSoFar(dest, [], ts, last, last)
  {
    assert Linked([], null);
  }

  /** `copy_tree`. */
  method CopyTree(dest: Node, source: Node, last: Node?, ghost ts: Shape) returns (last': Node, ghost td: Shape)
    requires ts.node == source && Holds(ts) && dest.Ok() && dest.Repr !! Owned(ts)
    requires last != null ==> last !in Owned(ts) && last != dest
    modifies dest.Repr, Links(last)`next
    ensures td.node == dest && SameTree(td, ts) && Planted(td, null) && Leaves(td) != []
    ensures last' == Leaves(td)[|Leaves(td)| - 1]
    ensures last != null ==> last.next == Leaves(td)[0]
    ensures fresh(Owned(td) - dest.Repr) && (td.Inner? ==> dest.next == null)
    decreases ts, 2
  {
    hide Forest, Planted, AllLeaves, AllOwned, Owned, Holds, NodesIn, Buffers;
    assert allocated(Owned(ts));
    OwnedRoot(ts);
    ApartIsSeparate(dest, source);
    FrameIsOwned(ts);
    HoldsTop(ts);
    dest.CopyData(source);
    dest.next := null;
    dest.childCount := source.childCount;
    if source.IsLeaf() {
      td := Leaf(dest, ts.items);
      if last != null {
        last.next := dest;
      }
      last' := dest;
      PlantedLeaf(td, null);
      LeafLeaves(td);
      OwnedInner(td);
      assert Owned(td) - dest.Repr == {};
      return;
    }
    label Before:
    last', td := CopyKids(dest, source, last, ts);
    forall o | o in Owned(td) && o !in dest.Repr ensures fresh(o) { assert fresh@Before(o); }
  }
}
