/** The tree's own validity check: what it tests exactly, that every tree this
    code builds passes it, and exactly what a tree that passes still needs to be
    well formed. */
module HeapValid {
  import opened Ordering
  import opened ArrayFunctions
  import opened BTreeNodes
  import opened HeapShapes
  import opened ShapeOrder
  import opened ShapeErase
  import opened HeapInsert

  ghost predicate NonDescending(s: seq<Item>) { forall i :: 0 <= i < |s| - 1 ==> !KeyLess(s[i + 1].key, s[i].key) }

  ghost predicate NoneBelow(s: seq<Item>, k: Key) { forall i :: 0 <= i < |s| ==> !KeyLess(s[i].key, k) }

  /** `get_smallest_node()->data[0]`: the first slot of the leftmost leaf, which
      in an empty leaf holds whatever was there before. */
  ghost function Smallest(t: Shape): Item
    reads Buffers(t)
    decreases t
  {
    match t
    case Leaf(node, _) => if node.data.Length == 0 then Item([], []) else node.data[0]
    case Inner(_, _, kids) =>
      KidBuffers(kids);
      if kids == [] then Item([], []) else Smallest(kids[0])
  }

  lemma {:induction false} KidBuffers(ts: seq<Shape>)
    ensures forall i :: 0 <= i < |ts| ==> Buffers(ts[i]) <= AllBuffers(ts)
  {
    hide Buffers;
    if ts != [] {
      KidBuffers(ts[1..]);
      forall i | 0 <= i < |ts| ensures Buffers(ts[i]) <= AllBuffers(ts) {
        if i > 0 { assert ts[i] == ts[1..][i - 1]; }
      }
    }
  }

  lemma InnerBuffers(t: Shape)
    ensures t.Inner? ==>
              && AllBuffers(t.kids) <= Buffers(t)
              && forall i :: 0 <= i < |t.kids| ==> Buffers(t.kids[i]) <= AllBuffers(t.kids)
  {
    if t.Inner? { KidBuffers(t.kids); }
  }

  /** What `is_valid` tests, node by node. */
  ghost predicate LooksValid(t: Shape)
    reads Buffers(t)
    decreases t
  {
    InnerBuffers(t);
    || (t.Leaf? && t.items == [])
    || (&& MINIMUM <= |DataOf(t)| <= MAXIMUM && NonDescending(DataOf(t))
        && (t.Inner? ==>
              && |t.kids| == |t.seps| + 1 && (forall i :: 0 <= i < |t.kids| ==> LooksValid(t.kids[i]))
              && forall i :: 0 <= i < |t.seps| ==> SepLooksValid(t.seps, t.kids, i)))
  }

  ghost predicate SepLooksValid(seps: seq<Item>, kids: seq<Shape>, i: nat)
    requires i < |seps| && i + 1 < |kids|
    reads AllBuffers(kids)
  {
    KidBuffers(kids);
    && Below(DataOf(kids[i]), seps[i].key) && NoneBelow(DataOf(kids[i + 1]), seps[i].key)
    && seps[i].key == Smallest(kids[i + 1]).key
  }

  lemma LooksValidIs(t: Shape)
    ensures LooksValid(t) <==>
      || (t.Leaf? && t.items == [])
      || (&& MINIMUM <= |DataOf(t)| <= MAXIMUM && NonDescending(DataOf(t))
          && (t.Inner? ==>
                && |t.kids| == |t.seps| + 1 && (forall i :: 0 <= i < |t.kids| ==> LooksValid(t.kids[i]))
                && forall i :: 0 <= i < |t.seps| ==> SepLooksValid(t.seps, t.kids, i)))
  {
  }

  // ----- the code

  /** A node and its children, whatever lies below them. */
  lemma HoldsTop(t: Shape)
    requires Holds(t)
    ensures t.node.Ok() && t.node.Items() == DataOf(t) && (t.node.childCount == 0 <==> t.Leaf?)
    ensures forall i :: 0 <= i < |DataOf(t)| ==> t.node.data[i] == DataOf(t)[i]
  {
    assert forall i :: 0 <= i < t.node.dataCount ==> t.node.data[i] == t.node.Items()[i];
  }

  lemma HoldsKid(t: Shape, i: nat)
    requires t.Inner? && Holds(t) && i < |t.kids|
    ensures Holds(t.kids[i]) && t.node.Ok() && t.node.childCount == |t.kids| && t.node.subset[i] == t.kids[i].node
  {
    hide AllHold;
    assert AllHold(t.kids);
    HoldAround(t.kids, i);
    assert t.node.subset[i] == t.node.Kids()[i] == Roots(t.kids)[i];
  }

  method FirstItem(node: Node, ghost t: Shape) returns (x: Item)
    requires t.node == node && Holds(t)
    ensures x == Smallest(t)
    decreases t
  {
    hide Holds;
    HoldsTop(t);
    if node.IsLeaf() { return node.data[0]; }
    HoldsKid(t, 0) by { HoldsSome(t); }
    x := FirstItem(node.subset[0], t.kids[0]);
  }

  lemma HoldsSome(t: Shape)
    requires Holds(t)
    ensures t.Inner? ==> t.kids != []
  {
  }

  method IsSorted(node: Node) returns (r: bool)
    requires node.Ok()
    ensures r <==> NonDescending(node.Items())
  {
    hide KeyLess;
    var i: nat := 0;
    while i + 1 < node.dataCount
      invariant i == 0 || i < node.dataCount
      invariant forall j :: 0 <= j < i ==> !KeyLess(node.Items()[j + 1].key, node.Items()[j].key)
    {
      if KeyLess(node.data[i + 1].key, node.data[i].key) {
        assert KeyLess(node.Items()[i + 1].key, node.Items()[i].key);
        return false;
      }
      i := i + 1;
    }
    r := true;
  }

  /** `is_valid`: tests exactly `LooksValid`, on any tree of nodes. */
  method IsValid(node: Node, ghost t: Shape) returns (r: bool)
    requires t.node == node && Holds(t)
    ensures r <==> LooksValid(t)
    decreases t, 2
  {
    hide Holds, AllHold, LooksValid, KeyLess, NonDescending, SepLooksValid, Buffers, AllBuffers, NodesIn, AllNodesIn;
    assert allocated(Buffers(t)) && allocated(NodesIn(t));
    HoldsTop(t);
    LooksValidIs(t);
    if node.dataCount == 0 && node.IsLeaf() { return true; }
    if node.dataCount > MAXIMUM || node.dataCount < MINIMUM { return false; }
    if node.childCount > MAXIMUM + 1 {
      TooManyKids(t);
      return false;
    }
    var sorted := IsSorted(node);
    if !sorted { return false; }
    if !node.IsLeaf() {
      HoldsKid(t, 0) by { HoldsSome(t); }
      if node.childCount != node.dataCount + 1 { return false; }
      assert allocated(AllBuffers(t.kids)) && forall j :: 0 <= j < |t.kids| ==> allocated(Buffers(t.kids[j]));
      var ok := CheckSeparators(node, t);
      LooksValidIs(t);
      if !ok { return false; }
      HoldsKid(t, |t.seps|);
      r := IsValid(node.subset[node.dataCount], t.kids[|t.seps|]);
      LooksValidIs(t);
      return;
    }
    r := true;
  }

  lemma TooManyKids(t: Shape)
    requires Holds(t) && t.node.childCount > MAXIMUM + 1
    ensures !LooksValid(t)
  {
    hide AllHold, SepLooksValid, NonDescending;
  }

  /** The loop over the separators. */
  method CheckSeparators(node: Node, ghost t: Shape) returns (ok: bool)
    requires t.node == node && t.Inner? && Holds(t) && |t.kids| == |t.seps| + 1
    ensures ok <==> forall j :: 0 <= j < |t.seps| ==> LooksValid(t.kids[j]) && SepLooksValid(t.seps, t.kids, j)
    decreases t, 1
  {
    hide Holds, AllHold, LooksValid, KeyLess, NonDescending, SepLooksValid, Buffers, AllBuffers, NodesIn, AllNodesIn;
    assert allocated(Buffers(t)) && allocated(NodesIn(t)) && allocated(AllBuffers(t.kids));
    assert forall j :: 0 <= j < |t.kids| ==> allocated(Buffers(t.kids[j]));
    HoldsTop(t);
    for i := 0 to node.dataCount
      invariant forall j :: 0 <= j < i ==> LooksValid(t.kids[j]) && SepLooksValid(t.seps, t.kids, j)
    {
      ok := CheckSeparator(node, i, t);
      if !ok { return; }
    }
    ok := true;
  }

  /** The tests around one separator. */
  method CheckSeparator(node: Node, i: nat, ghost t: Shape) returns (ok: bool)
    requires t.node == node && t.Inner? && Holds(t) && i < |t.seps| && |t.kids| == |t.seps| + 1
    ensures ok <==> LooksValid(t.kids[i]) && SepLooksValid(t.seps, t.kids, i)
    decreases t, 0
  {
    hide Holds, AllHold, LooksValid, KeyLess, Buffers, AllBuffers, NodesIn, AllNodesIn, Smallest;
    assert allocated(Buffers(t)) && allocated(NodesIn(t)) && allocated(AllBuffers(t.kids));
    assert allocated(Buffers(t.kids[i])) && allocated(NodesIn(t.kids[i]));
    assert allocated(Buffers(t.kids[i + 1])) && allocated(NodesIn(t.kids[i + 1]));
    HoldsTop(t);
    HoldsKid(t, i);
    HoldsKid(t, i + 1);
    HoldsTop(t.kids[i]);
    HoldsTop(t.kids[i + 1]);
    var left, right := node.subset[i], node.subset[i + 1];
    var valid := IsGt(left.data, left.dataCount, node.data[i].key);
    if !valid { return false; }
    valid := IsLe(right.data, right.dataCount, node.data[i].key);
    if !valid { return false; }
    valid := IsValid(left, t.kids[i]);
    if !valid { return false; }
    var smallest := FirstItem(right, t.kids[i + 1]);
    ok := node.data[i].key == smallest.key;
  }

  // ----- what a positive answer leaves open

  /** Equal leaf depth and no empty leaf, with nothing said about order. */
  ghost predicate Leveled(t: Shape, h: nat)
    decreases t
  {
    match t
    case Leaf(_, items) => h == 0 && items != []
    case Inner(_, _, kids) => h >= 1 && kids != [] && forall i :: 0 <= i < |kids| ==> Leveled(kids[i], h - 1)
  }

  /** The same, where a root may be an empty leaf. */
  ghost predicate Even(t: Shape, h: nat) { Leveled(t, h) || (h == 0 && t.Leaf? && t.items == []) }

  /** Every leaf strictly ascends, and the last entry left of a separator is
      below it. */
  ghost predicate InOrder(t: Shape)
    decreases t
  {
    match t
    case Leaf(_, items) => Ascending(items)
    case Inner(_, seps, kids) =>
      && (forall i :: 0 <= i < |kids| ==> InOrder(kids[i]))
      && forall i :: 0 <= i < |seps| && i < |kids| ==> LastBelow(kids[i], seps[i].key)
  }

  ghost predicate LastBelow(t: Shape, k: Key) { var s := Entries(t); s != [] ==> KeyLess(s[|s| - 1].key, k) }

  /** The invariant of the trees this code builds. */
  ghost predicate WellFormed(t: Shape, h: nat) {
    WF(t, h) && Ascending(Entries(t)) && (Sized(t) || (t.Leaf? && t.items == []))
  }

  lemma {:induction false} LeveledHasEntries(t: Shape, h: nat)
    requires Leveled(t, h)
    ensures Entries(t) != []
    decreases t
  {
    if t.Inner? {
      LeveledHasEntries(t.kids[0], h - 1);
      FirstOfAll(t.kids);
    }
  }

  lemma LeveledParts(t: Shape, h: nat)
    requires Leveled(t, h)
    ensures t.Inner? ==> h >= 1 && t.kids != [] && forall i :: 0 <= i < |t.kids| ==> Leveled(t.kids[i], h - 1)
    ensures t.Leaf? ==> t.items != []
  {
  }

  lemma {:induction false} SmallestIsFirst(t: Shape, h: nat)
    requires Holds(t) && Leveled(t, h)
    ensures Entries(t) != [] && Smallest(t) == Entries(t)[0]
    decreases t
  {
    hide Holds, Entries, AllEntries;
    HoldsTop(t);
    LeafEntries(t);
    if t.Inner? {
      HoldsKid(t, 0);
      SmallestIsFirst(t.kids[0], h - 1);
      FirstOfAll(t.kids);
    }
  }

  /** Every well-formed tree passes. */
  lemma {:induction false} WellFormedLooksValid(t: Shape, h: nat)
    requires Holds(t) && WellFormed(t, h)
    ensures LooksValid(t) && Even(t, h)
    decreases t
  {
    hide KeyLess, Entries, AllEntries, LooksValid, Ascending, Holds, Leveled, WF;
    LeafEntries(t);
    DataAscending(t, h);
    AscendingIsNonDescending(DataOf(t));
    if t.Inner? {
      WFInner(t, h);
      forall i | 0 <= i < |t.kids| ensures Holds(t.kids[i]) && LooksValid(t.kids[i]) && Leveled(t.kids[i], h - 1) {
        HoldsKid(t, i);
        KidAscending(t.kids, i);
        WellFormedLooksValid(t.kids[i], h - 1);
        LeafEntries(t.kids[i]);
      }
      forall i | 0 <= i < |t.seps| ensures SepLooksValid(t.seps, t.kids, i) {
        SmallestIsFirst(t.kids[i + 1], h - 1);
        SepPasses(t.seps, t.kids, h - 1, i);
      }
    }
    LeveledIs(t, h);
    LeafIsFlat(t, h);
    LooksValidIs(t);
  }

  lemma LeveledIs(t: Shape, h: nat)
    ensures t.Inner? && h >= 1 && t.kids != [] && (forall i :: 0 <= i < |t.kids| ==> Leveled(t.kids[i], h - 1)) ==>
              Leveled(t, h)
    ensures t.Leaf? && h == 0 && t.items != [] ==> Leveled(t, h)
  {
  }

  lemma LeafIsFlat(t: Shape, h: nat)
    requires WF(t, h)
    ensures t.Leaf? ==> h == 0
  {
  }

  lemma AscendingIsNonDescending(s: seq<Item>)
    requires Ascending(s)
    ensures NonDescending(s)
  {
    hide KeyLess;
    KeyLessIsStrictTotalOrder();
  }

  lemma SepPasses(seps: seq<Item>, kids: seq<Shape>, h: nat, i: nat)
    requires SepsOk(seps, kids) && KidsWF(kids, h) && Ascending(AllEntries(kids)) && i < |seps|
    requires Entries(kids[i + 1]) != [] && Smallest(kids[i + 1]) == Entries(kids[i + 1])[0]
    ensures SepLooksValid(seps, kids, i)
  {
    hide KeyLess, Entries, AllEntries, WF, Ascending, Smallest;
    KeyLessIsStrictTotalOrder();
    assert SepAt(seps, kids, i + 1);
    EntriesInOrder(kids, i, i + 1);
    forall x | 0 <= x < |DataOf(kids[i])| ensures KeyLess(DataOf(kids[i])[x].key, seps[i].key) {
      var y := KeyOfEntry(kids[i], h, x);
    }
    var right := DataOf(kids[i + 1]);
    forall x | 0 <= x < |right| ensures !KeyLess(right[x].key, seps[i].key) {
      var y := KeyOfEntry(kids[i + 1], h, x);
      if y > 0 { WithinKid(kids, i + 1, 0, y); }
    }
  }

  lemma KeyOfEntry(t: Shape, h: nat, x: nat) returns (y: nat)
    requires WF(t, h) && x < |DataOf(t)|
    ensures y < |Entries(t)| && Entries(t)[y].key == DataOf(t)[x].key
  {
    hide Entries, WF;
    if t.Leaf? && x == 0 {
      LeafEntries(t);
      y := 0;
    } else {
      y := DataIsEntry(t, h, x);
    }
  }

  /** A leveled tree that passes has exact separators and sized nodes. */
  lemma {:induction false} LeveledIsWF(t: Shape, h: nat)
    requires Holds(t) && Leveled(t, h) && LooksValid(t)
    ensures WF(t, h) && Sized(t) && Entries(t) != []
    decreases t
  {
    hide Holds, Entries, AllEntries, LooksValid, WF, Smallest, Leveled;
    LeveledHasEntries(t, h);
    LeveledParts(t, h);
    LooksValidIs(t);
    if t.Inner? {
      forall i | 0 <= i < |t.kids| ensures WF(t.kids[i], h - 1) && Sized(t.kids[i]) && Entries(t.kids[i]) != [] {
        HoldsKid(t, i);
        LeveledIsWF(t.kids[i], h - 1);
      }
      forall i | 1 <= i < |t.kids| ensures SepAt(t.seps, t.kids, i) {
        HoldsKid(t, i);
        assert SepLooksValid(t.seps, t.kids, i - 1);
        SmallestIsFirst(t.kids[i], h - 1);
      }
      WFInner(t, h);
    } else {
      LeafIsWF(t, h);
    }
  }

  lemma LeafIsWF(t: Shape, h: nat)
    requires t.Leaf? && Even(t, h)
    ensures WF(t, h)
  {
  }

  /** Order in the whole tree is order around every leaf and separator. */
  lemma {:induction false} OrderIsLocal(t: Shape, h: nat)
    requires WF(t, h)
    ensures Ascending(Entries(t)) <==> InOrder(t)
    decreases t
  {
    hide KeyLess, Entries, AllEntries, WF, Ascending, InOrder;
    LeafEntries(t);
    InOrderIs(t);
    if t.Inner? {
      WFInner(t, h);
      forall i | 0 <= i < |t.kids|
        ensures Ascending(Entries(t.kids[i])) <==> InOrder(t.kids[i])
      {
        OrderIsLocal(t.kids[i], h - 1);
      }
      if Ascending(Entries(t)) {
        OrderedParts(t.seps, t.kids);
      } else if InOrder(t) {
        PartsOrdered(t.seps, t.kids);
      }
    }
  }

  lemma InOrderIs(t: Shape)
    ensures t.Leaf? ==> (InOrder(t) <==> Ascending(t.items))
    ensures t.Inner? ==>
      (InOrder(t) <==>
       (forall i :: 0 <= i < |t.kids| ==> InOrder(t.kids[i]))
       && forall i :: 0 <= i < |t.seps| && i < |t.kids| ==> LastBelow(t.kids[i], t.seps[i].key))
  {
  }

  lemma OrderedParts(seps: seq<Item>, kids: seq<Shape>)
    requires SepsOk(seps, kids) && Ascending(AllEntries(kids))
    ensures forall i :: 0 <= i < |kids| ==> Ascending(Entries(kids[i]))
    ensures forall i :: 0 <= i < |seps| ==> LastBelow(kids[i], seps[i].key)
  {
    hide KeyLess, Entries, AllEntries, Ascending;
    forall i | 0 <= i < |kids| ensures Ascending(Entries(kids[i])) { KidAscending(kids, i); }
    forall i | 0 <= i < |seps| ensures LastBelow(kids[i], seps[i].key) {
      assert SepAt(seps, kids, i + 1);
      EntriesInOrder(kids, i, i + 1);
    }
  }

  lemma {:induction false} PartsOrdered(seps: seq<Item>, kids: seq<Shape>)
    requires SepsOk(seps, kids) && forall i :: 0 <= i < |kids| ==> Ascending(Entries(kids[i])) && Entries(kids[i]) != []
    requires forall i :: 0 <= i < |seps| ==> LastBelow(kids[i], seps[i].key)
    ensures Ascending(AllEntries(kids))
    decreases |kids|
  {
    hide KeyLess, Entries, AllEntries, Ascending;
    WalkOne(kids[0]);
    if |kids| == 1 {
      assert kids == [kids[0]];
    } else {
      var rest := kids[1..];
      forall i | 1 <= i < |rest| ensures SepAt(seps[1..], rest, i) { assert SepAt(seps, kids, i + 1); }
      forall i | 0 <= i < |seps[1..]|
        ensures LastBelow(rest[i], seps[1..][i].key)
      {
        assert LastBelow(kids[i + 1], seps[i + 1].key);
      }
      PartsOrdered(seps[1..], rest);
      FirstOfAll(rest);
      assert SepAt(seps, kids, 1) && LastBelow(kids[0], seps[0].key);
      assert kids == [kids[0]] + rest;
      WalkSplit([kids[0]], rest);
      AscendingJoin(Entries(kids[0]), AllEntries(rest));
    }
  }

  lemma AscendingJoin(a: seq<Item>, b: seq<Item>)
    requires Ascending(a) && Ascending(b) && a != [] && b != [] && KeyLess(a[|a| - 1].key, b[0].key)
    ensures Ascending(a + b)
  {
    hide KeyLess;
    KeyLessIsStrictTotalOrder();
    forall i, j | 0 <= i < |a| && 0 <= j < |b| ensures KeyLess(a[i].key, b[j].key) {
      if i < |a| - 1 { KeyLessTransitive(a[i].key, a[|a| - 1].key, b[0].key); }
      if j > 0 { KeyLessTransitive(a[i].key, b[0].key, b[j].key); }
    }
    AscendingSplit(a, b);
  }

  /** A tree is well formed exactly if it passes, its leaves are level and not
      empty, and it is in order around every leaf and separator. */
  lemma WellFormedExactly(t: Shape, h: nat)
    requires Holds(t)
    ensures WellFormed(t, h) <==> LooksValid(t) && Even(t, h) && InOrder(t)
  {
    hide Holds, Entries, Ascending, LooksValid, WF, Leveled, InOrder;
    if WellFormed(t, h) {
      WellFormedLooksValid(t, h);
      OrderIsLocal(t, h);
    } else if LooksValid(t) && Even(t, h) && InOrder(t) {
      if Leveled(t, h) { LeveledIsWF(t, h); } else { LeafIsWF(t, h); }
      OrderIsLocal(t, h);
    }
  }

  // ----- each of the three is needed

  method PlantLeaf(items: seq<Item>, after: Node?) returns (node: Node)
    requires |items| <= MAXIMUM
    ensures Planted(Leaf(node, items), after) && fresh(node.Repr)
  {
    node := new Node();
    node.next := after;
    for i := 0 to |items|
      invariant node.Ok() && node.Items() == items[..i] && node.childCount == 0 && node.next == after
      invariant fresh(node.Repr)
    {
      node.AttachData(items[i]);
    }
    PlantedLeaf(Leaf(node, items), after);
  }

  method PlantInner(sep: Item, left: Node, right: Node, ghost l: Shape, ghost r: Shape, ghost after: Node?)
    returns (node: Node)
    requires l.node == left && r.node == right && Planted(l, Behind(Leaves(r), after)) && Planted(r, after)
    requires Owned(l) !! Owned(r)
    ensures Planted(Inner(node, [sep], [l, r]), after) && fresh(node.Repr)
    ensures Planted(l, Behind(Leaves(r), after)) && Planted(r, after)
  {
    hide Planted, Forest, Owned, AllOwned, Leaves, AllLeaves;
    assert allocated(Owned(l)) && allocated(Owned(r));
    node := new Node();
    node.AttachData(sep);
    node.AttachKid(left);
    node.AttachKid(right);
    ghost var t := Inner(node, [sep], [l, r]);
    TwoForest(l, r, after);
    PlantedInner(t, after);
  }

  lemma TwoForest(l: Shape, r: Shape, after: Node?)
    ensures Forest([l, r], after) <==> Planted(l, Behind(Leaves(r), after)) && Planted(r, after) && Owned(l) !! Owned(r)
    ensures AllOwned([l, r]) == Owned(l) + Owned(r)
  {
    hide *;
    assert [l, r] == [l] + [r];
    ForestJoin([l], [r], after);
    ForestOne(l, Behind(Leaves(r), after));
    ForestOne(r, after);
    WalkSplit([l], [r]);
    WalkOne(l);
    WalkOne(r);
  }

  function One(b: byte): Item { Item([b], []) }

  /** Two leaves below a node. */
  method PlantTwo(a: seq<Item>, sep: Item, b: seq<Item>, after: Node?) returns (node: Node, first: Node, ghost t: Shape)
    requires |a| <= MAXIMUM && |b| <= MAXIMUM
    ensures t.node == node && Planted(t, after) && fresh(Owned(t)) && Leaves(t) != [] && Leaves(t)[0] == first
    ensures t.Inner? && |t.kids| == 2 && t == Inner(node, [sep], [Leaf(first, a), Leaf(t.kids[1].node, b)])
  {
    hide Planted, AllLeaves, AllOwned;
    var right := PlantLeaf(b, after);
    first := PlantLeaf(a, right);
    ghost var l, r := Leaf(first, a), Leaf(right, b);
    assert allocated(Owned(r));
    node := PlantInner(sep, first, right, l, r, after);
    t := Inner(node, [sep], [l, r]);
    TwoForest(l, r, after);
    TwoLeaves(l, r);
  }

  lemma TwoLeaves(l: Shape, r: Shape)
    ensures AllLeaves([l, r]) == Leaves(l) + Leaves(r) && AllEntries([l, r]) == Entries(l) + Entries(r)
  {
    hide *;
    assert [l, r] == [l] + [r];
    WalkSplit([l], [r]);
    WalkOne(l);
    WalkOne(r);
  }

  /** A node with one separator passes if it does around it. */
  lemma OneSeparatorPasses(t: Shape)
    requires t.Inner? && |t.kids| == 2 && |t.seps| == 1 && LooksValid(t.kids[0]) && LooksValid(t.kids[1])
    requires SepLooksValid(t.seps, t.kids, 0)
    ensures LooksValid(t)
  {
    hide SepLooksValid;
    LooksValidIs(t);
  }

  lemma LeafSmallest(t: Shape)
    requires t.Leaf? && Holds(t) && t.items != []
    ensures Smallest(t) == t.items[0]
  {
    HoldsTop(t);
  }

  ghost predicate TwoLeavesOf(t: Shape, a: seq<Item>, sep: Item, b: seq<Item>) {
    && t.Inner? && |t.kids| == 2 && t.seps == [sep]
    && t.kids[0].Leaf? && t.kids[0].items == a && t.kids[1].Leaf? && t.kids[1].items == b
  }

  lemma TwoLeavesPass(t: Shape, a: seq<Item>, sep: Item, b: seq<Item>)
    requires Holds(t) && TwoLeavesOf(t, a, sep, b)
    requires |a| <= MAXIMUM && NonDescending(a) && Below(a, sep.key)
    requires 0 < |b| <= MAXIMUM && NonDescending(b) && NoneBelow(b, sep.key) && b[0].key == sep.key
    ensures LooksValid(t) && Smallest(t.kids[1]) == b[0] && (a != [] ==> Smallest(t) == a[0])
  {
    hide Holds, KeyLess;
    HoldsKid(t, 0);
    HoldsKid(t, 1);
    if a != [] { LeafSmallest(t.kids[0]); }
    LeafSmallest(t.kids[1]);
    assert SepLooksValid(t.seps, t.kids, 0);
    OneSeparatorPasses(t);
  }

  /** Equal keys in a leaf. */
  method PlantEqualKeys() returns (root: Node, ghost t: Shape, passes: bool)
    ensures t.node == root && Planted(t, null) && fresh(Owned(t))
    ensures passes && LooksValid(t) && Even(t, 0) && !InOrder(t)
  {
    hide Planted;
    root := PlantLeaf([One(1), One(1)], null);
    t := Leaf(root, [One(1), One(1)]);
    PlantedIs(t, null);
    assert allocated(Owned(t)) && allocated(Buffers(t)) && allocated(NodesIn(t));
    assert !KeyLess(t.items[0].key, t.items[1].key);
    passes := IsValid(root, t);
  }

  /** An empty leaf beside another. */
  method PlantEmptyLeaf() returns (root: Node, ghost t: Shape, passes: bool)
    ensures t.node == root && Planted(t, null) && fresh(Owned(t))
    ensures passes && LooksValid(t) && InOrder(t) && forall h: nat :: !Even(t, h)
  {
    hide Planted, Holds, Owned, AllOwned, Leaves, AllLeaves;
    var first;
    root, first, t := PlantTwo([], One(5), [One(5)], null);
    PlantedIs(t, null);
    assert allocated(Owned(t)) && allocated(Buffers(t)) && allocated(NodesIn(t));
    TwoLeavesPass(t, [], One(5), [One(5)]);
    EmptyLeafShape(t);
    passes := IsValid(root, t);
    TwoLeavesPass(t, [], One(5), [One(5)]) by { PlantedIs(t, null); }
  }

  lemma EmptyLeafShape(t: Shape)
    requires TwoLeavesOf(t, [], One(5), [One(5)])
    ensures InOrder(t) && forall h: nat :: !Even(t, h)
  {
    forall h: nat ensures !Even(t, h) {
      if h >= 1 { assert !Leveled(t.kids[0], h - 1); }
    }
  }

  /** Leaves of different depth. */
  method PlantUneven() returns (root: Node, ghost t: Shape, passes: bool)
    ensures t.node == root && Planted(t, null) && fresh(Owned(t))
    ensures passes && LooksValid(t) && InOrder(t) && forall h: nat :: !Even(t, h)
  {
    hide Planted, Holds, Owned, AllOwned, Leaves, AllLeaves;
    var right, first, left;
    ghost var r;
    right, first, r := PlantTwo([One(5)], One(7), [One(7)], null);
    assert allocated(Owned(r));
    left := PlantLeaf([One(1)], first);
    ghost var l := Leaf(left, [One(1)]);
    LeafOwned(l);
    root := PlantInner(One(5), left, right, l, r, null);
    t := Inner(root, [One(5)], [l, r]);
    PlantedIs(t, null);
    UnevenPasses(t);
    UnevenShape(t);
    OwnedInner(t);
    TwoForest(l, r, null);
    assert allocated(Owned(t)) && allocated(Buffers(t)) && allocated(NodesIn(t));
    passes := IsValid(root, t);
  }

  lemma LeafOwned(t: Shape)
    ensures t.Leaf? ==> Owned(t) == t.node.Repr && Leaves(t) == [t.node]
  {
  }

  ghost predicate UnevenTree(t: Shape) {
    && t.Inner? && |t.kids| == 2 && t.seps == [One(5)] && t.kids[0].Leaf? && t.kids[0].items == [One(1)]
    && TwoLeavesOf(t.kids[1], [One(5)], One(7), [One(7)])
  }

  lemma UnevenPasses(t: Shape)
    requires Holds(t) && UnevenTree(t)
    ensures LooksValid(t)
  {
    hide Holds, LooksValid;
    HoldsKid(t, 0);
    HoldsKid(t, 1);
    TwoLeavesPass(t.kids[1], [One(5)], One(7), [One(7)]);
    LooksValidIs(t.kids[0]);
    assert SepLooksValid(t.seps, t.kids, 0);
    OneSeparatorPasses(t);
  }

  lemma UnevenShape(t: Shape)
    requires UnevenTree(t)
    ensures InOrder(t) && forall h: nat :: !Even(t, h)
  {
    TwoInOrder(t.kids[1], [One(5)], One(7), [One(7)]);
    forall h: nat ensures !Even(t, h) {
      if h >= 1 { assert Leveled(t.kids[0], h - 1) ==> !Leveled(t.kids[1], h - 1); }
    }
  }

  lemma TwoInOrder(t: Shape, a: seq<Item>, sep: Item, b: seq<Item>)
    requires TwoLeavesOf(t, a, sep, b) && Ascending(a) && Ascending(b) && a != [] && KeyLess(a[|a| - 1].key, sep.key)
    ensures InOrder(t) && Entries(t) == a + b
  {
    hide KeyLess, Ascending;
    assert t.kids == [t.kids[0], t.kids[1]];
    TwoLeaves(t.kids[0], t.kids[1]);
  }

  /** Every leaf and every separator passes, and an item deep on the left is
      larger than a separator above it. */
  method PlantDisorder() returns (root: Node, ghost t: Shape, passes: bool)
    ensures t.node == root && Planted(t, null) && fresh(Owned(t))
    ensures passes && LooksValid(t) && Even(t, 2) && !InOrder(t)
  {
    hide Planted, Holds, Owned, AllOwned, Leaves, AllLeaves;
    var right, first, left, leftmost;
    ghost var l, r;
    right, first, r := PlantTwo([One(5)], One(7), [One(7)], null);
    assert allocated(Owned(r));
    left, leftmost, l := PlantTwo([One(1)], One(3), [One(3), One(9)], first);
    root := PlantInner(One(5), left, right, l, r, null);
    t := Inner(root, [One(5)], [l, r]);
    PlantedIs(t, null);
    DisorderPasses(t);
    DisorderShape(t);
    OwnedInner(t);
    TwoForest(l, r, null);
    assert allocated(Owned(t)) && allocated(Buffers(t)) && allocated(NodesIn(t));
    passes := IsValid(root, t);
  }

  ghost predicate DisorderTree(t: Shape) {
    && t.Inner? && |t.kids| == 2 && t.seps == [One(5)]
    && TwoLeavesOf(t.kids[0], [One(1)], One(3), [One(3), One(9)]) && TwoLeavesOf(t.kids[1], [One(5)], One(7), [One(7)])
  }

  lemma DisorderPasses(t: Shape)
    requires Holds(t) && DisorderTree(t)
    ensures LooksValid(t)
  {
    hide Holds, LooksValid;
    HoldsKid(t, 0);
    HoldsKid(t, 1);
    TwoLeavesPass(t.kids[0], [One(1)], One(3), [One(3), One(9)]);
    TwoLeavesPass(t.kids[1], [One(5)], One(7), [One(7)]);
    assert SepLooksValid(t.seps, t.kids, 0);
    OneSeparatorPasses(t);
  }

  lemma DisorderShape(t: Shape)
    requires DisorderTree(t)
    ensures Leveled(t, 2) && !InOrder(t)
  {
    TwoInOrder(t.kids[0], [One(1)], One(3), [One(3), One(9)]);
    assert Leveled(t.kids[0], 1) && Leveled(t.kids[1], 1);
    assert !LastBelow(t.kids[0], One(5).key);
  }
}
