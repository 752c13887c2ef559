/** The multimap over the B+ tree: every key has the list of its values in the
    order of insertion. */
module MultiMap {
  import opened Ordering
  import opened ArrayFunctions
  import opened BTreeNodes
  import opened HeapShapes
  import opened ShapeOrder
  import opened HeapInsert
  import opened HeapLookup
  import opened HeapCopy
  import opened HeapValid

  // ----- a value behind an existing key

  ghost function PutValue(s: seq<Item>, k: Key, v: nat): seq<Item> {
    if Found(s, k) then s[FirstGe(s, k) := Item(k, s[FirstGe(s, k)].values + [v])] else s
  }

  lemma PutBetween(a: seq<Item>, m: seq<Item>, b: seq<Item>, k: Key, v: nat)
    requires Below(a, k) && Above(b, k)
    ensures PutValue(a + m + b, k, v) == a + PutValue(m, k, v) + b
  {
    hide KeyLess, FirstGe, Below, Above;
    FirstGeBetween(a, m, b, k);
  }

  lemma PutKeepsKeys(s: seq<Item>, k: Key, v: nat)
    ensures |PutValue(s, k, v)| == |s| && forall i :: 0 <= i < |s| ==> PutValue(s, k, v)[i].key == s[i].key
    ensures Ascending(s) ==> Ascending(PutValue(s, k, v))
  {
    hide KeyLess, FirstGe;
  }

  /** A child with other values but the same keys. */
  lemma SameKeysWF(t: Shape, h: nat, i: nat, c: Shape)
    requires t.Inner? && WF(t, h) && i < |t.kids| && WF(c, h - 1) && |DataOf(c)| == |DataOf(t.kids[i])|
    requires |Entries(c)| == |Entries(t.kids[i])|
    requires forall x :: 0 <= x < |Entries(c)| ==> Entries(c)[x].key == Entries(t.kids[i])[x].key
    ensures WF(t.(kids := t.kids[i := c]), h)
  {
    hide Entries;
    var u := t.(kids := t.kids[i := c]);
    forall j | 1 <= j < |u.kids| ensures SepAt(u.seps, u.kids, j) { assert SepAt(t.seps, t.kids, j); }
  }

  /** `get(key)` followed by `push_back`: the reference leads into a leaf. */
  method PushBack(node: Node, k: Key, v: nat, ghost t: Shape, ghost h: nat, ghost after: Node?)
    returns (ghost t': Shape)
    requires t.node == node && Planted(t, after) && WF(t, h) && Ascending(Entries(t)) && Found(Entries(t), k)
    modifies Owned(t)
    ensures t'.node == node && Planted(t', after) && WF(t', h) && (t'.Leaf? <==> t.Leaf?) && |DataOf(t')| == |DataOf(t)|
    ensures Entries(t') == PutValue(Entries(t), k, v) && Owned(t') == Owned(t) && Leaves(t') == Leaves(t)
    ensures node.next == old(node.next)
    decreases h
  {
    hide KeyLess, FirstGe, Ascending, Forest, Planted, Leaves, AllLeaves, Owned, AllOwned, Entries, AllEntries, WF,
      Found, PutValue;
    PlantedTop(t, after);
    LeafEntries(t);
    OwnedInner(t);
    assert allocated(Owned(t));
    var index := FindFirstGe(node.data, node.dataCount, k);
    var found := index < node.dataCount && !KeyLess(k, node.data[index].key);
    RouteFound(DataOf(t), k, index, found);
    if node.IsLeaf() {
      FoundItem(t.items, k, v);
      PlantedLeaf(t, after);
      assert node.data[index] == node.Items()[index];
      node.SetData(index, Item(k, node.data[index].values + [v]));
      t' := Leaf(node, PutValue(t.items, k, v));
      PlantedLeaf(t', after);
      LeafEntries(t');
      LeafLeaves(t);
      LeafLeaves(t');
      OwnedInner(t');
      WFLeaf(t, h);
      WFLeaf(t', h);
      return;
    }
    var i := if found then index + 1 else index;
    IntoChild(t, h, after, k, i);
    ghost var tail := t.kids[i + 1..];
    ghost var c := PushBack(node.subset[i], k, v, t.kids[i], h - 1, Behind(AllLeaves(tail), after));
    PutKeepsKeys(Entries(t.kids[i]), k, v);
    SameKeysWF(t, h, i, c);
    t' := t.(kids := t.kids[i := c]);
    ChildPut(t, after, k, v, i, c);
  }

  lemma FoundItem(s: seq<Item>, k: Key, v: nat)
    requires Found(s, k)
    ensures PutValue(s, k, v) == s[FirstGe(s, k) := Item(k, s[FirstGe(s, k)].values + [v])] && FirstGe(s, k) < |s|
    ensures |PutValue(s, k, v)| == |s|
  {
  }

  /** What holds around the child before the call. */
  lemma IntoChild(t: Shape, h: nat, after: Node?, k: Key, i: nat)
    requires t.Inner? && Planted(t, after) && WF(t, h) && Ascending(Entries(t))
    requires i == if Found(t.seps, k) then FirstGe(t.seps, k) + 1 else FirstGe(t.seps, k)
    ensures h >= 1 && i < |t.kids| == t.node.childCount <= t.node.subset.Length && t.node.subset[i] == t.kids[i].node
    ensures Planted(t.kids[i], Behind(AllLeaves(t.kids[i + 1..]), after)) && WF(t.kids[i], h - 1)
    ensures Ascending(Entries(t.kids[i]))
    ensures Found(Entries(t.kids[i]), k) <==> Found(Entries(t), k)
    ensures Below(AllEntries(t.kids[..i]), k) && Above(AllEntries(t.kids[i + 1..]), k)
    ensures Forest(t.kids, after) && t.node.Repr !! AllOwned(t.kids) && Owned(t.kids[i]) <= AllOwned(t.kids)
    ensures Leaves(t.kids[i]) != []
    ensures Forest(t.kids[..i], Behind(Leaves(t.kids[i]) + AllLeaves(t.kids[i + 1..]), after))
    ensures Forest(t.kids[i + 1..], after)
    ensures AllOwned(t.kids[..i]) !! Owned(t.kids[i])
    ensures (AllOwned(t.kids[..i]) + Owned(t.kids[i])) !! AllOwned(t.kids[i + 1..])
    ensures AllOwned(t.kids) == AllOwned(t.kids[..i]) + Owned(t.kids[i]) + AllOwned(t.kids[i + 1..])
  {
    hide KeyLess, FirstGe, Ascending, Forest, Planted, Leaves, AllLeaves, Owned, AllOwned, Entries, AllEntries, WF,
      Below, Above;
    EnterChild(t, h, after, k, i);
    WFInner(t, h);
    LeafEntries(t);
    PlantedInner(t, after);
    ForestAround(t.kids, i, after);
    RouteSeparates(t.seps, t.kids, k);
    WalkAround(t.kids, i);
    PlantedTop(t.kids[i], Behind(AllLeaves(t.kids[i + 1..]), after));
  }

  lemma ChildPut(t: Shape, after: Node?, k: Key, v: nat, i: nat, c: Shape)
    requires t.Inner? && i < |t.kids| && Top(t) && c.node == t.kids[i].node && Leaves(c) == Leaves(t.kids[i]) != []
    requires Owned(c) == Owned(t.kids[i])
    requires Entries(c) == PutValue(Entries(t.kids[i]), k, v) && Below(AllEntries(t.kids[..i]), k)
    requires Above(AllEntries(t.kids[i + 1..]), k)
    requires var tail := t.kids[i + 1..];
      && Forest(t.kids[..i], Behind(Leaves(c) + AllLeaves(tail), after)) && Planted(c, Behind(AllLeaves(tail), after))
      && Forest(tail, after)
      && AllOwned(t.kids[..i]) !! Owned(c) && (AllOwned(t.kids[..i]) + Owned(c)) !! AllOwned(tail)
      && t.node.Repr !! AllOwned(t.kids)
    ensures var u := t.(kids := t.kids[i := c]);
      Planted(u, after) && Entries(u) == PutValue(Entries(t), k, v) && Owned(u) == Owned(t) && Leaves(u) == Leaves(t)
  {
    hide KeyLess, FirstGe, Forest, Planted, Leaves, AllLeaves, Owned, AllOwned, Entries, AllEntries, Below, Above,
      PutValue;
    var kids := t.kids[i := c];
    var u := t.(kids := kids);
    assert kids[..i] == t.kids[..i] && kids[i + 1..] == t.kids[i + 1..];
    WalkAround(t.kids, i);
    WalkAround(kids, i);
    LeafEntries(t);
    LeafLeaves(t);
    OwnedInner(t);
    LeafEntries(u);
    LeafLeaves(u);
    OwnedInner(u);
    Replant(t, after, i, c);
    PutBetween(AllEntries(t.kids[..i]), Entries(t.kids[i]), AllEntries(t.kids[i + 1..]), k, v);
  }

  // ----- the multimap

  /** `insert(k, v)`: a new key gets a list of its own. */
  ghost function AddValue(s: seq<Item>, k: Key, v: nat): seq<Item> {
    if Found(s, k) then PutValue(s, k, v) else InsertByKey(s, Item(k, [v]))
  }

  lemma AddAscending(s: seq<Item>, k: Key, v: nat)
    requires Ascending(s)
    ensures Ascending(AddValue(s, k, v))
  {
    hide Ascending, InsertByKey, PutValue;
    PutKeepsKeys(s, k, v);
    InsertAscending(s, Item(k, [v]));
  }

  class MMap {
    const mmap: Node
    ghost var shape: Shape
    ghost var height: nat

    ghost predicate Valid()
      reads this, mmap, Owned(shape)
    {
      shape.node == mmap && RootOk(shape, height) && this !in Owned(shape)
    }

    /** Keys in order, each with its values in insertion order. */
    ghost function Contents(): seq<Item>
      reads this
    {
      Entries(shape)
    }

    constructor ()
      ensures Valid() && Contents() == [] && fresh(Owned(shape))
    {
      var n := new Node();
      mmap, shape, height := n, Leaf(n, []), 0;
      new;
      PlantedLeaf(shape, null);
    }

    method Contains(k: Key) returns (r: bool)
      requires Valid()
      ensures r <==> HasKey(Contents(), k)
    {
      FoundIsMembership(Contents(), k);
      r := HeapLookup.Contains(mmap, k, shape, height, null);
    }

    /** `insert(k, v)`. */
    method Insert(k: Key, v: nat)
      requires Valid()
      modifies this, Owned(shape)
      ensures Valid() && Contents() == AddValue(old(Contents()), k, v)
      ensures fresh(Owned(shape) - old(Owned(shape)))
    {
      hide Planted, WF, Entries, Ascending, Owned, Leaves, PutValue, InsertByKey, Found;
      assert allocated(Owned(shape));
      var present := HeapLookup.Contains(mmap, k, shape, height, null);
      if present {
        PutKeepsKeys(Entries(shape), k, v);
        ghost var t := PushBack(mmap, k, v, shape, height, null);
        shape := t;
        return;
      }
      var inserted;
      ghost var t, h;
      label Inserting:
      inserted, t, h := HeapInsert.Insert(mmap, Item(k, [v]), shape, height);
      forall o | o in Owned(t) && o !in Owned(shape) ensures fresh(o) { assert fresh@Inserting(o); }
      shape, height := t, h;
    }

    /** `erase(k)` drops the key with all its values. */
    method Erase(k: Key)
      requires Valid()
      modifies this, Owned(shape)
      ensures Valid() && Contents() == EraseByKey(old(Contents()), k) && Owned(shape) <= old(Owned(shape))
    {
      hide Planted, WF, Entries, Ascending, Owned, Leaves, EraseByKey, Found;
      var erased;
      ghost var t, h;
      erased, t, h := HeapErase.Erase(mmap, k, shape, height);
      shape, height := t, h;
    }

    /** `operator []`: inserts a missing key with no values first. */
    method At(k: Key) returns (values: seq<nat>)
      requires Valid()
      modifies if Found(Contents(), k) then {} else {this} + Owned(shape)
      ensures Valid() && Contents() == InsertByKey(old(Contents()), Item(k, []))
      ensures fresh(Owned(shape) - old(Owned(shape)))
      ensures Found(Contents(), k) && values == Contents()[FirstGe(Contents(), k)].values
    {
      hide Planted, WF, Entries, Ascending, Owned, Leaves, LeafItems;
      assert allocated(Owned(shape));
      ghost var before := Entries(shape);
      var present := HeapLookup.Contains(mmap, k, shape, height, null);
      if !present {
        var inserted;
        ghost var t, h;
        label Inserting:
        inserted, t, h := HeapInsert.Insert(mmap, Item(k, []), shape, height);
        forall o | o in Owned(t) && o !in Owned(shape) ensures fresh(o) { assert fresh@Inserting(o); }
        shape, height := t, h;
      }
      NowFound(before, k);
      assert allocated(Owned(shape));
      var it;
      ghost var a;
      it, a := Find(mmap, k, shape, height, null);
      InLeafItem(shape, null, it, FirstGe(Entries(shape), k), a);
      values := it.node.data[it.index].values;
    }

    /** A copy shares no node with the original. */
    method Copy() returns (copy: MMap)
      requires Valid()
      ensures Valid() && Contents() == old(Contents())
      ensures fresh(copy) && copy.Valid() && copy.Contents() == Contents() && fresh(Owned(copy.shape))
    {
      hide Planted, WF, Entries, Ascending, Leaves, SameTree;
      assert allocated(Owned(shape));
      copy := new MMap();
      assert Owned(copy.shape) !! Owned(shape);
      label Copying:
      ghost var own := Owned(copy.shape);
      CopyInto(copy);
      forall o | o in Owned(copy.shape) ensures fresh(o) {
        if o !in own { assert fresh@Copying(o); }
      }
    }

    method CopyInto(copy: MMap)
      requires Valid() && copy.Valid() && copy != this && Owned(copy.shape) !! Owned(shape)
      modifies copy, Owned(copy.shape)
      ensures copy.Valid() && copy.Contents() == Contents() && fresh(Owned(copy.shape) - old(Owned(copy.shape)))
    {
      hide Planted, WF, Entries, Ascending, Leaves, SameTree, Owned;
      assert allocated(Owned(shape));
      OwnedRoot(copy.shape);
      PlantedTop(copy.shape, null);
      PlantedIs(shape, null);
      var last;
      ghost var td;
      last, td := CopyTree(copy.mmap, mmap, null, shape);
      SameTreeEntries(td, shape);
      SameTreeWF(td, shape, height);
      if td.Leaf? { LeafNext(td, null); }
      copy.shape, copy.height := td, height;
    }

    /** The tree's own check always succeeds. */
    method IsValidTree() returns (r: bool)
      requires Valid()
      ensures r
    {
      hide Planted, Entries, Ascending, Owned, Leaves, LooksValid, Holds;
      assert allocated(Buffers(shape));
      PlantedIs(shape, null);
      WellFormedLooksValid(shape, height);
      r := IsValid(mmap, shape);
    }
  }

  lemma NowFound(s: seq<Item>, k: Key)
    ensures Found(InsertByKey(s, Item(k, [])), k)
  {
    hide KeyLess, FirstGe;
    KeyLessIsStrictTotalOrder();
    if !Found(s, k) {
      var r := FirstGe(s, k);
      FirstGeIs(InsertByKey(s, Item(k, [])), k, r);
    }
  }
}
