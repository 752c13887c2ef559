/** Any run of insertions, removals and copies of the B+ tree against a plain
    set of keys. */
module TreeRuns {
  import opened Ordering
  import opened ArrayFunctions
  import opened BTreeNodes
  import opened HeapShapes
  import opened ShapeOrder
  import opened ShapeErase
  import opened HeapInsert
  import opened HeapErase
  import opened HeapLookup
  import opened HeapCopy

  datatype Operation = Add(item: Item) | Remove(key: Key) | Duplicate

  ghost function KeySet(s: seq<Item>): set<Key> { set x | x in s :: x.key }

  /** The set the operations stand for. */
  ghost function SetAfter(ops: seq<Operation>): set<Key> {
    if ops == [] then {}
    else
      var s := SetAfter(ops[..|ops| - 1]);
      match ops[|ops| - 1]
      case Add(item) => s + {item.key}
      case Remove(key) => s - {key}
      case Duplicate => s
  }

  /** What each operation answers: was the key new, was it present. */
  ghost function Answer(ops: seq<Operation>, i: nat): bool
    requires i < |ops|
  {
    match ops[i]
    case Add(item) => item.key !in SetAfter(ops[..i])
    case Remove(key) => key in SetAfter(ops[..i])
    case Duplicate => true
  }

  lemma InKeySet(s: seq<Item>, k: Key)
    ensures k in KeySet(s) <==> HasKey(s, k)
  {
    if k in KeySet(s) {
      var x :| x in s && x.key == k;
      var i :| 0 <= i < |s| && s[i] == x;
    }
    if i :| 0 <= i < |s| && s[i].key == k { assert s[i] in s; }
  }

  lemma InsertedKeys(s: seq<Item>, e: Item)
    requires Ascending(s)
    ensures KeySet(InsertByKey(s, e)) == KeySet(s) + {e.key}
  {
    hide KeyLess, Ascending, FirstGe;
    FoundIsMembership(s, e.key);
    InKeySet(s, e.key);
    var r := FirstGe(s, e.key);
    var t := InsertByKey(s, e);
    forall k ensures k in KeySet(t) <==> k in KeySet(s) || k == e.key {
      InKeySet(s, k);
      InKeySet(t, k);
      if !Found(s, e.key) {
        assert t[r] == e;
        if i :| 0 <= i < |s| && s[i].key == k { assert t[if i < r then i else i + 1] == s[i]; }
        if i :| 0 <= i < |t| && t[i].key == k { assert i == r || t[i] == s[if i < r then i else i - 1]; }
      }
    }
  }

  lemma ErasedKeys(s: seq<Item>, k: Key)
    requires Ascending(s)
    ensures KeySet(EraseByKey(s, k)) == KeySet(s) - {k}
  {
    hide KeyLess, Ascending, FirstGe;
    FoundIsMembership(s, k);
    InKeySet(s, k);
    ErasedIsGone(s, k);
    var r := FirstGe(s, k);
    var t := EraseByKey(s, k);
    forall x ensures x in KeySet(t) <==> x in KeySet(s) && x != k {
      InKeySet(s, x);
      InKeySet(t, x);
      if Found(s, k) {
        if i :| 0 <= i < |s| && s[i].key == x && x != k { assert i != r && t[if i < r then i else i - 1] == s[i]; }
        if i :| 0 <= i < |t| && t[i].key == x { assert t[i] == s[if i < r then i else i + 1]; }
      }
    }
  }

  lemma EntriesAscend(t: Shape, h: nat)
    requires RootOk(t, h)
    ensures Ascending(Entries(t))
  {
  }

  /** The tree answers every operation as the set does, passes its own validity
      check, and iterates over exactly the set, in order. */
  method RunOperations(ops: seq<Operation>) returns (answers: seq<bool>, items: seq<Item>)
    ensures |answers| == |ops| && forall i :: 0 <= i < |ops| ==> answers[i] == Answer(ops, i)
    ensures Ascending(items) && KeySet(items) == SetAfter(ops)
  {
    hide Planted, WF, Entries, Ascending, Leaves, Owned, KeySet, EraseByKey, InsertByKey, HasKey;
    var root := new Node();
    ghost var t, h: nat := Leaf(root, []), 0;
    EmptyTree(t);
    answers := [];
    for i := 0 to |ops|
      invariant t.node == root && RootOk(t, h) && KeySet(Entries(t)) == SetAfter(ops[..i]) && fresh(Owned(t))
      invariant |answers| == i && forall j :: 0 <= j < i ==> answers[j] == Answer(ops, j)
    {
      assert ops[..i + 1][..i] == ops[..i];
      EntriesAscend(t, h);
      var answer;
      ghost var own := Owned(t);
      label Step:
      match ops[i] {
        case Add(item) =>
          InsertedKeys(Entries(t), item);
          InKeySet(Entries(t), item.key);
          answer, t, h := Insert(root, item, t, h);
        case Remove(key) =>
          ErasedKeys(Entries(t), key);
          InKeySet(Entries(t), key);
          answer, t, h := Erase(root, key, t, h);
        case Duplicate =>
          root, t := CopyRoot(root, t, h);
          answer := true;
      }
      forall o | o in Owned(t) ensures fresh(o) {
        if o !in own { assert fresh@Step(o); }
      }
      answers := answers + [answer];
    }
    assert ops[..|ops|] == ops;
    EntriesAscend(t, h);
    items := Collect(root, t, h);
  }

  lemma EmptyTree(t: Shape)
    requires t.Leaf? && t.items == [] && t.node.Ok() && t.node.Items() == [] && t.node.Kids() == []
    requires t.node.next == null
    ensures RootOk(t, 0) && KeySet(Entries(t)) == {} && Owned(t) == t.node.Repr
  {
    PlantedLeaf(t, null);
  }

  /** The copy constructor. */
  method CopyRoot(source: Node, ghost t: Shape, ghost h: nat) returns (dest: Node, ghost t': Shape)
    requires t.node == source && RootOk(t, h)
    ensures t'.node == dest && RootOk(t', h) && Entries(t') == Entries(t) && fresh(Owned(t')) && Planted(t, null)
  {
    hide Planted, WF, Entries, Ascending, Leaves, SameTree, Owned;
    assert allocated(Owned(t));
    PlantedIs(t, null);
    FrameIsOwned(t);
    dest := new Node();
    var last;
    label Copying:
    last, t' := CopyTree(dest, source, null, t);
    forall o | o in Owned(t') ensures fresh(o) {
      if o !in dest.Repr { assert fresh@Copying(o); }
    }
    SameTreeEntries(t', t);
    SameTreeWF(t', t, h);
    if t'.Leaf? { LeafNext(t', null); }
  }
}
