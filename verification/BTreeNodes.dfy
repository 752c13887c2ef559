/** One node of the in-memory 2-3 B+ tree and the steps that move items and
    children between a node and two of its children. */
module BTreeNodes {
  import opened Ordering
  import opened ArrayFunctions

  const MINIMUM := 1
  const MAXIMUM := 2

  /** Item `i` is deleted and `x` goes to its ordered place. */
  function Replaced(s: seq<Item>, i: nat, x: Item): (r: seq<Item>)
    requires i < |s|
    ensures |r| == |s|
  {
    var rest := DeleteAt(s, i);
    InsertAt(rest, FirstGe(rest, x.key), x)
  }

  /** Two nodes that share neither themselves nor a buffer. */
  ghost predicate Separate(a: Node, b: Node) { a != b && a.data != b.data && a.subset != b.subset }

  lemma ApartIsSeparate(a: Node, b: Node)
    requires a.Repr !! b.Repr
    ensures Separate(a, b)
  {
    assert a in a.Repr && a.data in a.Repr && a.subset in a.Repr;
    assert b in b.Repr && b.data in b.Repr && b.subset in b.Repr;
  }

  lemma InsertIntoNone(x: Item)
    ensures InsertAt([], FirstGe([], x.key), x) == [x] == InsertAt([], 0, x)
  {
  }

  lemma InsertBelow(x: Item, y: Item)
    requires KeyLess(x.key, y.key)
    ensures InsertAt([y], FirstGe([y], x.key), x) == [x, y]
  {
    KeyLessIsStrictTotalOrder();
  }

  lemma InsertFirst<T>(s: seq<T>, x: T)
    ensures InsertAt(s, 0, x) == [x] + s
  {
  }

  /** Two buffers with room for one item and one child too many, and the link
      to the next leaf. */
  class Node {
    const data: array<Item>
    const subset: array<Node?>
    var dataCount: nat
    var childCount: nat
    var next: Node?

    ghost const Repr: set<object> := {this, data, subset}

    ghost predicate Ok()
      reads this`dataCount, this`childCount
    {
      && data.Length == MAXIMUM + 1 && subset.Length == MAXIMUM + 2 && dataCount <= data.Length
      && childCount <= subset.Length
    }

    ghost function Items(): (s: seq<Item>)
      requires Ok()
      reads this`dataCount, this`childCount, data
      ensures |s| == dataCount
    {
      data[..dataCount]
    }

    ghost function Kids(): (s: seq<Node?>)
      requires Ok()
      reads this`dataCount, this`childCount, subset
      ensures |s| == childCount
    {
      subset[..childCount]
    }

    predicate IsLeaf()
      reads this`childCount
    {
      childCount == 0
    }

    constructor ()
      ensures Ok() && Items() == [] && Kids() == [] && next == null && fresh(Repr)
    {
      data := new Item[MAXIMUM + 1](_ => Item([], []));
      subset := new Node?[MAXIMUM + 2](_ => null);
      dataCount, childCount, next := 0, 0, null;
    }

    // ----- one buffer at a time

    method InsertData(i: nat, x: Item)
      requires Ok() && i <= dataCount < data.Length
      modifies this`dataCount, data
      ensures Ok() && Items() == InsertAt(old(Items()), i, x)
    {
      dataCount := InsertItem(data, i, dataCount, x);
    }

    method OrderedInsertData(x: Item)
      requires Ok() && dataCount < data.Length
      modifies this`dataCount, data
      ensures Ok() && Items() == InsertAt(old(Items()), FirstGe(old(Items()), x.key), x)
    {
      dataCount := OrderedInsert(data, dataCount, x);
    }

    method AttachData(x: Item)
      requires Ok() && dataCount < data.Length
      modifies this`dataCount, data
      ensures Ok() && Items() == old(Items()) + [x]
    {
      dataCount := AttachItem(data, dataCount, x);
    }

    method DeleteData(i: nat) returns (x: Item)
      requires Ok() && i < dataCount
      modifies this`dataCount, data
      ensures Ok() && Items() == DeleteAt(old(Items()), i) && x == old(Items())[i]
    {
      dataCount, x := DeleteItem(data, i, dataCount);
    }

    method DetachData() returns (x: Item)
      requires Ok() && 0 < dataCount
      modifies this`dataCount
      ensures Ok() && dataCount == old(dataCount) - 1 && Items() == old(Items())[..dataCount]
      ensures x == old(Items())[dataCount]
    {
      dataCount, x := DetachItem(data, dataCount);
    }

    method SetData(i: nat, x: Item)
      requires Ok() && i < dataCount
      modifies data
      ensures Items() == old(Items())[i := x]
    {
      data[i] := x;
    }

    method SplitData(sp: Node)
      requires Ok() && sp.Ok() && Separate(this, sp) && sp.dataCount == 0
      modifies this`dataCount, sp`dataCount, sp.data
      ensures Ok() && sp.Ok() && dataCount == old(dataCount) - old(dataCount) / 2
      ensures Items() == old(Items())[..dataCount] && sp.Items() == old(Items())[dataCount..]
    {
      dataCount, sp.dataCount := Split(data, dataCount, sp.data);
    }

    method MergeData(from: Node)
      requires Ok() && from.Ok() && Separate(this, from) && dataCount + from.dataCount <= data.Length
      modifies this`dataCount, data, from`dataCount
      ensures Ok() && from.Ok() && from.dataCount == 0 && Items() == old(Items()) + old(from.Items())
    {
      dataCount, from.dataCount := Merge(data, dataCount, from.data, from.dataCount);
    }

    method CopyData(source: Node)
      requires Ok() && source.Ok() && Separate(this, source)
      modifies this`dataCount, data
      ensures Ok() && Items() == source.Items()
    {
      dataCount := CopyArray(data, source.data, source.dataCount);
    }

    method InsertKid(i: nat, n: Node?)
      requires Ok() && i <= childCount < subset.Length
      modifies this`childCount, subset
      ensures Ok() && Kids() == InsertAt(old(Kids()), i, n)
    {
      childCount := InsertItem(subset, i, childCount, n);
    }

    method AttachKid(n: Node?)
      requires Ok() && childCount < subset.Length
      modifies this`childCount, subset
      ensures Ok() && Kids() == old(Kids()) + [n]
    {
      childCount := AttachItem(subset, childCount, n);
    }

    method DeleteKid(i: nat) returns (n: Node?)
      requires Ok() && i < childCount
      modifies this`childCount, subset
      ensures Ok() && Kids() == DeleteAt(old(Kids()), i) && n == old(Kids())[i]
    {
      childCount, n := DeleteItem(subset, i, childCount);
    }

    method DetachKid() returns (n: Node?)
      requires Ok() && 0 < childCount
      modifies this`childCount
      ensures Ok() && childCount == old(childCount) - 1 && Kids() == old(Kids())[..childCount]
      ensures n == old(Kids())[childCount]
    {
      childCount, n := DetachItem(subset, childCount);
    }

    method SplitKids(sp: Node)
      requires Ok() && sp.Ok() && Separate(this, sp) && sp.childCount == 0
      modifies this`childCount, sp`childCount, sp.subset
      ensures Ok() && sp.Ok() && childCount == old(childCount) - old(childCount) / 2
      ensures Kids() == old(Kids())[..childCount] && sp.Kids() == old(Kids())[childCount..]
    {
      childCount, sp.childCount := Split(subset, childCount, sp.subset);
    }

    method MergeKids(from: Node)
      requires Ok() && from.Ok() && Separate(this, from) && childCount + from.childCount <= subset.Length
      modifies this`childCount, subset, from`childCount
      ensures Ok() && from.Ok() && from.childCount == 0 && Kids() == old(Kids()) + old(from.Kids())
    {
      childCount, from.childCount := Merge(subset, childCount, from.subset, from.childCount);
    }

    method CopyKids(source: Node)
      requires Ok() && source.Ok() && Separate(this, source)
      modifies this`childCount, subset
      ensures Ok() && Kids() == source.Kids()
    {
      childCount := CopyArray(subset, source.subset, source.childCount);
    }

    // ----- steps between a node and its children

    /** The upper halves go to a new node, the last lower item comes out. */
    method SplitHalf() returns (sp: Node, mid: Item)
      requires Ok() && dataCount == MAXIMUM + 1 && (childCount == 0 || childCount == MAXIMUM + 2)
      modifies this`dataCount, this`childCount
      ensures Ok() && sp.Ok() && fresh(sp.Repr) && sp.next == null
      ensures Items() == old(Items())[..1] && mid == old(Items())[1] && sp.Items() == old(Items())[2..]
      ensures Kids() == old(Kids())[..old(childCount) / 2] && sp.Kids() == old(Kids())[old(childCount) / 2..]
    {
      sp := new Node();
      SplitData(sp);
      SplitKids(sp);
      mid := DetachData();
    }

    /** The child with one item too many gives the upper half to a new node. */
    method FixExcess(i: nat, ghost kid: Node) returns (sp: Node)
      requires Ok() && kid.Ok() && i < childCount && subset[i] == kid && Separate(this, kid)
      requires dataCount <= MAXIMUM && childCount <= MAXIMUM + 1
      requires kid.dataCount == MAXIMUM + 1 && Ascending(kid.Items())
      requires kid.childCount == 0 || kid.childCount == MAXIMUM + 2
      modifies this`dataCount, data, this`childCount, subset, kid`dataCount, kid`childCount, kid`next
      ensures Ok() && kid.Ok() && sp.Ok() && fresh(sp.Repr)
      ensures var mid := old(kid.Items())[1]; Items() == InsertAt(old(Items()), FirstGe(old(Items()), mid.key), mid)
      ensures Kids() == InsertAt(old(Kids()), i + 1, sp)
      ensures kid.Items() == old(kid.Items())[..1]
      ensures sp.Items() == old(kid.Items())[if old(kid.childCount) == 0 then 1 else 2..]
      ensures kid.Kids() == old(kid.Kids())[..old(kid.childCount) / 2]
      ensures sp.Kids() == old(kid.Kids())[old(kid.childCount) / 2..]
      ensures if old(kid.childCount) == 0 then sp.next == old(kid.next) && kid.next == sp
              else sp.next == null && kid.next == old(kid.next)
    {
      hide InsertAt, DeleteAt, FirstGe;
      var sb := subset[i];
      var newThing;
      ghost var items := kid.Items();
      sp, newThing := sb.SplitHalf();
      OrderedInsertData(newThing);
      if sb.IsLeaf() {
        assert items[2..] == [items[2]] && items[1..] == [items[1], items[2]];
        sb.LinkHalf(sp, newThing, items[2]);
      }
      InsertKid(i + 1, sp);
    }

    /** In a leaf the promoted item stays, in front of the new leaf. */
    method LinkHalf(sp: Node, mid: Item, ghost last: Item)
      requires Ok() && sp.Ok() && Separate(this, sp) && sp.Items() == [last] && KeyLess(mid.key, last.key)
      modifies sp`dataCount, sp.data, sp`next, this`next
      ensures Ok() && sp.Ok() && sp.Items() == [mid, last] && sp.next == old(next) && next == sp
    {
      hide InsertAt, FirstGe;
      InsertBelow(mid, last);
      sp.OrderedInsertData(mid);
      sp.next := next;
      next := sp;
    }

    /** A full root hands everything to a new only child. */
    method PushDown() returns (ans: Node)
      requires Ok()
      modifies this`dataCount, this`childCount, subset
      ensures Ok() && ans.Ok() && fresh(ans.Repr) && ans.next == null && Items() == [] && Kids() == [ans]
      ensures ans.Items() == old(Items()) && ans.Kids() == old(Kids())
    {
      ans := new Node();
      ans.CopyData(this);
      ans.CopyKids(this);
      dataCount := 0;
      childCount := 1;
      subset[0] := ans;
    }

    /** A root without items takes over everything of its only child. */
    method PullUp(ghost child: Node)
      requires Ok() && child.Ok() && 0 < childCount && subset[0] == child && Separate(this, child)
      modifies this`dataCount, data, this`childCount, subset, child`childCount
      ensures Ok() && Items() == old(child.Items()) && Kids() == old(child.Kids())
    {
      var only := subset[0];
      CopyData(only);
      CopyKids(only);
      only.childCount := 0;
    }

    /** A separator goes down to a child that has run out of items. */
    method PassDown(i: nat, child: Node)
      requires Ok() && child.Ok() && Separate(this, child) && i < dataCount && child.dataCount < MINIMUM
      modifies this`dataCount, data, child`dataCount, child.data
      ensures Ok() && child.Ok() && Items() == DeleteAt(old(Items()), i) && child.Items() == [old(Items())[i]]
    {
      hide InsertAt, DeleteAt, FirstGe;
      var item := DeleteData(i);
      InsertIntoNone(item);
      child.OrderedInsertData(item);
    }

    method TakeLastKid(left: Node)
      requires Ok() && left.Ok() && Separate(this, left) && 0 < left.childCount && childCount <= MAXIMUM + 1
      modifies left`childCount, this`childCount, subset
      ensures Ok() && left.Ok() && left.Kids() == old(left.Kids())[..old(left.childCount) - 1]
      ensures Kids() == [old(left.Kids())[old(left.childCount) - 1]] + old(Kids())
    {
      hide InsertAt;
      var node := left.DetachKid();
      InsertFirst(Kids(), node);
      InsertKid(0, node);
    }

    /** The last child of the left neighbour goes to the short child. */
    method TransferChildFromLeft(i: nat, left: Node, right: Node)
      requires Ok() && left.Ok() && right.Ok() && 0 < i <= dataCount <= MAXIMUM
      requires Separate(this, left) && Separate(this, right) && Separate(left, right)
      requires left.dataCount > MINIMUM && right.dataCount < MINIMUM && 0 < left.childCount
      requires right.childCount <= MAXIMUM + 1
      modifies this`dataCount, data, left`dataCount, left`childCount
      modifies right`dataCount, right`childCount, right.data, right.subset
      ensures Ok() && left.Ok() && right.Ok() && Kids() == old(Kids())
      ensures left.Items() == old(left.Items())[..old(left.dataCount) - 1] && right.Items() == [old(Items())[i - 1]]
      ensures Items() == Replaced(old(Items()), i - 1, old(left.Items())[old(left.dataCount) - 1])
      ensures left.Kids() == old(left.Kids())[..old(left.childCount) - 1]
      ensures right.Kids() == [old(left.Kids())[old(left.childCount) - 1]] + old(right.Kids())
    {
      hide InsertAt, DeleteAt, FirstGe;
      PassDown(i - 1, right);
      var item := left.DetachData();
      OrderedInsertData(item);
      right.TakeLastKid(left);
    }

    /** The last item, or child, of the left neighbour goes to the short child. */
    method TransferFromLeft(i: nat, ghost left: Node, ghost right: Node)
      requires Ok() && left.Ok() && right.Ok() && 0 < i < childCount && i <= dataCount <= MAXIMUM
      requires subset[i - 1] == left && subset[i] == right
      requires Separate(this, left) && Separate(this, right) && Separate(left, right)
      requires left.dataCount > MINIMUM && right.dataCount < MINIMUM && right.childCount <= MAXIMUM + 1
      modifies this`dataCount, data, left`dataCount, left`childCount
      modifies right`dataCount, right`childCount, right.data, right.subset
      ensures Ok() && left.Ok() && right.Ok() && Kids() == old(Kids())
      ensures left.Items() == old(left.Items())[..old(left.dataCount) - 1]
      ensures old(left.childCount) == 0 ==>
        && Items() == old(Items())[i - 1 := old(left.Items())[old(left.dataCount) - 1]]
        && right.Items() == [old(left.Items())[old(left.dataCount) - 1]]
        && left.Kids() == old(left.Kids()) && right.Kids() == old(right.Kids())
      ensures old(left.childCount) != 0 ==>
        && Items() == Replaced(old(Items()), i - 1, old(left.Items())[old(left.dataCount) - 1])
        && right.Items() == [old(Items())[i - 1]]
        && left.Kids() == old(left.Kids())[..old(left.childCount) - 1]
        && right.Kids() == [old(left.Kids())[old(left.childCount) - 1]] + old(right.Kids())
    {
      hide InsertAt, DeleteAt, FirstGe, Replaced;
      var leftSubset, rightSubset := subset[i - 1], subset[i];
      if !leftSubset.IsLeaf() {
        TransferChildFromLeft(i, leftSubset, rightSubset);
        return;
      }
      var item := leftSubset.DetachData();
      SetData(i - 1, item);
      InsertIntoNone(item);
      rightSubset.InsertData(0, data[i - 1]);
    }

    /** The first child of the right neighbour goes to the short child. */
    method TransferChildFromRight(i: nat, left: Node, right: Node)
      requires Ok() && left.Ok() && right.Ok() && i < dataCount <= MAXIMUM
      requires Separate(this, left) && Separate(this, right) && Separate(left, right)
      requires right.dataCount > MINIMUM && left.dataCount < MINIMUM && 0 < right.childCount
      requires left.childCount <= MAXIMUM + 1
      modifies this`dataCount, data, right`dataCount, right.data, right`childCount, right.subset
      modifies left`dataCount, left.data, left`childCount, left.subset
      ensures Ok() && left.Ok() && right.Ok() && Kids() == old(Kids())
      ensures right.Items() == DeleteAt(old(right.Items()), 0) && left.Items() == [old(Items())[i]]
      ensures Items() == Replaced(old(Items()), i, old(right.Items())[0])
      ensures left.Kids() == old(left.Kids()) + [old(right.Kids())[0]] && right.Kids() == DeleteAt(old(right.Kids()), 0)
    {
      hide InsertAt, DeleteAt, FirstGe;
      PassDown(i, left);
      var item := right.DeleteData(0);
      OrderedInsertData(item);
      var node := right.DeleteKid(0);
      left.AttachKid(node);
    }

    /** The first item, or child, of the right neighbour goes to the short child. */
    method TransferFromRight(i: nat, ghost left: Node, ghost right: Node)
      requires Ok() && left.Ok() && right.Ok() && i + 1 < childCount && i < dataCount <= MAXIMUM && subset[i] == left
      requires subset[i + 1] == right
      requires Separate(this, left) && Separate(this, right) && Separate(left, right)
      requires right.dataCount > MINIMUM && left.dataCount < MINIMUM && left.childCount <= MAXIMUM + 1
      modifies this`dataCount, data, right`dataCount, right.data, right`childCount, right.subset
      modifies left`dataCount, left.data, left`childCount, left.subset
      ensures Ok() && left.Ok() && right.Ok() && Kids() == old(Kids())
      ensures right.Items() == DeleteAt(old(right.Items()), 0)
      ensures old(right.childCount) == 0 ==>
        && left.Items() == [old(right.Items())[0]] && Items() == old(Items())[i := old(right.Items())[1]]
        && left.Kids() == old(left.Kids()) && right.Kids() == old(right.Kids())
      ensures old(right.childCount) != 0 ==>
        && Items() == Replaced(old(Items()), i, old(right.Items())[0]) && left.Items() == [old(Items())[i]]
        && left.Kids() == old(left.Kids()) + [old(right.Kids())[0]] && right.Kids() == DeleteAt(old(right.Kids()), 0)
    {
      hide InsertAt, FirstGe, Replaced;
      var leftSubset, rightSubset := subset[i], subset[i + 1];
      if !rightSubset.IsLeaf() {
        TransferChildFromRight(i, leftSubset, rightSubset);
        return;
      }
      var entry := rightSubset.DeleteData(0);
      leftSubset.AttachData(entry);
      SetData(i, rightSubset.data[0]);
    }

    method Absorb(from: Node)
      requires Ok() && from.Ok() && Separate(this, from)
      requires dataCount + from.dataCount <= data.Length && childCount + from.childCount <= subset.Length
      modifies this`dataCount, data, this`childCount, subset, from`dataCount, from`childCount
      ensures Ok() && from.Ok() && from.dataCount == 0 && from.childCount == 0
      ensures Items() == old(Items()) + old(from.Items()) && Kids() == old(Kids()) + old(from.Kids())
    {
      MergeData(from);
      MergeKids(from);
    }

    /** The child behind `i` is merged into child `i` and dropped. */
    method MergeWithNextSubset(i: nat, ghost left: Node, ghost right: Node) returns (merged: Node)
      requires Ok() && left.Ok() && right.Ok() && i + 1 < childCount && i < dataCount && subset[i] == left
      requires subset[i + 1] == right
      requires Separate(this, left) && Separate(this, right) && Separate(left, right)
      requires left.dataCount + right.dataCount <= MINIMUM && left.childCount + right.childCount <= MAXIMUM + 2
      modifies this`dataCount, data, this`childCount, subset
      modifies left`dataCount, left.data, left`childCount, left.subset, left`next
      modifies right`dataCount, right`childCount
      ensures Ok() && left.Ok() && merged == left
      ensures Items() == DeleteAt(old(Items()), i) && Kids() == DeleteAt(old(Kids()), i + 1)
      ensures old(left.childCount) == 0 ==> left.Items() == old(left.Items()) + old(right.Items())
      ensures old(left.childCount) != 0 ==> left.Items() == old(left.Items()) + [old(Items())[i]] + old(right.Items())
      ensures left.Kids() == old(left.Kids()) + old(right.Kids())
      ensures left.next ==
                if old(left.childCount) == 0 && old(right.childCount) == 0 then old(right.next) else old(left.next)
    {
      hide FirstGe, InsertAt;
      var leftSubset, rightSubset := subset[i], subset[i + 1];
      var item := DeleteData(i);
      if !leftSubset.IsLeaf() {
        leftSubset.AttachData(item);
      }
      leftSubset.Absorb(rightSubset);
      var node := DeleteKid(i + 1);
      if leftSubset.IsLeaf() {
        leftSubset.next := node.next;
      }
      node.childCount := 0;
      merged := leftSubset;
    }
  }
}
