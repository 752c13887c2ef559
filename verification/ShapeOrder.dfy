/** Order in the 2-3 B+ tree: what makes a shape well formed, where a key
    belongs, and what insertion does to separators and leaves. */
module ShapeOrder {
  import opened Ordering
  import opened ArrayFunctions
  import opened BTreeNodes
  import opened HeapShapes

  // ----- ordered items

  ghost predicate Below(s: seq<Item>, k: Key) { forall i :: 0 <= i < |s| ==> KeyLess(s[i].key, k) }

  ghost predicate Above(s: seq<Item>, k: Key) { forall i :: 0 <= i < |s| ==> KeyLess(k, s[i].key) }

  ghost predicate Found(s: seq<Item>, k: Key) { FirstGe(s, k) < |s| && s[FirstGe(s, k)].key == k }

  ghost predicate HasKey(s: seq<Item>, k: Key) { exists i :: 0 <= i < |s| && s[i].key == k }

  lemma FoundIsMembership(s: seq<Item>, k: Key)
    requires Ascending(s)
    ensures Found(s, k) <==> HasKey(s, k)
  {
    hide KeyLess;
    KeyLessIsStrictTotalOrder();
    if i :| 0 <= i < |s| && s[i].key == k {
      var r := FirstGe(s, k);
      assert r <= i;
      assert !KeyLess(s[r].key, k);
    }
  }

  /** The set semantics of `insert`: an item with the key is left alone. */
  ghost function InsertByKey(s: seq<Item>, e: Item): seq<Item> {
    if Found(s, e.key) then s else InsertAt(s, FirstGe(s, e.key), e)
  }

  ghost function EraseByKey(s: seq<Item>, k: Key): seq<Item> {
    if Found(s, k) then DeleteAt(s, FirstGe(s, k)) else s
  }

  lemma AscendingSplit(a: seq<Item>, b: seq<Item>)
    ensures Ascending(a + b) <==>
              && Ascending(a) && Ascending(b)
              && forall i, j :: 0 <= i < |a| && 0 <= j < |b| ==> KeyLess(a[i].key, b[j].key)
  {
    hide KeyLess;
    var c := a + b;
    if Ascending(c) {
      forall i, j | 0 <= i < j < |a| ensures KeyLess(a[i].key, a[j].key) { assert c[i] == a[i] && c[j] == a[j]; }
      forall i, j | 0 <= i < j < |b|
        ensures KeyLess(b[i].key, b[j].key)
      {
        assert c[|a| + i] == b[i] && c[|a| + j] == b[j];
      }
      forall i, j | 0 <= i < |a| && 0 <= j < |b|
        ensures KeyLess(a[i].key, b[j].key)
      {
        assert c[i] == a[i] && c[|a| + j] == b[j];
      }
    }
  }

  lemma AboveFromFirst(s: seq<Item>, k: Key)
    requires Ascending(s) && s != [] && KeyLess(k, s[0].key)
    ensures Above(s, k)
  {
    hide KeyLess;
    forall i | 0 <= i < |s| ensures KeyLess(k, s[i].key) {
      if i > 0 { KeyLessTransitive(k, s[0].key, s[i].key); }
    }
  }

  lemma BelowBefore(a: seq<Item>, b: seq<Item>, k: Key)
    requires Ascending(a + b) && b != [] && (b[0].key == k || KeyLess(b[0].key, k))
    ensures Below(a, k)
  {
    hide KeyLess, Ascending;
    AscendingSplit(a, b);
    forall i | 0 <= i < |a| ensures KeyLess(a[i].key, k) {
      if b[0].key != k { KeyLessTransitive(a[i].key, b[0].key, k); }
    }
  }

  /** A key that belongs between two parts is looked up in the middle only. */
  lemma FirstGeBetween(a: seq<Item>, m: seq<Item>, b: seq<Item>, k: Key)
    requires Below(a, k) && Above(b, k)
    ensures FirstGe(a + m + b, k) == |a| + FirstGe(m, k)
    ensures Found(a + m + b, k) <==> Found(m, k)
  {
    hide KeyLess, FirstGe;
    KeyLessIsStrictTotalOrder();
    var s, r := a + m + b, FirstGe(m, k);
    FirstGeIs(s, k, |a| + r);
  }

  lemma InsertBetween(a: seq<Item>, m: seq<Item>, b: seq<Item>, e: Item)
    requires Below(a, e.key) && Above(b, e.key)
    ensures InsertByKey(a + m + b, e) == a + InsertByKey(m, e) + b
  {
    hide KeyLess, FirstGe, Below, Above;
    FirstGeBetween(a, m, b, e.key);
    SpliceInMiddle(a, m, b, FirstGe(m, e.key), [e]);
  }

  lemma EraseBetween(a: seq<Item>, m: seq<Item>, b: seq<Item>, k: Key)
    requires Below(a, k) && Above(b, k)
    ensures EraseByKey(a + m + b, k) == a + EraseByKey(m, k) + b
  {
    hide KeyLess, FirstGe, Below, Above;
    FirstGeBetween(a, m, b, k);
    if Found(m, k) {
      var r := FirstGe(m, k);
      var l, x, t := m[..r], [m[r]], m[r + 1..];
      assert m == l + x + t;
      assert a + m + b == (a + l) + (x + (t + b));
      assert DeleteAt(a + m + b, |a| + r) == (a + l) + (t + b);
    }
  }

  lemma InsertAscending(s: seq<Item>, e: Item)
    requires Ascending(s)
    ensures Ascending(InsertByKey(s, e))
  {
    hide KeyLess, FirstGe;
    KeyLessIsStrictTotalOrder();
    if !Found(s, e.key) {
      var r := FirstGe(s, e.key);
      assert forall i :: r <= i < |s| ==> KeyLess(e.key, s[i].key) by {
        forall i | r <= i < |s| ensures KeyLess(e.key, s[i].key) {
          assert r < i ==> KeyLess(s[r].key, s[i].key);
        }
      }
    }
  }

  lemma EraseAscending(s: seq<Item>, k: Key)
    requires Ascending(s)
    ensures Ascending(EraseByKey(s, k))
  {
    hide KeyLess, FirstGe;
  }

  // ----- well-formed shapes

  ghost predicate Sized(t: Shape) { MINIMUM <= |DataOf(t)| <= MAXIMUM }

  /** Every separator has the smallest key to its right. */
  ghost predicate SepsOk(seps: seq<Item>, kids: seq<Shape>) {
    |kids| == |seps| + 1 && forall i :: 1 <= i < |kids| ==> SepAt(seps, kids, i)
  }

  ghost predicate SepAt(seps: seq<Item>, kids: seq<Shape>, i: nat)
    requires 1 <= i < |kids| && i - 1 < |seps|
  {
    Entries(kids[i]) != [] && seps[i - 1].key == Entries(kids[i])[0].key
  }

  /** Equal leaf depth, sized children, exact separators; the node itself may
      have too few or too many items. */
  ghost predicate WF(t: Shape, h: nat)
    decreases t
  {
    match t
    case Leaf(_, _) => h == 0
    case Inner(_, seps, kids) =>
      && h >= 1 && SepsOk(seps, kids)
      && forall i :: 0 <= i < |kids| ==> WF(kids[i], h - 1) && Sized(kids[i]) && Entries(kids[i]) != []
  }

  /** All children are well formed, all but the one at `i` are full enough. */
  ghost predicate KidsBut(kids: seq<Shape>, h: nat, i: nat) {
    forall j :: 0 <= j < |kids| ==> WF(kids[j], h) && (j != i ==> Sized(kids[j]) && Entries(kids[j]) != [])
  }

  ghost predicate KidsWF(kids: seq<Shape>, h: nat) {
    forall j :: 0 <= j < |kids| ==> WF(kids[j], h) && Sized(kids[j]) && Entries(kids[j]) != []
  }

  lemma WFInner(t: Shape, h: nat)
    requires t.Inner?
    ensures WF(t, h) <==> h >= 1 && SepsOk(t.seps, t.kids) && KidsWF(t.kids, h - 1)
  {
  }

  /** The child in which a key is looked up. */
  ghost function RouteOf(seps: seq<Item>, k: Key): (i: nat)
    ensures i <= |seps|
  {
    if Found(seps, k) then FirstGe(seps, k) + 1 else FirstGe(seps, k)
  }

  lemma FirstOfAll(ts: seq<Shape>)
    requires ts != [] && Entries(ts[0]) != []
    ensures AllEntries(ts) != [] && AllEntries(ts)[0] == Entries(ts[0])[0]
  {
  }

  /** Everything left of the routed child is below the key, everything right of
      it above. */
  lemma RouteSeparates(seps: seq<Item>, kids: seq<Shape>, k: Key)
    requires SepsOk(seps, kids) && Ascending(AllEntries(kids))
    ensures var i := RouteOf(seps, k);
      && Below(AllEntries(kids[..i]), k) && Above(AllEntries(kids[i + 1..]), k)
      && (i > 0 ==> Entries(kids[i]) != [] && (Entries(kids[i])[0].key == k || KeyLess(Entries(kids[i])[0].key, k)))
      && (Found(seps, k) ==> i > 0 && Entries(kids[i])[0].key == k)
  {
    hide KeyLess, FirstGe, Ascending, Below, Above, Entries;
    var i := RouteOf(seps, k);
    var a, m, b := AllEntries(kids[..i]), Entries(kids[i]), AllEntries(kids[i + 1..]);
    WalkAround(kids, i);
    Reassociate(a, m, b);
    AscendingSplit(a, m + b);
    AscendingSplit(m, b);
    KeyLessIsStrictTotalOrder();
    if i > 0 {
      assert SepAt(seps, kids, i);
      AscendingSplit(a + m, b);
      BelowBefore(a, m, k);
    } else {
      assert kids[..0] == [];
      NothingBelow(k);
    }
    if i + 1 < |kids| {
      assert SepAt(seps, kids, i + 1);
      FirstOfAll(kids[i + 1..]);
      AboveFromFirst(b, k);
    } else {
      assert kids[i + 1..] == [];
      NothingBelow(k);
    }
  }

  lemma NothingBelow(k: Key)
    ensures Below(AllEntries([]), k) && Above(AllEntries([]), k)
  {
  }

  /** The separators are in order. */
  lemma SepsAscend(seps: seq<Item>, kids: seq<Shape>)
    requires SepsOk(seps, kids) && Ascending(AllEntries(kids))
    ensures Ascending(seps)
  {
    hide KeyLess, Ascending, Entries;
    forall i, j | 0 <= i < j < |seps| ensures KeyLess(seps[i].key, seps[j].key) {
      assert SepAt(seps, kids, i + 1) && SepAt(seps, kids, j + 1);
      EntriesInOrder(kids, i + 1, j + 1);
    }
    AscendingIs(seps);
  }

  lemma AscendingIs(s: seq<Item>)
    ensures Ascending(s) <==> forall i, j :: 0 <= i < j < |s| ==> KeyLess(s[i].key, s[j].key)
  {
    hide KeyLess;
  }

  lemma EntryAt(ts: seq<Shape>, i: nat, x: nat)
    requires i < |ts| && x < |Entries(ts[i])|
    ensures |AllEntries(ts[..i])| + x < |AllEntries(ts)|
    ensures AllEntries(ts)[|AllEntries(ts[..i])| + x] == Entries(ts[i])[x]
  {
    hide Entries, AllEntries;
    WalkAround(ts, i);
    InMiddle(AllEntries(ts[..i]), Entries(ts[i]), AllEntries(ts[i + 1..]));
  }

  /** Items of an earlier child come before those of a later one. */
  lemma EntriesInOrder(kids: seq<Shape>, i: nat, j: nat)
    requires i < j < |kids| && Ascending(AllEntries(kids))
    ensures forall x, y :: 0 <= x < |Entries(kids[i])| && 0 <= y < |Entries(kids[j])| ==>
              KeyLess(Entries(kids[i])[x].key, Entries(kids[j])[y].key)
  {
    hide KeyLess, Ascending, Entries, AllEntries;
    var a, b := kids[..j], kids[j..];
    assert kids == a + b && b[0] == kids[j] && a[i] == kids[i];
    WalkSplit(a, b);
    AscendingSplit(AllEntries(a), AllEntries(b));
    forall x, y | 0 <= x < |Entries(kids[i])| && 0 <= y < |Entries(kids[j])|
      ensures KeyLess(Entries(kids[i])[x].key, Entries(kids[j])[y].key)
    {
      EntryAt(a, i, x);
      EntryAt(b, 0, y);
    }
  }

  lemma InMiddle<T>(a: seq<T>, m: seq<T>, b: seq<T>)
    ensures forall x :: 0 <= x < |m| ==> (a + m + b)[|a| + x] == m[x]
  {
  }

  // ----- insertion

  /** The routed child took the item in. */
  lemma KidGrew(seps: seq<Item>, kids: seq<Shape>, h: nat, c: Shape, e: Item)
    requires SepsOk(seps, kids) && KidsWF(kids, h) && Ascending(AllEntries(kids))
    requires WF(c, h) && Entries(c) == InsertByKey(Entries(kids[RouteOf(seps, e.key)]), e)
    ensures var i := RouteOf(seps, e.key);
      && AllEntries(kids[i := c]) == InsertByKey(AllEntries(kids), e) && Ascending(AllEntries(kids[i := c]))
      && (Found(Entries(kids[i]), e.key) <==> Found(AllEntries(kids), e.key))
      && SepsOk(seps, kids[i := c]) && KidsBut(kids[i := c], h, i) && Entries(c) != []
  {
    hide KeyLess, FirstGe, Ascending, Below, Above, Entries, AllEntries, WF;
    var i := RouteOf(seps, e.key);
    var kids' := kids[i := c];
    RouteSeparates(seps, kids, e.key);
    WalkAround(kids, i);
    WalkAround(kids', i);
    assert kids'[..i] == kids[..i] && kids'[i + 1..] == kids[i + 1..];
    InsertBetween(AllEntries(kids[..i]), Entries(kids[i]), AllEntries(kids[i + 1..]), e);
    FirstGeBetween(AllEntries(kids[..i]), Entries(kids[i]), AllEntries(kids[i + 1..]), e.key);
    InsertAscending(AllEntries(kids), e);
    if i > 0 {
      assert SepAt(seps, kids, i);
      FirstStays(Entries(kids[i]), e);
    }
    ReplacedKidSeps(seps, kids, i, c);
  }

  /** Another child with the same first item keeps the separators. */
  lemma ReplacedKidSeps(seps: seq<Item>, kids: seq<Shape>, i: nat, c: Shape)
    requires SepsOk(seps, kids) && i < |kids|
    requires i > 0 ==> Entries(c) != [] && Entries(kids[i]) != [] && Entries(c)[0] == Entries(kids[i])[0]
    ensures SepsOk(seps, kids[i := c])
  {
    hide Entries;
    var kids' := kids[i := c];
    forall j | 1 <= j < |kids'| ensures SepAt(seps, kids', j) {
      assert SepAt(seps, kids, j);
    }
  }

  /** An item that is not below the first one leaves it the first one. */
  lemma FirstStays(s: seq<Item>, e: Item)
    requires s != [] && (s[0].key == e.key || KeyLess(s[0].key, e.key))
    ensures InsertByKey(s, e) != [] && InsertByKey(s, e)[0] == s[0]
  {
    hide KeyLess;
    KeyLessIsStrictTotalOrder();
  }

  // ----- splitting

  ghost function LowerHalf(c: Shape): Shape
    requires |DataOf(c)| == MAXIMUM + 1 && (c.Inner? ==> |c.kids| == MAXIMUM + 2)
  {
    match c
    case Leaf(n, items) => Leaf(n, items[..1])
    case Inner(n, seps, kids) => Inner(n, seps[..1], kids[..2])
  }

  ghost function UpperHalf(c: Shape, sp: Node): Shape
    requires |DataOf(c)| == MAXIMUM + 1 && (c.Inner? ==> |c.kids| == MAXIMUM + 2)
  {
    match c
    case Leaf(_, items) => Leaf(sp, items[1..])
    case Inner(_, seps, kids) => Inner(sp, seps[2..], kids[2..])
  }

  lemma HalvesOk(c: Shape, h: nat, sp: Node)
    requires WF(c, h) && |DataOf(c)| == MAXIMUM + 1
    ensures c.Inner? ==> |c.kids| == MAXIMUM + 2
    ensures var l, r := LowerHalf(c), UpperHalf(c, sp);
      && WF(l, h) && WF(r, h) && Sized(l) && Sized(r) && Entries(l) + Entries(r) == Entries(c)
      && Entries(l) != [] && Entries(r) != [] && DataOf(c)[1].key == Entries(r)[0].key
  {
    hide Entries, AllEntries;
    if c.Leaf? {
      LeafEntries(c);
      LeafEntries(LowerHalf(c));
      LeafEntries(UpperHalf(c, sp));
    } else {
      InnerHalves(c, h, sp);
    }
  }

  lemma LeafEntries(t: Shape)
    ensures t.Leaf? ==> Entries(t) == t.items
    ensures t.Inner? ==> Entries(t) == AllEntries(t.kids)
  {
  }

  lemma InnerHalves(c: Shape, h: nat, sp: Node)
    requires c.Inner? && WF(c, h) && |c.seps| == MAXIMUM + 1 && |c.kids| == MAXIMUM + 2
    ensures var l, r := LowerHalf(c), UpperHalf(c, sp);
      && WF(l, h) && WF(r, h) && Sized(l) && Sized(r) && Entries(l) + Entries(r) == Entries(c)
      && Entries(l) != [] && Entries(r) != [] && DataOf(c)[1].key == Entries(r)[0].key
  {
    hide Entries, AllEntries, WF;
    var l, r := LowerHalf(c), UpperHalf(c, sp);
    WFInner(c, h);
    WFInner(l, h);
    WFInner(r, h);
    assert c.kids == c.kids[..2] + c.kids[2..];
    WalkSplit(c.kids[..2], c.kids[2..]);
    LeafEntries(c);
    LeafEntries(l);
    LeafEntries(r);
    FirstOfAll(c.kids[..2]);
    FirstOfAll(c.kids[2..]);
    assert SepAt(c.seps, c.kids, 1) && SepAt(c.seps, c.kids, 2) && SepAt(c.seps, c.kids, 3);
    assert SepAt(l.seps, l.kids, 1) && SepAt(r.seps, r.kids, 1);
  }

  ghost function Split2(kids: seq<Shape>, i: nat, l: Shape, r: Shape): seq<Shape>
    requires i < |kids|
  {
    kids[..i] + [l, r] + kids[i + 1..]
  }

  lemma Split2Walk(kids: seq<Shape>, i: nat, l: Shape, r: Shape)
    requires i < |kids|
    ensures AllEntries(Split2(kids, i, l, r)) ==
              AllEntries(kids[..i]) + (Entries(l) + Entries(r)) + AllEntries(kids[i + 1..])
  {
    hide Entries, AllEntries;
    assert [l, r] == [l] + [r];
    WalkSplit(kids[..i] + [l, r], kids[i + 1..]);
    WalkSplit(kids[..i], [l, r]);
    WalkSplit([l], [r]);
    WalkOne(l);
    WalkOne(r);
  }

  /** The separator that comes out of child `i` belongs at place `i`. */
  lemma SepPlace(seps: seq<Item>, kids: seq<Shape>, i: nat, l: seq<Item>, r: seq<Item>)
    requires SepsOk(seps, kids) && Ascending(AllEntries(kids)) && i < |kids| && Entries(kids[i]) == l + r && l != []
    requires r != []
    ensures FirstGe(seps, r[0].key) == i
  {
    hide KeyLess, FirstGe, Ascending, Entries, AllEntries;
    KeyLessIsStrictTotalOrder();
    var k, n := r[0].key, |l|;
    assert Entries(kids[i])[n] == r[0];
    forall j | 0 <= j < i ensures KeyLess(seps[j].key, k) {
      assert SepAt(seps, kids, j + 1);
      if j + 1 < i {
        EntriesInOrder(kids, j + 1, i);
      } else {
        WithinKid(kids, i, 0, n);
      }
    }
    if i < |seps| {
      assert SepAt(seps, kids, i + 1);
      EntriesInOrder(kids, i, i + 1);
      assert KeyLess(Entries(kids[i])[n].key, Entries(kids[i + 1])[0].key);
      assert !KeyLess(seps[i].key, k);
    }
    FirstGeIs(seps, k, i);
  }

  lemma WithinKid(kids: seq<Shape>, i: nat, x: nat, y: nat)
    requires Ascending(AllEntries(kids)) && i < |kids| && x < y < |Entries(kids[i])|
    ensures KeyLess(Entries(kids[i])[x].key, Entries(kids[i])[y].key)
  {
    hide KeyLess, Entries, AllEntries;
    EntryAt(kids, i, x);
    EntryAt(kids, i, y);
  }

  lemma SplitKeeps(seps: seq<Item>, kids: seq<Shape>, h: nat, i: nat, sp: Node)
    requires SepsOk(seps, kids) && KidsBut(kids, h, i) && Ascending(AllEntries(kids)) && i < |kids|
    requires |DataOf(kids[i])| == MAXIMUM + 1
    requires Entries(kids[i]) != []
    ensures kids[i].Inner? ==> |kids[i].kids| == MAXIMUM + 2
    ensures var mid, l, r := DataOf(kids[i])[1], LowerHalf(kids[i]), UpperHalf(kids[i], sp);
      && FirstGe(seps, mid.key) == i && AllEntries(Split2(kids, i, l, r)) == AllEntries(kids)
      && KidsWF(Split2(kids, i, l, r), h) && SepsOk(InsertAt(seps, i, mid), Split2(kids, i, l, r))
  {
    hide KeyLess, FirstGe, Ascending, Entries, AllEntries, WF, LowerHalf, UpperHalf, InsertAt;
    HalvesOk(kids[i], h, sp);
    var mid, l, r := DataOf(kids[i])[1], LowerHalf(kids[i]), UpperHalf(kids[i], sp);
    SepPlace(seps, kids, i, Entries(l), Entries(r));
    WalkAround(kids, i);
    Split2Walk(kids, i, l, r);
    SplitSeps(seps, kids, i, l, r, mid);
  }

  lemma SplitSeps(seps: seq<Item>, kids: seq<Shape>, i: nat, l: Shape, r: Shape, mid: Item)
    requires SepsOk(seps, kids) && i < |kids| && Entries(l) != [] && Entries(r) != [] && mid.key == Entries(r)[0].key
    requires Entries(kids[i]) == Entries(l) + Entries(r)
    ensures SepsOk(InsertAt(seps, i, mid), Split2(kids, i, l, r))
  {
    hide Entries;
    var seps', kids' := InsertAt(seps, i, mid), Split2(kids, i, l, r);
    forall j | 1 <= j < |kids'| ensures SepAt(seps', kids', j) {
      if j <= i {
        assert SepAt(seps, kids, j);
      } else if j > i + 1 {
        assert SepAt(seps, kids, j - 1);
      }
    }
  }
}
