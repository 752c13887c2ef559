/** Order in the 2-3 B+ tree under removal: what borrowing and merging do to a
    pair of children, and which separator is out of date in between. */
module ShapeErase {
  import opened Ordering
  import opened ArrayFunctions
  import opened BTreeNodes
  import opened HeapShapes
  import opened ShapeOrder

  /** All separators are exact but the one left of child `d`; none if `d` is 0. */
  ghost predicate SepsBut(seps: seq<Item>, kids: seq<Shape>, d: nat) {
    |kids| == |seps| + 1 && forall i :: 1 <= i < |kids| && i != d ==> SepAt(seps, kids, i)
  }

  ghost predicate WFBut(t: Shape, h: nat, d: nat) {
    match t
    case Leaf(_, _) => h == 0
    case Inner(_, seps, kids) => h >= 1 && SepsBut(seps, kids, d) && KidsWF(kids, h - 1)
  }

  lemma ExactIsWF(t: Shape, h: nat)
    ensures WFBut(t, h, 0) <==> WF(t, h)
  {
    hide WF, Entries;
    if t.Leaf? { LeafWF(t, h); } else { WFInner(t, h); }
  }

  lemma LeafWF(t: Shape, h: nat)
    requires t.Leaf?
    ensures WF(t, h) <==> h == 0
  {
  }

  lemma SameKind(l: Shape, r: Shape, h: nat)
    requires WF(l, h) && WF(r, h)
    ensures l.Leaf? <==> r.Leaf?
    ensures l.Inner? ==>
              && h >= 1 && |l.kids| == |l.seps| + 1 && KidsWF(l.kids, h - 1) && KidsWF(r.kids, h - 1)
              && |r.kids| == |r.seps| + 1
    ensures l.Inner? ==> SepsOk(l.seps, l.kids) && SepsOk(r.seps, r.kids)
  {
    hide Entries;
  }

  // ----- joining and cutting lists of children

  lemma JoinSeps(lseps: seq<Item>, lkids: seq<Shape>, s: Item, rseps: seq<Item>, rkids: seq<Shape>, stale: bool)
    requires SepsOk(lseps, lkids) && SepsOk(rseps, rkids) && Entries(rkids[0]) != []
    requires !stale ==> s.key == Entries(rkids[0])[0].key
    ensures SepsBut(lseps + [s] + rseps, lkids + rkids, if stale then |lkids| else 0)
  {
    hide Entries;
    var seps, kids := lseps + [s] + rseps, lkids + rkids;
    forall i | 1 <= i < |kids| && i != (if stale then |lkids| else 0) ensures SepAt(seps, kids, i) {
      if i < |lkids| {
        assert SepAt(lseps, lkids, i);
      } else if i > |lkids| {
        assert SepAt(rseps, rkids, i - |lkids|);
      }
    }
  }

  lemma CutSeps(seps: seq<Item>, kids: seq<Shape>, n: nat)
    requires SepsOk(seps, kids) && n < |seps|
    ensures SepsOk(seps[..n], kids[..n + 1]) && SepsOk(seps[n + 1..], kids[n + 1..])
    ensures Entries(kids[n + 1]) != [] && seps[n].key == Entries(kids[n + 1])[0].key
  {
    hide Entries;
    assert SepAt(seps, kids, n + 1);
    var a, b, c, d := seps[..n], kids[..n + 1], seps[n + 1..], kids[n + 1..];
    forall i | 1 <= i < |b| ensures SepAt(a, b, i) { assert SepAt(seps, kids, i); }
    forall i | 1 <= i < |d| ensures SepAt(c, d, i) { assert SepAt(seps, kids, n + 1 + i); }
  }

  lemma OneKid(t: Shape)
    ensures SepsOk([], [t])
  {
  }

  lemma FirstOfKids(ts: seq<Shape>, h: nat)
    requires KidsWF(ts, h) && ts != []
    ensures AllEntries(ts) != [] && AllEntries(ts)[0] == Entries(ts[0])[0] && Entries(ts[0]) != []
  {
    hide Entries, WF, AllEntries;
    FirstOfAll(ts);
  }

  // ----- borrowing from the left

  ghost function GivesLast(l: Shape): Shape
    requires DataOf(l) != [] && (l.Inner? ==> |l.kids| == |l.seps| + 1)
  {
    match l
    case Leaf(n, items) => Leaf(n, items[..|items| - 1])
    case Inner(n, seps, kids) => Inner(n, seps[..|seps| - 1], kids[..|seps|])
  }

  ghost function TakesLast(l: Shape, s: Item, r: Shape): Shape
    requires DataOf(l) != [] && (l.Leaf? <==> r.Leaf?) && (l.Inner? ==> |l.kids| == |l.seps| + 1)
  {
    match r
    case Leaf(n, _) => Leaf(n, [l.items[|l.items| - 1]])
    case Inner(n, _, kids) => Inner(n, [s], [l.kids[|l.seps|]] + kids)
  }

  ghost function LastData(l: Shape): Item
    requires DataOf(l) != []
  {
    DataOf(l)[|DataOf(l)| - 1]
  }

  lemma BorrowLeftOk(l: Shape, s: Item, r: Shape, h: nat, stale: bool)
    requires WF(l, h) && |DataOf(l)| == MAXIMUM && Entries(l) != [] && WF(r, h) && DataOf(r) == []
    requires r.Inner? && !stale ==> Entries(r) != [] && s.key == Entries(r)[0].key
    ensures (l.Leaf? <==> r.Leaf?) && (l.Inner? ==> |l.kids| == |l.seps| + 1)
    ensures var l', r' := GivesLast(l), TakesLast(l, s, r);
      && Entries(l') + Entries(r') == Entries(l) + Entries(r) && WF(l', h) && Sized(l') && Sized(r')
      && Entries(l') != [] && Entries(r') != [] && LastData(l).key == Entries(r')[0].key
      && WFBut(r', h, if stale && r.Inner? then 1 else 0)
  {
    hide Entries, AllEntries, WF;
    SameKind(l, r, h);
    var l', r' := GivesLast(l), TakesLast(l, s, r);
    LeafEntries(l);
    LeafEntries(r);
    LeafEntries(l');
    LeafEntries(r');
    if l.Leaf? {
      LeafWF(l, h);
      LeafWF(l', h);
      assert l.items == l'.items + [l.items[1]];
    } else {
      BorrowChildLeft(l, s, r, h, stale);
    }
  }

  lemma MovedEntries(kids: seq<Shape>, front: seq<Shape>, last: Shape, more: seq<Shape>)
    requires kids == front + [last]
    ensures AllEntries(front) + AllEntries([last] + more) == AllEntries(kids) + AllEntries(more)
    ensures AllEntries([last] + more) == AllEntries([last]) + AllEntries(more)
  {
    hide AllEntries;
    WalkSplit(front, [last]);
    WalkSplit([last], more);
    Reassociate(AllEntries(front), AllEntries([last]), AllEntries(more));
  }

  lemma BorrowChildLeft(l: Shape, s: Item, r: Shape, h: nat, stale: bool)
    requires l.Inner? && r.Inner? && h >= 1 && |l.seps| == MAXIMUM && r.seps == []
    requires SepsOk(l.seps, l.kids) && SepsOk(r.seps, r.kids) && KidsWF(l.kids, h - 1) && KidsWF(r.kids, h - 1)
    requires !stale ==> AllEntries(r.kids) != [] && s.key == AllEntries(r.kids)[0].key
    ensures var l', r' := GivesLast(l), TakesLast(l, s, r);
      && AllEntries(l'.kids) + AllEntries(r'.kids) == AllEntries(l.kids) + AllEntries(r.kids) && WF(l', h) && Sized(l')
      && Sized(r')
      && AllEntries(l'.kids) != [] && AllEntries(r'.kids) != [] && LastData(l).key == AllEntries(r'.kids)[0].key
      && WFBut(r', h, if stale then 1 else 0)
  {
    hide Entries, AllEntries, WF;
    var l', r' := GivesLast(l), TakesLast(l, s, r);
    var last := l.kids[2];
    MovedEntries(l.kids, l'.kids, last, r.kids);
    CutSeps(l.seps, l.kids, 1);
    WFInner(l', h);
    FirstOfKids(l'.kids, h - 1);
    FirstOfKids(r.kids, h - 1);
    FirstOfKids(r'.kids, h - 1);
    OneKid(last);
    JoinSeps([], [last], s, r.seps, r.kids, stale);
    assert [] + [s] + r.seps == [s];
  }

  // ----- borrowing from the right

  ghost function TakesFirst(l: Shape, s: Item, r: Shape): Shape
    requires DataOf(r) != [] && (l.Leaf? <==> r.Leaf?) && (r.Inner? ==> r.kids != [])
  {
    match l
    case Leaf(n, _) => Leaf(n, [r.items[0]])
    case Inner(n, _, kids) => Inner(n, [s], kids + [r.kids[0]])
  }

  ghost function GivesFirst(r: Shape): Shape
    requires DataOf(r) != [] && (r.Inner? ==> r.kids != [])
  {
    match r
    case Leaf(n, items) => Leaf(n, DeleteAt(items, 0))
    case Inner(n, seps, kids) => Inner(n, DeleteAt(seps, 0), DeleteAt(kids, 0))
  }

  ghost function NextFirst(r: Shape): Item
    requires |DataOf(r)| >= 2
  {
    if r.Leaf? then r.items[1] else r.seps[0]
  }

  lemma BorrowRightOk(l: Shape, s: Item, r: Shape, h: nat)
    requires WF(l, h) && DataOf(l) == [] && WF(r, h) && |DataOf(r)| == MAXIMUM && Entries(r) != []
    requires s.key == Entries(r)[0].key
    ensures (l.Leaf? <==> r.Leaf?) && (r.Inner? ==> |r.kids| == |r.seps| + 1)
    ensures var l', r' := TakesFirst(l, s, r), GivesFirst(r);
      && Entries(l') + Entries(r') == Entries(l) + Entries(r) && WF(l', h) && WF(r', h) && Sized(l') && Sized(r')
      && Entries(l') != [] && Entries(r') != [] && NextFirst(r).key == Entries(r')[0].key
      && (Entries(l) != [] ==> Entries(l')[0] == Entries(l)[0])
  {
    hide Entries, AllEntries, WF;
    SameKind(l, r, h);
    var l', r' := TakesFirst(l, s, r), GivesFirst(r);
    LeafEntries(l);
    LeafEntries(r);
    LeafEntries(l');
    LeafEntries(r');
    if l.Leaf? {
      LeafWF(l, h);
      LeafWF(l', h);
      LeafWF(r', h);
      assert r.items == [r.items[0]] + r'.items;
    } else {
      BorrowChildRight(l, s, r, h);
    }
  }

  lemma BorrowChildRight(l: Shape, s: Item, r: Shape, h: nat)
    requires l.Inner? && r.Inner? && h >= 1 && l.seps == [] && |r.seps| == MAXIMUM
    requires SepsOk(l.seps, l.kids) && SepsOk(r.seps, r.kids) && KidsWF(l.kids, h - 1) && KidsWF(r.kids, h - 1)
    requires AllEntries(r.kids) != [] && s.key == AllEntries(r.kids)[0].key
    ensures var l', r' := TakesFirst(l, s, r), GivesFirst(r);
      && AllEntries(l'.kids) + AllEntries(r'.kids) == AllEntries(l.kids) + AllEntries(r.kids) && WF(l', h) && WF(r', h)
      && Sized(l') && Sized(r')
      && AllEntries(l'.kids) != [] && AllEntries(r'.kids) != [] && NextFirst(r).key == AllEntries(r'.kids)[0].key
      && AllEntries(l.kids) != [] && AllEntries(l'.kids)[0] == AllEntries(l.kids)[0]
  {
    hide Entries, AllEntries, WF, TakesFirst, GivesFirst;
    FirstChildMoves(l, s, r);
    FirstChildWF(l, s, r, h);
    FirstOfKids(r.kids, h - 1);
    FirstOfKids(l.kids, h - 1);
    FirstOfKids(TakesFirst(l, s, r).kids, h - 1);
    FirstOfKids(GivesFirst(r).kids, h - 1);
    CutSeps(r.seps, r.kids, 0);
  }

  lemma FirstChildMoves(l: Shape, s: Item, r: Shape)
    requires l.Inner? && r.Inner? && |r.seps| == MAXIMUM && |r.kids| == |r.seps| + 1 && l.kids != []
    ensures var l', r' := TakesFirst(l, s, r), GivesFirst(r);
      && AllEntries(l'.kids) + AllEntries(r'.kids) == AllEntries(l.kids) + AllEntries(r.kids)
      && l'.kids == l.kids + [r.kids[0]] && r'.kids == r.kids[1..] && l'.seps == [s] && r'.seps == r.seps[1..]
      && l'.Inner? && r'.Inner?
  {
    hide Entries, AllEntries;
    var first := r.kids[0];
    assert r.kids == [first] + r.kids[1..];
    assert GivesFirst(r).kids == r.kids[1..] && GivesFirst(r).seps == r.seps[1..];
    WalkSplit([first], r.kids[1..]);
    WalkSplit(l.kids, [first]);
    Reassociate(AllEntries(l.kids), AllEntries([first]), AllEntries(r.kids[1..]));
  }

  lemma FirstChildWF(l: Shape, s: Item, r: Shape, h: nat)
    requires l.Inner? && r.Inner? && h >= 1 && l.seps == [] && |r.seps| == MAXIMUM
    requires SepsOk(l.seps, l.kids) && SepsOk(r.seps, r.kids) && KidsWF(l.kids, h - 1) && KidsWF(r.kids, h - 1)
    requires AllEntries(r.kids) != [] && s.key == AllEntries(r.kids)[0].key
    ensures WF(TakesFirst(l, s, r), h) && WF(GivesFirst(r), h) && KidsWF(TakesFirst(l, s, r).kids, h - 1)
    ensures KidsWF(GivesFirst(r).kids, h - 1)
  {
    hide Entries, AllEntries, WF, TakesFirst, GivesFirst;
    var l', r', first := TakesFirst(l, s, r), GivesFirst(r), r.kids[0];
    FirstChildMoves(l, s, r);
    CutSeps(r.seps, r.kids, 0);
    FirstOfKids(r.kids, h - 1);
    OneKid(first);
    JoinSeps(l.seps, l.kids, s, [], [first], false);
    assert l.seps + [s] + [] == [s];
    WFInner(r', h);
    ExactIsWF(l', h);
  }

  // ----- merging

  ghost function Joined(l: Shape, s: Item, r: Shape): Shape
    requires l.Leaf? <==> r.Leaf?
  {
    match l
    case Leaf(n, items) => Leaf(n, items + r.items)
    case Inner(n, seps, kids) => Inner(n, seps + [s] + r.seps, kids + r.kids)
  }

  lemma MergeOk(l: Shape, s: Item, r: Shape, h: nat, stale: bool)
    requires WF(l, h) && WF(r, h) && |DataOf(l)| + |DataOf(r)| == MINIMUM
    requires l.Inner? && !stale ==> Entries(r) != [] && s.key == Entries(r)[0].key
    ensures l.Leaf? <==> r.Leaf?
    ensures var m := Joined(l, s, r);
      && Entries(m) == Entries(l) + Entries(r) && Sized(m) && Entries(m) != []
      && (l.Inner? ==> |l.kids| == |l.seps| + 1) && WFBut(m, h, if stale && l.Inner? then |l.kids| else 0)
  {
    hide Entries, AllEntries, WF;
    SameKind(l, r, h);
    var m := Joined(l, s, r);
    LeafEntries(l);
    LeafEntries(r);
    LeafEntries(m);
    if l.Leaf? {
      LeafWF(l, h);
    } else {
      WalkSplit(l.kids, r.kids);
      FirstOfKids(l.kids, h - 1);
      FirstOfKids(r.kids, h - 1);
      JoinSeps(l.seps, l.kids, s, r.seps, r.kids, stale);
    }
  }

  // ----- a rearranged pair among its siblings

  ghost function Pair2(kids: seq<Shape>, j: nat, l: Shape, r: Shape): seq<Shape>
    requires j + 1 < |kids|
  {
    kids[..j] + [l, r] + kids[j + 2..]
  }

  ghost function Pair1(kids: seq<Shape>, j: nat, m: Shape): seq<Shape>
    requires j + 1 < |kids|
  {
    kids[..j] + [m] + kids[j + 2..]
  }

  lemma PairEntries(kids: seq<Shape>, j: nat)
    requires j + 1 < |kids|
    ensures AllEntries(kids) ==
              AllEntries(kids[..j]) + (Entries(kids[j]) + Entries(kids[j + 1])) + AllEntries(kids[j + 2..])
    ensures forall l, r ::
              AllEntries(Pair2(kids, j, l, r)) ==
                AllEntries(kids[..j]) + (Entries(l) + Entries(r)) + AllEntries(kids[j + 2..])
    ensures forall m :: AllEntries(Pair1(kids, j, m)) == AllEntries(kids[..j]) + Entries(m) + AllEntries(kids[j + 2..])
  {
    hide Entries, AllEntries;
    var a, b := kids[..j], kids[j + 2..];
    forall l, r
      ensures AllEntries(Pair2(kids, j, l, r)) == AllEntries(a) + (Entries(l) + Entries(r)) + AllEntries(b)
    {
      TwoBetween(a, l, r, b);
    }
    forall m
      ensures AllEntries(Pair1(kids, j, m)) == AllEntries(a) + Entries(m) + AllEntries(b)
    {
      OneBetween(a, m, b);
    }
    assert kids == Pair2(kids, j, kids[j], kids[j + 1]);
  }

  lemma TwoBetween(a: seq<Shape>, l: Shape, r: Shape, b: seq<Shape>)
    ensures AllEntries(a + [l, r] + b) == AllEntries(a) + (Entries(l) + Entries(r)) + AllEntries(b)
  {
    hide Entries, AllEntries;
    assert [l, r] == [l] + [r];
    WalkSplit(a + [l, r], b);
    WalkSplit(a, [l, r]);
    WalkSplit([l], [r]);
    WalkOne(l);
    WalkOne(r);
  }

  lemma OneBetween(a: seq<Shape>, m: Shape, b: seq<Shape>)
    ensures AllEntries(a + [m] + b) == AllEntries(a) + Entries(m) + AllEntries(b)
  {
    hide Entries, AllEntries;
    WalkSplit(a + [m], b);
    WalkSplit(a, [m]);
    WalkOne(m);
  }

  lemma PairKept(seps: seq<Item>, kids: seq<Shape>, d: nat, j: nat, s: Item, l: Shape, r: Shape)
    requires SepsBut(seps, kids, d) && j + 1 < |kids|
    requires Entries(l) + Entries(r) == Entries(kids[j]) + Entries(kids[j + 1])
    requires Entries(l) != [] && Entries(r) != [] && s.key == Entries(r)[0].key
    ensures AllEntries(Pair2(kids, j, l, r)) == AllEntries(kids)
    ensures SepsBut(seps[j := s], Pair2(kids, j, l, r), if d == j + 1 then 0 else d)
  {
    hide Entries, AllEntries;
    PairEntries(kids, j);
    var seps', kids' := seps[j := s], Pair2(kids, j, l, r);
    forall i | 1 <= i < |kids'| && i != (if d == j + 1 then 0 else d) ensures SepAt(seps', kids', i) {
      if i != j + 1 {
        assert SepAt(seps, kids, i);
        if i == j {
          SameFirst(Entries(l), Entries(r), Entries(kids[j]), Entries(kids[j + 1]));
        }
      }
    }
  }

  lemma SameFirst<T>(a: seq<T>, b: seq<T>, c: seq<T>, d: seq<T>)
    requires a + b == c + d && a != [] && c != []
    ensures a[0] == c[0]
  {
    assert a[0] == (a + b)[0] == (c + d)[0];
  }

  lemma PairMerged(seps: seq<Item>, kids: seq<Shape>, d: nat, j: nat, m: Shape)
    requires SepsBut(seps, kids, d) && j + 1 < |kids| && d <= j + 1
    requires Entries(m) == Entries(kids[j]) + Entries(kids[j + 1]) && Entries(m) != []
    ensures AllEntries(Pair1(kids, j, m)) == AllEntries(kids)
    ensures SepsBut(DeleteAt(seps, j), Pair1(kids, j, m), if d == j + 1 then 0 else d)
  {
    hide Entries, AllEntries;
    PairEntries(kids, j);
    var seps', kids' := DeleteAt(seps, j), Pair1(kids, j, m);
    forall i | 1 <= i < |kids'| && i != (if d == j + 1 then 0 else d) ensures SepAt(seps', kids', i) {
      if i <= j {
        assert SepAt(seps, kids, i);
      } else {
        assert SepAt(seps, kids, i + 1);
      }
    }
  }

  /** The separator put back by `ordered_insert` lands where one was taken. */
  lemma ReplacedInPlace(seps: seq<Item>, j: nat, x: Item)
    requires Ascending(seps) && j < |seps| && (j > 0 ==> KeyLess(seps[j - 1].key, x.key))
    requires j + 1 < |seps| ==> KeyLess(x.key, seps[j + 1].key)
    ensures Replaced(seps, j, x) == seps[j := x]
  {
    hide KeyLess, FirstGe;
    KeyLessIsStrictTotalOrder();
    var rest := DeleteAt(seps, j);
    forall i | 0 <= i < j ensures KeyLess(rest[i].key, x.key) {
      assert i < j - 1 ==> KeyLess(seps[i].key, seps[j - 1].key);
    }
    if j < |rest| { assert rest[j] == seps[j + 1]; }
    FirstGeIs(rest, x.key, j);
  }

  /** Items of two children and the separator between and behind them. */
  lemma AroundPair(seps: seq<Item>, kids: seq<Shape>, d: nat, j: nat)
    requires SepsBut(seps, kids, d) && Ascending(AllEntries(kids)) && j < |kids|
    ensures j > 0 && d != j ==>
              forall x :: 0 < x < |Entries(kids[j])| ==> KeyLess(seps[j - 1].key, Entries(kids[j])[x].key)
    ensures j + 1 < |kids| && d != j + 1 ==>
              forall x :: 0 <= x < |Entries(kids[j])| ==> KeyLess(Entries(kids[j])[x].key, seps[j].key)
  {
    hide KeyLess, Ascending, Entries, AllEntries;
    if j > 0 && d != j {
      assert SepAt(seps, kids, j);
      forall x | 0 < x < |Entries(kids[j])|
        ensures KeyLess(seps[j - 1].key, Entries(kids[j])[x].key)
      {
        WithinKid(kids, j, 0, x);
      }
    }
    if j + 1 < |kids| && d != j + 1 {
      assert SepAt(seps, kids, j + 1);
      EntriesInOrder(kids, j, j + 1);
    }
  }

  /** Every item of a node has the key of an entry below it. */
  lemma DataIsEntry(t: Shape, h: nat, x: nat) returns (y: nat)
    requires WF(t, h) && x < |DataOf(t)| && (t.Leaf? ==> x > 0)
    ensures 0 < y < |Entries(t)| && Entries(t)[y].key == DataOf(t)[x].key
  {
    hide Entries, AllEntries;
    LeafEntries(t);
    if t.Leaf? {
      y := x;
    } else {
      assert SepAt(t.seps, t.kids, x + 1);
      EntryAt(t.kids, x + 1, 0);
      y := |AllEntries(t.kids[..x + 1])|;
      FirstOfAll(t.kids[..x + 1]);
    }
  }

  lemma TakenFromLeft(seps: seq<Item>, kids: seq<Shape>, h: nat, d: nat, j: nat, x: nat)
    requires SepsBut(seps, kids, d) && Ascending(seps) && Ascending(AllEntries(kids)) && j < |seps|
    requires d == 0 || (d != j && d != j + 2)
    requires WF(kids[j], h) && x < |DataOf(kids[j])| && (kids[j].Leaf? ==> x > 0)
    ensures Replaced(seps, j, DataOf(kids[j])[x]) == seps[j := DataOf(kids[j])[x]]
  {
    hide KeyLess, Ascending, Entries, AllEntries, WF, Replaced;
    var y := DataIsEntry(kids[j], h, x);
    AroundPair(seps, kids, d, j);
    if j + 1 < |seps| {
      assert SepAt(seps, kids, j + 2);
      EntriesInOrder(kids, j, j + 2);
    }
    ReplacedInPlace(seps, j, DataOf(kids[j])[x]);
  }

  lemma TakenFromRight(seps: seq<Item>, kids: seq<Shape>, h: nat, d: nat, j: nat, x: nat)
    requires SepsBut(seps, kids, d) && Ascending(seps) && Ascending(AllEntries(kids)) && j < |seps| && d <= j
    requires WF(kids[j + 1], h) && x < |DataOf(kids[j + 1])| && (kids[j + 1].Leaf? ==> x > 0)
    ensures Replaced(seps, j, DataOf(kids[j + 1])[x]) == seps[j := DataOf(kids[j + 1])[x]]
  {
    hide KeyLess, Entries, AllEntries, WF, Replaced;
    var item := DataOf(kids[j + 1])[x];
    var y := DataIsEntry(kids[j + 1], h, x);
    AroundPair(seps, kids, d, j + 1);
    assert KeyLess(seps[j].key, item.key);
    if j > 0 { KeyLessTransitive(seps[j - 1].key, seps[j].key, item.key); }
    ReplacedInPlace(seps, j, item);
  }

  // ----- the short child

  /** Child `i` has no items; the separator left of child `d` may be stale. */
  ghost predicate ShortOrder(t: Shape, h: nat, i: nat, d: nat) {
    && t.Inner? && i < |t.kids| && h >= 1 && (d == 0 || d == i) && 1 <= |t.seps| <= MAXIMUM
    && SepsBut(t.seps, t.kids, d) && KidsBut(t.kids, h - 1, i) && DataOf(t.kids[i]) == []
    && Ascending(t.seps) && Ascending(AllEntries(t.kids))
    && (d != 0 ==> Below(AllEntries(t.kids[..i]), t.seps[d - 1].key))
  }

  /** The shape after the shortage was fixed: child `f` took part, and the one
      stale separator is at `d` in the node or at `q` in that child. */
  datatype Repair = Repair(t: Shape, f: nat, q: nat, d: nat)

  ghost predicate Mended(m: Repair, h: nat) {
    && m.t.Inner? && h >= 1 && m.f < |m.t.kids| && SepsBut(m.t.seps, m.t.kids, m.d) && WFBut(m.t.kids[m.f], h - 1, m.q)
    && forall j :: 0 <= j < |m.t.kids| ==>
         Sized(m.t.kids[j]) && Entries(m.t.kids[j]) != [] && (j != m.f ==> WF(m.t.kids[j], h - 1))
  }

  ghost predicate FindsAt(seps: seq<Item>, k: Key, d: nat) {
    1 <= d <= |seps| && FirstGe(seps, k) == d - 1 && seps[d - 1].key == k
  }

  /** A search for the stale key finds the stale separator. */
  ghost predicate Locates(m: Repair, k: Key)
    requires m.t.Inner? && m.f < |m.t.kids|
  {
    && (m.d != 0 ==> FindsAt(m.t.seps, k, m.d))
    && (m.q != 0 ==> m.d == 0 && m.t.kids[m.f].Inner? && FindsAt(m.t.kids[m.f].seps, k, m.q))
  }

  /** What fixing the shortage of `t` may leave. */
  ghost predicate After(t: Shape, m: Repair, h: nat, d: nat) {
    && t.Inner? && Mended(m, h) && m.t.node == t.node && AllEntries(m.t.kids) == AllEntries(t.kids)
    && |t.seps| - 1 <= |m.t.seps| <= |t.seps|
    && (d == 0 ==> m.q == 0 && m.d == 0) && (1 <= d <= |t.seps| ==> Locates(m, t.seps[d - 1].key))
  }

  lemma ShortPair(t: Shape, h: nat, i: nat, d: nat, j: nat)
    requires ShortOrder(t, h, i, d) && j + 1 < |t.kids| && (j == i || j + 1 == i)
    ensures |t.kids| == |t.seps| + 1 && WF(t.kids[j], h - 1) && WF(t.kids[j + 1], h - 1)
    ensures t.kids[j].Leaf? <==> t.kids[j + 1].Leaf?
    ensures t.kids[j].Inner? ==>
              |t.kids[j].kids| == |t.kids[j].seps| + 1 && |t.kids[j + 1].kids| == |t.kids[j + 1].seps| + 1
    ensures j + 1 != d ==> Entries(t.kids[j + 1]) != [] && t.seps[j].key == Entries(t.kids[j + 1])[0].key
    ensures j == i ==> Entries(t.kids[j + 1]) != []
    ensures j + 1 == i ==> Entries(t.kids[j]) != []
    ensures forall x :: 0 <= x < |t.kids| && x != j && x != j + 1 ==>
              WF(t.kids[x], h - 1) && Sized(t.kids[x]) && Entries(t.kids[x]) != []
  {
    hide Entries, AllEntries, WF;
    SameKind(t.kids[j], t.kids[j + 1], h - 1);
    if j + 1 != d { assert SepAt(t.seps, t.kids, j + 1); }
  }

  lemma BorrowLeftMends(t: Shape, h: nat, i: nat, d: nat)
    requires ShortOrder(t, h, i, d) && i > 0 && |DataOf(t.kids[i - 1])| == MAXIMUM
    ensures var l, r, j := t.kids[i - 1], t.kids[i], i - 1;
      && (l.Leaf? <==> r.Leaf?) && (l.Inner? ==> |l.kids| == |l.seps| + 1 && |r.kids| == 1) && |t.kids| == |t.seps| + 1
      && (l.Inner? ==> Replaced(t.seps, j, LastData(l)) == t.seps[j := LastData(l)])
      && var t' := Inner(t.node, t.seps[j := LastData(l)], Pair2(t.kids, j, GivesLast(l), TakesLast(l, t.seps[j], r)));
         After(t, Repair(t', i, if d != 0 && r.Inner? then 1 else 0, 0), h, d)
  {
    hide Entries, AllEntries, WF, WFBut, GivesLast, TakesLast, KeyLess, Replaced;
    var l, r, j := t.kids[i - 1], t.kids[i], i - 1;
    ShortPair(t, h, i, d, j);
    var l', r' := GivesLast(l), TakesLast(l, t.seps[j], r);
    BorrowLeftOk(l, t.seps[j], r, h - 1, d != 0);
    PairKept(t.seps, t.kids, d, j, LastData(l), l', r');
    if l.Inner? { TakenFromLeft(t.seps, t.kids, h - 1, d, j, MAXIMUM - 1); }
    ExactIsWF(r', h - 1);
    FindsOnly(t.seps[j]);
    TakenSeps(l, t.seps[j], r);
  }

  lemma TakenSeps(l: Shape, s: Item, r: Shape)
    requires DataOf(l) != [] && (l.Leaf? <==> r.Leaf?) && (l.Inner? ==> |l.kids| == |l.seps| + 1)
    ensures TakesLast(l, s, r).node == r.node
    ensures r.Inner? ==> TakesLast(l, s, r).Inner? && TakesLast(l, s, r).seps == [s]
  {
  }

  lemma FindsOnly(s: Item)
    ensures FindsAt([s], s.key, 1)
  {
    KeyLessIsStrictTotalOrder();
  }

  lemma FindsKept(seps: seq<Item>, d: nat, i: nat, x: Item)
    requires Ascending(seps) && 1 <= d <= i < |seps|
    ensures FindsAt(seps[i := x], seps[d - 1].key, d)
  {
    hide KeyLess, FirstGe;
    KeyLessIsStrictTotalOrder();
    FirstGeIs(seps[i := x], seps[d - 1].key, d - 1);
  }

  lemma FindsLast(seps: seq<Item>, s: Item)
    requires Below(seps, s.key)
    ensures FindsAt(seps + [s], s.key, |seps| + 1)
  {
    hide KeyLess, FirstGe;
    KeyLessIsStrictTotalOrder();
    FirstGeIs(seps + [s], s.key, |seps|);
  }

  lemma BorrowRightMends(t: Shape, h: nat, i: nat, d: nat)
    requires ShortOrder(t, h, i, d) && i + 1 < |t.kids| && |DataOf(t.kids[i + 1])| == MAXIMUM
    ensures var l, r := t.kids[i], t.kids[i + 1];
      && (l.Leaf? <==> r.Leaf?) && (l.Inner? ==> |r.kids| == |r.seps| + 1 && |l.kids| == 1) && |t.kids| == |t.seps| + 1
      && (l.Inner? ==> Replaced(t.seps, i, NextFirst(r)) == t.seps[i := NextFirst(r)])
      && var t' := Inner(t.node, t.seps[i := NextFirst(r)],
          Pair2(t.kids, i, TakesFirst(l, t.seps[i], r), GivesFirst(r)));
         After(t, Repair(t', i, 0, d), h, d)
  {
    hide Entries, AllEntries, WF, WFBut, GivesFirst, TakesFirst, KeyLess, Replaced;
    var l, r := t.kids[i], t.kids[i + 1];
    ShortPair(t, h, i, d, i);
    var l', r' := TakesFirst(l, t.seps[i], r), GivesFirst(r);
    BorrowRightOk(l, t.seps[i], r, h - 1);
    PairKept(t.seps, t.kids, d, i, NextFirst(r), l', r');
    if l.Inner? { TakenFromRight(t.seps, t.kids, h - 1, d, i, 0); }
    ExactIsWF(l', h - 1);
    if d != 0 { FindsKept(t.seps, d, i, NextFirst(r)); }
  }

  lemma MergeMends(t: Shape, h: nat, i: nat, d: nat, j: nat)
    requires ShortOrder(t, h, i, d) && j + 1 < |t.kids| && (j + 1 == i || (j == i && d == 0))
    requires |DataOf(t.kids[j])| + |DataOf(t.kids[j + 1])| == MINIMUM
    ensures var l, r := t.kids[j], t.kids[j + 1];
      && (l.Leaf? <==> r.Leaf?) && (l.Inner? ==> |l.kids| == |l.seps| + 1 && |r.kids| == |r.seps| + 1)
      && |t.kids| == |t.seps| + 1
      && var t' := Inner(t.node, DeleteAt(t.seps, j), Pair1(t.kids, j, Joined(l, t.seps[j], r)));
         After(t, Repair(t', j, if d != 0 && l.Inner? then |l.kids| else 0, 0), h, d)
  {
    hide Entries, AllEntries, WF, WFBut, Joined, KeyLess;
    var l, r := t.kids[j], t.kids[j + 1];
    ShortPair(t, h, i, d, j);
    var m := Joined(l, t.seps[j], r);
    MergeOk(l, t.seps[j], r, h - 1, d != 0);
    PairMerged(t.seps, t.kids, d, j, m);
    ExactIsWF(m, h - 1);
    if d != 0 && l.Inner? {
      LeftSepsBelow(t, h, i);
      FindsLast(l.seps, t.seps[j]);
      JoinedSeps(l, t.seps[j], r);
    }
  }

  lemma JoinedSeps(l: Shape, s: Item, r: Shape)
    requires l.Inner? && r.Inner? && r.seps == []
    ensures Joined(l, s, r).Inner? && Joined(l, s, r).seps == l.seps + [s]
  {
  }

  lemma LeftSepsBelow(t: Shape, h: nat, i: nat)
    requires ShortOrder(t, h, i, i) && i > 0 && t.kids[i - 1].Inner?
    ensures Below(t.kids[i - 1].seps, t.seps[i - 1].key)
  {
    hide Entries, AllEntries, WF, KeyLess;
    var l := t.kids[i - 1];
    forall x | 0 <= x < |l.seps| ensures KeyLess(l.seps[x].key, t.seps[i - 1].key) {
      var y := DataIsEntry(l, h - 1, x);
      assert t.kids[..i][i - 1] == l;
      EntryAt(t.kids[..i], i - 1, y);
    }
  }

  // ----- after the recursive call

  /** A removed key that is not the first leaves the first item. */
  lemma FirstRemains(s: seq<Item>, k: Key)
    requires s != [] && KeyLess(s[0].key, k)
    ensures EraseByKey(s, k) != [] && EraseByKey(s, k)[0] == s[0]
  {
    hide KeyLess;
    KeyLessIsStrictTotalOrder();
  }

  lemma ErasedIsGone(s: seq<Item>, k: Key)
    requires Ascending(s)
    ensures !HasKey(EraseByKey(s, k), k)
  {
    hide KeyLess;
    KeyLessIsStrictTotalOrder();
    FoundIsMembership(s, k);
    if Found(s, k) {
      var r := FirstGe(s, k);
      forall i | 0 <= i < |s| - 1 ensures DeleteAt(s, r)[i].key != k {
        assert i < r ==> KeyLess(s[i].key, k);
        assert i >= r ==> KeyLess(s[r].key, s[i + 1].key);
      }
    }
  }

  lemma FirstIsFound(s: seq<Item>, k: Key)
    requires s != [] && s[0].key == k
    ensures Found(s, k)
  {
    KeyLessIsStrictTotalOrder();
  }

  /** The routed child lost the key, if it had it. */
  lemma KidShrank(seps: seq<Item>, kids: seq<Shape>, h: nat, c: Shape, k: Key)
    requires SepsOk(seps, kids) && KidsWF(kids, h) && Ascending(AllEntries(kids))
    requires WF(c, h) && Entries(c) == EraseByKey(Entries(kids[RouteOf(seps, k)]), k)
    ensures var i := RouteOf(seps, k); var kids' := kids[i := c];
      && AllEntries(kids') == EraseByKey(AllEntries(kids), k) && Ascending(AllEntries(kids'))
      && !HasKey(AllEntries(kids'), k)
      && (Found(Entries(kids[i]), k) <==> Found(AllEntries(kids), k)) && (Found(seps, k) ==> Found(AllEntries(kids), k))
      && SepsBut(seps, kids', if Found(seps, k) then i else 0) && KidsBut(kids', h, i)
      && (Found(seps, k) ==> i > 0 && seps[i - 1].key == k && Below(AllEntries(kids'[..i]), k))
  {
    hide KeyLess, FirstGe, Ascending, Below, Above, Entries, AllEntries, WF, HasKey, EraseByKey, RouteOf, Found,
      SepsBut, SepsOk;
    var i := RouteOf(seps, k);
    RouteSize(seps, kids);
    RouteSeparates(seps, kids, k);
    ShrunkEntries(kids, i, c, k);
    if Found(seps, k) { FirstIsFound(Entries(kids[i]), k); }
    RouteFirst(seps, kids, k);
    ShrunkSeps(seps, kids, i, c, k);
    assert kids[i := c][..i] == kids[..i];
  }

  lemma RouteSize(seps: seq<Item>, kids: seq<Shape>)
    requires SepsOk(seps, kids)
    ensures |kids| == |seps| + 1
  {
  }

  lemma RouteFirst(seps: seq<Item>, kids: seq<Shape>, k: Key)
    requires SepsOk(seps, kids)
    ensures var i := RouteOf(seps, k);
      i > 0 ==>
        Entries(kids[i]) != [] && (if Found(seps, k) then seps[i - 1].key == k else KeyLess(Entries(kids[i])[0].key, k))
  {
    hide Entries, KeyLess;
    var i := RouteOf(seps, k);
    if i > 0 { assert SepAt(seps, kids, i); }
  }

  lemma ShrunkEntries(kids: seq<Shape>, i: nat, c: Shape, k: Key)
    requires i < |kids| && Ascending(AllEntries(kids)) && Below(AllEntries(kids[..i]), k)
    requires Above(AllEntries(kids[i + 1..]), k)
    requires Entries(c) == EraseByKey(Entries(kids[i]), k)
    ensures AllEntries(kids[i := c]) == EraseByKey(AllEntries(kids), k) && Ascending(AllEntries(kids[i := c]))
    ensures !HasKey(AllEntries(kids[i := c]), k) && (Found(Entries(kids[i]), k) <==> Found(AllEntries(kids), k))
  {
    hide KeyLess, FirstGe, Ascending, Below, Above, Entries, AllEntries, HasKey, EraseByKey, Found;
    var kids' := kids[i := c];
    WalkAround(kids, i);
    WalkAround(kids', i);
    assert kids'[..i] == kids[..i] && kids'[i + 1..] == kids[i + 1..];
    EraseBetween(AllEntries(kids[..i]), Entries(kids[i]), AllEntries(kids[i + 1..]), k);
    FirstGeBetween(AllEntries(kids[..i]), Entries(kids[i]), AllEntries(kids[i + 1..]), k);
    EraseAscending(AllEntries(kids), k);
    ErasedIsGone(AllEntries(kids), k);
  }

  lemma ShrunkSeps(seps: seq<Item>, kids: seq<Shape>, i: nat, c: Shape, k: Key)
    requires SepsOk(seps, kids) && i < |kids| && Entries(c) == EraseByKey(Entries(kids[i]), k)
    requires i > 0 && !Found(seps, k) ==> Entries(kids[i]) != [] && KeyLess(Entries(kids[i])[0].key, k)
    ensures SepsBut(seps, kids[i := c], if Found(seps, k) then i else 0)
  {
    hide KeyLess, FirstGe, Entries, EraseByKey, Found;
    var kids' := kids[i := c];
    forall j | 1 <= j < |kids'| && j != (if Found(seps, k) then i else 0) ensures SepAt(seps, kids', j) {
      assert SepAt(seps, kids, j);
      if j == i { FirstRemains(Entries(kids[i]), k); }
    }
  }

  // ----- repair

  /** An exact separator is the key of some entry. */
  lemma AbsentFromSeps(seps: seq<Item>, kids: seq<Shape>, k: Key)
    requires SepsOk(seps, kids) && !HasKey(AllEntries(kids), k)
    ensures !Found(seps, k)
  {
    hide Entries, AllEntries, KeyLess;
    if Found(seps, k) {
      var x := FirstGe(seps, k);
      assert SepAt(seps, kids, x + 1);
      EntryAt(kids, x + 1, 0);
    }
  }

  lemma AbsentFromKid(kids: seq<Shape>, f: nat, h: nat, k: Key)
    requires f < |kids| && WF(kids[f], h) && !HasKey(AllEntries(kids), k)
    ensures !Found(DataOf(kids[f]), k)
  {
    hide Entries, AllEntries, KeyLess, WF, FirstGe;
    var c := kids[f];
    if Found(DataOf(c), k) {
      var x := FirstGe(DataOf(c), k);
      var y: nat := 0;
      if c.Leaf? && x == 0 {
        LeafEntries(c);
      } else {
        y := DataIsEntry(c, h, x);
      }
      EntryAt(kids, f, y);
    }
  }

  /** Putting the smallest item of child `d` in front of it makes it exact. */
  lemma Refreshed(seps: seq<Item>, kids: seq<Shape>, d: nat, x: nat)
    requires SepsBut(seps, kids, d) && 1 <= x < |kids| && (d == 0 || d == x) && Entries(kids[x]) != []
    ensures SepsOk(seps[x - 1 := Entries(kids[x])[0]], kids)
  {
    hide Entries;
    var seps' := seps[x - 1 := Entries(kids[x])[0]];
    forall i | 1 <= i < |kids| ensures SepAt(seps', kids, i) {
      assert i != x ==> SepAt(seps, kids, i);
    }
  }

  lemma MendedExactly(m: Repair, h: nat)
    requires Mended(m, h) && m.q == 0 && m.d == 0
    ensures WF(m.t, h)
  {
    hide Entries, WF, WFBut;
    ExactIsWF(m.t.kids[m.f], h - 1);
    WFInner(m.t, h);
  }

  /** Where the stale separator is, and that no exact one has the key. */
  lemma StaleIsFound(m: Repair, h: nat, k: Key)
    requires Mended(m, h) && Locates(m, k) && !HasKey(AllEntries(m.t.kids), k)
    ensures Found(m.t.seps, k) <==> m.d != 0
    ensures m.d == 0 ==> (Found(DataOf(m.t.kids[m.f]), k) <==> m.q != 0)
    ensures m.d != 0 ==> m.q == 0 && FirstGe(m.t.seps, k) == m.d - 1 && m.d < |m.t.kids|
    ensures m.q != 0 ==>
              m.t.kids[m.f].Inner? && FirstGe(DataOf(m.t.kids[m.f]), k) == m.q - 1 && m.q <= |m.t.kids[m.f].seps|
    ensures m.q != 0 ==> |m.t.kids[m.f].kids| == |m.t.kids[m.f].seps| + 1
  {
    hide Entries, AllEntries, KeyLess, WF, FirstGe, HasKey;
    if m.d == 0 {
      AbsentFromSeps(m.t.seps, m.t.kids, k);
      if m.q == 0 {
        ExactIsWF(m.t.kids[m.f], h - 1);
        AbsentFromKid(m.t.kids, m.f, h - 1, k);
      }
    }
  }

  lemma RepairedTop(m: Repair, h: nat)
    requires Mended(m, h) && 1 <= m.d < |m.t.kids| && m.q == 0
    ensures WF(m.t.kids[m.d], h - 1) && Entries(m.t.kids[m.d]) != [] && |m.t.kids| == |m.t.seps| + 1
    ensures WF(m.t.(seps := m.t.seps[m.d - 1 := Entries(m.t.kids[m.d])[0]]), h)
  {
    hide Entries, WF, WFBut;
    ExactIsWF(m.t.kids[m.f], h - 1);
    Refreshed(m.t.seps, m.t.kids, m.d, m.d);
    MendedExactly(m.(t := m.t.(seps := m.t.seps[m.d - 1 := Entries(m.t.kids[m.d])[0]]), d := 0), h);
  }

  lemma RepairedBelow(m: Repair, h: nat)
    requires Mended(m, h) && m.d == 0 && m.q != 0 && m.t.kids[m.f].Inner? && m.q <= |m.t.kids[m.f].seps|
    ensures var c := m.t.kids[m.f];
      && h >= 2 && |c.kids| == |c.seps| + 1 && WF(c.kids[m.q], h - 2) && Entries(c.kids[m.q]) != []
      && WF(m.t.(kids := m.t.kids[m.f := c.(seps := c.seps[m.q - 1 := Entries(c.kids[m.q])[0]])]), h)
  {
    hide Entries, WF;
    var c := m.t.kids[m.f];
    var c' := c.(seps := c.seps[m.q - 1 := Entries(c.kids[m.q])[0]]);
    Refreshed(c.seps, c.kids, m.q, m.q);
    WFInner(c', h - 1);
    LeafEntries(c);
    LeafEntries(c');
    var kids := m.t.kids[m.f := c'];
    forall i | 1 <= i < |kids| ensures SepAt(m.t.seps, kids, i) { assert SepAt(m.t.seps, m.t.kids, i); }
    WFInner(m.t.(kids := kids), h);
  }
}
