/** The cached path of a comparison: iterator ranges over the multimap of one
    field. */
module CachedQuery {
  import opened Ordering
  import opened ArrayFunctions
  import opened HeapShapes
  import opened ShapeOrder
  import opened HeapInsert
  import opened HeapLookup
  import opened HeapCopy
  import opened MultiMap
  import opened QueryPaths

  // ----- iterators name positions

  lemma SamePosition(t: Shape, it: Iterator, p: nat, q: nat)
    requires Apart(t) && PointsAt(t, it, p) && PointsAt(t, it, q)
    ensures p == q
  {
    hide Entries, Leaves, LeafItems, Flatten;
    LeavesDistinct(t);
  }

  /** Positions in earlier leaves, and earlier ones in the same leaf, are smaller. */
  lemma LeafOrder(t: Shape, it: Iterator, p: nat, a: nat, it': Iterator, q: nat, b: nat)
    requires InLeaf(t, it, p, a) && InLeaf(t, it', q, b) && p == q
    ensures it == it'
  {
    hide Leaves, LeafItems;
    if a < b {
      EarlierLeaf(LeafItems(t), a, b);
    } else if b < a {
      EarlierLeaf(LeafItems(t), b, a);
    }
  }

  lemma EarlierLeaf(s: seq<seq<Item>>, a: nat, b: nat)
    requires a < b <= |s|
    ensures |Flatten(s[..a])| + |s[a]| <= |Flatten(s[..b])|
  {
    assert s[..b] == s[..a] + ([s[a]] + s[a + 1..b]);
    FlattenSplit(s[..a], [s[a]] + s[a + 1..b]);
    FlattenSplit([s[a]], s[a + 1..b]);
    assert Flatten([s[a]]) == s[a] by { assert [s[a]][1..] == []; }
  }

  lemma SameIterator(t: Shape, it: Iterator, it': Iterator, p: nat)
    requires PointsAt(t, it, p) && PointsAt(t, it', p)
    ensures it == it'
  {
    hide Entries, Leaves, LeafItems, Flatten, InLeaf;
    if p < |Entries(t)| {
      var a: nat :| InLeaf(t, it, p, a);
      var b: nat :| InLeaf(t, it', p, b);
      LeafOrder(t, it, p, a, it', p, b);
    }
  }

  // ----- ranges

  /** `get_record_indices`: the values from one iterator up to another. */
  method GetRecordIndices(begin: Iterator, end: Iterator, ghost t: Shape, ghost h: nat, ghost p: nat, ghost q: nat)
    returns (res: seq<nat>)
    requires RootOk(t, h) && PointsAt(t, begin, p) && PointsAt(t, end, q) && p <= q <= |Entries(t)|
    ensures res == Records(Entries(t)[p..q])
  {
    hide Planted, WF, Entries, Leaves, LeafItems, Ascending, PointsAt, Records;
    res := [];
    NoRecords();
    var it := begin;
    AtEnd(t, begin, p);
    if it.node == null {
      AtEnd(t, end, q);
      NullIsEnd(t, it, p);
      assert Entries(t)[p..q] == [];
      return;
    }
    assert allocated(Owned(t));
    ghost var i := p;
    assert Entries(t)[p..p] == [];
    PlantedParts(t);
    if it == end { SamePosition(t, it, p, q); }
    if p == q { SameIterator(t, it, end, p); }
    while it != end
      invariant RootOk(t, h) && p <= i <= q && PointsAt(t, it, i) && res == Records(Entries(t)[p..i])
      invariant it == end <==> i == q
      decreases q - i
    {
      PointsAtItem(t, null, it, i);
      res := res + it.node.data[it.index].values;
      OneMoreRecord(Entries(t), p, i);
      it := Advance(it, t, h, i);
      i := i + 1;
      if it == end { SamePosition(t, it, i, q); }
      if i == q { SameIterator(t, it, end, q); }
    }
  }

  lemma NoRecords()
    ensures Records([]) == []
  {
  }

  lemma NullIsEnd(t: Shape, it: Iterator, p: nat)
    requires PointsAt(t, it, p) && it.node == null
    ensures p == |Entries(t)|
  {
    hide Entries, Leaves, LeafItems, Flatten;
  }

  lemma PlantedParts(t: Shape)
    requires Planted(t, null)
    ensures Apart(t)
  {
  }

  lemma OneMoreRecord(s: seq<Item>, p: nat, i: nat)
    requires p <= i < |s|
    ensures Records(s[p..i + 1]) == Records(s[p..i]) + s[i].values
  {
    assert s[p..i + 1] == s[p..i] + [s[i]];
    RecordsSplit(s[p..i], [s[i]]);
    assert Records([s[i]]) == s[i].values by { assert [s[i]][1..] == []; }
  }

  // ----- ranges are comparisons

  lemma UpTo(s: seq<Item>, n: nat, c: Comparison, value: Key)
    requires n <= |s| && (forall i :: 0 <= i < n ==> Satisfies(c, s[i].key, value))
    requires forall i :: n <= i < |s| ==> !Satisfies(c, s[i].key, value)
    ensures RecordsWhere(s, c, value) == Records(s[0..n])
  {
    hide Satisfies;
    assert s == s[..n] + s[n..] && s[0..n] == s[..n];
    WhereSplit(s[..n], s[n..], c, value);
    WhereAll(s[..n], c, value);
    WhereNone(s[n..], c, value);
  }

  lemma From(s: seq<Item>, n: nat, c: Comparison, value: Key)
    requires n <= |s| && (forall i :: 0 <= i < n ==> !Satisfies(c, s[i].key, value))
    requires forall i :: n <= i < |s| ==> Satisfies(c, s[i].key, value)
    ensures RecordsWhere(s, c, value) == Records(s[n..|s|])
  {
    hide Satisfies;
    assert s == s[..n] + s[n..] && s[n..|s|] == s[n..];
    WhereSplit(s[..n], s[n..], c, value);
    WhereNone(s[..n], c, value);
    WhereAll(s[n..], c, value);
  }

  lemma Bounds(s: seq<Item>, value: Key)
    requires Ascending(s)
    ensures forall i :: 0 <= i < FirstGe(s, value) ==> KeyLess(s[i].key, value)
    ensures forall i :: FirstGe(s, value) <= i < |s| ==> !KeyLess(s[i].key, value)
    ensures forall i :: 0 <= i < FirstGt(s, value) ==> !KeyLess(value, s[i].key)
    ensures forall i :: FirstGt(s, value) <= i < |s| ==> KeyLess(value, s[i].key)
  {
    hide KeyLess, FirstGe, FirstGt;
    KeyLessIsStrictTotalOrder();
    var p, q := FirstGe(s, value), FirstGt(s, value);
    forall i | p <= i < |s| ensures !KeyLess(s[i].key, value) {
      assert p < i ==> KeyLess(s[p].key, s[i].key);
    }
    forall i | q <= i < |s| ensures KeyLess(value, s[i].key) {
      assert q < i ==> KeyLess(s[q].key, s[i].key);
    }
  }

  lemma RangesAreComparisons(s: seq<Item>, value: Key)
    requires Ascending(s)
    ensures RecordsWhere(s, LessEqual, value) == Records(s[0..FirstGt(s, value)])
    ensures RecordsWhere(s, Less_, value) == Records(s[0..FirstGe(s, value)])
    ensures RecordsWhere(s, GreaterEqual, value) == Records(s[FirstGe(s, value)..|s|])
    ensures RecordsWhere(s, Greater, value) == Records(s[FirstGt(s, value)..|s|])
  {
    hide KeyLess, FirstGe, FirstGt, Records, RecordsWhere, Ascending;
    Bounds(s, value);
    UpTo(s, FirstGt(s, value), LessEqual, value);
    UpTo(s, FirstGe(s, value), Less_, value);
    From(s, FirstGe(s, value), GreaterEqual, value);
    From(s, FirstGt(s, value), Greater, value);
  }

  lemma EqualIsLookup(s: seq<Item>, value: Key)
    requires Ascending(s)
    ensures RecordsWhere(s, Equal, value) == if Found(s, value) then s[FirstGe(s, value)].values else []
  {
    hide KeyLess, FirstGe, RecordsWhere;
    KeyLessIsStrictTotalOrder();
    var r := FirstGe(s, value);
    Bounds(s, value);
    if Found(s, value) {
      forall i | r < i < |s| ensures s[i].key != value { assert KeyLess(s[r].key, s[i].key); }
      OnlyOne(s, r, value);
    } else {
      FoundIsMembership(s, value);
      WhereNone(s, Equal, value);
    }
  }

  lemma OnlyOne(s: seq<Item>, r: nat, value: Key)
    requires r < |s| && s[r].key == value && forall i :: 0 <= i < |s| && i != r ==> s[i].key != value
    ensures RecordsWhere(s, Equal, value) == s[r].values
  {
    hide RecordsWhere;
    var a, b := s[..r], s[r + 1..];
    assert s == a + ([s[r]] + b);
    WhereSplit(a, [s[r]] + b, Equal, value);
    WhereSplit([s[r]], b, Equal, value);
    WhereNone(a, Equal, value);
    WhereNone(b, Equal, value);
    WhereOne(s[r], value);
    assert [] + (s[r].values + []) == s[r].values;
  }

  lemma WhereOne(x: Item, value: Key)
    ensures x.key == value ==> RecordsWhere([x], Equal, value) == x.values
  {
    assert [x][1..] == [];
  }

  /** The loop of `!=`. */
  method AllBut(m: MMap, value: Key) returns (res: seq<nat>)
    requires m.Valid()
    ensures res == RecordsWhere(m.Contents(), NotEqual, value)
  {
    hide Planted, WF, Entries, Leaves, LeafItems, Ascending, PointsAt, RecordsWhere;
    res := [];
    ghost var t, h := m.shape, m.height;
    assert allocated(Owned(t));
    var it := Begin(m.mmap, t, h);
    AtEnd(t, it, 0);
    ghost var p: nat := 0;
    WhereNone([], NotEqual, value);
    assert Entries(t)[..0] == [];
    while it != END
      invariant RootOk(t, h) && p <= |Entries(t)| && PointsAt(t, it, p) && (it == END <==> p == |Entries(t)|)
      invariant res == RecordsWhere(Entries(t)[..p], NotEqual, value)
      decreases |Entries(t)| - p
    {
      PointsAtItem(t, null, it, p);
      var item := it.node.data[it.index];
      assert Entries(t)[..p + 1] == Entries(t)[..p] + [item];
      WhereSplit(Entries(t)[..p], [item], NotEqual, value);
      if item.key == value {
        WhereNone([item], NotEqual, value);
      } else {
        WhereAll([item], NotEqual, value);
        RecordsOne(item);
        res := res + item.values;
      }
      it := Advance(it, t, h, p);
      p := p + 1;
      AtEnd(t, it, p);
    }
    assert Entries(t)[..p] == Entries(t);
  }

  lemma RecordsOne(x: Item)
    ensures Records([x]) == x.values
  {
    assert [x][1..] == [];
  }

  /** `selectHelp` on the cache; an unknown operator selects nothing. */
  method SelectCached(m: MMap, op: string, value: Key) returns (res: seq<nat>)
    requires m.Valid()
    ensures res == if ComparisonOf(op).Some? then RecordsWhere(m.Contents(), ComparisonOf(op).value, value) else []
  {
    hide Planted, WF, Entries, Leaves, LeafItems, Ascending, PointsAt, RecordsWhere, Records, KeyLess, FirstGe, FirstGt,
      Owned;
    ghost var t, h := m.shape, m.height;
    ghost var s := Entries(t);
    assert allocated(Owned(t));
    FoundIsMembership(s, value);
    RangesAreComparisons(s, value);
    EqualIsLookup(s, value);
    var present := false;
    if op == "=" {
      present := m.Contains(value);
    }
    if op == "=" && present {
      res := m.At(value);
    } else if op == "<=" {
      var first := Begin(m.mmap, t, h);
      var last := UpperBoundOf(m.mmap, value, t, h);
      res := GetRecordIndices(first, last, t, h, 0, FirstGt(s, value));
    } else if op == "<" {
      var first := Begin(m.mmap, t, h);
      var last := LowerBoundOf(m.mmap, value, t, h);
      res := GetRecordIndices(first, last, t, h, 0, FirstGe(s, value));
    } else if op == ">=" {
      var first := LowerBoundOf(m.mmap, value, t, h);
      EndIsEnd(t);
      res := GetRecordIndices(first, END, t, h, FirstGe(s, value), |s|);
    } else if op == ">" {
      var first := UpperBoundOf(m.mmap, value, t, h);
      EndIsEnd(t);
      res := GetRecordIndices(first, END, t, h, FirstGt(s, value), |s|);
    } else if op == "!=" {
      res := AllBut(m, value);
    } else {
      res := [];
    }
  }

  lemma EndIsEnd(t: Shape)
    ensures PointsAt(t, END, |Entries(t)|)
  {
  }
}
