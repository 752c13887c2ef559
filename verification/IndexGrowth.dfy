/** What one insertion does to a tree: some subtree is replaced by one or two
    trees of the same level that hold one more entry. */
module IndexGrowth {
  import opened Ordering
  import opened Codec
  import opened PageCodec
  import opened IndexPages
  import opened IndexTree
  import opened SplitBounds

  ghost function Range(lo: nat, hi: nat): (r: set<nat>)
    ensures forall x :: x in r <==> lo <= x < hi
    decreases hi - lo
  {
    if lo >= hi then {} else {lo} + Range(lo + 1, hi)
  }

  /** The leaf order after leaf `hit` gave half of its entries to page `n`. */
  function Relink(chain: seq<nat>, hit: Option<nat>, n: nat): seq<nat> {
    if hit.None? then chain else InsertAfter(chain, hit.value, n)
  }

  ghost predicate Legal(repl: seq<Tree>, level: nat) {
    1 <= |repl| <= 2 && forall i :: 0 <= i < |repl| ==> WF(repl[i], level) && Entries(repl[i]) != []
  }

  /** `new` holds what `old` held and `e`, on the pages of `old` and the fresh
      pages from `lo` up to `hi`. */
  ghost predicate Grown(old_: seq<Tree>, new_: seq<Tree>, e: Entry, lo: nat, hi: nat, hit: Option<nat>) {
    && AllEntries(new_) == InsertSorted(AllEntries(old_), e)
    && AllApart(new_) && AllIds(new_) == AllIds(old_) + Range(lo, hi)
    && AllLeafIds(new_) == Relink(AllLeafIds(old_), hit, lo)
    && (hit.Some? ==> hit.value in AllLeafIds(old_))
  }

  ghost predicate AllBelow(ts: seq<Tree>, n: nat) { forall x :: x in AllIds(ts) ==> x < n }

  // ----- entries

  lemma {:induction false} FirstOfAll(ts: seq<Tree>)
    requires ts != [] && Entries(ts[0]) != []
    ensures AllEntries(ts) != [] && AllEntries(ts)[0] == Entries(ts[0])[0]
  {
  }

  lemma InsertKeepsFirst(s: seq<Entry>, e: Entry)
    requires s != [] && Less(s[0], e)
    ensures InsertSorted(s, e)[0] == s[0]
  {
  }

  lemma SortedPart(a: seq<Entry>, b: seq<Entry>, c: seq<Entry>)
    requires Sorted(a + b + c)
    ensures Sorted(b)
    ensures forall x, y :: x in a && y in b ==> Less(x, y)
    ensures forall x, y :: x in b && y in c ==> Less(x, y)
  {
    hide Less;
    var s := a + b + c;
    forall i, j | 0 <= i < j < |b| ensures Less(b[i], b[j]) {
      assert s[|a| + i] == b[i] && s[|a| + j] == b[j];
    }
    forall x, y | x in a && y in b ensures Less(x, y) {
      var i :| 0 <= i < |a| && a[i] == x;
      var j :| 0 <= j < |b| && b[j] == y;
      assert s[i] == x && s[|a| + j] == y;
    }
    forall x, y | x in b && y in c ensures Less(x, y) {
      var i :| 0 <= i < |b| && b[i] == x;
      var j :| 0 <= j < |c| && c[j] == y;
      assert s[|a| + i] == x && s[|a| + |b| + j] == y;
    }
  }

  /** The child chosen by the separators is the one whose range takes `e`. */
  ghost predicate Routed(seps: seq<Entry>, kids: seq<Tree>, e: Entry, i: nat) {
    && i < |kids| && (i > 0 ==> Entries(kids[i]) != [] && Less(Entries(kids[i])[0], e))
    && (i + 1 < |kids| ==> Entries(kids[i + 1]) != [] && Less(e, Entries(kids[i + 1])[0]))
  }

  lemma SeparatorsRoute(seps: seq<Entry>, kids: seq<Tree>, e: Entry)
    requires Separators(seps, kids) && e !in AllEntries(kids)
    requires forall i :: 0 <= i < |kids| ==> Entries(kids[i]) != []
    ensures Routed(seps, kids, e, UpperBound(seps, e))
  {
    hide Less, AllEntries, Entries;
    var i := UpperBound(seps, e);
    WalkAround(kids, i);
    if i > 0 {
      var first := Entries(kids[i])[0];
      assert !Less(e, first) && first in AllEntries(kids);
      LessIsStrictTotalOrder();
    }
  }

  lemma RoutedInsert(seps: seq<Entry>, kids: seq<Tree>, e: Entry, i: nat)
    requires Routed(seps, kids, e, i) && Sorted(AllEntries(kids))
    requires forall j :: 0 <= j < |kids| ==> Entries(kids[j]) != []
    ensures Sorted(Entries(kids[i]))
    ensures InsertSorted(AllEntries(kids), e) ==
            AllEntries(kids[..i]) + InsertSorted(Entries(kids[i]), e) + AllEntries(kids[i + 1..])
  {
    hide Less, Entries, AllEntries, InsertSorted, Sorted;
    WalkAround(kids, i);
    var a, b, c := AllEntries(kids[..i]), Entries(kids[i]), AllEntries(kids[i + 1..]);
    SortedPart(a, b, c);
    if a != [] {
      assert i > 0 by { EmptyWalk(); }
      assert a[|a| - 1] in a && b[0] in b;
      LessTransitive(a[|a| - 1], b[0], e);
    }
    if c != [] {
      assert i + 1 < |kids| by { EmptyWalk(); }
      FirstOfAll(kids[i + 1..]);
    }
    InsertSortedInMiddle(a, b, c, e);
  }

  lemma EmptyWalk()
    ensures AllEntries([]) == [] && AllLeafIds([]) == [] && AllIds([]) == {}
  {
  }

  // ----- replacing one child

  function Spliced<T>(s: seq<T>, i: nat, mid: seq<T>): seq<T>
    requires i < |s|
  {
    s[..i] + mid + s[i + 1..]
  }

  lemma GrownEntries(seps: seq<Entry>, kids: seq<Tree>, e: Entry, i: nat, repl: seq<Tree>)
    requires Routed(seps, kids, e, i) && Sorted(AllEntries(kids))
    requires forall j :: 0 <= j < |kids| ==> Entries(kids[j]) != []
    requires AllEntries(repl) == InsertSorted(Entries(kids[i]), e)
    ensures AllEntries(Spliced(kids, i, repl)) == InsertSorted(AllEntries(kids), e)
  {
    hide Less, Sorted, AllEntries, Entries, InsertSorted;
    RoutedInsert(seps, kids, e, i);
    WalkSplit(kids[..i] + repl, kids[i + 1..]);
    WalkSplit(kids[..i], repl);
  }

  lemma GrownLeaves(kids: seq<Tree>, i: nat, repl: seq<Tree>, hit: Option<nat>, lo: nat)
    requires i < |kids| && NoDup(AllLeafIds(kids))
    requires AllLeafIds(repl) == Relink(LeafIds(kids[i]), hit, lo)
    requires hit.Some? ==> hit.value in LeafIds(kids[i])
    ensures AllLeafIds(Spliced(kids, i, repl)) == Relink(AllLeafIds(kids), hit, lo)
    ensures hit.Some? ==> hit.value in AllLeafIds(kids)
  {
    hide AllLeafIds, LeafIds, InsertAfter;
    var a, b, c := AllLeafIds(kids[..i]), LeafIds(kids[i]), AllLeafIds(kids[i + 1..]);
    WalkAround(kids, i);
    WalkSplit(kids[..i] + repl, kids[i + 1..]);
    WalkSplit(kids[..i], repl);
    if hit.Some? {
      NotBefore(a, b, c, hit.value);
      InsertAfterJoin(a + b, c, hit.value, lo);
      InsertAfterJoin(a, b, hit.value, lo);
    }
  }

  lemma NotBefore(a: seq<nat>, b: seq<nat>, c: seq<nat>, x: nat)
    requires NoDup(a + b + c) && x in b
    ensures x !in a
  {
    var j :| 0 <= j < |b| && b[j] == x;
    forall k | 0 <= k < |a| ensures a[k] != x {
      assert (a + b + c)[k] != (a + b + c)[|a| + j];
    }
  }

  lemma GrownPages(kids: seq<Tree>, i: nat, repl: seq<Tree>, lo: nat, hi: nat)
    requires i < |kids| && AllApart(kids) && AllBelow(kids, lo)
    requires AllApart(repl) && AllIds(repl) == Ids(kids[i]) + Range(lo, hi)
    ensures AllApart(Spliced(kids, i, repl))
    ensures AllIds(Spliced(kids, i, repl)) == AllIds(kids) + Range(lo, hi)
  {
    hide AllApart, Apart, AllIds, Ids;
    var a, c := kids[..i], kids[i + 1..];
    WalkAround(kids, i);
    ApartAround(kids, i);
    WalkSplit(a + repl, c);
    WalkSplit(a, repl);
    ApartSplit(a + repl, c);
    ApartSplit(a, repl);
  }

  lemma GrownAt(seps: seq<Entry>, kids: seq<Tree>, e: Entry, i: nat, repl: seq<Tree>, lo: nat, hi: nat,
          hit: Option<nat>)
    requires Routed(seps, kids, e, i) && Sorted(AllEntries(kids)) && AllApart(kids) && AllBelow(kids, lo)
    requires forall j :: 0 <= j < |kids| ==> Entries(kids[j]) != []
    requires Grown([kids[i]], repl, e, lo, hi, hit)
    ensures Grown(kids, Spliced(kids, i, repl), e, lo, hi, hit)
  {
    hide Entries, LeafIds, Ids, AllApart, Sorted, AllEntries, AllLeafIds, AllIds, AllBelow, InsertSorted, Spliced,
      Relink;
    WalkOne(kids[i]);
    GrownEntries(seps, kids, e, i, repl);
    AllLeavesAreDistinct(kids);
    GrownLeaves(kids, i, repl, hit, lo);
    GrownPages(kids, i, repl, lo, hi);
  }

  // ----- separators of the grown node

  /** The separators after child `i` was replaced: one more if it was split. */
  function GrownSeps(seps: seq<Entry>, i: nat, repl: seq<Tree>): seq<Entry>
    requires i <= |seps| && 1 <= |repl| <= 2 && (|repl| == 2 ==> Entries(repl[1]) != [])
  {
    if |repl| == 1 then seps else seps[..i] + [Entries(repl[1])[0]] + seps[i..]
  }

  lemma GrownSeparators(seps: seq<Entry>, kids: seq<Tree>, e: Entry, i: nat, repl: seq<Tree>)
    requires Separators(seps, kids) && Routed(seps, kids, e, i)
    requires forall j :: 0 <= j < |kids| ==> Entries(kids[j]) != []
    requires 1 <= |repl| <= 2 && forall j :: 0 <= j < |repl| ==> Entries(repl[j]) != []
    requires AllEntries(repl) == InsertSorted(Entries(kids[i]), e)
    ensures Separators(GrownSeps(seps, i, repl), Spliced(kids, i, repl))
  {
    hide Less, InsertSorted, AllEntries, Entries, Separators, Spliced, Sorted;
    FirstStays(seps, kids, e, i, repl);
    if |repl| == 1 {
      assert repl == [repl[0]];
      SeparatorsAfterReplace(seps, kids, i, repl[0]);
    } else {
      assert repl == [repl[0], repl[1]];
      SeparatorsAfterSplit(seps, kids, i, repl[0], repl[1]);
    }
  }

  lemma FirstStays(seps: seq<Entry>, kids: seq<Tree>, e: Entry, i: nat, repl: seq<Tree>)
    requires Routed(seps, kids, e, i) && repl != [] && Entries(repl[0]) != []
    requires AllEntries(repl) == InsertSorted(Entries(kids[i]), e)
    ensures i > 0 ==> Entries(repl[0])[0] == Entries(kids[i])[0]
  {
    hide Less, InsertSorted, AllEntries, Entries;
    if i > 0 {
      InsertKeepsFirst(Entries(kids[i]), e);
      FirstOfAll(repl);
    }
  }

  lemma SeparatorsAfterReplace(seps: seq<Entry>, kids: seq<Tree>, i: nat, t: Tree)
    requires Separators(seps, kids) && i < |kids|
    requires i > 0 ==> Entries(t) != [] && Entries(t)[0] == Entries(kids[i])[0]
    ensures Separators(seps, Spliced(kids, i, [t]))
  {
    hide Entries;
    var k := Spliced(kids, i, [t]);
    forall j | 1 <= j < |k| ensures Entries(k[j]) != [] && seps[j - 1] == Entries(k[j])[0] {
      assert k[j] == if j == i then t else kids[j];
    }
  }

  lemma SeparatorsAfterSplit(seps: seq<Entry>, kids: seq<Tree>, i: nat, l: Tree, r: Tree)
    requires Separators(seps, kids) && i < |kids| && Entries(r) != []
    requires i > 0 ==> Entries(l) != [] && Entries(l)[0] == Entries(kids[i])[0]
    ensures Separators(seps[..i] + [Entries(r)[0]] + seps[i..], Spliced(kids, i, [l, r]))
  {
    hide Entries;
    var k := Spliced(kids, i, [l, r]);
    var s := seps[..i] + [Entries(r)[0]] + seps[i..];
    forall j | 1 <= j < |k| ensures Entries(k[j]) != [] && s[j - 1] == Entries(k[j])[0] {
      assert k[j] == if j < i then kids[j] else if j == i then l else if j == i + 1 then r else kids[j - 1];
      assert s[j - 1] == if j < i + 1 then seps[j - 1] else if j == i + 1 then Entries(r)[0] else seps[j - 2];
    }
  }

  lemma {:induction false} EntriesOk(t: Tree, level: nat)
    requires WF(t, level)
    ensures All(Entries(t), EntryOk)
    decreases t, 0
  {
    hide LeafSize, NodeSize, EntryOk, Separators;
    if t.Node? {
      AllEntriesOk(t.kids, level - 1);
    }
  }

  lemma {:induction false} AllEntriesOk(ts: seq<Tree>, level: nat)
    requires forall i :: 0 <= i < |ts| ==> WF(ts[i], level)
    ensures All(AllEntries(ts), EntryOk)
    decreases ts, 0
  {
    hide WF, EntryOk;
    if ts != [] {
      EntriesOk(ts[0], level);
      AllEntriesOk(ts[1..], level);
    }
  }

  lemma {:induction false} WFHasEntries(t: Tree, level: nat)
    requires WF(t, level)
    ensures Entries(t) != []
  {
    if t.Node? {
      FirstOfAll(t.kids);
    }
  }

  // ----- the node that results, and its split

  lemma WFKids(t: Tree, level: nat)
    requires t.Node? && WF(t, level)
    ensures level >= 1 && |t.kids| == |t.seps| + 1 && |t.seps| >= 1 && All(t.seps, EntryOk)
    ensures NodeSize(t.seps) <= PAYLOAD_SIZE
    ensures forall i :: 0 <= i < |t.kids| ==> WF(t.kids[i], level - 1) && Entries(t.kids[i]) != []
    ensures Separators(t.seps, t.kids)
  {
  }

  /** The two halves of a list of children cut at `half`. */
  function Halves(left: nat, right: nat, seps: seq<Entry>, kids: seq<Tree>, half: nat): (r: seq<Tree>)
    requires 1 <= half < |kids| && |kids| == |seps| + 1
    ensures |r| == 2
  {
    [Node(left, seps[..half - 1], kids[..half]), Node(right, seps[half..], kids[half..])]
  }

  lemma HalvesGrown(id: nat, right: nat, oldSeps: seq<Entry>, seps: seq<Entry>, kids: seq<Tree>, half: nat,
          old_: seq<Tree>, e: Entry, lo: nat, hit: Option<nat>)
    requires 1 <= half < |kids| && |kids| == |seps| + 1 && lo <= right
    requires Grown(old_, kids, e, lo, right, hit) && id !in AllIds(old_) && id < lo && AllBelow(old_, lo)
    ensures Grown([Node(id, oldSeps, old_)], Halves(id, right, seps, kids, half), e, lo, right + 1, hit)
  {
    hide AllEntries, AllLeafIds, AllIds, AllApart, InsertSorted, Relink;
    var l, r := Node(id, seps[..half - 1], kids[..half]), Node(right, seps[half..], kids[half..]);
    assert kids == kids[..half] + kids[half..];
    WalkSplit(kids[..half], kids[half..]);
    ApartSplit(kids[..half], kids[half..]);
    WalkOne(Node(id, oldSeps, old_));
    assert [l, r] == [l] + [r];
    WalkSplit([l], [r]);
    WalkOne(l);
    WalkOne(r);
    ApartSplit([l], [r]);
    ApartOne(l);
    ApartOne(r);
    HalvesPages(id, right, kids, half, old_, lo);
  }

  lemma HalvesPages(id: nat, right: nat, kids: seq<Tree>, half: nat, old_: seq<Tree>, lo: nat)
    requires half <= |kids| && AllIds(kids) == AllIds(old_) + Range(lo, right)
    requires AllIds(kids) == AllIds(kids[..half]) + AllIds(kids[half..])
    requires id !in AllIds(old_) && id < lo <= right && AllBelow(old_, lo)
    ensures id !in AllIds(kids) && right !in AllIds(kids)
    ensures {id} + AllIds(kids[..half]) + ({right} + AllIds(kids[half..])) == {id} + AllIds(old_) + Range(lo, right + 1)
  {
    hide AllIds;
  }

  lemma NodeGrown(id: nat, seps: seq<Entry>, seps': seq<Entry>, kids: seq<Tree>, old_: seq<Tree>, e: Entry, lo: nat,
          hi: nat, hit: Option<nat>)
    requires lo <= hi && Grown(old_, kids, e, lo, hi, hit) && id !in AllIds(old_) && id < lo
    ensures Grown([Node(id, seps, old_)], [Node(id, seps', kids)], e, lo, hi, hit)
  {
    hide AllEntries, AllLeafIds, AllIds, AllApart, InsertSorted, Relink;
    WalkOne(Node(id, seps, old_));
    WalkOne(Node(id, seps', kids));
    ApartOne(Node(id, seps', kids));
  }

  ghost predicate GoodKids(kids: seq<Tree>, level: nat) {
    forall i :: 0 <= i < |kids| ==> WF(kids[i], level) && Entries(kids[i]) != []
  }

  lemma HalvesLegal(id: nat, right: nat, seps: seq<Entry>, kids: seq<Tree>, half: nat, level: nat)
    requires level >= 1 && GoodKids(kids, level - 1) && Separators(seps, kids) && All(seps, EntryOk)
    requires 2 <= half && half + 2 <= |kids|
    requires NodeSize(seps[..half - 1]) <= PAYLOAD_SIZE && NodeSize(seps[half..]) <= PAYLOAD_SIZE
    ensures Legal(Halves(id, right, seps, kids, half), level)
    ensures Entries(Halves(id, right, seps, kids, half)[1])[0] == seps[half - 1]
  {
    hide NodeSize, EntryOk;
    AllParts(seps, half - 1, EntryOk);
    AllParts(seps, half, EntryOk);
    FirstOfAll(kids[..half]);
    FirstOfAll(kids[half..]);
    SeparatorsCut(seps, kids, half);
  }

  lemma SeparatorsCut(seps: seq<Entry>, kids: seq<Tree>, half: nat)
    requires Separators(seps, kids) && 1 <= half < |kids|
    ensures Separators(seps[..half - 1], kids[..half]) && Separators(seps[half..], kids[half..])
  {
    hide Entries;
  }
}
