/** The per-field part of `parse_image`: a stored index is accepted exactly if
    it is the sorted column of the stored rows. */
module IndexCheck {
  import opened Ordering
  import opened Codec
  import opened PageCodec
  import opened IndexPages
  import opened IndexTree
  import opened IndexGrowth
  import opened PageStore
  import opened IndexRoot
  import opened Streams
  import opened TableImage
  import opened Validator

  // ----- sibling links

  method CheckLinks(pages: seq<Page>, leaves: seq<nat>) returns (ok: bool)
    requires forall x :: x in leaves ==> x < |pages| && pages[x].ptype == IndexLeaf && |pages[x].payload| >= 8
    ensures ok <==> Linked(pages, leaves)
  {
    hide LE, PreviousOf, Capacity;
    for leaf := 0 to |leaves|
      invariant forall j :: 0 <= j < leaf ==> LinkedAt(pages, leaves, j)
    {
      assert leaves[leaf] in leaves;
      var page := pages[leaves[leaf]];
      var previous := FieldAt(page.payload, 2, 4);
      StoredPrevious(page.payload, previous);
      var expectedPrevious := if leaf == 0 then NO_PAGE else leaves[leaf - 1];
      var expectedNext := if leaf + 1 < |leaves| then leaves[leaf + 1] else NO_PAGE;
      if previous != expectedPrevious || page.next != expectedNext {
        assert !LinkedAt(pages, leaves, leaf);
        return false;
      }
    }
    ok := true;
  }

  lemma StoredPrevious(payload: Bytes, previous: nat)
    requires |payload| >= 8 && previous < Capacity(4) && payload[2..6] == LE(previous, 4)
    ensures PreviousOf(payload) == previous
  {
    FromLEOfLE(previous, 4);
  }

  lemma {:induction false} LeavesAreLeafPages(pages: seq<Page>, t: Tree, level: nat)
    requires Holds(pages, t, level)
    ensures forall x :: x in LeafIds(t) ==> x < |pages| && pages[x].ptype == IndexLeaf && |pages[x].payload| >= 8
    decreases t, 0
  {
    hide NodePage, PreviousOf, LeafPayload;
    if t.Leaf? {
      LeafRepointed(PreviousOf(pages[t.id].payload), t.entries, 0);
    } else {
      AllLeavesAreLeafPages(pages, t.kids, level - 1);
    }
  }

  lemma {:induction false} AllLeavesAreLeafPages(pages: seq<Page>, ts: seq<Tree>, level: nat)
    requires forall i :: 0 <= i < |ts| ==> Holds(pages, ts[i], level)
    ensures forall x :: x in AllLeafIds(ts) ==> x < |pages| && pages[x].ptype == IndexLeaf && |pages[x].payload| >= 8
    decreases ts, 0
  {
    hide Holds;
    if ts != [] {
      LeavesAreLeafPages(pages, ts[0], level);
      AllLeavesAreLeafPages(pages, ts[1..], level);
    }
  }

  // ----- record identifiers

  ghost predicate Matches(e: Entry, rows: seq<Row>, f: nat) {
    e.record < |rows| && e.key == (if f < |rows[e.record]| then rows[e.record][f] else [])
  }

  ghost predicate RecordsMatch(entries: seq<Entry>, rows: seq<Row>, f: nat) {
    && (forall i :: 0 <= i < |entries| ==> Matches(entries[i], rows, f))
    && (forall i, j :: 0 <= i < j < |entries| ==> entries[i].record != entries[j].record)
  }

  /** The loop with the vector of seen identifiers. */
  method CheckRecords(entries: seq<Entry>, rows: seq<Row>, f: nat) returns (ok: bool)
    requires forall i :: 0 <= i < |rows| ==> f < |rows[i]|
    ensures ok <==> RecordsMatch(entries, rows, f)
  {
    hide Matches, RecordsMatch;
    var seen := new bool[|rows|](_ => false);
    NoRecords(rows, f);
    for k := 0 to |entries|
      invariant RecordsMatch(entries[..k], rows, f)
      invariant forall n :: 0 <= n < |rows| ==> (seen[n] <==> Named(entries[..k], n))
    {
      var e := entries[k];
      assert entries[..k + 1] == entries[..k] + [e];
      OneMoreRecord(entries[..k], e, rows, f);
      AllRecordsUpTo(entries, k + 1, rows, f);
      if e.record >= |rows| { return false; }
      if seen[e.record] { return false; }
      if e.key != rows[e.record][f] { return false; }
      seen[e.record] := true;
    }
    assert entries[..|entries|] == entries;
    ok := true;
  }

  ghost predicate Named(entries: seq<Entry>, n: nat) { exists i :: 0 <= i < |entries| && entries[i].record == n }

  lemma NoRecords(rows: seq<Row>, f: nat)
    ensures RecordsMatch([], rows, f) && forall n :: !Named([], n)
  {
  }

  lemma OneMoreRecord(before: seq<Entry>, e: Entry, rows: seq<Row>, f: nat)
    requires RecordsMatch(before, rows, f) && forall i :: 0 <= i < |rows| ==> f < |rows[i]|
    ensures RecordsMatch(before + [e], rows, f) <==>
              e.record < |rows| && !Named(before, e.record) && e.key == rows[e.record][f]
    ensures forall n :: Named(before + [e], n) <==> Named(before, n) || n == e.record
  {
    var all := before + [e];
    assert all[|before|] == e;
    assert forall i :: 0 <= i < |before| ==> all[i] == before[i];
    if RecordsMatch(all, rows, f) {
      assert Matches(all[|before|], rows, f);
    }
    forall n ensures Named(all, n) <==> Named(before, n) || n == e.record {
      if Named(before, n) {
        var i :| 0 <= i < |before| && before[i].record == n;
        assert all[i].record == n;
      }
    }
  }

  lemma AllRecordsUpTo(entries: seq<Entry>, k: nat, rows: seq<Row>, f: nat)
    requires k <= |entries|
    ensures RecordsMatch(entries, rows, f) ==> RecordsMatch(entries[..k], rows, f)
  {
    hide Matches;
  }

  function ElementsOf(s: seq<Entry>): set<Entry> { set x | x in s }

  lemma {:induction false} ElementsCount(s: seq<Entry>)
    requires Distinct(s)
    ensures |ElementsOf(s)| == |s|
  {
    if s != [] {
      var n := |s| - 1;
      ElementsCount(s[..n]);
      assert ElementsOf(s) == ElementsOf(s[..n]) + {s[n]};
      assert s[n] !in s[..n];
    }
  }

  lemma SameSizeSubset(a: set<Entry>, b: set<Entry>)
    requires a <= b && |a| == |b|
    ensures a == b
  {
    assert |b - a| == |b| - |a|;
  }

  lemma MatchesIsInColumn(e: Entry, rows: seq<Row>, f: nat)
    ensures Matches(e, rows, f) <==> e in Column(rows, f)
  {
    var c := Column(rows, f);
    if Matches(e, rows, f) {
      assert c[e.record] == e;
    }
  }

  lemma WeakAndDistinctIsSorted(s: seq<Entry>)
    requires WeaklySorted(s) && Distinct(s)
    ensures Sorted(s)
  {
    hide Less;
    LessIsStrictTotalOrder();
  }

  lemma SortedIsWeak(s: seq<Entry>)
    requires Sorted(s)
    ensures WeaklySorted(s) && Distinct(s)
  {
    hide Less;
    forall i, j | 0 <= i < j < |s| ensures !Less(s[j], s[i]) && s[i] != s[j] {
      LessAsymmetric(s[i], s[j]);
    }
  }

  /** Ordered entries that name each row once are the sorted column. */
  lemma MatchingIsColumnIndex(entries: seq<Entry>, rows: seq<Row>, f: nat)
    requires WeaklySorted(entries) && |entries| == |rows| && RecordsMatch(entries, rows, f)
    ensures entries == ColumnIndex(rows, f)
  {
    hide WeaklySorted, Matches, ColumnIndex, Sorted;
    var c := Column(rows, f);
    assert Distinct(entries);
    ColumnDistinct(rows, f);
    ElementsCount(entries);
    ElementsCount(c);
    forall e | e in entries ensures e in c { MatchesIsInColumn(e, rows, f); }
    SameSizeSubset(ElementsOf(entries), ElementsOf(c));
    WeakAndDistinctIsSorted(entries);
    ColumnIndexSorted(rows, f);
    forall e ensures e in entries <==> e in ColumnIndex(rows, f) {
      assert e in entries <==> e in ElementsOf(entries);
      assert e in c <==> e in ElementsOf(c);
    }
    SortedIsUnique(entries, ColumnIndex(rows, f));
  }

  lemma ColumnIndexMatches(rows: seq<Row>, f: nat)
    ensures RecordsMatch(ColumnIndex(rows, f), rows, f) && |ColumnIndex(rows, f)| == |rows|
  {
    hide Matches, ColumnIndex, Sorted, Column, WeaklySorted;
    var x, c := ColumnIndex(rows, f), Column(rows, f);
    ColumnIndexSorted(rows, f);
    assert |x| == |multiset(x)| == |multiset(c)| == |c|;
    SortedIsWeak(x);
    forall i | 0 <= i < |x| ensures Matches(x[i], rows, f) {
      MatchesIsInColumn(x[i], rows, f);
    }
    forall i, j | 0 <= i < j < |x| ensures x[i].record != x[j].record {
      RecordDetermines(x[i], x[j], rows, f);
    }
  }

  lemma RecordDetermines(a: Entry, b: Entry, rows: seq<Row>, f: nat)
    requires Matches(a, rows, f) && Matches(b, rows, f) && a != b
    ensures a.record != b.record
  {
  }

  // ----- one field

  ghost predicate Belongs(pages: seq<Page>, x: Index, rows: seq<Row>, f: nat, root: nat, owned: set<nat>) {
    IndexDenotes(pages, x, rows, f, EntriesOf(x)) && RootOf(x) == root && PagesOf(x) !! owned
  }

  lemma IndexUnique(pages: seq<Page>, rows: seq<Row>, f: nat, x: Index, y: Index)
    requires PagesOk(pages) && RootOf(x) == RootOf(y)
    requires IndexDenotes(pages, x, rows, f, EntriesOf(x)) && IndexDenotes(pages, y, rows, f, EntriesOf(y))
    ensures x == y
  {
    hide WF, Apart, Linked, Sorted, Entries, ColumnIndex;
    AbsentOrPresent(pages, x);
    AbsentOrPresent(pages, y);
    if x.Present? {
      HoldsUnique(pages, x.tree, x.level, y.tree, y.level);
    }
  }

  lemma AbsentOrPresent(pages: seq<Page>, x: Index)
    requires PagesOk(pages) && IndexOk(pages, x)
    ensures RootOf(x) == NO_PAGE <==> x.Absent?
  {
    hide WF, Apart, Linked, Sorted, Entries;
  }

  lemma BelongingIsAcceptable(pages: seq<Page>, x: Index, rows: seq<Row>, f: nat, root: nat, owned: set<nat>)
    requires PagesOk(pages) && Belongs(pages, x, rows, f, root, owned) && root != NO_PAGE
    ensures x.Present? && x.tree.id == root && Acceptable(pages, x.tree, x.level, owned)
    ensures Linked(pages, LeafIds(x.tree))
    ensures Entries(x.tree) == ColumnIndex(rows, f)
  {
    hide WF, Apart, Linked, Entries, ColumnIndex, Holds, Ids;
    SortedIsWeak(EntriesOf(x));
  }

  lemma AcceptedBelongs(pages: seq<Page>, t: Tree, level: nat, rows: seq<Row>, f: nat, owned: set<nat>)
    requires PagesOk(pages) && Acceptable(pages, t, level, owned) && Linked(pages, LeafIds(t))
    requires Entries(t) == ColumnIndex(rows, f)
    ensures Belongs(pages, Present(t, level), rows, f, t.id, owned)
  {
    hide WF, Apart, Linked, Entries, ColumnIndex, Holds, Ids;
    ColumnIndexSorted(rows, f);
  }

  method CheckIndex(pages: seq<Page>, root: nat, rows: seq<Row>, f: nat, owned0: set<nat>)
    returns (r: Result<seq<Entry>>, owned: set<nat>, ghost x: Index)
    requires PagesOk(pages) && owned0 <= Range(0, |pages|)
    requires forall i :: 0 <= i < |rows| ==> f < |rows[i]|
    ensures r.Ok? ==> Belongs(pages, x, rows, f, root, owned0) && r.value == EntriesOf(x)
    ensures r.Ok? ==> owned == owned0 + PagesOf(x) && owned <= Range(0, |pages|)
    ensures r.Err? ==> forall y :: !Belongs(pages, y, rows, f, root, owned0)
  {
    hide PagesOk, Acceptable, Linked, ColumnIndex, Belongs, RecordsMatch, WeaklySorted, IndexDenotes, Entries, Ids,
      LeafIds;
    owned, x := owned0, Absent;
    if root == NO_PAGE {
      forall y | Belongs(pages, y, rows, f, root, owned0)
        ensures rows == []
      {
        AbsentIsEmpty(pages, y, rows, f, root, owned0);
      }
      if rows != [] { return Err(Corruption), owned, x; }
      EmptyBelongs(pages, f, owned0);
      return Ok([]), owned, x;
    }
    var node;
    ghost var t;
    node, owned, t := ValidateIndexNode(pages, root, owned0, {});
    forall y | Belongs(pages, y, rows, f, root, owned0)
      ensures y.Present? && y.tree.id == root && Acceptable(pages, y.tree, y.level, owned0)
      ensures Linked(pages, LeafIds(y.tree))
      ensures Entries(y.tree) == ColumnIndex(rows, f)
    {
      BelongingIsAcceptable(pages, y, rows, f, root, owned0);
    }
    if node.Err? { return Err(Corruption), owned, x; }
    forall y | Belongs(pages, y, rows, f, root, owned0) ensures y.tree == t {
      AcceptedIsUnique(pages, t, node.value.level, y.tree, y.level, owned0);
    }
    ColumnIndexMatches(rows, f);
    if |node.value.entries| != |rows| { return Err(Corruption), owned, x; }
    AcceptedParts(pages, t, node.value.level, owned0);
    var linked := CheckLinks(pages, node.value.leaves);
    if !linked { return Err(Corruption), owned, x; }
    var matching := CheckRecords(node.value.entries, rows, f);
    if !matching { return Err(Corruption), owned, x; }
    x := Present(t, node.value.level);
    MatchingIsColumnIndex(node.value.entries, rows, f);
    AcceptedBelongs(pages, t, node.value.level, rows, f, owned0);
    r := Ok(node.value.entries);
  }

  lemma AcceptedParts(pages: seq<Page>, t: Tree, level: nat, owned: set<nat>)
    requires Acceptable(pages, t, level, owned)
    ensures WeaklySorted(Entries(t))
    ensures forall x :: x in LeafIds(t) ==> x < |pages| && pages[x].ptype == IndexLeaf && |pages[x].payload| >= 8
  {
    hide WF, Apart, WeaklySorted, Holds;
    LeavesAreLeafPages(pages, t, level);
  }

  lemma AbsentIsEmpty(pages: seq<Page>, y: Index, rows: seq<Row>, f: nat, root: nat, owned: set<nat>)
    requires PagesOk(pages) && Belongs(pages, y, rows, f, root, owned) && root == NO_PAGE
    ensures rows == []
  {
    hide ColumnIndex, IndexOk;
    AbsentOrPresent(pages, y);
  }

  lemma EmptyBelongs(pages: seq<Page>, f: nat, owned: set<nat>)
    ensures Belongs(pages, Absent, [], f, NO_PAGE, owned) && EntriesOf(Absent) == []
  {
    assert Column([], f) == [];
  }
}
