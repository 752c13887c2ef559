/** `validate_index_node`: the recursive check of a stored index.  It accepts
    exactly the page graphs that are well-formed trees, and reports the tree's
    entries, leaves and pages. */
module Validator {
  import opened Ordering
  import opened Codec
  import opened PageCodec
  import opened IndexPages
  import opened IndexTree
  import opened IndexGrowth
  import opened PageStore
  import opened IndexInsert
  import SplitBounds

  /** Non-decreasing, as `std::is_sorted` checks. */
  ghost predicate WeaklySorted(s: seq<Entry>) {
    forall i, j :: 0 <= i < j < |s| ==> !Less(s[j], s[i])
  }

  ghost predicate Acceptable(pages: seq<Page>, t: Tree, level: nat, owned: set<nat>) {
    level < U16 && WF(t, level) && Holds(pages, t, level) && Apart(t) && Ids(t) !! owned && WeaklySorted(Entries(t))
  }

  // ----- a page identifier stores at most one tree

  lemma {:induction false} HoldsUnique(pages: seq<Page>, t: Tree, l: nat, u: Tree, m: nat)
    requires PagesOk(pages) && t.id == u.id
    requires WF(t, l) && Holds(pages, t, l) && WF(u, m) && Holds(pages, u, m) && l < U16 && m < U16
    ensures t == u && l == m
    decreases t
  {
    hide LeafPayload, PreviousOf, NodeSize, LeafSize, EntryOk, Separators, Entries, InternalBytes, IsInternal, IsLeaf;
    if t.Leaf? && u.Leaf? {
      StoredLeaf(pages, t);
      StoredLeaf(pages, u);
      LeafContentsUnique(pages[t.id].payload,
        LeafContents(PreviousOf(pages[t.id].payload), t.entries),
        LeafContents(PreviousOf(pages[t.id].payload), u.entries));
    } else if t.Node? && u.Node? {
      StoredNode(pages, t, l);
      StoredNode(pages, u, m);
      InternalContentsUnique(pages[t.id].payload, InternalContents(l, t.seps, Roots(t.kids)),
          InternalContents(m, u.seps, Roots(u.kids)));
      forall i | 0 <= i < |t.kids| ensures t.kids[i] == u.kids[i] {
        assert Roots(t.kids)[i] == Roots(u.kids)[i];
        HoldsUnique(pages, t.kids[i], l - 1, u.kids[i], m - 1);
      }
      assert t.kids == u.kids;
    }
  }

  lemma StoredLeaf(pages: seq<Page>, t: Tree)
    requires PagesOk(pages) && t.Leaf? && WF(t, 0) && Holds(pages, t, 0)
    ensures t.id < |pages| && IsLeaf(pages[t.id].payload, LeafContents(PreviousOf(pages[t.id].payload), t.entries))
  {
    hide LeafPayload, PreviousOf, LeafSize, EntryOk;
    PayloadsFit(pages, t.id, t.entries);
    SplitBounds.LeafCountFits(t.entries);
  }

  lemma StoredNode(pages: seq<Page>, t: Tree, level: nat)
    requires PagesOk(pages) && t.Node? && WF(t, level) && Holds(pages, t, level) && level < U16
    ensures t.id < |pages| && IsInternal(pages[t.id].payload, InternalContents(level, t.seps, Roots(t.kids)))
    ensures pages[t.id].next == NO_PAGE && pages[t.id].ptype == IndexInternal
  {
    hide NodeSize, EntryOk, Separators, Entries, InternalBytes, Ids;
    SplitBounds.NodeCountFits(t.seps);
    forall j | 0 <= j < |t.kids| ensures t.kids[j].id < U32 {
      RootIsOwned(t.kids[j]);
      AllBelowPages(pages, t.kids[j], level - 1);
      PagesAreFew(pages);
    }
    RootsAreSmall(t.kids);
  }

  // ----- leaves

  method IsWeaklySorted(s: seq<Entry>) returns (sorted: bool)
    ensures sorted <==> WeaklySorted(s)
  {
    hide Less;
    var i := 1;
    while i < |s|
      invariant 1 <= i && (|s| > 0 ==> i <= |s|) && (|s| > 0 ==> WeaklySorted(s[..i]))
    {
      if Less(s[i], s[i - 1]) { return false; }
      WeaklySortedSnoc(s[..i], s[i]);
      assert s[..i + 1] == s[..i] + [s[i]];
      i := i + 1;
    }
    assert |s| > 0 ==> s[..i] == s;
    sorted := true;
  }

  lemma WeaklySortedSnoc(s: seq<Entry>, e: Entry)
    requires s != [] && WeaklySorted(s) && !Less(e, s[|s| - 1])
    ensures WeaklySorted(s + [e])
  {
    hide Less;
    var r := s + [e];
    forall i, j | 0 <= i < j < |r| ensures !Less(r[j], r[i]) {
      if j == |s| && i < |s| - 1 {
        NotLessTransitive(e, s[|s| - 1], s[i]);
      }
    }
  }

  lemma NotLessTransitive(a: Entry, b: Entry, c: Entry)
    requires !Less(a, b) && !Less(b, c)
    ensures !Less(a, c)
  {
    hide KeyLess;
    LessIsStrictTotalOrder();
    if Less(a, c) && Less(b, a) {
      LessTransitive(b, a, c);
    }
  }

  lemma WeaklySortedJoin(a: seq<Entry>, b: seq<Entry>)
    requires a != [] && b != []
    ensures WeaklySorted(a + b) <==> WeaklySorted(a) && WeaklySorted(b) && !Less(b[0], a[|a| - 1])
  {
    hide Less;
    var s := a + b;
    if WeaklySorted(s) {
      assert forall i :: 0 <= i < |a| ==> s[i] == a[i];
      assert forall i :: 0 <= i < |b| ==> s[|a| + i] == b[i];
      assert !Less(s[|a|], s[|a| - 1]);
    }
    if WeaklySorted(a) && WeaklySorted(b) && !Less(b[0], a[|a| - 1]) {
      forall i, j | 0 <= i < |a| <= j < |s| ensures !Less(s[j], s[i]) {
        var x, y := a[i], b[j - |a|];
        assert !Less(a[|a| - 1], x) || i == |a| - 1;
        assert !Less(y, b[0]) || j == |a|;
        LessIrreflexive(b[0]);
        LessIrreflexive(x);
        NotLessTransitive(y, b[0], a[|a| - 1]);
        NotLessTransitive(y, a[|a| - 1], x);
      }
    }
  }

  lemma LessIrreflexive(a: Entry)
    ensures !Less(a, a)
  {
    KeyLessIrreflexive(a.key);
  }

  datatype ValidatedNode = ValidatedNode(level: nat, entries: seq<Entry>, leaves: seq<nat>)

  /** What an accepted node reports about the tree found. */
  ghost predicate Reports(n: ValidatedNode, t: Tree) {
    n.entries == Entries(t) && n.leaves == LeafIds(t) && n.entries != []
  }

  lemma AcceptedLeaf(pages: seq<Page>, id: nat, entries: seq<Entry>, owned: set<nat>)
    requires PagesOk(pages) && id < |pages| && pages[id].ptype == IndexLeaf && id !in owned
    requires IsLeaf(pages[id].payload, LeafContents(PreviousOf(pages[id].payload), entries)) && entries != []
    requires WeaklySorted(entries)
    ensures Acceptable(pages, Leaf(id, entries), 0, owned)
  {
    hide LeafPayload, PreviousOf, LeafSize;
    LeafPayloadSize(PreviousOf(pages[id].payload), entries);
  }

  lemma IsLeafPrevious(payload: Bytes, c: LeafContents)
    requires IsLeaf(payload, c)
    ensures c.previous == PreviousOf(payload)
  {
    LeafPrevious(c.previous, c.entries);
  }

  lemma LeafIsStored(pages: seq<Page>, t: Tree, level: nat, owned: set<nat>)
    requires PagesOk(pages) && Acceptable(pages, t, level, owned) && t.id < |pages| && pages[t.id].ptype == IndexLeaf
    ensures t.Leaf? && level == 0 && t.entries != [] && WeaklySorted(t.entries)
    ensures IsLeaf(pages[t.id].payload, LeafContents(PreviousOf(pages[t.id].payload), t.entries))
  {
    hide LeafPayload, PreviousOf, LeafSize, EntryOk, Separators, NodeSize, InternalBytes;
    if t.Leaf? {
      StoredLeaf(pages, t);
    }
  }

  lemma NodeIsStored(pages: seq<Page>, t: Tree, level: nat, owned: set<nat>)
    requires PagesOk(pages) && Acceptable(pages, t, level, owned) && t.id < |pages| && pages[t.id].ptype != IndexLeaf
    ensures t.Node? && level >= 1 && |t.seps| >= 1 && Separators(t.seps, t.kids) && |t.kids| == |t.seps| + 1
    ensures IsInternal(pages[t.id].payload, InternalContents(level, t.seps, Roots(t.kids)))
    ensures pages[t.id].next == NO_PAGE && pages[t.id].ptype == IndexInternal
    ensures forall i :: 0 <= i < |t.kids| ==> WF(t.kids[i], level - 1) && Holds(pages, t.kids[i], level - 1)
    ensures t.id !in AllIds(t.kids) && AllApart(t.kids) && AllIds(t.kids) !! owned + {t.id}
    ensures WeaklySorted(AllEntries(t.kids))
  {
    hide LeafPayload, PreviousOf, LeafSize, EntryOk, NodeSize, InternalBytes, AllEntries, AllIds, AllApart, IsInternal;
    if t.Node? {
      StoredNode(pages, t, level);
      NodeParts(t);
    }
  }

  lemma OwnedRoot(pages: seq<Page>, t: Tree, level: nat, owned: set<nat>)
    requires Acceptable(pages, t, level, owned)
    ensures t.id < |pages| && t.id !in owned
  {
    hide WF, Apart, Entries;
    RootIsOwned(t);
  }

  method ValidateLeaf(pages: seq<Page>, id: nat, owned: set<nat>) returns (r: Result<ValidatedNode>, ghost t: Tree)
    requires PagesOk(pages) && id < |pages| && id !in owned && pages[id].ptype == IndexLeaf
    ensures r.Ok? ==>
              && t.id == id && Acceptable(pages, t, 0, owned) && Reports(r.value, t) && r.value.level == 0
              && Ids(t) == {id}
    ensures r.Err? ==> forall u: Tree, l :: u.id == id ==> !Acceptable(pages, u, l, owned)
  {
    hide Acceptable, IsLeaf, WeaklySorted, PagesOk, PreviousOf;
    t := Leaf(id, []);
    forall u: Tree, l | u.id == id && Acceptable(pages, u, l, owned)
      ensures u.Leaf? && u.entries != [] && WeaklySorted(u.entries)
      ensures IsLeaf(pages[id].payload, LeafContents(PreviousOf(pages[id].payload), u.entries))
    {
      LeafIsStored(pages, u, l, owned);
    }
    var c := DecodeLeafContents(pages[id].payload);
    if c.Err? { return Err(Corruption), t; }
    IsLeafPrevious(pages[id].payload, c.value);
    forall u: Tree, l | u.id == id && Acceptable(pages, u, l, owned) ensures u.entries == c.value.entries {
      LeafContentsUnique(pages[id].payload, c.value, LeafContents(PreviousOf(pages[id].payload), u.entries));
    }
    if |c.value.entries| == 0 { return Err(Corruption), t; }
    var sorted := IsWeaklySorted(c.value.entries);
    if !sorted { return Err(Corruption), t; }
    t := Leaf(id, c.value.entries);
    AcceptedLeaf(pages, id, c.value.entries, owned);
    r := Ok(ValidatedNode(0, c.value.entries, [id]));
  }

  // ----- internal pages

  /** The first children of a node, as far as they have been checked. */
  ghost predicate Checked(pages: seq<Page>, c: InternalContents, kids: seq<Tree>, owned: set<nat>) {
    && Paired(c) && c.level >= 1 && c.level < U16 && |kids| <= |c.children|
    && (forall j :: 0 <= j < |kids| ==>
          && kids[j].id == c.children[j] && WF(kids[j], c.level - 1) && Holds(pages, kids[j], c.level - 1)
          && Entries(kids[j]) != [])
    && (forall j :: 1 <= j < |kids| ==> c.separators[j - 1] == Entries(kids[j])[0])
    && AllApart(kids) && AllIds(kids) !! owned && WeaklySorted(AllEntries(kids))
  }

  /** The checks made on one more child. */
  ghost predicate NextFits(pages: seq<Page>, c: InternalContents, kids: seq<Tree>, owned: set<nat>, t: Tree) {
    && Paired(c) && |kids| < |c.children| && t.id == c.children[|kids|] && c.level >= 1
    && Acceptable(pages, t, c.level - 1, owned + AllIds(kids)) && Entries(t) != []
    && (|kids| > 0 ==> c.separators[|kids| - 1] == Entries(t)[0])
    && (AllEntries(kids) != [] ==> !Less(Entries(t)[0], AllEntries(kids)[|AllEntries(kids)| - 1]))
  }

  lemma CheckedSnoc(pages: seq<Page>, c: InternalContents, kids: seq<Tree>, owned: set<nat>, t: Tree)
    requires Checked(pages, c, kids, owned)
    ensures NextFits(pages, c, kids, owned, t) ==> Checked(pages, c, kids + [t], owned)
    ensures AllIds(kids + [t]) == AllIds(kids) + Ids(t) && AllEntries(kids + [t]) == AllEntries(kids) + Entries(t)
    ensures AllLeafIds(kids + [t]) == AllLeafIds(kids) + LeafIds(t)
  {
    hide WF, Holds, AllIds, AllEntries, AllApart, Apart, Entries, Ids, AllLeafIds, LeafIds, Less, WeaklySorted;
    WalkSplit(kids, [t]);
    WalkOne(t);
    ApartSplit(kids, [t]);
    ApartOne(t);
    if NextFits(pages, c, kids, owned, t) {
      if AllEntries(kids) == [] {
        assert AllEntries(kids + [t]) == Entries(t);
      } else {
        WeaklySortedJoin(AllEntries(kids), Entries(t));
      }
    }
  }

  lemma CheckedLast(pages: seq<Page>, c: InternalContents, kids: seq<Tree>, owned: set<nat>, t: Tree)
    requires Checked(pages, c, kids + [t], owned)
    ensures Checked(pages, c, kids, owned) && NextFits(pages, c, kids, owned, t)
  {
    hide WF, Holds, AllIds, AllEntries, AllApart, Apart, Entries, Ids, AllLeafIds, LeafIds, Less, WeaklySorted;
    var all := kids + [t];
    WalkSplit(kids, [t]);
    WalkOne(t);
    ApartSplit(kids, [t]);
    ApartOne(t);
    assert forall j :: 0 <= j < |kids| ==> all[j] == kids[j];
    assert all[|kids|] == t;
    if AllEntries(kids) == [] {
      assert AllEntries(all) == Entries(t);
      NothingIsSorted();
    } else {
      WeaklySortedJoin(AllEntries(kids), Entries(t));
    }
  }

  lemma NothingIsSorted()
    ensures WeaklySorted([])
  {
  }

  /** Any accepted list of children continues what was found so far. */
  lemma {:induction false} CheckedPrefix(pages: seq<Page>, c: InternalContents, kids: seq<Tree>, all: seq<Tree>,
          owned: set<nat>)
    requires PagesOk(pages) && Checked(pages, c, kids, owned) && Checked(pages, c, all, owned) && |kids| < |all|
    ensures all[..|kids|] == kids && NextFits(pages, c, kids, owned, all[|kids|])
    decreases |all|
  {
    hide WF, Holds, AllIds, AllEntries, AllApart, Apart, Entries, Ids, AllLeafIds, LeafIds, Less, WeaklySorted,
      NextFits;
    var n := |all| - 1;
    assert all == all[..n] + [all[n]];
    CheckedLast(pages, c, all[..n], owned, all[n]);
    if n == |kids| {
      forall j | 0 <= j < n ensures kids[j] == all[j] {
        HoldsUnique(pages, kids[j], c.level - 1, all[j], c.level - 1);
      }
      assert all[..n] == kids;
    } else {
      CheckedPrefix(pages, c, kids, all[..n], owned);
      assert all[..n][..|kids|] == all[..|kids|];
    }
  }

  ghost predicate ChildrenAccepted(pages: seq<Page>, c: InternalContents, kids: seq<Tree>, owned: set<nat>) {
    Checked(pages, c, kids, owned) && |kids| == |c.children|
  }

  lemma NothingChecked(pages: seq<Page>, c: InternalContents, owned: set<nat>)
    requires Paired(c) && 1 <= c.level < U16
    ensures Checked(pages, c, [], owned)
  {
    EmptyWalk();
  }

  /** One child: its own subtree, then level, separator and order. */
  method ValidateChild(pages: seq<Page>, c: InternalContents, i: nat, owned0: set<nat>, owned: set<nat>,
          active: set<nat>, entries: seq<Entry>, ghost kids: seq<Tree>)
    returns (r: Result<ValidatedNode>, owned': set<nat>, ghost t: Tree)
    requires PagesOk(pages) && owned <= Range(0, |pages|) && active <= owned && Paired(c)
    requires Checked(pages, c, kids, owned0) && i == |kids| < |c.children| && owned == owned0 + AllIds(kids)
    requires entries == AllEntries(kids)
    ensures r.Ok? ==>
              && NextFits(pages, c, kids, owned0, t) && Reports(r.value, t) && owned' == owned + Ids(t)
              && owned' <= Range(0, |pages|)
    ensures r.Err? ==> forall u :: !NextFits(pages, c, kids, owned0, u)
    decreases Range(0, |pages|) - owned, 2
  {
    hide Checked, Acceptable, PagesOk, Less, AllEntries, AllIds, Entries, Ids, LeafIds;
    var child;
    child, owned', t := ValidateIndexNode(pages, c.children[i], owned, active);
    if child.Err? { return Err(Corruption), owned', t; }
    forall u | NextFits(pages, c, kids, owned0, u) ensures u == t && child.value.level == c.level - 1 {
      AcceptedIsUnique(pages, u, c.level - 1, t, child.value.level, owned);
    }
    if child.value.level + 1 != c.level { return Err(Corruption), owned', t; }
    if i > 0 && c.separators[i - 1] != child.value.entries[0] { return Err(Corruption), owned', t; }
    if entries != [] && Less(child.value.entries[0], entries[|entries| - 1]) { return Err(Corruption), owned', t; }
    r := child;
  }

  lemma AcceptedIsUnique(pages: seq<Page>, t: Tree, l: nat, u: Tree, m: nat, owned: set<nat>)
    requires PagesOk(pages) && t.id == u.id && Acceptable(pages, t, l, owned) && Acceptable(pages, u, m, owned)
    ensures t == u && l == m
  {
    hide WF, Holds, Apart, Ids, Entries;
    HoldsUnique(pages, t, l, u, m);
  }

  /** The loop over the children of an internal page. */
  method ValidateChildren(pages: seq<Page>, c: InternalContents, owned0: set<nat>, active: set<nat>)
    returns (r: Result<ValidatedNode>, owned: set<nat>, ghost kids: seq<Tree>)
    requires PagesOk(pages) && owned0 <= Range(0, |pages|) && active <= owned0 && Paired(c) && 1 <= c.level < U16
    ensures r.Ok? ==>
              ChildrenAccepted(pages, c, kids, owned0) && owned == owned0 + AllIds(kids) && owned <= Range(0, |pages|)
    ensures r.Ok? ==> r.value == ValidatedNode(c.level, AllEntries(kids), AllLeafIds(kids))
    ensures r.Err? ==> forall ks :: !ChildrenAccepted(pages, c, ks, owned0)
    decreases Range(0, |pages|) - owned0, 3
  {
    hide Checked, PagesOk, AllEntries, AllIds, AllLeafIds, Ids, NextFits;
    var entries, leaves := [], [];
    owned, kids := owned0, [];
    NothingChecked(pages, c, owned0);
    EmptyWalk();
    for i := 0 to |c.children|
      invariant |kids| == i && Checked(pages, c, kids, owned0) && entries == AllEntries(kids)
      invariant leaves == AllLeafIds(kids)
      invariant owned == owned0 + AllIds(kids) && owned <= Range(0, |pages|)
    {
      forall ks | ChildrenAccepted(pages, c, ks, owned0) ensures NextFits(pages, c, kids, owned0, ks[i]) {
        CheckedPrefix(pages, c, kids, ks, owned0);
      }
      SmallerOrSame(owned0, owned, Range(0, |pages|));
      var child;
      ghost var t;
      child, owned, t := ValidateChild(pages, c, i, owned0, owned, active, entries, kids);
      if child.Err? { return Err(Corruption), owned, kids; }
      CheckedSnoc(pages, c, kids, owned0, t);
      entries, leaves, kids := entries + child.value.entries, leaves + child.value.leaves, kids + [t];
    }
    r := Ok(ValidatedNode(c.level, entries, leaves));
  }

  lemma SmallerOrSame(a: set<nat>, b: set<nat>, all: set<nat>)
    requires a <= b
    ensures all - b == all - a || all - b < all - a
  {
  }

  method ValidateInternal(pages: seq<Page>, id: nat, owned0: set<nat>, active: set<nat>)
    returns (r: Result<ValidatedNode>, owned: set<nat>, ghost t: Tree)
    requires PagesOk(pages) && id < |pages| && owned0 <= Range(0, |pages|) && id !in owned0 && active <= owned0
    requires pages[id].ptype == IndexInternal
    ensures r.Ok? ==> t.id == id && Acceptable(pages, t, r.value.level, owned0) && Reports(r.value, t)
    ensures r.Ok? ==> owned == owned0 + Ids(t) && owned <= Range(0, |pages|)
    ensures r.Err? ==> forall u: Tree, l :: u.id == id ==> !Acceptable(pages, u, l, owned0)
    decreases Range(0, |pages|) - owned0, 0
  {
    hide Acceptable, PagesOk, IsInternal, ChildrenAccepted, AllIds, AllEntries, AllLeafIds;
    t, owned := Leaf(id, []), owned0;
    forall u: Tree, l | u.id == id && Acceptable(pages, u, l, owned0)
      ensures pages[id].next == NO_PAGE && u.Node? && l >= 1 && |u.seps| >= 1
      ensures IsInternal(pages[id].payload, InternalContents(l, u.seps, Roots(u.kids)))
    {
      NodeIsStored(pages, u, l, owned0);
    }
    if pages[id].next != NO_PAGE { return Err(Corruption), owned, t; }
    var c := DecodeInternalContents(pages[id].payload);
    if c.Err? { return Err(Corruption), owned, t; }
    forall u: Tree, l | u.id == id && Acceptable(pages, u, l, owned0)
      ensures c.value.level == l && c.value.separators == u.seps
      ensures ChildrenAccepted(pages, c.value, u.kids, owned0 + {id})
    {
      InternalContentsUnique(pages[id].payload, c.value, InternalContents(l, u.seps, Roots(u.kids)));
      NodeIsChecked(pages, u, l, owned0, c.value);
    }
    if c.value.level == 0 || |c.value.separators| == 0 { return Err(Corruption), owned, t; }
    var sorted := IsWeaklySorted(c.value.separators);
    forall u: Tree, l | u.id == id && Acceptable(pages, u, l, owned0) ensures sorted {
      SeparatorsSorted(pages, u, l, owned0);
    }
    if !sorted { return Err(Corruption), owned, t; }
    InternalIsOk(pages[id].payload, c.value);
    var node;
    ghost var kids;
    node, owned, kids := ValidateChildren(pages, c.value, owned0 + {id}, active + {id});
    if node.Err? { return Err(Corruption), owned, t; }
    t := Node(id, c.value.separators, kids);
    AcceptedNode(pages, id, c.value, kids, owned0);
    r := node;
  }

  lemma InternalIsOk(payload: Bytes, c: InternalContents)
    requires IsInternal(payload, c)
    ensures Paired(c) && c.level < U16
  {
  }

  lemma NodeIsChecked(pages: seq<Page>, u: Tree, l: nat, owned: set<nat>, c: InternalContents)
    requires PagesOk(pages) && Acceptable(pages, u, l, owned) && u.id < |pages| && pages[u.id].ptype == IndexInternal
    requires u.Node? && c == InternalContents(l, u.seps, Roots(u.kids))
    ensures ChildrenAccepted(pages, c, u.kids, owned + {u.id})
  {
    hide Acceptable, PagesOk, IsInternal, AllIds, AllEntries, AllLeafIds, AllApart, WF, Holds, Entries, Ids,
      WeaklySorted;
    NodeIsStored(pages, u, l, owned);
    LevelFits(pages, u, l, owned);
    forall i | 0 <= i < |u.kids| ensures Entries(u.kids[i]) != [] { WFHasEntries(u.kids[i], l - 1); }
    assert u.kids[0].id == Roots(u.kids)[0];
  }

  lemma LevelFits(pages: seq<Page>, u: Tree, l: nat, owned: set<nat>)
    requires Acceptable(pages, u, l, owned)
    ensures l < U16
  {
  }

  /** Separators are entries of the tree in their order. */
  lemma SeparatorsSorted(pages: seq<Page>, u: Tree, l: nat, owned: set<nat>)
    requires PagesOk(pages) && Acceptable(pages, u, l, owned) && u.id < |pages| && pages[u.id].ptype == IndexInternal
    requires u.Node?
    ensures WeaklySorted(u.seps)
  {
    hide Acceptable, PagesOk, IsInternal, AllIds, AllEntries, AllLeafIds, AllApart, WF, Holds, Entries, Ids, Less;
    NodeIsStored(pages, u, l, owned);
    forall i | 0 <= i < |u.kids| ensures Entries(u.kids[i]) != [] { WFHasEntries(u.kids[i], l - 1); }
    forall i, j | 0 <= i < j < |u.seps| ensures !Less(u.seps[j], u.seps[i]) {
      FirstsInOrder(u.kids, i + 1, j + 1);
    }
  }

  lemma FirstsInOrder(kids: seq<Tree>, i: nat, j: nat)
    requires i < j < |kids| && WeaklySorted(AllEntries(kids)) && Entries(kids[i]) != [] && Entries(kids[j]) != []
    ensures !Less(Entries(kids[j])[0], Entries(kids[i])[0])
  {
    hide AllEntries, Entries, Less;
    WalkAround(kids, j);
    WalkAround(kids[..j], i);
    var a, b, c := AllEntries(kids[..j][..i]), Entries(kids[i]), AllEntries(kids[..j][i + 1..]);
    var s := AllEntries(kids);
    assert s[|a|] == b[0];
    assert s[|a + b + c|] == Entries(kids[j])[0];
  }

  lemma AcceptedNode(pages: seq<Page>, id: nat, c: InternalContents, kids: seq<Tree>, owned: set<nat>)
    requires PagesOk(pages) && id < |pages| && pages[id].ptype == IndexInternal && pages[id].next == NO_PAGE
    requires id !in owned
    requires IsInternal(pages[id].payload, c) && ChildrenAccepted(pages, c, kids, owned + {id}) && |c.separators| >= 1
    ensures Acceptable(pages, Node(id, c.separators, kids), c.level, owned)
    ensures Reports(ValidatedNode(c.level, AllEntries(kids), AllLeafIds(kids)), Node(id, c.separators, kids))
    ensures Ids(Node(id, c.separators, kids)) == {id} + AllIds(kids)
  {
    hide AllIds, AllEntries, AllLeafIds, AllApart, WF, Holds, Entries, Ids, Less, InternalBytes, NodeSize, WeaklySorted,
      EntryOk, Apart, LeafIds;
    var t := Node(id, c.separators, kids);
    NodeParts(t);
    InternalBytesSize(c);
    assert Roots(kids) == c.children;
    NodeIsWF(t, c.level);
    NodeIsHeld(pages, t, c);
    FirstOfAll(kids);
  }

  lemma NodeIsWF(t: Tree, level: nat)
    requires t.Node? && level >= 1 && |t.kids| == |t.seps| + 1 && |t.seps| >= 1 && All(t.seps, EntryOk)
    requires NodeSize(t.seps) <= PAYLOAD_SIZE
    requires forall i :: 0 <= i < |t.kids| ==> WF(t.kids[i], level - 1) && Entries(t.kids[i]) != []
    requires forall j :: 1 <= j < |t.kids| ==> t.seps[j - 1] == Entries(t.kids[j])[0]
    ensures WF(t, level)
  {
    hide EntryOk, NodeSize, Entries;
  }

  lemma NodeIsHeld(pages: seq<Page>, t: Tree, c: InternalContents)
    requires t.Node? && t.id < |pages| && pages[t.id].ptype == IndexInternal && pages[t.id].next == NO_PAGE
    requires c.level >= 1
    requires IsInternal(pages[t.id].payload, c) && c.separators == t.seps && c.children == Roots(t.kids)
    requires forall i :: 0 <= i < |t.kids| ==> Holds(pages, t.kids[i], c.level - 1)
    ensures Holds(pages, t, c.level)
  {
    hide InternalBytes, EntryOk;
  }

  /** Accepts a page exactly if a well-formed tree hangs from it, on pages that
      no other structure owns. */
  method ValidateIndexNode(pages: seq<Page>, id: nat, owned0: set<nat>, active: set<nat>)
    returns (r: Result<ValidatedNode>, owned: set<nat>, ghost t: Tree)
    requires PagesOk(pages) && owned0 <= Range(0, |pages|) && active <= owned0
    ensures r.Ok? ==> t.id == id && Acceptable(pages, t, r.value.level, owned0) && Reports(r.value, t)
    ensures r.Ok? ==> owned == owned0 + Ids(t) && owned <= Range(0, |pages|)
    ensures r.Err? ==> forall u: Tree, l :: u.id == id ==> !Acceptable(pages, u, l, owned0)
    decreases Range(0, |pages|) - owned0, 1
  {
    hide Acceptable, PagesOk, Reports;
    t, owned := Leaf(id, []), owned0;
    forall u: Tree, l | u.id == id && Acceptable(pages, u, l, owned0)
      ensures id < |pages| && id !in owned0 && (pages[id].ptype == IndexLeaf || pages[id].ptype == IndexInternal)
    {
      OwnedRoot(pages, u, l, owned0);
      if pages[id].ptype != IndexLeaf { NodeIsStored(pages, u, l, owned0); }
    }
    if id >= |pages| { return Err(Corruption), owned, t; }
    if id in active { return Err(Corruption), owned, t; }
    if id in owned0 { return Err(Corruption), owned, t; }
    if pages[id].ptype == IndexLeaf {
      r, t := ValidateLeaf(pages, id, owned0);
      owned := owned0 + {id};
    } else if pages[id].ptype == IndexInternal {
      r, owned, t := ValidateInternal(pages, id, owned0, active);
    } else {
      r := Err(Corruption);
    }
  }
}
