/** Combining record lists: the union and the intersection of two selections. */
module RecordLists {

  ghost predicate Ascends(s: seq<nat>) { forall i, j :: 0 <= i < j < |s| ==> s[i] <= s[j] }

  /** Ascending without a duplicate. */
  ghost predicate Strict(s: seq<nat>) { forall i, j :: 0 <= i < j < |s| ==> s[i] < s[j] }

  ghost predicate NoDuplicates(s: seq<nat>) { forall i, j :: 0 <= i < j < |s| ==> s[i] != s[j] }

  // ----- the library algorithms

  function Put(s: seq<nat>, x: nat): seq<nat> {
    if s == [] || x < s[0] then [x] + s else [s[0]] + Put(s[1..], x)
  }

  /** `std::sort`. */
  function SortIds(s: seq<nat>): seq<nat> { if s == [] then [] else Put(SortIds(s[..|s| - 1]), s[|s| - 1]) }

  /** `std::unique` with the erasure of what it leaves behind. */
  function Unique(s: seq<nat>): seq<nat> {
    if |s| < 2 then s else if s[0] == s[1] then Unique(s[1..]) else [s[0]] + Unique(s[1..])
  }

  /** `std::set_intersection`. */
  function Common(a: seq<nat>, b: seq<nat>): seq<nat>
    decreases |a| + |b|
  {
    if a == [] || b == [] then []
    else if a[0] < b[0] then Common(a[1..], b)
    else if b[0] < a[0] then Common(a, b[1..])
    else [a[0]] + Common(a[1..], b[1..])
  }

  lemma {:induction false} PutCounts(s: seq<nat>, x: nat)
    ensures multiset(Put(s, x)) == multiset(s) + multiset{x}
  {
    if s != [] && s[0] <= x {
      PutCounts(s[1..], x);
      assert s == [s[0]] + s[1..];
    }
  }

  lemma {:induction false} PutAscends(s: seq<nat>, x: nat)
    requires Ascends(s)
    ensures Ascends(Put(s, x)) && (s != [] && s[0] <= x ==> Put(s, x)[0] == s[0]) && |Put(s, x)| > 0
    ensures s == [] || x < s[0] ==> Put(s, x)[0] == x
  {
    if s != [] && s[0] <= x {
      PutAscends(s[1..], x);
    }
  }

  lemma {:induction false} SortIsSorted(s: seq<nat>)
    ensures Ascends(SortIds(s)) && multiset(SortIds(s)) == multiset(s)
  {
    hide Ascends, Put;
    if s == [] {
      EmptyAscends();
    } else {
      SortIsSorted(s[..|s| - 1]);
      PutAscends(SortIds(s[..|s| - 1]), s[|s| - 1]);
      PutCounts(SortIds(s[..|s| - 1]), s[|s| - 1]);
      assert s == s[..|s| - 1] + [s[|s| - 1]];
    }
  }

  lemma EmptyAscends()
    ensures Ascends([])
  {
  }

  lemma SortMembers(s: seq<nat>, x: nat)
    ensures x in SortIds(s) <==> x in s
  {
    SortIsSorted(s);
    assert x in SortIds(s) <==> x in multiset(SortIds(s));
    assert x in s <==> x in multiset(s);
  }

  lemma SortKeepsDistinct(s: seq<nat>)
    requires NoDuplicates(s)
    ensures Strict(SortIds(s))
  {
    hide SortIds;
    SortIsSorted(s);
    DistinctCounts(s);
    var t := SortIds(s);
    forall i, j | 0 <= i < j < |t| ensures t[i] < t[j] {
      if t[i] == t[j] { CountTwice(t, i, j); }
    }
  }

  lemma {:induction false} DistinctCounts(s: seq<nat>)
    requires NoDuplicates(s)
    ensures forall x :: multiset(s)[x] <= 1
  {
    if s != [] {
      var n := |s| - 1;
      DistinctCounts(s[..n]);
      assert s == s[..n] + [s[n]];
      assert s[n] !in multiset(s[..n]);
    }
  }

  lemma CountTwice(s: seq<nat>, i: nat, j: nat)
    requires i < j < |s| && s[i] == s[j]
    ensures multiset(s)[s[i]] >= 2
  {
    assert s == s[..j] + ([s[j]] + s[j + 1..]);
    assert s[i] in s[..j];
  }

  lemma {:induction false} UniqueIsStrict(s: seq<nat>)
    requires Ascends(s)
    ensures Strict(Unique(s)) && (forall x :: x in Unique(s) <==> x in s)
    ensures s != [] ==> Unique(s) != [] && Unique(s)[0] == s[0]
  {
    if |s| >= 2 {
      UniqueIsStrict(s[1..]);
      assert s == [s[0]] + s[1..];
    }
  }

  lemma {:induction false} CommonMembers(a: seq<nat>, b: seq<nat>)
    requires Ascends(a) && Ascends(b)
    ensures forall x :: x in Common(a, b) <==> x in a && x in b
    decreases |a| + |b|
  {
    if a != [] && b != [] {
      assert a == [a[0]] + a[1..] && b == [b[0]] + b[1..];
      if a[0] < b[0] {
        CommonMembers(a[1..], b);
      } else if b[0] < a[0] {
        CommonMembers(a, b[1..]);
      } else {
        CommonMembers(a[1..], b[1..]);
      }
    }
  }

  lemma {:induction false} CommonStrict(a: seq<nat>, b: seq<nat>)
    requires Strict(a) && Strict(b)
    ensures Strict(Common(a, b)) && forall i :: 0 <= i < |Common(a, b)| ==> a != [] && a[0] <= Common(a, b)[i]
    decreases |a| + |b|
  {
    if a != [] && b != [] {
      if a[0] < b[0] {
        CommonStrict(a[1..], b);
      } else if b[0] < a[0] {
        CommonStrict(a, b[1..]);
      } else {
        CommonStrict(a[1..], b[1..]);
      }
    }
  }

  // ----- the two operations

  function Union(a: seq<nat>, b: seq<nat>): seq<nat> { Unique(SortIds(a + b)) }

  function Intersection(a: seq<nat>, b: seq<nat>): seq<nat> { Common(SortIds(a), SortIds(b)) }

  lemma UnionIs(a: seq<nat>, b: seq<nat>)
    ensures Strict(Union(a, b)) && forall x :: x in Union(a, b) <==> x in a || x in b
  {
    hide SortIds, Unique, Strict, Ascends;
    SortIsSorted(a + b);
    UniqueIsStrict(SortIds(a + b));
    forall x: nat ensures x in Union(a, b) <==> x in a || x in b { SortMembers(a + b, x); }
  }

  lemma IntersectionIs(a: seq<nat>, b: seq<nat>)
    ensures forall x :: x in Intersection(a, b) <==> x in a && x in b
    ensures NoDuplicates(a) && NoDuplicates(b) ==> Strict(Intersection(a, b))
  {
    hide SortIds, Common, Strict, Ascends, NoDuplicates;
    SortIsSorted(a);
    SortIsSorted(b);
    CommonMembers(SortIds(a), SortIds(b));
    forall x: nat ensures x in Intersection(a, b) <==> x in a && x in b {
      SortMembers(a, x);
      SortMembers(b, x);
    }
    if NoDuplicates(a) && NoDuplicates(b) {
      SortKeepsDistinct(a);
      SortKeepsDistinct(b);
      CommonStrict(SortIds(a), SortIds(b));
    }
  }

  /** `my_union`. */
  method MyUnion(a: seq<nat>, b: seq<nat>) returns (combined: seq<nat>)
    ensures combined == Union(a, b)
    ensures Strict(combined) && forall x :: x in combined <==> x in a || x in b
  {
    hide SortIds, Unique, Strict;
    combined := a;
    combined := combined + b;
    combined := SortIds(combined);
    combined := Unique(combined);
    UnionIs(a, b);
  }

  /** `my_intersection`. */
  method MyIntersection(a0: seq<nat>, b0: seq<nat>) returns (intersection: seq<nat>)
    ensures intersection == Intersection(a0, b0)
    ensures forall x :: x in intersection <==> x in a0 && x in b0
    ensures NoDuplicates(a0) && NoDuplicates(b0) ==> Strict(intersection)
  {
    hide SortIds, Common, Strict, NoDuplicates;
    var a, b := SortIds(a0), SortIds(b0);
    intersection := Common(a, b);
    IntersectionIs(a0, b0);
  }

  lemma HasMember(s: seq<nat>)
    ensures s == [] || exists x :: x in s
  {
    if s != [] { assert s[0] in s; }
  }

  /** A strictly ascending list is determined by its members. */
  lemma {:induction false} StrictIsUnique(a: seq<nat>, b: seq<nat>)
    requires Strict(a) && Strict(b) && forall x :: x in a <==> x in b
    ensures a == b
  {
    if a == [] {
      HasMember(b);
    } else {
      assert a[0] in b;
      assert b[0] in a;
      assert a[0] == b[0];
      forall x: nat ensures x in a[1..] <==> x in b[1..] {
        assert x in a[1..] ==> x in a && x != a[0];
        assert x in b[1..] ==> x in b && x != b[0];
        assert a == [a[0]] + a[1..] && b == [b[0]] + b[1..];
      }
      StrictIsUnique(a[1..], b[1..]);
    }
  }
}
