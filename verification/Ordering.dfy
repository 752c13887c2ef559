/** Byte strings, index entries and the order in which the engine keeps them.
    A key is compared byte by byte as an unsigned value; an index entry is a
    key with the record identifier that breaks ties between equal keys. */
module Ordering {
  type byte = x: int | 0 <= x < 256
  type Bytes = seq<byte>
  type Key = seq<byte>

  datatype Entry = Entry(key: Key, record: nat)

  predicate KeyLess(a: Key, b: Key) {
    b != [] && (a == [] || a[0] < b[0] || (a[0] == b[0] && KeyLess(a[1..], b[1..])))
  }

  lemma {:induction false} KeyLessTransitive(a: Key, b: Key, c: Key)
    requires KeyLess(a, b) && KeyLess(b, c)
    ensures KeyLess(a, c)
  {
    if a != [] && a[0] == b[0] == c[0] {
      KeyLessTransitive(a[1..], b[1..], c[1..]);
    }
  }

  lemma {:induction false} KeyLessTotal(a: Key, b: Key)
    ensures KeyLess(a, b) || KeyLess(b, a) || a == b
  {
    if a != [] && b != [] && a[0] == b[0] {
      KeyLessTotal(a[1..], b[1..]);
      assert a == [a[0]] + a[1..] && b == [b[0]] + b[1..];
    }
  }

  lemma {:induction false} KeyLessIrreflexive(a: Key)
    ensures !KeyLess(a, a)
  {
    if a != [] {
      KeyLessIrreflexive(a[1..]);
    }
  }

  lemma KeyLessIsStrictTotalOrder()
    ensures forall a, b, c :: KeyLess(a, b) && KeyLess(b, c) ==> KeyLess(a, c)
    ensures forall a, b :: KeyLess(a, b) || KeyLess(b, a) || a == b
    ensures forall a :: !KeyLess(a, a)
  {
    forall a, b, c | KeyLess(a, b) && KeyLess(b, c) ensures KeyLess(a, c) {
      KeyLessTransitive(a, b, c);
    }
    forall a, b ensures KeyLess(a, b) || KeyLess(b, a) || a == b {
      KeyLessTotal(a, b);
    }
    forall a ensures !KeyLess(a, a) {
      KeyLessIrreflexive(a);
    }
  }

  predicate Less(a: Entry, b: Entry) {
    KeyLess(a.key, b.key) || (a.key == b.key && a.record < b.record)
  }

  lemma LessTransitive(a: Entry, b: Entry, c: Entry)
    requires Less(a, b) && Less(b, c)
    ensures Less(a, c)
  {
    if KeyLess(a.key, b.key) && KeyLess(b.key, c.key) {
      KeyLessTransitive(a.key, b.key, c.key);
    }
  }

  lemma LessAsymmetric(a: Entry, b: Entry)
    ensures !(Less(a, b) && Less(b, a))
  {
    KeyLessIsStrictTotalOrder();
  }

  lemma LessIsStrictTotalOrder()
    ensures forall a, b, c :: Less(a, b) && Less(b, c) ==> Less(a, c)
    ensures forall a, b :: Less(a, b) || Less(b, a) || a == b
    ensures forall a :: !Less(a, a)
  {
    KeyLessIsStrictTotalOrder();
  }

  /** Strictly increasing. */
  ghost predicate Sorted(s: seq<Entry>) {
    forall i, j :: 0 <= i < j < |s| ==> Less(s[i], s[j])
  }

  /** The first position whose entry is not below `e`. */
  function LowerBound(s: seq<Entry>, e: Entry): (k: nat)
    ensures k <= |s|
    ensures forall i :: 0 <= i < k ==> Less(s[i], e)
    ensures k < |s| ==> !Less(s[k], e)
  {
    if s == [] || !Less(s[0], e) then 0 else 1 + LowerBound(s[1..], e)
  }

  /** The first position whose entry is above `e`. */
  function UpperBound(s: seq<Entry>, e: Entry): (k: nat)
    ensures k <= |s|
    ensures forall i :: 0 <= i < k ==> !Less(e, s[i])
    ensures k < |s| ==> Less(e, s[k])
  {
    if s == [] || Less(e, s[0]) then 0 else 1 + UpperBound(s[1..], e)
  }

  function InsertSorted(s: seq<Entry>, e: Entry): seq<Entry> {
    var k := LowerBound(s, e);
    s[..k] + [e] + s[k..]
  }

  lemma LowerBoundIsUnique(s: seq<Entry>, e: Entry, k: nat)
    requires k <= |s|
    requires forall i :: 0 <= i < k ==> Less(s[i], e)
    requires k < |s| ==> !Less(s[k], e)
    ensures LowerBound(s, e) == k
  {
  }

  /** Every entry at or after the lower bound is above an absent `e`. */
  lemma AboveLowerBound(s: seq<Entry>, e: Entry)
    requires Sorted(s) && e !in s
    ensures forall i :: LowerBound(s, e) <= i < |s| ==> Less(e, s[i])
  {
    LessIsStrictTotalOrder();
    var k := LowerBound(s, e);
    forall i | k <= i < |s| ensures Less(e, s[i]) {
      assert s[k] in s && Less(e, s[k]);
      assert k < i ==> Less(s[k], s[i]);
    }
  }

  lemma InsertSortedIsSorted(s: seq<Entry>, e: Entry)
    requires Sorted(s) && e !in s
    ensures Sorted(InsertSorted(s, e))
    ensures multiset(InsertSorted(s, e)) == multiset(s) + multiset{e}
    ensures forall x :: x in InsertSorted(s, e) <==> x in s || x == e
  {
    hide Less, LowerBound;
    var k := LowerBound(s, e);
    AboveLowerBound(s, e);
    InsertedIsSorted(s[..k], e, s[k..]);
    assert s == s[..k] + s[k..];
    InsertedMembers(s[..k], e, s[k..]);
  }

  lemma InsertedIsSorted(a: seq<Entry>, e: Entry, b: seq<Entry>)
    requires Sorted(a + b) && (forall i :: 0 <= i < |a| ==> Less(a[i], e)) && forall i :: 0 <= i < |b| ==> Less(e, b[i])
    ensures Sorted(a + [e] + b)
  {
    hide Less;
    var r, s := a + [e] + b, a + b;
    forall i, j | 0 <= i < j < |r| ensures Less(r[i], r[j]) {
      var i', j' := if i < |a| then i else i - 1, if j < |a| then j else j - 1;
      assert i != |a| ==> r[i] == s[i'];
      assert j != |a| ==> r[j] == s[j'];
    }
  }

  lemma InsertedMembers(a: seq<Entry>, e: Entry, b: seq<Entry>)
    ensures forall x :: x in a + [e] + b <==> x in a + b || x == e
    ensures multiset(a + [e] + b) == multiset(a + b) + multiset{e}
  {
  }

  lemma Reassociate<T>(a: seq<T>, b: seq<T>, c: seq<T>)
    ensures (a + b) + c == a + (b + c)
  {
  }

  lemma SpliceInMiddle<T>(a: seq<T>, b: seq<T>, c: seq<T>, k: nat, x: seq<T>)
    requires k <= |b|
    ensures (a + b + c)[..|a| + k] + x + (a + b + c)[|a| + k..] == a + (b[..k] + x + b[k..]) + c
  {
    assert (a + b + c)[..|a| + k] == a + b[..k];
    assert (a + b + c)[|a| + k..] == b[k..] + c;
    var l, r := b[..k], b[k..];
    assert (a + l) + x + (r + c) == a + (l + x + r) + c;
  }

  lemma LowerBoundInMiddle(a: seq<Entry>, b: seq<Entry>, c: seq<Entry>, e: Entry)
    requires Sorted(a + b + c)
    requires a != [] ==> Less(a[|a| - 1], e)
    requires c != [] ==> Less(e, c[0])
    ensures LowerBound(a + b + c, e) == |a| + LowerBound(b, e)
  {
    hide Less;
    var s := a + b + c;
    var k := LowerBound(b, e);
    forall i | 0 <= i < |a| + k ensures Less(s[i], e) {
      if i < |a| - 1 {
        LessTransitive(s[i], s[|a| - 1], e);
      }
    }
    if k == |b| && c != [] {
      LessAsymmetric(e, c[0]);
    }
    LowerBoundIsUnique(s, e, |a| + k);
  }

  /** Inserting into the middle part of a sorted sequence inserts into the whole. */
  lemma InsertSortedInMiddle(a: seq<Entry>, b: seq<Entry>, c: seq<Entry>, e: Entry)
    requires Sorted(a + b + c)
    requires a != [] ==> Less(a[|a| - 1], e)
    requires c != [] ==> Less(e, c[0])
    ensures InsertSorted(a + b + c, e) == a + InsertSorted(b, e) + c
  {
    hide Less, Sorted;
    LowerBoundInMiddle(a, b, c, e);
    SpliceInMiddle(a, b, c, LowerBound(b, e), [e]);
  }

  lemma {:induction false} SortedTail(s: seq<Entry>)
    requires Sorted(s) && s != []
    ensures Sorted(s[1..])
    ensures forall x :: x in s ==> x == s[0] || Less(s[0], x)
  {
    assert s == [s[0]] + s[1..];
  }

  lemma SameHead(s: seq<Entry>, t: seq<Entry>)
    requires Sorted(s) && Sorted(t) && s != [] && t != []
    requires s[0] in t && t[0] in s
    ensures s[0] == t[0]
  {
    hide Less;
    SortedTail(s);
    SortedTail(t);
    LessAsymmetric(s[0], t[0]);
  }

  lemma HeadIsOnce(s: seq<Entry>)
    requires Sorted(s) && s != []
    ensures s[0] !in s[1..]
  {
    hide Less;
    LessIsStrictTotalOrder();
  }

  /** A sorted sequence is determined by its elements. */
  lemma {:induction false} SortedIsUnique(s: seq<Entry>, t: seq<Entry>)
    requires Sorted(s) && Sorted(t)
    requires forall x :: x in s <==> x in t
    ensures s == t
  {
    hide *;
    assert t == [] || t[0] in t;
    if s != [] {
      assert s[0] in s && s[0] in t;
      assert t[0] in t && t[0] in s;
      SameHead(s, t);
      SortedTail(s);
      SortedTail(t);
      HeadIsOnce(s);
      HeadIsOnce(t);
      assert s == [s[0]] + s[1..];
      assert t == [t[0]] + t[1..];
      forall x ensures x in s[1..] <==> x in t[1..] {
        assert x in s <==> x == s[0] || x in s[1..];
        assert x in t <==> x == t[0] || x in t[1..];
      }
      SortedIsUnique(s[1..], t[1..]);
    }
  }

  /** Sorting a list without repetitions. */
  function SortEntries(s: seq<Entry>): seq<Entry> {
    if s == [] then [] else InsertSorted(SortEntries(s[..|s| - 1]), s[|s| - 1])
  }

  ghost predicate Distinct(s: seq<Entry>) { forall i, j :: 0 <= i < j < |s| ==> s[i] != s[j] }

  /** It is ordered and a permutation. */
  lemma {:induction false} SortEntriesSorts(s: seq<Entry>)
    requires Distinct(s)
    ensures Sorted(SortEntries(s)) && multiset(SortEntries(s)) == multiset(s)
    ensures forall x :: x in SortEntries(s) <==> x in s
  {
    hide InsertSorted, Less, Sorted;
    if s == [] {
      NothingSorted();
    } else {
      var n := |s| - 1;
      assert s == s[..n] + [s[n]];
      SortEntriesSorts(s[..n]);
      InsertSortedIsSorted(SortEntries(s[..n]), s[n]);
    }
  }

  lemma NothingSorted()
    ensures Sorted([])
  {
  }
}
