/** One comparison of a field with a value, answered by scanning the stored
    index or by walking the cached multimap: the same record list. */
module QueryPaths {
  import opened Ordering
  import opened Codec
  import opened ArrayFunctions
  import opened ShapeOrder
  import opened MultiMap
  import opened Streams
  import opened TableImage

  datatype Comparison = Equal | NotEqual | Less_ | LessEqual | Greater | GreaterEqual

  function ComparisonOf(op: string): Option<Comparison> {
    if op == "=" then Some(Equal)
    else if op == "!=" then Some(NotEqual)
    else if op == "<" then Some(Less_)
    else if op == "<=" then Some(LessEqual)
    else if op == ">" then Some(Greater)
    else if op == ">=" then Some(GreaterEqual)
    else None
  }

  /** Does a stored key satisfy the comparison with the value? */
  predicate Satisfies(c: Comparison, key: Key, value: Key) {
    match c
    case Equal => key == value
    case NotEqual => key != value
    case Less_ => KeyLess(key, value)
    case LessEqual => !KeyLess(value, key)
    case Greater => KeyLess(value, key)
    case GreaterEqual => !KeyLess(key, value)
  }

  /** The records of the entries that satisfy it, in their order. */
  ghost function Matching(entries: seq<Entry>, c: Comparison, value: Key): seq<nat> {
    if entries == [] then []
    else
      var rest, e := Matching(entries[..|entries| - 1], c, value), entries[|entries| - 1];
      if Satisfies(c, e.key, value) then rest + [e.record] else rest
  }

  lemma {:induction false} MatchingSplit(a: seq<Entry>, b: seq<Entry>, c: Comparison, value: Key)
    ensures Matching(a + b, c, value) == Matching(a, c, value) + Matching(b, c, value)
    decreases |b|
  {
    hide Satisfies;
    if b == [] {
      assert a + b == a;
    } else {
      var n := |b| - 1;
      assert (a + b)[..|a + b| - 1] == a + b[..n];
      MatchingSplit(a, b[..n], c, value);
    }
  }

  /** Filtering the column: a row is in the result exactly if its own value
      satisfies the comparison. */
  lemma MatchingIsFilter(rows: seq<Row>, f: nat, c: Comparison, value: Key, r: nat)
    requires forall i :: 0 <= i < |rows| ==> f < |rows[i]|
    ensures r in Matching(ColumnIndex(rows, f), c, value) <==> r < |rows| && Satisfies(c, rows[r][f], value)
  {
    hide Satisfies, ColumnIndex, Sorted;
    var x := ColumnIndex(rows, f);
    ColumnIndexSorted(rows, f);
    MatchingMembers(x, c, value, r);
    if r < |rows| && Satisfies(c, rows[r][f], value) {
      assert Column(rows, f)[r] in Column(rows, f);
      assert Entry(rows[r][f], r) in x;
    }
    if e :| e in x && e.record == r && Satisfies(c, e.key, value) {
      assert e in Column(rows, f);
      var i :| 0 <= i < |rows| && Column(rows, f)[i] == e;
    }
  }

  lemma {:induction false} MatchingMembers(entries: seq<Entry>, c: Comparison, value: Key, r: nat)
    ensures r in Matching(entries, c, value) <==>
              exists e :: e in entries && e.record == r && Satisfies(c, e.key, value)
  {
    hide Satisfies;
    if entries != [] {
      var n := |entries| - 1;
      MatchingMembers(entries[..n], c, value, r);
      assert entries == entries[..n] + [entries[n]];
      assert forall e :: e in entries <==> e in entries[..n] || e == entries[n];
    }
  }

  // ----- the stored index

  method Compare(op: string, key: Key, value: Key) returns (r: Option<bool>)
    ensures r == if ComparisonOf(op).None? then None else Some(Satisfies(ComparisonOf(op).value, key, value))
  {
    if op == "=" { return Some(key == value); }
    if op == "!=" { return Some(key != value); }
    if op == "<" { return Some(KeyLess(key, value)); }
    if op == "<=" {
      KeyLessIsStrictTotalOrder();
      return Some(key == value || KeyLess(key, value));
    }
    if op == ">" { return Some(KeyLess(value, key)); }
    if op == ">=" {
      KeyLessIsStrictTotalOrder();
      return Some(key == value || KeyLess(value, key));
    }
    r := None;
  }

  /** The scan of `query_index`; an unknown operator is only noticed when there
      is an entry to compare. */
  method ScanIndex(index: seq<Entry>, op: string, value: Key) returns (r: Result<seq<nat>>)
    ensures ComparisonOf(op).Some? ==> r == Ok(Matching(index, ComparisonOf(op).value, value))
    ensures ComparisonOf(op).None? ==> r == if index == [] then Ok([]) else Err(InvalidArgument)
  {
    hide Satisfies;
    var records: seq<nat> := [];
    for i := 0 to |index|
      invariant ComparisonOf(op).Some? ==> records == Matching(index[..i], ComparisonOf(op).value, value)
      invariant ComparisonOf(op).None? ==> i == 0 && records == []
    {
      var matches := Compare(op, index[i].key, value);
      if matches.None? { return Err(InvalidArgument); }
      assert index[..i + 1][..i] == index[..i];
      if matches.value {
        records := records + [index[i].record];
      }
    }
    assert index[..|index|] == index;
    r := Ok(records);
  }

  // ----- the cache as pairs

  /** All values, key by key. */
  ghost function Records(s: seq<Item>): seq<nat> { if s == [] then [] else s[0].values + Records(s[1..]) }

  ghost function PairsOf(k: Key, values: seq<nat>): seq<Entry> {
    seq(|values|, i requires 0 <= i < |values| => Entry(k, values[i]))
  }

  ghost function Pairs(s: seq<Item>): seq<Entry> {
    if s == [] then [] else PairsOf(s[0].key, s[0].values) + Pairs(s[1..])
  }

  /** The values of the items that satisfy the comparison. */
  ghost function RecordsWhere(s: seq<Item>, c: Comparison, value: Key): seq<nat> {
    if s == [] then [] else (if Satisfies(c, s[0].key, value) then s[0].values else []) + RecordsWhere(s[1..], c, value)
  }

  lemma {:induction false} RecordsSplit(a: seq<Item>, b: seq<Item>)
    ensures Records(a + b) == Records(a) + Records(b)
  {
    if a == [] {
      assert a + b == b;
    } else {
      assert (a + b)[1..] == a[1..] + b;
      RecordsSplit(a[1..], b);
    }
  }

  lemma {:induction false} WhereSplit(a: seq<Item>, b: seq<Item>, c: Comparison, value: Key)
    ensures RecordsWhere(a + b, c, value) == RecordsWhere(a, c, value) + RecordsWhere(b, c, value)
  {
    hide Satisfies;
    if a == [] {
      assert a + b == b;
    } else {
      assert (a + b)[1..] == a[1..] + b;
      WhereSplit(a[1..], b, c, value);
    }
  }

  lemma {:induction false} WhereAll(s: seq<Item>, c: Comparison, value: Key)
    requires forall i :: 0 <= i < |s| ==> Satisfies(c, s[i].key, value)
    ensures RecordsWhere(s, c, value) == Records(s)
  {
    hide Satisfies;
    if s != [] { WhereAll(s[1..], c, value); }
  }

  lemma {:induction false} WhereNone(s: seq<Item>, c: Comparison, value: Key)
    requires forall i :: 0 <= i < |s| ==> !Satisfies(c, s[i].key, value)
    ensures RecordsWhere(s, c, value) == []
  {
    hide Satisfies;
    if s != [] { WhereNone(s[1..], c, value); }
  }

  lemma {:induction false} MatchingOneKey(k: Key, values: seq<nat>, c: Comparison, value: Key)
    ensures Matching(PairsOf(k, values), c, value) == if Satisfies(c, k, value) then values else []
    decreases |values|
  {
    hide Satisfies;
    if values != [] {
      var n := |values| - 1;
      assert PairsOf(k, values)[..n] == PairsOf(k, values[..n]);
      MatchingOneKey(k, values[..n], c, value);
      assert values == values[..n] + [values[n]];
    }
  }

  /** Filtering the pairs is filtering the keys. */
  lemma {:induction false} MatchingPairs(s: seq<Item>, c: Comparison, value: Key)
    ensures Matching(Pairs(s), c, value) == RecordsWhere(s, c, value)
  {
    hide Satisfies, Matching;
    if s != [] {
      MatchingSplit(PairsOf(s[0].key, s[0].values), Pairs(s[1..]), c, value);
      MatchingOneKey(s[0].key, s[0].values, c, value);
      MatchingPairs(s[1..], c, value);
    } else {
      MatchingOneKey([], [], c, value);
      assert PairsOf([], []) == [];
    }
  }

  // ----- the cache holds the column

  ghost predicate Increasing(v: seq<nat>, bound: nat) {
    (forall i, j :: 0 <= i < j < |v| ==> v[i] < v[j]) && forall i :: 0 <= i < |v| ==> v[i] < bound
  }

  ghost predicate Grouped(s: seq<Item>, bound: nat) {
    Ascending(s) && forall i :: 0 <= i < |s| ==> Increasing(s[i].values, bound)
  }

  /** What inserting the rows one by one makes of a field. */
  ghost function CacheOf(rows: seq<Row>, f: nat): seq<Item> {
    if rows == [] then []
    else
      var n := |rows| - 1;
      AddValue(CacheOf(rows[..n], f), if f < |rows[n]| then rows[n][f] else [], n)
  }

  lemma InPairs(s: seq<Item>, e: Entry)
    ensures e in Pairs(s) <==> exists i :: 0 <= i < |s| && s[i].key == e.key && e.record in s[i].values
  {
    if s != [] {
      InPairs(s[1..], e);
      var h := PairsOf(s[0].key, s[0].values);
      assert e in h <==> s[0].key == e.key && e.record in s[0].values by {
        if s[0].key == e.key && e.record in s[0].values {
          var j :| 0 <= j < |s[0].values| && s[0].values[j] == e.record;
          assert h[j] == e;
        }
      }
      if i :| 0 <= i < |s| && s[i].key == e.key && e.record in s[i].values {
        if i > 0 { assert s[1..][i - 1] == s[i]; }
      }
      if i :| 0 <= i < |s[1..]| && s[1..][i].key == e.key && e.record in s[1..][i].values {
        assert s[i + 1] == s[1..][i];
      }
    }
  }

  lemma {:induction false} PairsSorted(s: seq<Item>, bound: nat)
    requires Grouped(s, bound)
    ensures Sorted(Pairs(s))
  {
    hide KeyLess;
    if s != [] {
      var h, t := PairsOf(s[0].key, s[0].values), Pairs(s[1..]);
      assert Grouped(s[1..], bound);
      PairsSorted(s[1..], bound);
      forall i, j | 0 <= i < |h| && 0 <= j < |t| ensures Less(h[i], t[j]) {
        assert t[j] in t;
        InPairs(s[1..], t[j]);
        var x :| 0 <= x < |s[1..]| && s[1..][x].key == t[j].key && t[j].record in s[1..][x].values;
        assert s[x + 1] == s[1..][x];
      }
      SortedJoin(h, t);
    }
  }

  lemma SortedJoin(a: seq<Entry>, b: seq<Entry>)
    requires Sorted(a) && Sorted(b) && forall i, j :: 0 <= i < |a| && 0 <= j < |b| ==> Less(a[i], b[j])
    ensures Sorted(a + b)
  {
    hide Less;
  }

  lemma AddGrouped(s: seq<Item>, k: Key, n: nat)
    requires Grouped(s, n)
    ensures Grouped(AddValue(s, k, n), n + 1)
    ensures forall e :: e in Pairs(AddValue(s, k, n)) <==> e in Pairs(s) || e == Entry(k, n)
  {
    hide KeyLess, FirstGe, Ascending, Pairs;
    AddAscending(s, k, n);
    KeyLessIsStrictTotalOrder();
    var r, t := FirstGe(s, k), AddValue(s, k, n);
    forall e ensures e in Pairs(t) <==> e in Pairs(s) || e == Entry(k, n) {
      InPairs(s, e);
      InPairs(t, e);
      AddMembers(s, k, n, e);
    }
    GroupedIs(s, n);
    GroupedIs(t, n + 1);
    forall i | 0 <= i < |t| ensures Increasing(t[i].values, n + 1) {
      AddItem(s, k, n, i);
    }
  }

  lemma GroupedIs(s: seq<Item>, bound: nat)
    ensures Grouped(s, bound) <==> Ascending(s) && forall i :: 0 <= i < |s| ==> Increasing(s[i].values, bound)
  {
    hide Ascending;
  }

  /** Each item of the result is an old one, the extended one, or the new one. */
  lemma AddItem(s: seq<Item>, k: Key, n: nat, i: nat)
    requires i < |AddValue(s, k, n)| && forall j :: 0 <= j < |s| ==> Increasing(s[j].values, n)
    ensures Increasing(AddValue(s, k, n)[i].values, n + 1)
  {
    hide KeyLess, FirstGe;
    var r := FirstGe(s, k);
    if Found(s, k) {
      assert Increasing(s[i].values, n);
    } else if i != r {
      assert Increasing(s[if i < r then i else i - 1].values, n);
    }
  }

  lemma AddMembers(s: seq<Item>, k: Key, n: nat, e: Entry)
    ensures
      (exists i :: 0 <= i < |AddValue(s, k, n)| &&
                   AddValue(s, k, n)[i].key == e.key && e.record in AddValue(s, k, n)[i].values)
      <==> (exists i :: 0 <= i < |s| && s[i].key == e.key && e.record in s[i].values) || e == Entry(k, n)
  {
    hide KeyLess, FirstGe;
    var r, t := FirstGe(s, k), AddValue(s, k, n);
    if i :| 0 <= i < |s| && s[i].key == e.key && e.record in s[i].values {
      assert t[if Found(s, k) || i < r then i else i + 1].key == e.key;
    }
    if e == Entry(k, n) { assert t[r].key == k && n in t[r].values; }
    if i :| 0 <= i < |t| && t[i].key == e.key && e.record in t[i].values && e != Entry(k, n) {
      assert s[if Found(s, k) || i < r then i else i - 1].key == e.key;
    }
  }

  lemma {:induction false} CacheGrouped(rows: seq<Row>, f: nat)
    ensures Grouped(CacheOf(rows, f), |rows|)
    ensures forall e :: e in Pairs(CacheOf(rows, f)) <==> e in Column(rows, f)
  {
    hide AddValue, Pairs, Grouped;
    if rows == [] {
      NoPairs();
    } else {
      var n := |rows| - 1;
      CacheGrouped(rows[..n], f);
      AddGrouped(CacheOf(rows[..n], f), if f < |rows[n]| then rows[n][f] else [], n);
      assert Column(rows, f) == Column(rows[..n], f) + [Column(rows, f)[n]];
    }
  }

  lemma NoPairs()
    ensures Grouped([], 0) && Pairs([]) == []
  {
  }

  /** The cached multimap, read key by key, is the stored index. */
  lemma CacheIsIndex(rows: seq<Row>, f: nat)
    ensures Pairs(CacheOf(rows, f)) == ColumnIndex(rows, f)
  {
    hide Pairs, CacheOf, Grouped, Sorted, ColumnIndex;
    CacheGrouped(rows, f);
    PairsSorted(CacheOf(rows, f), |rows|);
    ColumnIndexSorted(rows, f);
    SortedIsUnique(Pairs(CacheOf(rows, f)), ColumnIndex(rows, f));
  }
}
