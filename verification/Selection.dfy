/** A loaded table answering conditions: from its cached multimaps if it came
    from record files, from the stored indexes otherwise. */
module Selection {
  import opened Ordering
  import opened Codec
  import opened HeapShapes
  import opened HeapInsert
  import opened MultiMap
  import opened Streams
  import opened TableImage
  import opened QueryPaths
  import opened CachedQuery
  import opened RecordLists
  import opened Projection
  import opened WhereTokens
  import opened WhereEval

  function OpOf(c: Comparison): (op: string)
    ensures ComparisonOf(op) == Some(c)
  {
    match c
    case Equal => "="
    case NotEqual => "!="
    case Less_ => "<"
    case LessEqual => "<="
    case Greater => ">"
    case GreaterEqual => ">="
  }

  // ----- the caches of a table

  /** One cache, with all its objects inside `repr`. */
  ghost predicate CacheOk(m: MMap, repr: set<object>)
    reads repr
  {
    m in repr && m.mmap in repr && Owned(m.shape) <= repr && m.mmap in Owned(m.shape) && m.Valid()
  }

  ghost predicate CachesApart(a: MMap, b: MMap)
    reads a, b
  {
    a != b && a !in Owned(b.shape) && b !in Owned(a.shape) && Owned(a.shape) !! Owned(b.shape)
  }

  ghost predicate CachesValid(cache: seq<MMap>, repr: set<object>)
    reads repr
  {
    && (forall i :: 0 <= i < |cache| ==> CacheOk(cache[i], repr))
    && forall i, j :: 0 <= i < j < |cache| ==> CachesApart(cache[i], cache[j])
  }

  /** One value into the cache of one field; the others keep theirs. */
  method InsertInto(cache: seq<MMap>, w: nat, k: Key, n: nat, ghost repr: set<object>)
    returns (ghost repr': set<object>)
    requires CachesValid(cache, repr) && w < |cache|
    modifies repr
    ensures CachesValid(cache, repr') && fresh(repr' - repr)
    ensures cache[w].Contents() == AddValue(old(cache[w].Contents()), k, n)
    ensures forall j :: 0 <= j < |cache| && j != w ==> cache[j].Contents() == old(cache[j].Contents())
  {
    hide Owned, AddValue, Entries, RootOk;
    var m := cache[w];
    assert CacheOk(m, repr);
    forall j | 0 <= j < |cache| && j != w
      ensures CacheOk(cache[j], repr) && CachesApart(m, cache[j]) && allocated(Owned(cache[j].shape))
    {
      assert if j < w then CachesApart(cache[j], cache[w]) else CachesApart(cache[w], cache[j]);
    }
    m.Insert(k, n);
    repr' := repr + Owned(m.shape);
    OwnedRoot(m.shape);
  }

  method ReadRecords(width: nat, rows: seq<Row>) returns (cache: seq<MMap>, ghost repr: set<object>)
    requires forall i :: 0 <= i < |rows| ==> |rows[i]| == width
    ensures |cache| == width && CachesValid(cache, repr) && fresh(repr)
    ensures forall f :: 0 <= f < width ==> cache[f].Contents() == CacheOf(rows, f)
  {
    hide Owned, AddValue, CacheOf, CachesValid, Entries;
    cache, repr := NewCaches(width);
    EmptyCache();
    for i := 0 to |rows|
      invariant |cache| == width && CachesValid(cache, repr) && fresh(repr)
      invariant forall f :: 0 <= f < width ==> cache[f].Contents() == CacheOf(rows[..i], f)
    {
      for w := 0 to width
        invariant CachesValid(cache, repr) && fresh(repr)
        invariant forall f :: 0 <= f < w ==> cache[f].Contents() == CacheOf(rows[..i + 1], f)
        invariant forall f :: w <= f < width ==> cache[f].Contents() == CacheOf(rows[..i], f)
      {
        CacheStep(rows, i, w);
        repr := InsertInto(cache, w, rows[i][w], i, repr);
      }
    }
    assert rows[..|rows|] == rows;
  }

  method NewCaches(width: nat) returns (cache: seq<MMap>, ghost repr: set<object>)
    ensures |cache| == width && CachesValid(cache, repr) && fresh(repr)
    ensures forall j :: 0 <= j < width ==> cache[j].Contents() == []
  {
    hide Owned, Entries, RootOk;
    cache, repr := [], {};
    for f := 0 to width
      invariant |cache| == f && CachesValid(cache, repr) && fresh(repr)
      invariant forall j :: 0 <= j < f ==> cache[j].Contents() == []
    {
      forall j | 0 <= j < f ensures CacheOk(cache[j], repr) && allocated(Owned(cache[j].shape)) {
      }
      var m := new MMap();
      OwnedRoot(m.shape);
      cache, repr := cache + [m], repr + {m, m.mmap} + Owned(m.shape);
    }
  }

  lemma EmptyCache()
    ensures forall f: nat :: CacheOf([], f) == []
  {
  }

  lemma CacheStep(rows: seq<Row>, i: nat, f: nat)
    requires i < |rows| && f < |rows[i]|
    ensures CacheOf(rows[..i + 1], f) == AddValue(CacheOf(rows[..i], f), rows[i][f], i)
  {
    hide AddValue;
    assert rows[..i + 1][..i] == rows[..i];
  }

  // ----- the table

  class LoadedTable {
    var fieldNames: seq<Key>
    var fieldNameMap: map<Key, nat>
    var usesV2Storage: bool
    var storedRows: seq<Row>
    var cache: seq<MMap>
    var indexes: seq<seq<Entry>>
    ghost var repr: set<object>

    ghost predicate Valid()
      reads this, repr
    {
      && (forall name :: name in fieldNameMap <==> name in fieldNames)
      && (forall i :: 0 <= i < |fieldNames| ==> fieldNameMap[fieldNames[i]] == i)
      && (forall i :: 0 <= i < |storedRows| ==> |storedRows[i]| == |fieldNames|)
      && CachesValid(cache, repr)
      && if usesV2Storage then
           |indexes| == |fieldNames| && forall f :: 0 <= f < |indexes| ==> indexes[f] == ColumnIndex(storedRows, f)
         else
           |cache| == |fieldNames| && forall f :: 0 <= f < |cache| ==> cache[f].Contents() == CacheOf(storedRows, f)
    }

    /** The table as values. */
    ghost function Data(): Relational
      reads this
    {
      Relational(fieldNameMap, storedRows)
    }

    /** The fields of the read-only record files and their records. */
    constructor FromRecordFiles(names: seq<Key>, records: seq<Row>)
      requires forall i, j :: 0 <= i < j < |names| ==> names[i] != names[j]
      requires forall i :: 0 <= i < |records| ==> |records[i]| == |names|
      ensures Valid() && Data().rows == records && fieldNames == names && !usesV2Storage
    {
      var positions := FieldPositions(names);
      var caches;
      ghost var own;
      caches, own := ReadRecords(|names|, records);
      fieldNames, fieldNameMap, usesV2Storage := names, positions, false;
      storedRows, cache, indexes, repr := records, caches, [], own;
    }

    /** A table the storage engine has opened. */
    constructor FromStorage(t: Table)
      requires FieldsOk(t.fields) && Rectangular(t.rows, |t.fields|)
      requires |t.indexes| == |t.fields| && forall f :: 0 <= f < |t.indexes| ==> t.indexes[f] == ColumnIndex(t.rows, f)
      ensures Valid() && Data().rows == t.rows && fieldNames == t.fields && usesV2Storage
    {
      var positions := FieldPositions(t.fields);
      fieldNames, fieldNameMap, usesV2Storage := t.fields, positions, true;
      storedRows, cache, indexes, repr := t.rows, [], t.indexes, {};
    }

    /** `selectHelp`: on either storage, the filtered column. */
    method SelectHelp(field: Key, op: string, value: Key) returns (r: Result<seq<nat>>)
      requires Valid()
      ensures ComparisonOf(op).Some? ==> r == Selected(Data(), field, ComparisonOf(op).value, value)
      ensures field !in fieldNameMap ==> r == Err(InvalidArgument)
      ensures ComparisonOf(op).None? && field in fieldNameMap ==>
        r == if usesV2Storage && storedRows != [] then Err(InvalidArgument) else Ok([])
    {
      hide Owned, Matching, ColumnIndex, RecordsWhere, CacheOf, Satisfies, ComparisonOf;
      if field !in fieldNameMap { return Err(InvalidArgument); }
      var f := fieldNameMap[field];
      NamedField(field);
      if usesV2Storage {
        EmptyIndex(storedRows, f);
        r := ScanIndex(indexes[f], op, value);
        return;
      }
      assert CacheOk(cache[f], repr);
      CacheIsIndex(storedRows, f);
      if ComparisonOf(op).Some? { MatchingPairs(CacheOf(storedRows, f), ComparisonOf(op).value, value); }
      var list := SelectCached(cache[f], op, value);
      r := Ok(list);
    }

    lemma NamedField(field: Key)
      requires Valid() && field in fieldNameMap
      ensures fieldNameMap[field] < |fieldNames|
    {
      var i :| 0 <= i < |fieldNames| && fieldNames[i] == field;
    }

    /** `Eval`. */
    method Eval(postfix: seq<Token>) returns (r: Result<seq<nat>>)
      requires Valid()
      ensures r == Verdict(TurnAll(Data(), Ok(Machine([], [])), postfix))
    {
      hide Owned, Matching, ColumnIndex, Intersection, Union, Strict, NoDuplicates, CachesValid, ComparisonOf;
      var q := postfix;
      var s: seq<Key>, indices: seq<seq<nat>> := [], [];
      while q != []
        invariant TurnAll(Data(), Ok(Machine(s, indices)), q) == TurnAll(Data(), Ok(Machine([], [])), postfix)
        decreases |q|
      {
        var token := q[0];
        ghost var m := Machine(s, indices);
        q := q[1..];
        match token {
          case Text(text) => s := s + [text];
          case Relation(c) =>
            if |s| < 2 { ErrStays(Data(), InvalidArgument, q); return Err(InvalidArgument); }
            var fieldValue, fieldName := s[|s| - 1], s[|s| - 2];
            var list := SelectHelp(fieldName, OpOf(c), fieldValue);
            if list.Err? { ErrStays(Data(), list.error, q); return Err(list.error); }
            s := s[..|s| - 2];
            indices := indices + [list.value];
          case Logical(l) =>
            if |indices| < 2 { ErrStays(Data(), InvalidArgument, q); return Err(InvalidArgument); }
            var first, second := indices[|indices| - 1], indices[|indices| - 2];
            var temp;
            if l == And { temp := MyIntersection(first, second); } else { temp := MyUnion(first, second); }
            indices := indices[..|indices| - 2] + [temp];
          case LeftParen =>
          case RightParen =>
        }
        assert Turn(Data(), m, token) == Ok(Machine(s, indices));
      }
      if s != [] || |indices| != 1 { return Err(InvalidArgument); }
      r := Ok(indices[0]);
    }

    /** `select` with chosen fields and a list of condition words: the header in
        table order, the record numbers, always in range, and the cells of
        their rows.  No words select everything. */
    method Select(fields: seq<Key>, expression: seq<Key>) returns (r: Result<Projected>)
      requires Valid()
      ensures r.Ok? <==> Selectable(fieldNames, fields) && Where(Data(), expression).Ok?
      ensures r.Err? ==> r == Err(InvalidArgument)
      ensures r.Ok? ==> Ok(r.value.records) == Where(Data(), expression) && Shows(fields, r.value)
      ensures r.Ok? && expression == [] ==> r.value.records == AllRecords(|storedRows|)
    {
      hide Owned, Matching, ColumnIndex, Intersection, Union, Strict, NoDuplicates, CachesValid, TurnAll, FeedAll,
        Postfix, TokenOf, Fits, Where, AllCells, InTableOrder, Selectable;
      OnlyBalancedSelects(Data(), expression);
      NoConditionSelectsAll(Data());
      var infix := AllocateTokens(expression);
      assert infix == TokensOf(expression);
      var error, postfix := ShuntingYard(infix);
      WhereIs(Data(), expression);
      if error { return Err(InvalidArgument); }
      var ok := ValidateProjection(fieldNames, fieldNameMap, fields);
      if !ok { return Err(InvalidArgument); }
      var wanted := if fields == [] || fields[0] == STAR then fieldNames else fields;
      WantedAreNames(fieldNames, fields);
      var header := PermutateFields(fieldNames, fieldNameMap, wanted);
      var records := Records(postfix);
      if records.Err? { return Err(InvalidArgument); }
      DataFits();
      WhereInRange(Data(), expression);
      r := ShowRecords(header, records.value);
    }

    /** A header in table order, and the chosen cells of the stored rows. */
    ghost predicate Shows(fields: seq<Key>, p: Projected)
      reads this
    {
      && InTableOrder(fieldNames, Wanted(fieldNames, fields), p.header) && RowsFit(fieldNames, storedRows, p.records)
      && p.cells == AllCells(fieldNames, p.header, storedRows, p.records)
    }

    method ShowRecords(header: seq<Key>, records: seq<nat>) returns (r: Result<Projected>)
      requires Valid() && forall i: nat :: i in records ==> i < |storedRows|
      ensures RowsFit(fieldNames, storedRows, records)
      ensures r == Ok(Projected(header, records, AllCells(fieldNames, header, storedRows, records)))
    {
      hide CachesValid, RowCells;
      var cells: seq<Key> := [];
      forall k | 0 <= k < |records| ensures records[k] < |storedRows| { assert records[k] in records; }
      for i := 0 to |records|
        invariant cells == AllCells(fieldNames, header, storedRows, records[..i])
      {
        assert records[..i + 1][..i] == records[..i];
        var idx := records[i];
        if idx >= |storedRows| { return Err(RuntimeError); }
        var row := ShowRow(fieldNames, header, storedRows[idx]);
        cells := cells + row;
      }
      assert records[..|records|] == records;
      r := Ok(Projected(header, records, cells));
    }

    /** The postfix form evaluated, or every record. */
    method Records(postfix: seq<Token>) returns (r: Result<seq<nat>>)
      requires Valid()
      ensures r ==
                if postfix == [] then Ok(AllRecords(|storedRows|))
                else Verdict(TurnAll(Data(), Ok(Machine([], [])), postfix))
    {
      hide Owned, Matching, ColumnIndex, CachesValid, TurnAll;
      if postfix != [] {
        r := Eval(postfix);
      } else {
        var recordIndices: seq<nat> := [];
        for i := 0 to |storedRows|
          invariant recordIndices == AllRecords(i)
        {
          recordIndices := recordIndices + [i];
        }
        r := Ok(recordIndices);
      }
    }

    /** Selecting by the words of a condition: the rows that meet it, unless an
        operand is a reserved word or a field unknown. */
    method SelectCondition(fields: seq<Key>, e: Condition) returns (r: Result<Projected>)
      requires Valid() && Canonical(e)
      ensures if Selectable(fieldNames, fields) && Plain(e) && Known(Data(), e) then
                && Fits(Data()) && r.Ok? && NoDuplicates(r.value.records) && Shows(fields, r.value)
                && forall i: nat :: i in r.value.records <==> i < |storedRows| && Meets(Data(), e, i)
              else r == Err(InvalidArgument)
    {
      hide NoDuplicates, Meets, Known, Canonical, Plain, Where, WordsOf, Infix, Selectable, Shows;
      DataFits();
      WhereMeansCondition(Data(), e);
      r := Select(fields, WordsOf(Infix(e)));
    }

    lemma DataFits()
      requires Valid()
      ensures Fits(Data())
    {
      hide CachesValid;
      forall i, name | 0 <= i < |storedRows| && name in fieldNameMap
        ensures fieldNameMap[name] < |storedRows[i]|
      {
        NamedField(name);
      }
    }
  }

  lemma WhereIs(d: Relational, words: seq<Key>)
    ensures Where(d, words) ==
      var postfix := Postfix(FeedAll(Running([], []), TokensOf(words)));
      if postfix.None? then Err(InvalidArgument)
      else if postfix.value == [] then Ok(AllRecords(|d.rows|))
      else Verdict(TurnAll(d, Ok(Machine([], [])), postfix.value))
  {
  }

  lemma WantedAreNames(names: seq<Key>, fields: seq<Key>)
    requires Selectable(names, fields)
    ensures AreNames(names, Wanted(names, fields))
  {
  }

  lemma NoConditionSelectsAll(d: Relational)
    ensures Where(d, []) == Ok(AllRecords(|d.rows|))
  {
    assert TokensOf([]) == [];
  }

  lemma SamePositions(names: seq<Key>, a: map<Key, nat>, b: map<Key, nat>)
    requires forall name :: name in a <==> name in names
    requires forall name :: name in b <==> name in names
    requires forall i :: 0 <= i < |names| ==> a[names[i]] == i && b[names[i]] == i
    ensures a == b
  {
  }

  /** The same table from record files and from storage answers alike: the
      filtered column, by value and record number. */
  method BothStorages(t: Table, field: Key, op: string, value: Key)
    returns (cached: Result<seq<nat>>, stored: Result<seq<nat>>)
    requires FieldsOk(t.fields) && Rectangular(t.rows, |t.fields|) && ComparisonOf(op).Some?
    requires |t.indexes| == |t.fields| && forall f :: 0 <= f < |t.indexes| ==> t.indexes[f] == ColumnIndex(t.rows, f)
    ensures cached == stored
    ensures field !in t.fields ==> stored == Err(InvalidArgument)
    ensures forall f :: 0 <= f < |t.fields| && t.fields[f] == field ==>
      stored == Ok(Matching(ColumnIndex(t.rows, f), ComparisonOf(op).value, value))
  {
    hide Matching, ColumnIndex, CachesValid, ComparisonOf;
    var files := new LoadedTable.FromRecordFiles(t.fields, t.rows);
    var storage := new LoadedTable.FromStorage(t);
    SamePositions(t.fields, files.fieldNameMap, storage.fieldNameMap);
    cached := files.SelectHelp(field, op, value);
    stored := storage.SelectHelp(field, op, value);
  }

  lemma EmptyIndex(rows: seq<Row>, f: nat)
    ensures ColumnIndex(rows, f) == [] <==> rows == []
  {
    hide ColumnIndex;
    ColumnIndexSorted(rows, f);
    if rows != [] {
      assert Column(rows, f)[0] in Column(rows, f);
      assert Column(rows, f)[0] in ColumnIndex(rows, f);
    } else {
      assert Column(rows, f) == [];
      NoMembers(ColumnIndex(rows, f));
    }
  }

  lemma NoMembers(s: seq<Entry>)
    ensures s == [] || exists e :: e in s
  {
    if s != [] { assert s[0] in s; }
  }

  method FieldPositions(names: seq<Key>) returns (positions: map<Key, nat>)
    requires forall i, j :: 0 <= i < j < |names| ==> names[i] != names[j]
    ensures forall name :: name in positions <==> name in names
    ensures forall i :: 0 <= i < |names| ==> positions[names[i]] == i
  {
    positions := map[];
    for i := 0 to |names|
      invariant forall name :: name in positions <==> name in names[..i]
      invariant forall j :: 0 <= j < i ==> names[j] in positions && positions[names[j]] == j
    {
      positions := positions[names[i] := i];
    }
  }
}
