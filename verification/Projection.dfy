/** What a `select` shows: the chosen columns in table order, one flat list of
    cells, and when that list falls into rows. */
module Projection {
  import opened Ordering
  import opened Streams
  import opened RecordLists

  const STAR: Key := [42]

  /** The header, the record numbers, and the cells row by row. */
  datatype Projected = Projected(header: seq<Key>, records: seq<nat>, cells: seq<Key>)

  ghost predicate NamesOk(names: seq<Key>, positions: map<Key, nat>) {
    && (forall name :: name in positions <==> name in names)
    && forall i :: 0 <= i < |names| ==> positions[names[i]] == i
  }

  /** Every chosen field is one of the table. */
  ghost predicate Selectable(names: seq<Key>, fields: seq<Key>) {
    fields == [] || fields == [STAR] || forall f :: f in fields ==> f in names
  }

  function Wanted(names: seq<Key>, fields: seq<Key>): seq<Key> {
    if fields == [] || fields[0] == STAR then names else fields
  }

  /** `validate_projection`. */
  method ValidateProjection(names: seq<Key>, positions: map<Key, nat>, fields: seq<Key>) returns (ok: bool)
    requires NamesOk(names, positions)
    ensures ok <==> Selectable(names, fields)
  {
    if fields == [] || fields == [STAR] { return true; }
    for i := 0 to |fields|
      invariant forall j :: 0 <= j < i ==> fields[j] in names
    {
      if fields[i] !in positions { return false; }
    }
    ok := true;
  }

  // ----- columns in table order

  ghost predicate AreNames(names: seq<Key>, fields: seq<Key>) { forall i :: 0 <= i < |fields| ==> fields[i] in names }

  ghost predicate AreIn(names: seq<Key>, ps: seq<nat>) { forall i :: 0 <= i < |ps| ==> ps[i] < |names| }

  ghost function NamesAt(names: seq<Key>, ps: seq<nat>): (r: seq<Key>)
    requires AreIn(names, ps)
    ensures |r| == |ps| && forall i :: 0 <= i < |ps| ==> r[i] == names[ps[i]]
  {
    seq(|ps|, i requires 0 <= i < |ps| => names[ps[i]])
  }

  /** The chosen fields, each as often as it was chosen, by their position. */
  ghost predicate InTableOrder(names: seq<Key>, fields: seq<Key>, header: seq<Key>) {
    && multiset(header) == multiset(fields)
    && exists ps: seq<nat> :: Places(names, header, ps)
  }

  ghost predicate Places(names: seq<Key>, header: seq<Key>, ps: seq<nat>) {
    Ascends(ps) && AreIn(names, ps) && header == NamesAt(names, ps)
  }

  lemma NamesFront(names: seq<Key>, x: nat, s: seq<nat>)
    requires AreIn(names, s) && x < |names|
    ensures AreIn(names, [x] + s) && NamesAt(names, [x] + s) == [names[x]] + NamesAt(names, s)
    ensures multiset(NamesAt(names, [x] + s)) == multiset{names[x]} + multiset(NamesAt(names, s))
  {
  }

  lemma {:induction false} PutNames(names: seq<Key>, s: seq<nat>, x: nat)
    requires AreIn(names, s) && x < |names|
    ensures AreIn(names, Put(s, x))
    ensures multiset(NamesAt(names, Put(s, x))) == multiset(NamesAt(names, s)) + multiset{names[x]}
  {
    hide NamesAt, AreIn;
    if s == [] || x < s[0] {
      NamesFront(names, x, s);
    } else {
      FrontIn(names, s);
      PutNames(names, s[1..], x);
      NamesFront(names, s[0], Put(s[1..], x));
      NamesFront(names, s[0], s[1..]);
      assert s == [s[0]] + s[1..];
    }
  }

  lemma FrontIn(names: seq<Key>, s: seq<nat>)
    requires AreIn(names, s) && s != []
    ensures s[0] < |names| && AreIn(names, s[1..])
  {
  }

  lemma {:induction false} SortNames(names: seq<Key>, s: seq<nat>)
    requires AreIn(names, s)
    ensures AreIn(names, SortIds(s)) && multiset(NamesAt(names, SortIds(s))) == multiset(NamesAt(names, s))
  {
    hide Put;
    if s != [] {
      var n := |s| - 1;
      SortNames(names, s[..n]);
      PutNames(names, SortIds(s[..n]), s[n]);
      assert NamesAt(names, s) == NamesAt(names, s[..n]) + [names[s[n]]];
    }
  }

  /** `permutate_fields`. */
  method PermutateFields(names: seq<Key>, positions: map<Key, nat>, fields: seq<Key>) returns (header: seq<Key>)
    requires NamesOk(names, positions) && AreNames(names, fields)
    ensures InTableOrder(names, fields, header)
  {
    var ids: seq<nat> := [];
    for i := 0 to |fields|
      invariant |ids| == i && forall j :: 0 <= j < i ==> ids[j] < |names| && names[ids[j]] == fields[j]
    {
      PositionOf(names, positions, fields[i]);
      ids := ids + [positions[fields[i]]];
    }
    var sorted := SortIds(ids);
    SortIsSorted(ids);
    SortNames(names, ids);
    header := [];
    for i := 0 to |sorted|
      invariant |header| == i && forall j :: 0 <= j < i ==> header[j] == names[sorted[j]]
    {
      header := header + [names[sorted[i]]];
    }
    assert NamesAt(names, ids) == fields && header == NamesAt(names, sorted);
    assert Places(names, header, sorted);
  }

  lemma PositionOf(names: seq<Key>, positions: map<Key, nat>, f: Key)
    requires NamesOk(names, positions) && f in names
    ensures f in positions && positions[f] < |names| && names[positions[f]] == f
  {
  }

  // ----- cells

  /** The chosen cells of the first `n` fields of a row. */
  function RowCells(names: seq<Key>, header: seq<Key>, row: Row, n: nat): seq<Key>
    requires n <= |names| && n <= |row|
  {
    if n == 0 then [] else RowCells(names, header, row, n - 1) + if names[n - 1] in header then [row[n - 1]] else []
  }

  predicate RowsFit(names: seq<Key>, rows: seq<Row>, records: seq<nat>) {
    && (forall i :: 0 <= i < |rows| ==> |rows[i]| == |names|)
    && forall k :: 0 <= k < |records| ==> records[k] < |rows|
  }

  function AllCells(names: seq<Key>, header: seq<Key>, rows: seq<Row>, records: seq<nat>): seq<Key>
    requires RowsFit(names, rows, records)
  {
    if records == [] then []
    else
      var n := |records| - 1;
      AllCells(names, header, rows, records[..n]) + RowCells(names, header, rows[records[n]], |names|)
  }

  method ShowRow(names: seq<Key>, header: seq<Key>, row: Row) returns (cells: seq<Key>)
    requires |row| == |names|
    ensures cells == RowCells(names, header, row, |names|)
  {
    cells := [];
    for i := 0 to |row|
      invariant cells == RowCells(names, header, row, i)
    {
      if names[i] in header { cells := cells + [row[i]]; }
    }
  }

  // ----- rows of the printed table

  /** The positions the loop over the fields comes across. */
  ghost function Shown(names: seq<Key>, header: seq<Key>, n: nat): seq<nat>
    requires n <= |names|
  {
    if n == 0 then [] else Shown(names, header, n - 1) + if names[n - 1] in header then [n - 1] else []
  }

  lemma {:induction false} ShownIs(names: seq<Key>, header: seq<Key>, n: nat)
    requires n <= |names|
    ensures Strict(Shown(names, header, n))
    ensures forall p: nat :: p in Shown(names, header, n) <==> p < n && names[p] in header
  {
    if n > 0 {
      ShownIs(names, header, n - 1);
      var before := Shown(names, header, n - 1);
      forall i | 0 <= i < |before| ensures before[i] < n - 1 { assert before[i] in before; }
    }
  }

  lemma {:induction false} CellsAreShown(names: seq<Key>, header: seq<Key>, row: Row, n: nat)
    requires n <= |names| == |row|
    ensures |RowCells(names, header, row, n)| == |Shown(names, header, n)|
    ensures forall i :: 0 <= i < |Shown(names, header, n)| ==>
              Shown(names, header, n)[i] < n && RowCells(names, header, row, n)[i] == row[Shown(names, header, n)[i]]
  {
    if n > 0 { CellsAreShown(names, header, row, n - 1); }
  }

  ghost predicate NoRepeats(names: seq<Key>) { forall i, j :: 0 <= i < j < |names| ==> names[i] != names[j] }

  lemma {:induction false} UniqueShortens(s: seq<nat>)
    requires Ascends(s)
    ensures |Unique(s)| <= |s| && (|Unique(s)| == |s| ==> Strict(s))
  {
    if |s| >= 2 {
      UniqueShortens(s[1..]);
      assert s == [s[0]] + s[1..];
    }
  }

  /** A header without repetition is what the loop shows; a repeated field makes
      the header longer than a row. */
  lemma HeaderIsShown(names: seq<Key>, header: seq<Key>, ps: seq<nat>)
    requires Places(names, header, ps) && NoRepeats(names)
    ensures NoRepeats(header) ==> Shown(names, header, |names|) == ps
    ensures !NoRepeats(header) ==> |Shown(names, header, |names|)| < |ps|
  {
    hide Shown, Unique;
    var shown := Shown(names, header, |names|);
    ShownIs(names, header, |names|);
    UniqueIsStrict(ps);
    UniqueShortens(ps);
    forall p: nat ensures p in shown <==> p in ps {
      if p < |names| && names[p] in header {
        var i :| 0 <= i < |header| && header[i] == names[p];
        assert ps[i] in ps && names[ps[i]] == names[p];
      }
      if p in ps {
        var i :| 0 <= i < |ps| && ps[i] == p;
        assert header[i] in header;
      }
    }
    StrictIsUnique(shown, Unique(ps));
    if NoRepeats(header) {
      forall i, j | 0 <= i < j < |ps| ensures ps[i] < ps[j] { assert header[i] != header[j]; }
      StrictIsUnique(shown, ps);
    } else {
      var i, j :| 0 <= i < j < |header| && header[i] == header[j];
      assert ps[i] in ps && ps[j] in ps && names[ps[i]] == names[ps[j]];
    }
  }

  /** Cell `j` of row `k`, where the printing cuts the list by the header. */
  ghost predicate CellAt(p: Projected, names: seq<Key>, rows: seq<Row>, ps: seq<nat>, k: nat, j: nat)
    requires RowsFit(names, rows, p.records) && |ps| == |p.header| && AreIn(names, ps) && k < |p.records| && j < |ps|
  {
    |p.header| * k + j < |p.cells| && p.cells[|p.header| * k + j] == rows[p.records[k]][ps[j]]
  }

  /** The printed table: every cut of the list is the row of its record. */
  ghost predicate PrintsRows(p: Projected, names: seq<Key>, rows: seq<Row>)
    requires RowsFit(names, rows, p.records)
  {
    && |p.cells| == |p.header| * |p.records|
    && exists ps ::
         && Places(names, p.header, ps)
         && forall k, j :: 0 <= k < |p.records| && 0 <= j < |ps| ==> CellAt(p, names, rows, ps, k, j)
  }

  lemma AllCellsStep(names: seq<Key>, header: seq<Key>, rows: seq<Row>, records: seq<nat>)
    requires RowsFit(names, rows, records) && records != []
    ensures var n := |records| - 1;
      && RowsFit(names, rows, records[..n])
      && AllCells(names, header, rows, records) ==
           AllCells(names, header, rows, records[..n]) + RowCells(names, header, rows[records[n]], |names|)
  {
    hide RowCells;
  }

  lemma OneMore(a: nat, n: nat)
    ensures a * (n + 1) == a * n + a
  {
  }

  lemma {:induction false} CellsCount(names: seq<Key>, header: seq<Key>, rows: seq<Row>, records: seq<nat>)
    requires RowsFit(names, rows, records)
    ensures |AllCells(names, header, rows, records)| == |Shown(names, header, |names|)| * |records|
    decreases |records|
  {
    hide RowCells, Shown, AllCells;
    var w := |Shown(names, header, |names|)|;
    if records == [] {
      NoCells(names, header, rows);
      assert w * 0 == 0;
    } else {
      var n := |records| - 1;
      AllCellsStep(names, header, rows, records);
      CellsCount(names, header, rows, records[..n]);
      CellsAreShown(names, header, rows[records[n]], |names|);
      OneMore(w, n);
    }
  }

  lemma NoCells(names: seq<Key>, header: seq<Key>, rows: seq<Row>)
    requires RowsFit(names, rows, [])
    ensures AllCells(names, header, rows, []) == []
  {
  }

  lemma {:induction false} CellsOf(names: seq<Key>, header: seq<Key>, rows: seq<Row>, records: seq<nat>, k: nat, j: nat)
    requires RowsFit(names, rows, records) && k < |records| && j < |Shown(names, header, |names|)|
    ensures var shown := Shown(names, header, |names|);
      && shown[j] < |names| && 0 <= |shown| * k + j < |AllCells(names, header, rows, records)|
      && AllCells(names, header, rows, records)[|shown| * k + j] == rows[records[k]][shown[j]]
    decreases |records|
  {
    hide RowCells, Shown, AllCells;
    var n := |records| - 1;
    AllCellsStep(names, header, rows, records);
    CellsCount(names, header, rows, records[..n]);
    CellsAreShown(names, header, rows[records[n]], |names|);
    if k < n { CellsOf(names, header, rows, records[..n], k, j); }
  }

  /** The printed table is the chosen columns of the selected rows exactly if no
      field was chosen twice, or nothing was selected. */
  lemma PrintsRowsExactly(p: Projected, names: seq<Key>, rows: seq<Row>, fields: seq<Key>)
    requires RowsFit(names, rows, p.records) && NoRepeats(names) && InTableOrder(names, fields, p.header)
    requires p.cells == AllCells(names, p.header, rows, p.records)
    ensures PrintsRows(p, names, rows) <==> NoRepeats(fields) || p.records == []
  {
    hide AllCells, Shown, Places;
    var ps: seq<nat> :| Places(names, p.header, ps);
    HeaderIsShown(names, p.header, ps);
    DistinctCounts(p.header, fields);
    CellsCount(names, p.header, rows, p.records);
    PlacesIs(names, p.header, ps);
    if NoRepeats(fields) {
      forall k, j | 0 <= k < |p.records| && 0 <= j < |ps| ensures CellAt(p, names, rows, ps, k, j) {
        CellsOf(names, p.header, rows, p.records, k, j);
      }
    } else if p.records != [] {
      Fewer(|Shown(names, p.header, |names|)|, |ps|, |p.records|);
    }
  }

  /** A table of one column and one row, selected by the same column twice: the
      header has two columns and the list one cell, so the row cannot be cut. */
  lemma TwiceChosen(f: Key, v: Key)
    ensures var p := Projected([f, f], [0], [v]);
      && InTableOrder([f], [f, f], p.header) && p.cells == AllCells([f], p.header, [[v]], p.records)
      && !PrintsRows(p, [f], [[v]])
  {
    assert Places([f], [f, f], [0, 0]);
    assert RowCells([f], [f, f], [v], 1) == RowCells([f], [f, f], [v], 0) + [v];
    assert [0][..0] == [];
    assert AllCells([f], [f, f], [[v]], [0]) == AllCells([f], [f, f], [[v]], []) + [v];
  }

  lemma Fewer(a: nat, b: nat, n: nat)
    requires a < b && n > 0
    ensures a * n < b * n
  {
  }

  lemma PlacesIs(names: seq<Key>, header: seq<Key>, ps: seq<nat>)
    requires Places(names, header, ps)
    ensures |ps| == |header| && AreIn(names, ps)
  {
  }

  lemma DistinctCounts(a: seq<Key>, b: seq<Key>)
    requires multiset(a) == multiset(b)
    ensures NoRepeats(a) <==> NoRepeats(b)
  {
    DistinctIs(a);
    DistinctIs(b);
  }

  lemma {:induction false} DistinctIs(s: seq<Key>)
    ensures NoRepeats(s) <==> forall x :: x in s ==> multiset(s)[x] == 1
    decreases |s|
  {
    if s != [] {
      var n := |s| - 1;
      var r := s[..n];
      DistinctIs(r);
      assert s == r + [s[n]];
      assert multiset(s) == multiset(r) + multiset{s[n]};
      if NoRepeats(s) {
        forall x | x in s ensures multiset(s)[x] == 1 { assert x in r ==> x in multiset(r); }
      } else if NoRepeats(r) {
        assert s[n] in r;
        assert s[n] in multiset(r);
        assert s[n] in s && multiset(s)[s[n]] >= 2;
      } else {
        var x :| x in r && multiset(r)[x] != 1;
        assert x in multiset(r);
        assert x in s && multiset(s)[x] >= 2;
      }
    }
  }
}
