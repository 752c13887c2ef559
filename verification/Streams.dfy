/** The logical byte streams behind the page chains: superblock, schema, rows
    and index directory, each with the cursor loop that reads it back. */
module Streams {
  import opened Ordering
  import opened Codec
  import opened PageCodec
  import opened IndexPages

  type Row = seq<Key>

  const MAX_FIELDS := 64

  ghost predicate StringsOk(s: seq<Key>) { All(s, StringOk) }

  function EncRow(row: Row): Bytes { LE(|row|, 4) + EncList(row, EncString) }

  ghost predicate RowOk(row: Row) { |row| < U32 && StringsOk(row) }

  function EncId(id: nat): (b: Bytes)
    ensures |b| == 4
  {
    LE(id, 4)
  }

  predicate IdOk(id: nat) { id < U32 }

  function SchemaBytes(fields: seq<Key>): Bytes { EncRow(fields) }

  function RowBytes(rows: seq<Row>): Bytes { LE(|rows|, 8) + EncList(rows, EncRow) }

  function DirectoryBytes(roots: seq<nat>): Bytes { LE(|roots|, 4) + EncList(roots, EncId) }

  datatype SuperFields = SuperFields(generation: nat, pageCount: nat, schemaHead: nat, rowsHead: nat,
      directoryHead: nat, fieldCount: nat, rowCount: nat)

  predicate SuperOk(s: SuperFields) {
    && s.generation < U64 && s.pageCount < U32 && s.schemaHead < U32 && s.rowsHead < U32 && s.directoryHead < U32
    && s.fieldCount < U32 && s.rowCount < U64
  }

  /** The 44 payload bytes of page zero; the free list is always empty. */
  function SuperBytes(s: SuperFields): (b: Bytes)
    ensures |b| == 44
  {
    LE(s.generation, 8) + LE(PAGE_SIZE, 4) + LE(s.pageCount, 4) + LE(s.schemaHead, 4) + LE(s.rowsHead, 4)
    + LE(s.directoryHead, 4) + LE(NO_PAGE, 4) + LE(s.fieldCount, 4) + LE(s.rowCount, 8)
  }

  // ----- superblock

  lemma SuperAt(s: SuperFields)
    ensures var b := SuperBytes(s);
      && b[0..8] == LE(s.generation, 8) && b[8..12] == LE(PAGE_SIZE, 4) && b[12..16] == LE(s.pageCount, 4)
      && b[16..20] == LE(s.schemaHead, 4) && b[20..24] == LE(s.rowsHead, 4) && b[24..28] == LE(s.directoryHead, 4)
      && b[28..32] == LE(NO_PAGE, 4) && b[32..36] == LE(s.fieldCount, 4) && b[36..44] == LE(s.rowCount, 8)
  {
    hide LE;
    var a := LE(s.generation, 8) + LE(PAGE_SIZE, 4) + LE(s.pageCount, 4) + LE(s.schemaHead, 4);
    var c := LE(s.rowsHead, 4) + LE(s.directoryHead, 4) + LE(NO_PAGE, 4) + LE(s.fieldCount, 4) + LE(s.rowCount, 8);
    assert SuperBytes(s) == a + c;
    assert (a + c)[0..8] == a[0..8] && (a + c)[8..12] == a[8..12] && (a + c)[12..16] == a[12..16];
    assert (a + c)[16..20] == a[16..20];
    assert (a + c)[20..24] == c[0..4] && (a + c)[24..28] == c[4..8] && (a + c)[28..32] == c[8..12];
    assert (a + c)[32..36] == c[12..16];
    assert (a + c)[36..44] == c[16..24];
  }

  lemma SuperFrom(b: Bytes, s: SuperFields)
    requires |b| == 44
    requires b[0..8] == LE(s.generation, 8) && b[8..12] == LE(PAGE_SIZE, 4) && b[12..16] == LE(s.pageCount, 4)
    requires b[16..20] == LE(s.schemaHead, 4) && b[20..24] == LE(s.rowsHead, 4) && b[24..28] == LE(s.directoryHead, 4)
    requires b[28..32] == LE(NO_PAGE, 4) && b[32..36] == LE(s.fieldCount, 4) && b[36..44] == LE(s.rowCount, 8)
    ensures b == SuperBytes(s)
  {
    hide LE;
    assert b == b[0..8] + b[8..12] + b[12..16] + b[16..20] + b[20..24] + b[24..28] + b[28..32] + b[32..36] + b[36..44];
  }

  lemma FieldUnique(v: nat, w: nat, width: nat)
    requires v < Capacity(width) && w < Capacity(width) && LE(v, width) == LE(w, width)
    ensures v == w
  {
    FromLEOfLE(v, width);
    FromLEOfLE(w, width);
  }

  lemma SuperInjective(s: SuperFields, t: SuperFields)
    requires SuperOk(s) && SuperOk(t) && SuperBytes(s) == SuperBytes(t)
    ensures s == t
  {
    hide LE, SuperBytes;
    Widths();
    SuperAt(s);
    SuperAt(t);
    FieldUnique(s.generation, t.generation, 8);
    FieldUnique(s.pageCount, t.pageCount, 4);
    FieldUnique(s.schemaHead, t.schemaHead, 4);
    FieldUnique(s.rowsHead, t.rowsHead, 4);
    FieldUnique(s.directoryHead, t.directoryHead, 4);
    FieldUnique(s.fieldCount, t.fieldCount, 4);
    FieldUnique(s.rowCount, t.rowCount, 8);
  }

  method FieldAt(bytes: Bytes, offset: nat, width: nat) returns (v: nat)
    requires offset + width <= |bytes|
    ensures v < Capacity(width) && bytes[offset..offset + width] == LE(v, width)
  {
    hide LE;
    var reader := new Reader(bytes[offset..offset + width]);
    var r := reader.Unsigned(width);
    v := r.value;
    assert reader.Rest() == [];
    assert LE(v, width) + [] == bytes[offset..offset + width];
  }

  ghost predicate IsSuper(payload: Bytes, s: SuperFields) { SuperOk(s) && payload == SuperBytes(s) }

  /** Accepts exactly the superblock payloads. */
  method DecodeSuper(payload: Bytes) returns (r: Result<SuperFields>)
    ensures r.Ok? ==> IsSuper(payload, r.value)
    ensures r.Err? ==> forall s :: !IsSuper(payload, s)
  {
    hide LE, SuperBytes, Capacity;
    Widths();
    if |payload| != 44 { return Err(Corruption); }
    forall s | IsSuper(payload, s)
      ensures payload[8..12] == LE(PAGE_SIZE, 4) && payload[28..32] == LE(NO_PAGE, 4)
    {
      SuperAt(s);
    }
    var generation := FieldAt(payload, 0, 8);
    var pageSize := FieldAt(payload, 8, 4);
    forall s | IsSuper(payload, s) ensures pageSize == PAGE_SIZE { FieldUnique(pageSize, PAGE_SIZE, 4); }
    if pageSize != PAGE_SIZE { return Err(Corruption); }
    var pageCount := FieldAt(payload, 12, 4);
    var schemaHead := FieldAt(payload, 16, 4);
    var rowsHead := FieldAt(payload, 20, 4);
    var directoryHead := FieldAt(payload, 24, 4);
    var freeHead := FieldAt(payload, 28, 4);
    forall s | IsSuper(payload, s) ensures freeHead == NO_PAGE { FieldUnique(freeHead, NO_PAGE, 4); }
    if freeHead != NO_PAGE { return Err(Corruption); }
    var fieldCount := FieldAt(payload, 32, 4);
    var rowCount := FieldAt(payload, 36, 8);
    r := Ok(SuperFields(generation, pageCount, schemaHead, rowsHead, directoryHead, fieldCount, rowCount));
    SuperFrom(payload, r.value);
  }

  // ----- self-delimiting items

  lemma RowsArePrefixFree()
    ensures PrefixFree(EncRow, RowOk)
  {
    hide LE, EncList, EncString;
    forall a, b, x, y | RowOk(a) && RowOk(b) && EncRow(a) + x == EncRow(b) + y ensures a == b && x == y {
      EncRowPrefixFree(a, b, x, y);
    }
  }

  lemma EncRowPrefixFree(a: Row, b: Row, x: Bytes, y: Bytes)
    requires RowOk(a) && RowOk(b) && EncRow(a) + x == EncRow(b) + y
    ensures a == b && x == y
  {
    hide LE, EncList, EncString;
    Widths();
    Reassociate(LE(|a|, 4), EncList(a, EncString), x);
    Reassociate(LE(|b|, 4), EncList(b, EncString), y);
    IntPrefixFree(|a|, |b|, 4, EncList(a, EncString) + x, EncList(b, EncString) + y);
    StringsArePrefixFree();
    EncListInjective(a, b, EncString, StringOk, x, y);
  }

  lemma IdsArePrefixFree()
    ensures PrefixFree(EncId, IdOk)
  {
    hide LE;
    Widths();
    forall a, b, x, y | IdOk(a) && IdOk(b) && EncId(a) + x == EncId(b) + y ensures a == b && x == y {
      IntPrefixFree(a, b, 4, x, y);
    }
  }

  lemma RowBytesInjective(a: seq<Row>, b: seq<Row>)
    requires All(a, RowOk) && All(b, RowOk) && |a| < U64 && |b| < U64 && RowBytes(a) == RowBytes(b)
    ensures a == b
  {
    hide LE, EncList, EncRow, RowOk;
    Widths();
    IntPrefixFree(|a|, |b|, 8, EncList(a, EncRow), EncList(b, EncRow));
    RowsArePrefixFree();
    assert EncList(a, EncRow) + [] == EncList(a, EncRow) && EncList(b, EncRow) + [] == EncList(b, EncRow);
    EncListInjective(a, b, EncRow, RowOk, [], []);
  }

  lemma SchemaBytesInjective(a: seq<Key>, b: seq<Key>)
    requires RowOk(a) && RowOk(b) && SchemaBytes(a) == SchemaBytes(b)
    ensures a == b
  {
    hide EncRow, RowOk;
    assert EncRow(a) + [] == EncRow(a) && EncRow(b) + [] == EncRow(b);
    EncRowPrefixFree(a, b, [], []);
  }

  lemma DirectoryBytesInjective(a: seq<nat>, b: seq<nat>)
    requires All(a, IdOk) && All(b, IdOk) && |a| < U32 && |b| < U32 && DirectoryBytes(a) == DirectoryBytes(b)
    ensures a == b
  {
    hide LE, EncList, EncId;
    Widths();
    IntPrefixFree(|a|, |b|, 4, EncList(a, EncId), EncList(b, EncId));
    IdsArePrefixFree();
    assert EncList(a, EncId) + [] == EncList(a, EncId) && EncList(b, EncId) + [] == EncList(b, EncId);
    EncListInjective(a, b, EncId, IdOk, [], []);
  }

  // ----- reading lists

  method ReadStrings(reader: Reader, count: nat) returns (r: Option<seq<Key>>)
    requires reader.Valid()
    modifies reader
    ensures reader.Valid()
    ensures r.Some? ==>
              && |r.value| == count && StringsOk(r.value)
              && old(reader.Rest()) == EncList(r.value, EncString) + reader.Rest()
    ensures r.None? ==> forall s, x :: |s| == count && StringsOk(s) ==> old(reader.Rest()) != EncList(s, EncString) + x
  {
    hide EncString, EncList, StringOk;
    ghost var before := reader.Rest();
    var strings: seq<Key> := [];
    EncNothing(EncString);
    while |strings| < count
      invariant |strings| <= count && StringsOk(strings) && reader.Valid()
      invariant before == EncList(strings, EncString) + reader.Rest()
    {
      ghost var here := reader.Rest();
      var s := reader.String();
      if s.None? {
        forall other, x | |other| == count && StringsOk(other) ensures before != EncList(other, EncString) + x {
          if before == EncList(other, EncString) + x {
            StringsArePrefixFree();
            NextItem(strings, other, EncString, StringOk, here, x);
          }
        }
        return None;
      }
      EncListAppend(strings, s.value, EncString);
      Reassociate(EncList(strings, EncString), EncString(s.value), reader.Rest());
      strings := strings + [s.value];
    }
    r := Some(strings);
  }

  /** One stored row: its field count must be the table's. */
  method ReadRow(reader: Reader, fieldCount: nat) returns (r: Option<Row>)
    requires reader.Valid() && fieldCount < U32
    modifies reader
    ensures reader.Valid()
    ensures r.Some? ==>
              |r.value| == fieldCount && RowOk(r.value) && old(reader.Rest()) == EncRow(r.value) + reader.Rest()
    ensures r.None? ==> forall row, x :: RowOk(row) && |row| == fieldCount ==> old(reader.Rest()) != EncRow(row) + x
  {
    hide LE, EncList, EncString, Capacity, StringsOk;
    Widths();
    ghost var before := reader.Rest();
    forall row, x | RowOk(row) && before == EncRow(row) + x
      ensures |before| >= 4 && before == LE(|row|, 4) + (EncList(row, EncString) + x)
    {
      Reassociate(LE(|row|, 4), EncList(row, EncString), x);
    }
    var count := reader.Unsigned(4);
    if count.None? { return None; }
    ghost var middle := reader.Rest();
    forall row, x | RowOk(row) && before == EncRow(row) + x
      ensures |row| == count.value && middle == EncList(row, EncString) + x
    {
      IntPrefixFree(|row|, count.value, 4, EncList(row, EncString) + x, middle);
    }
    if count.value != fieldCount { return None; }
    var strings := ReadStrings(reader, fieldCount);
    if strings.None? { return None; }
    Reassociate(LE(fieldCount, 4), EncList(strings.value, EncString), reader.Rest());
    r := strings;
  }

  ghost predicate Rectangular(rows: seq<Row>, fieldCount: nat) {
    forall i :: 0 <= i < |rows| ==> |rows[i]| == fieldCount && StringsOk(rows[i])
  }

  method ReadRows(reader: Reader, fieldCount: nat, count: nat) returns (r: Option<seq<Row>>)
    requires reader.Valid() && fieldCount < U32
    modifies reader
    ensures reader.Valid()
    ensures r.Some? ==>
              && |r.value| == count && Rectangular(r.value, fieldCount)
              && old(reader.Rest()) == EncList(r.value, EncRow) + reader.Rest()
    ensures r.None? ==>
              forall rows :: |rows| == count && Rectangular(rows, fieldCount) ==>
                old(reader.Rest()) != EncList(rows, EncRow)
  {
    hide EncRow, EncList, StringsOk;
    ghost var before := reader.Rest();
    var rows: seq<Row> := [];
    EncNothing(EncRow);
    while |rows| < count
      invariant |rows| <= count && Rectangular(rows, fieldCount) && reader.Valid()
      invariant before == EncList(rows, EncRow) + reader.Rest()
    {
      ghost var here := reader.Rest();
      var row := ReadRow(reader, fieldCount);
      if row.None? {
        forall other | |other| == count && Rectangular(other, fieldCount) ensures before != EncList(other, EncRow) {
          if before == EncList(other, EncRow) {
            RowsArePrefixFree();
            assert EncList(other, EncRow) + [] == EncList(other, EncRow);
            NextItem(rows, other, EncRow, RowOk, here, []);
          }
        }
        return None;
      }
      EncListAppend(rows, row.value, EncRow);
      Reassociate(EncList(rows, EncRow), EncRow(row.value), reader.Rest());
      rows := rows + [row.value];
    }
    r := Some(rows);
  }

  method ReadIds(reader: Reader, count: nat) returns (r: Option<seq<nat>>)
    requires reader.Valid()
    modifies reader
    ensures reader.Valid()
    ensures r.Some? ==>
              |r.value| == count && All(r.value, IdOk) && old(reader.Rest()) == EncList(r.value, EncId) + reader.Rest()
    ensures r.None? ==> forall ids :: |ids| == count && All(ids, IdOk) ==> old(reader.Rest()) != EncList(ids, EncId)
  {
    hide LE, EncList, Capacity;
    Widths();
    ghost var before := reader.Rest();
    var ids: seq<nat> := [];
    EncNothing(EncId);
    while |ids| < count
      invariant |ids| <= count && All(ids, IdOk) && reader.Valid()
      invariant before == EncList(ids, EncId) + reader.Rest()
    {
      ghost var here := reader.Rest();
      var id := reader.Unsigned(4);
      if id.None? {
        forall other | |other| == count && All(other, IdOk) ensures before != EncList(other, EncId) {
          if before == EncList(other, EncId) {
            IdsArePrefixFree();
            NextItem(ids, other, EncId, IdOk, here, []);
          }
        }
        return None;
      }
      EncListAppend(ids, id.value, EncId);
      Reassociate(EncList(ids, EncId), EncId(id.value), reader.Rest());
      ids := ids + [id.value];
    }
    r := Some(ids);
  }

  // ----- whole streams

  method DecodeSchema(bytes: Bytes, fieldCount: nat) returns (r: Option<seq<Key>>)
    requires fieldCount < U32
    ensures r.Some? ==> |r.value| == fieldCount && StringsOk(r.value) && bytes == SchemaBytes(r.value)
    ensures r.None? ==> forall fields :: |fields| == fieldCount && StringsOk(fields) ==> bytes != SchemaBytes(fields)
  {
    hide EncRow, StringsOk;
    var reader := new Reader(bytes);
    forall f | |f| == fieldCount && StringsOk(f) ensures EncRow(f) + [] == EncRow(f) && RowOk(f) {}
    r := ReadRow(reader, fieldCount);
    if r.Some? && reader.position != |bytes| {
      ghost var found, tail := r.value, reader.Rest();
      forall f | |f| == fieldCount && StringsOk(f) ensures bytes != SchemaBytes(f) {
        if bytes == SchemaBytes(f) { EncRowPrefixFree(found, f, tail, []); }
      }
      r := None;
    }
  }

  method DecodeRows(bytes: Bytes, fieldCount: nat, rowCount: nat) returns (r: Option<seq<Row>>)
    requires fieldCount < U32 && rowCount < U64
    ensures r.Some? ==> |r.value| == rowCount && Rectangular(r.value, fieldCount) && bytes == RowBytes(r.value)
    ensures r.None? ==> forall rows :: |rows| == rowCount && Rectangular(rows, fieldCount) ==> bytes != RowBytes(rows)
  {
    hide LE, EncList, EncRow, Capacity, StringsOk;
    Widths();
    var reader := new Reader(bytes);
    var count := reader.Unsigned(8);
    if count.None? { return None; }
    ghost var rest := reader.Rest();
    forall rows | |rows| == rowCount && Rectangular(rows, fieldCount) && bytes == RowBytes(rows)
      ensures count.value == rowCount && rest == EncList(rows, EncRow)
    {
      IntPrefixFree(rowCount, count.value, 8, EncList(rows, EncRow), rest);
    }
    if count.value != rowCount { return None; }
    r := ReadRows(reader, fieldCount, rowCount);
    if r.Some? && reader.position != |bytes| {
      ghost var found, tail := r.value, reader.Rest();
      forall rows | |rows| == rowCount && Rectangular(rows, fieldCount) ensures bytes != RowBytes(rows) {
        if bytes == RowBytes(rows) { NoRowLeft(found, rows, tail, fieldCount); }
      }
      r := None;
    }
    assert r.Some? ==> EncList(r.value, EncRow) + [] == EncList(r.value, EncRow);
  }

  lemma NoRowLeft(a: seq<Row>, b: seq<Row>, tail: Bytes, fieldCount: nat)
    requires fieldCount < U32 && Rectangular(a, fieldCount) && Rectangular(b, fieldCount) && |a| == |b|
    requires EncList(a, EncRow) + tail == EncList(b, EncRow)
    ensures tail == []
  {
    hide EncList, EncRow, StringsOk;
    RowsArePrefixFree();
    assert EncList(b, EncRow) + [] == EncList(b, EncRow);
    EncListInjective(a, b, EncRow, RowOk, tail, []);
  }

  method DecodeDirectory(bytes: Bytes, fieldCount: nat) returns (r: Option<seq<nat>>)
    requires fieldCount < U32
    ensures r.Some? ==> |r.value| == fieldCount && All(r.value, IdOk) && bytes == DirectoryBytes(r.value)
    ensures r.None? ==> forall roots :: |roots| == fieldCount && All(roots, IdOk) ==> bytes != DirectoryBytes(roots)
  {
    hide LE, EncList, EncId, Capacity, All;
    Widths();
    var reader := new Reader(bytes);
    var count := reader.Unsigned(4);
    if count.None? { return None; }
    ghost var rest := reader.Rest();
    forall roots | |roots| == fieldCount && bytes == DirectoryBytes(roots)
      ensures count.value == fieldCount && rest == EncList(roots, EncId)
    {
      IntPrefixFree(fieldCount, count.value, 4, EncList(roots, EncId), rest);
    }
    if count.value != fieldCount { return None; }
    r := ReadIds(reader, fieldCount);
    if r.Some? && reader.position != |bytes| {
      ghost var found, tail := r.value, reader.Rest();
      forall roots | |roots| == fieldCount && All(roots, IdOk) ensures bytes != DirectoryBytes(roots) {
        if bytes == DirectoryBytes(roots) { NoIdLeft(found, roots, tail); }
      }
      r := None;
    }
    assert r.Some? ==> EncList(r.value, EncId) + [] == EncList(r.value, EncId);
  }

  lemma NoIdLeft(a: seq<nat>, b: seq<nat>, tail: Bytes)
    requires |a| == |b| && All(a, IdOk) && All(b, IdOk) && EncList(a, EncId) + tail == EncList(b, EncId)
    ensures tail == []
  {
    hide EncList, EncId;
    IdsArePrefixFree();
    assert EncList(b, EncId) + [] == EncList(b, EncId);
    EncListInjective(a, b, EncId, IdOk, tail, []);
  }
}
