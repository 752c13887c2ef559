/** One comparison on the files: the storage engine opens the database anew for
    it, and gives what the table opened before would give. */
module StoredQueries {
  import opened Ordering
  import opened Codec
  import opened TableImage
  import opened ImageCodec
  import opened Streams
  import opened CommitProtocol
  import opened Recovery
  import opened Engine
  import opened Statements
  import opened QueryPaths
  import opened WhereEval
  import opened Selection
  import opened SqlCommands

  /** What the index of a field gives for an operator and a value. */
  ghost function IndexAnswer(t: Table, field: nat, op: string, value: Key): Result<seq<nat>> {
    if field >= |t.fields| then Err(InvalidArgument)
    else if ComparisonOf(op).Some? then Ok(Matching(ColumnIndex(t.rows, field), ComparisonOf(op).value, value))
    else if t.rows == [] then Ok([])
    else Err(InvalidArgument)
  }

  /** `query_index`: opens the files, scans one index, and leaves the files to
      show the same image. */
  method QueryIndex(store: Store, field: nat, op: string, value: Key) returns (r: Result<seq<nat>>)
    requires store.In(Off)
    modifies store
    ensures forall image, t :: old(WillShow(store.Now(), image)) && ImageDenotes(image, t) ==>
              r == IndexAnswer(t, field, op, value)
    ensures forall image :: old(WillShow(store.Now(), image)) ==>
              Untouched(store, |old(store.history)| - 1, image) && LogEmpty(store.wal)
  {
    hide Weak, Works, Since, WillShow, ImageDenotes, Matching, ColumnIndex, ComparisonOf, AtomicFrom, FieldsOk,
      Rectangular;
    InOff(store);
    ghost var start, from := store.Now(), |store.history| - 1;
    var table := store.OpenTable();
    ghost var open := store.history;
    assert open[from] == start;
    forall image | WillShow(start, image) ensures Untouched(store, from, image) {
      ReadyIsValid(store);
      StoreSteps(store);
      OpenedIsAtomic(open, from, start.committed, start.pending, image);
    }
    if table.Err? { return Err(table.error); }
    DenotedTable(store.db.bytes, table.value);
    if field >= |table.value.indexes| { return Err(InvalidArgument); }
    EmptyIndex(table.value.rows, field);
    r := ScanIndex(table.value.indexes[field], op, value);
  }

  /** The comparison of an opened table, by way of the files it was opened from:
      what `SelectHelp` gives, as long as the files show the same image. */
  method SelectReopened(table: LoadedTable, store: Store, field: Key, op: string, value: Key, ghost image: Bytes,
          ghost t: Table)
    returns (r: Result<seq<nat>>)
    requires table.Valid() && Loaded(table, image, t) && store.In(Off) && WillShow(store.Now(), image)
    modifies store
    ensures ComparisonOf(op).Some? ==> r == WhereEval.Selected(DataOf(t), field, ComparisonOf(op).value, value)
    ensures field !in t.fields ==> r == Err(InvalidArgument)
    ensures ComparisonOf(op).None? && field in t.fields ==>
              r == if t.rows != [] then Err(InvalidArgument) else Ok([])
    ensures field in t.fields ==> Untouched(store, |old(store.history)| - 1, image) && LogEmpty(store.wal)
  {
    hide Weak, Works, WillShow, ImageDenotes, Matching, ColumnIndex, ComparisonOf, Untouched, CachesValid;
    SameColumns(table.fieldNames, table.fieldNameMap);
    if field !in table.fieldNameMap { return Err(InvalidArgument); }
    r := QueryIndex(store, table.fieldNameMap[field], op, value);
  }
}
