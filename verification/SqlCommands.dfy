/** The SQL object's `command`: parse the text, check the identifiers, and run
    the statement on the files of the named table. */
module SqlCommands {
  import opened Ordering
  import opened Codec
  import opened PageCodec
  import opened Streams
  import opened TableImage
  import opened ImageCodec
  import opened TableState
  import opened RowInsert
  import opened IncrementalInsert
  import opened BulkLoad
  import opened ImageBuilder
  import opened CrashModel
  import opened CommitProtocol
  import opened Recovery
  import opened CrashRuns
  import opened Engine
  import opened Statements
  import opened RecordLists
  import opened WhereEval
  import opened Projection
  import opened Selection
  import opened CommandParser
  import opened CommandPrinter
  import opened CommandTrees

  predicate IsLetter(c: byte) { 97 <= c < 123 || 65 <= c < 91 }

  /** A letter or underscore, then letters, digits and underscores. */
  predicate IsIdentifier(value: Bytes) {
    && value != [] && (IsLetter(value[0]) || value[0] == 95)
    && forall i :: 0 <= i < |value| ==> IsLetter(value[i]) || 48 <= value[i] < 58 || value[i] == 95
  }

  predicate AreIdentifiers(values: seq<Bytes>) { forall v :: v in values ==> IsIdentifier(v) }

  datatype Answer = Created | Inserted | Selected(shown: Projected)

  // ----- a table by its fields and rows

  ghost function Columns(names: seq<Key>): map<Key, nat> { map f | f in names :: IndexIn(names, f) }

  ghost function IndexIn(names: seq<Key>, f: Key): (i: nat)
    requires f in names
    ensures i < |names| && names[i] == f
  {
    if names[0] == f then 0 else 1 + IndexIn(names[1..], f)
  }

  ghost function DataOf(t: Table): Relational { Relational(Columns(t.fields), t.rows) }

  lemma SameColumns(names: seq<Key>, positions: map<Key, nat>)
    requires NamesOk(names, positions)
    ensures positions == Columns(names)
  {
    forall f | f in positions ensures positions[f] == Columns(names)[f] {
      assert names[IndexIn(names, f)] == f;
    }
  }

  // ----- `select`

  /** The columns asked for; a star in front stands for all. */
  function Chosen(names: seq<Key>, columns: seq<Bytes>): seq<Key> {
    if columns != [] && columns[0] == STAR then names else columns
  }

  /** Exactly the records the words select, with the chosen columns in table
      order; an error exactly for an unknown column or words that are refused. */
  ghost predicate TableAnswer(t: Table, columns: seq<Bytes>, words: seq<Bytes>, r: Result<Projected>) {
    var names := Chosen(t.fields, columns);
    if AreNames(t.fields, names) && Where(DataOf(t), words).Ok? then
      && r.Ok? && Ok(r.value.records) == Where(DataOf(t), words)
      && InTableOrder(t.fields, names, r.value.header) && RowsFit(t.fields, t.rows, r.value.records)
      && r.value.cells == AllCells(t.fields, r.value.header, t.rows, r.value.records)
    else r == Err(InvalidArgument)
  }

  lemma ChosenWanted(names: seq<Key>, columns: seq<Bytes>)
    requires columns != []
    ensures Wanted(names, Chosen(names, columns)) == Chosen(names, columns)
    ensures Selectable(names, Chosen(names, columns)) <==> AreNames(names, Chosen(names, columns))
  {
  }

  /** On a table in memory; without a condition every record is selected. */
  method SelectFrom(t: LoadedTable, columns: seq<Bytes>, words: Option<seq<Bytes>>, ghost table: Table)
    returns (r: Result<Projected>)
    requires t.Valid() && t.fieldNames == table.fields && t.storedRows == table.rows && columns != []
    ensures WhereEval.Fits(DataOf(table)) && TableAnswer(table, columns, if words.None? then [] else words.value, r)
  {
    hide NoDuplicates, Where, WhereEval.Fits, CachesValid, AllCells, InTableOrder, Selectable, AreNames;
    SameColumns(t.fieldNames, t.fieldNameMap);
    assert t.Data() == DataOf(table);
    t.DataFits();
    ChosenWanted(t.fieldNames, columns);
    var selected := columns;
    if selected[0] == STAR { selected := t.fieldNames; }
    assert selected == Chosen(t.fieldNames, columns);
    if words.None? {
      r := t.Select(selected, []);
    } else {
      r := t.Select(selected, words.value);
    }
  }

  // ----- opening the files of a table

  lemma DenotedTable(image: Bytes, t: Table)
    requires ImageDenotes(image, t)
    ensures FieldsOk(t.fields) && Rectangular(t.rows, |t.fields|)
    ensures |t.indexes| == |t.fields| && forall f :: 0 <= f < |t.indexes| ==> t.indexes[f] == ColumnIndex(t.rows, f)
  {
    hide StreamsDenote, SuperDenotes, Partition, FieldsOk, ColumnIndex, Stores;
    var pages, l :| pages != [] && Stores(image, pages) && Denotes(pages, l, t);
    forall f | 0 <= f < |t.indexes| ensures t.indexes[f] == ColumnIndex(t.rows, f) {
      assert IndexDenotes(pages, l.indexes[f], t.rows, f, t.indexes[f]);
    }
  }

  ghost predicate Loaded(table: LoadedTable, image: Bytes, t: Table)
    reads table
  {
    ImageDenotes(image, t) && t.fields == table.fieldNames && t.rows == table.storedRows
  }

  /** The table object of an existing table. */
  method OpenNamed(store: Store) returns (r: Result<LoadedTable>)
    requires store.In(Off)
    modifies store
    ensures r.Ok? ==> fresh(r.value) && r.value.Valid() && store.In(Ready) && LogEmpty(store.wal) && store.db.File?
    ensures r.Ok? ==> WillShow(old(store.Now()), store.db.bytes) && exists t :: Loaded(r.value, store.db.bytes, t)
    ensures forall image, t :: old(WillShow(store.Now(), image)) && ImageDenotes(image, t) ==>
              && r.Ok? && r.value.fieldNames == t.fields && r.value.storedRows == t.rows
              && store.db.bytes == image
    ensures forall image :: old(WillShow(store.Now(), image)) ==>
              store.In(Ready) && store.db.File? && store.db.bytes == image
    ensures old(store.history) <= store.history && |old(store.history)| < |store.history|
    ensures Since(store.history[..|store.history| - 1], |old(store.history)|, old(store.Now()).committed,
                old(store.Now()).pending)
  {
    hide Since, Weak, Works, ImageDenotes, FieldsOk, ColumnIndex, WillShow, CachesValid, Rectangular;
    var loaded := store.OpenTable();
    if loaded.Err? { return Err(loaded.error); }
    DenotedTable(store.db.bytes, loaded.value);
    var table := new LoadedTable.FromStorage(loaded.value);
    r := Ok(table);
    assert Loaded(table, store.db.bytes, loaded.value);
  }

  /** The call has returned; the next one opens the files again. */
  ghost method CallAgain(store: Store)
    requires store.In(Ready)
    modifies store`history
    ensures store.In(Off) && store.history == old(store.history) + [old(store.Now()).(stage := Off)]
  {
    hide Weak;
    ghost var s := store.Now().(stage := Off);
    Called(store.Now(), s);
    store.Note(s, 0);
  }

  lemma Called(s: State, s': State)
    requires s.stage.Ready? && s' == s.(stage := Off)
    ensures Works(s, s')
  {
    hide BeginCommit, WriteLog, SyncLog, NameLog, SizeData, WriteData, WritePiece, SyncData, NameData, TruncateLog,
      Finish, RecoverNothing, RecoverReplay, RecoverRefuse;
  }

  // ----- the three statements

  method AllIdentifiers(values: seq<Bytes>) returns (ok: bool)
    ensures ok <==> AreIdentifiers(values)
  {
    hide IsIdentifier;
    for i := 0 to |values|
      invariant forall j :: 0 <= j < i ==> IsIdentifier(values[j])
    {
      if !IsIdentifier(values[i]) { return false; }
    }
    ok := true;
  }

  lemma SmallSchema(fields: seq<Bytes>)
    requires FieldsOk(fields)
    ensures PageBudget(fields, []) <= NO_PAGE
  {
    hide ChainLength, EncRow, RowBytes, StringsOk;
    RowSize(fields);
    TwoPagesHold(|SchemaBytes(fields)|);
    EmptyRowBytes();
    TwoPagesHold(|RowBytes([])|);
    assert LeafBudget(0) == 1;
  }

  lemma TwoPagesHold(size: nat)
    requires size <= 2 * PAYLOAD_SIZE
    ensures ChainLength(size) <= 2
  {
    if size > PAYLOAD_SIZE { assert ChainLength(size - PAYLOAD_SIZE) == 1; }
  }

  lemma EmptyRowBytes()
    ensures |RowBytes([])| == 8
  {
    hide LE;
  }

  /** `create table`. */
  method CreateNamed(store: Store, name: Bytes, fields: seq<Bytes>) returns (r: Result<()>)
    requires store.In(Off)
    modifies store
    ensures r.Ok? <==>
              && IsIdentifier(name) && AreIdentifiers(fields) && FieldsOk(fields) && old(store.db).Missing?
              && LogEmpty(old(store.wal))
    ensures r.Ok? ==> store.In(Ready) && store.db.File? && Extendable(store.db.bytes, TableOf(fields, [], 1))
    ensures r.Ok? ==> AtomicFrom(store.history, |old(store.history)| - 1, None, store.db.bytes)
    ensures r.Err? ==> store.db == old(store.db) && store.wal == old(store.wal)
    ensures !IsIdentifier(name) ==> r == Err(InvalidArgument)
  {
    hide Weak, Works, Extendable, FieldsOk, PageBudget, AtomicFrom, IsIdentifier, AreIdentifiers;
    if !IsIdentifier(name) { return Err(InvalidArgument); }
    var named := AllIdentifiers(fields);
    if !named { return Err(InvalidArgument); }
    if store.db.File? { return Err(RuntimeError); }
    var ok := ValidateFields(fields);
    if !ok { return Err(InvalidArgument); }
    SmallSchema(fields);
    r := CreateFromRows(store, fields, []);
  }

  lemma ShowsStored(s: State, image: Bytes)
    requires Weak(s) && s.stage.Off? && LogEmpty(s.wal) && s.db.File? && s.db.bytes == image
    ensures forall other :: WillShow(s, other) <==> other == image
  {
    hide Weak;
    FiveWays(s);
  }

  /** The row into the table that was just opened. */
  method InsertOpened(store: Store, values: seq<Bytes>, ghost image: Bytes) returns (r: Result<()>)
    requires store.In(Ready) && LogEmpty(store.wal) && store.db.File? && store.db.bytes == image && Room(image)
    modifies store
    ensures store.Valid() && old(store.history) <= store.history
    ensures InsertDone(store, |old(store.history)|, image, values, r.Ok?)
  {
    hide Weak, Works, Extendable, IncrementalInsert.Fits, WillShow, WithRow, Room, AtomicFrom, InsertDone;
    CallAgain(store);
    ghost var again := store.history;
    ShowsStored(store.Now(), image);
    assert WillShow(store.Now(), image);
    r := InsertRow(store, values);
    assert old(store.history) <= again <= store.history;
  }

  lemma OtherWidth(table: LoadedTable, image: Bytes, values: seq<Bytes>)
    requires (exists t :: Loaded(table, image, t)) && |values| != |table.fieldNames|
    ensures !Insertable(image, values)
  {
    hide ImageDenotes, Extendable;
    var u :| Loaded(table, image, u);
    forall t | Extendable(image, t) ensures t == u {
      ExtendableDenotes(image, t);
      ImageDenotesUnique(image, t, u);
    }
  }

  lemma NotOpened(image: Bytes, values: seq<Bytes>)
    requires forall t :: !ImageDenotes(image, t)
    ensures !Insertable(image, values)
  {
    hide ImageDenotes, Extendable, IncrementalInsert.Fits;
    forall t ensures !Extendable(image, t) {
      if Extendable(image, t) { ExtendableDenotes(image, t); }
    }
  }

  /** `insert into`. */
  method InsertNamed(store: Store, name: Bytes, values: seq<Bytes>) returns (r: Result<()>)
    requires store.In(Off) && forall image :: WillShow(store.Now(), image) ==> Room(image)
    modifies store
    ensures IsIdentifier(name) ==>
      forall image :: old(WillShow(store.Now(), image)) ==>
        InsertDone(store, |old(store.history)| - 1, image, values, r.Ok?)
    ensures !IsIdentifier(name) ==>
              r == Err(InvalidArgument) && store.db == old(store.db) && store.wal == old(store.wal)
  {
    hide *;
    if !IsIdentifier(name) { return Err(InvalidArgument); }
    InOff(store);
    ghost var start, from := store.Now(), |store.history| - 1;
    var table := OpenNamed(store);
    ghost var current, open := store.db, store.history;
    assert open[from] == start;
    forall image | WillShow(start, image)
      ensures current.File? && image == current.bytes && AtomicFrom(open, from, Some(image), image)
    {
      ReadyIsValid(store);
      StoreSteps(store);
      OpenedIsAtomic(open, from, start.committed, start.pending, image);
    }
    if table.Err? {
      forall image | WillShow(start, image) ensures InsertDone(store, from, image, values, false) {
        NotOpened(image, values);
        InsertKept(store, from, image, values);
      }
      return Err(table.error);
    }
    if |values| != |table.value.fieldNames| {
      OtherWidth(table.value, current.bytes, values);
      forall image | WillShow(start, image)
        ensures InsertDone(store, from, image, values, false)
      {
        InsertKept(store, from, image, values);
      }
      return Err(InvalidArgument);
    }
    r := InsertOpened(store, values, current.bytes);
    StoreSteps(store);
    assert store.history[from] == open[from];
    StoreOf(store, from, |open|, current.bytes, values, r.Ok?, start, open);
  }

  lemma InOff(store: Store)
    requires store.In(Off)
    ensures store.history != [] && store.Now() == store.history[|store.history| - 1]
    ensures Weak(store.Now()) && store.Now().stage.Off? && store.Now().db == store.db && store.Now().wal == store.wal
  {
  }

  lemma ReadyIsValid(store: Store)
    requires store.In(Ready)
    ensures store.Valid()
  {
    hide Weak, Works;
  }

  lemma StoreSteps(store: Store)
    requires store.Valid()
    ensures store.history != [] && Stepwise(store.history)
  {
    hide Weak, Works;
  }

  lemma InsertKept(store: Store, from: nat, image: Bytes, values: seq<Bytes>)
    requires store.db.File? && store.db.bytes == image && !Insertable(image, values)
    requires AtomicFrom(store.history, from, Some(image), image)
    ensures InsertDone(store, from, image, values, false)
  {
    hide AtomicFrom, Insertable;
  }

  /** What happened before the row was inserted counts as well. */
  lemma StoreOf(store: Store, from: nat, to: nat, image: Bytes, values: seq<Bytes>, ok: bool, start: State,
          open: seq<State>)
    requires InsertDone(store, to, image, values, ok) && Stepwise(store.history) && open <= store.history
    requires to == |open|
    requires from + 1 < |open| && store.history[from] == start && Weak(start) && start.stage.Off?
    requires WillShow(start, image)
    requires Since(open[..|open| - 1], from + 1, start.committed, start.pending)
    ensures InsertDone(store, from, image, values, ok)
  {
    hide AtomicFrom, Insertable, Since, Weak, WillShow, Stepwise, Extendable, WithRow;
    OpenedThenAtomic(open, store.history, from, to, image, store.db.bytes, start.committed, start.pending);
  }

  /** What a `select` answers on the table. */
  ghost predicate NamedAnswer(t: Table, name: Bytes, columns: seq<Bytes>, words: seq<Bytes>, r: Result<Projected>) {
    if IsIdentifier(name) then TableAnswer(t, columns, words, r) else r == Err(InvalidArgument)
  }

  /** The image is still there, and was all along. */
  ghost predicate Untouched(store: Store, from: nat, image: Bytes)
    reads store
  {
    store.In(Ready) && store.db.File? && store.db.bytes == image && AtomicFrom(store.history, from, Some(image), image)
  }

  /** `select`. */
  method SelectNamed(store: Store, name: Bytes, columns: seq<Bytes>, words: Option<seq<Bytes>>)
    returns (r: Result<Projected>)
    requires store.In(Off) && columns != []
    modifies store
    ensures forall image, t :: old(WillShow(store.Now(), image)) && ImageDenotes(image, t) ==>
              NamedAnswer(t, name, columns, if words.None? then [] else words.value, r)
    ensures IsIdentifier(name) ==>
              forall image :: old(WillShow(store.Now(), image)) ==> Untouched(store, |old(store.history)| - 1, image)
    ensures !IsIdentifier(name) ==>
              r == Err(InvalidArgument) && store.db == old(store.db) && store.wal == old(store.wal)
  {
    hide *;
    InOff(store);
    ghost var start, from := store.Now(), |store.history| - 1;
    if !IsIdentifier(name) {
      NotNamed(name, columns, if words.None? then [] else words.value);
      return Err(InvalidArgument);
    }
    var loaded := OpenNamed(store);
    ghost var current, open := store.db, store.history;
    assert open[from] == start;
    forall image | WillShow(start, image) ensures Untouched(store, from, image) {
      ReadyIsValid(store);
      StoreSteps(store);
      OpenedIsAtomic(open, from, start.committed, start.pending, image);
      UntouchedIs(store, from, image);
    }
    if loaded.Err? { return Err(loaded.error); }
    ghost var t :| Loaded(loaded.value, current.bytes, t);
    LoadedIs(loaded.value, current.bytes, t);
    r := SelectFrom(loaded.value, columns, words, t);
    forall image, u | WillShow(start, image) && ImageDenotes(image, u)
      ensures u == t
    {
      LoadedUnique(loaded.value, current.bytes, t, u);
    }
    NamedIs(t, name, columns, if words.None? then [] else words.value, r);
  }

  lemma NotNamed(name: Bytes, columns: seq<Bytes>, words: seq<Bytes>)
    ensures !IsIdentifier(name) ==> forall t :: NamedAnswer(t, name, columns, words, Err(InvalidArgument))
  {
    hide TableAnswer, IsIdentifier;
  }

  lemma NamedIs(t: Table, name: Bytes, columns: seq<Bytes>, words: seq<Bytes>, r: Result<Projected>)
    requires IsIdentifier(name) && TableAnswer(t, columns, words, r)
    ensures NamedAnswer(t, name, columns, words, r)
  {
  }

  lemma UntouchedIs(store: Store, from: nat, image: Bytes)
    requires store.In(Ready) && store.db.File? && store.db.bytes == image
    requires AtomicFrom(store.history, from, Some(image), image)
    ensures Untouched(store, from, image)
  {
  }

  lemma LoadedUnique(table: LoadedTable, image: Bytes, t: Table, u: Table)
    requires Loaded(table, image, t) && ImageDenotes(image, u)
    ensures t == u
  {
    hide ImageDenotes;
    ImageDenotesUnique(image, t, u);
  }

  lemma LoadedIs(table: LoadedTable, image: Bytes, t: Table)
    requires Loaded(table, image, t)
    ensures ImageDenotes(image, t) && t.fields == table.fieldNames && t.rows == table.storedRows
  {
  }

  // ----- the command

  /** The table a `select` answered with. */
  function ShownBy(r: Result<Answer>): Result<Projected> {
    if r.Err? then Err(r.error) else if r.value.Selected? then Ok(r.value.shown) else Err(LogicError)
  }

  ghost predicate CreateAnswer(name: Bytes, fields: seq<Bytes>, db: File, wal: File, from: nat, store: Store,
          r: Result<Answer>)
    reads store
  {
    if IsIdentifier(name) && AreIdentifiers(fields) && FieldsOk(fields) && db.Missing? && LogEmpty(wal) then
      && r == Ok(Created) && store.In(Ready) && store.db.File? && Extendable(store.db.bytes, TableOf(fields, [], 1))
      && AtomicFrom(store.history, from, None, store.db.bytes)
    else r.Err? && store.db == db && store.wal == wal
  }

  ghost predicate InsertAnswer(store: Store, from: nat, image: Bytes, values: seq<Bytes>, r: Result<Answer>)
    reads store
  {
    InsertDone(store, from, image, values, r.Ok?) && (r.Ok? ==> r.value.Inserted?)
  }

  ghost predicate Denied(store: Store, db: File, wal: File, r: Result<Answer>)
    reads store
  {
    r == Err(InvalidArgument) && store.db == db && store.wal == wal
  }

  /** The condition words of a tree, if it has any. */
  function WordsIn(tree: Tree): seq<Bytes> { if "where" in tree then ListAt(tree, "condition") else [] }

  /** An `insert` may count on room in the file. */
  ghost predicate Roomy(command: Bytes, s: State) {
    command == INSERT_TEXT ==> forall image :: WillShow(s, image) ==> Room(image)
  }

  /** What the tree of a command makes of the files: they and the next open were
      in `start`, at index `from` of the history, before. */
  ghost predicate Dispatched(tree: Tree, start: State, from: nat, store: Store, r: Result<Answer>)
    requires Usable(tree)
    reads store
  {
    var name, command := ListAt(tree, "table_name")[0], ListAt(tree, "command")[0];
    if command == CREATE_TEXT then CreateAnswer(name, ListAt(tree, "fields"), start.db, start.wal, from, store, r)
    else if !IsIdentifier(name) || command !in {INSERT_TEXT, SELECT_TEXT} then Denied(store, start.db, start.wal, r)
    else if command == INSERT_TEXT then
      forall image :: WillShow(start, image) ==> InsertAnswer(store, from, image, ListAt(tree, "values"), r)
    else
      forall image :: WillShow(start, image) ==>
        && Untouched(store, from, image)
        && forall t :: ImageDenotes(image, t) ==>
             NamedAnswer(t, name, ListAt(tree, "fields"), WordsIn(tree), ShownBy(r))
  }

  /** The dispatch on the tree of a command. */
  method Dispatch(store: Store, tree: Tree) returns (r: Result<Answer>)
    requires store.In(Off) && Usable(tree) && Roomy(ListAt(tree, "command")[0], store.Now())
    modifies store
    ensures Dispatched(tree, old(store.Now()), |old(store.history)| - 1, store, r)
  {
    hide Weak, Works, WillShow, Room, IsIdentifier, AreIdentifiers, FieldsOk, Extendable, ImageDenotes, NamedAnswer,
      TableOf, AtomicFrom, InsertDone, Untouched;
    CommandsDiffer();
    NotNamed(ListAt(tree, "table_name")[0], ListAt(tree, "fields"), WordsIn(tree));
    var name, command := ListAt(tree, "table_name")[0], ListAt(tree, "command")[0];
    if !IsIdentifier(name) { return Err(InvalidArgument); }
    if command == CREATE_TEXT {
      var created := CreateNamed(store, name, ListAt(tree, "fields"));
      if created.Err? { return Err(created.error); }
      r := Ok(Created);
    } else if command == INSERT_TEXT {
      var inserted := InsertNamed(store, name, ListAt(tree, "values"));
      if inserted.Err? { return Err(inserted.error); }
      r := Ok(Inserted);
    } else if command == SELECT_TEXT {
      var shown := SelectNamed(store, name, ListAt(tree, "fields"),
          if "where" in tree then Some(ListAt(tree, "condition")) else None);
      if shown.Err? { return Err(shown.error); }
      r := Ok(Selected(shown.value));
    } else {
      r := Err(InvalidArgument);
    }
  }

  lemma CommandsDiffer()
    ensures CREATE_TEXT != INSERT_TEXT && INSERT_TEXT != SELECT_TEXT && CREATE_TEXT != SELECT_TEXT
  {
  }
}
