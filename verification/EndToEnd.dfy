/** Whole commands across processes: a row is inserted by the text of a command,
    the process ends, and another process opens the files and selects. */
module EndToEnd {
  import opened Ordering
  import opened Codec
  import opened TableImage
  import opened ImageCodec
  import opened IncrementalInsert
  import opened Wal
  import opened CommitProtocol
  import opened Recovery
  import opened Engine
  import opened Statements
  import opened WhereTokens
  import opened CommandParser
  import opened CommandPrinter
  import opened CommandRoundTrip
  import opened SqlCommands
  import opened CommandAnswers

  /** A process that ends between statements leaves a database to open. */
  lemma ProcessEnds(s: State)
    requires Weak(s) && s.stage.Ready?
    ensures Kill(s, s.(stage := Off)) && LogEmpty(s.wal)
  {
    hide IsWal, AtMost, WalRecord;
  }

  method Reopen(store: Store) returns (next: Store)
    requires store.In(Ready)
    ensures fresh(next) && next.In(Off) && next.db == store.db && next.wal == store.wal && LogEmpty(next.wal)
  {
    hide Weak, Works;
    ProcessEnds(store.Now());
    KillKeepsWeak(store.Now(), store.Now().(stage := Off));
    next := new Store(store.db, store.wal, store.Now().(stage := Off));
  }

  /** One process runs a command on the files. */
  method Process(store: Store, c: Command) returns (r: Result<Answer>)
    requires store.In(Off) && Listed(c) && CleanCommand(c)
    requires c.Select? && c.condition.Some? ==> Canonical(c.condition.value)
    requires c.Insert? ==> forall image :: WillShow(store.Now(), image) ==> Room(image)
    modifies store
    ensures CommandDone(c, old(store.Now()), |old(store.history)| - 1, store, r)
  {
    hide *;
    var parser := new Parser();
    r := RunCommand(parser, store, c);
  }

  /** From whatever a crash left: insert by command, end the process, open again
      and select by command.  The answer is that of the old table with the row. */
  method InsertThenSelect(store: Store, insert: Command, select: Command, ghost image: Bytes, ghost t: Table)
    returns (r: Result<Answer>)
    requires store.In(Off) && WillShow(store.Now(), image) && Extendable(image, t) && Room(image)
    requires insert.Insert? && CleanCommand(insert) && IsIdentifier(insert.table)
    requires IncrementalInsert.Fits(t, insert.values)
    requires select.Select? && select.table == insert.table && Listed(select) && CleanCommand(select)
    requires select.condition.Some? ==> Canonical(select.condition.value)
    modifies store
    ensures SelectAnswer(WithRow(t, insert.values), select.columns, select.condition, ShownBy(r))
  {
    hide *;
    InOff(store);
    forall other | WillShow(store.Now(), other) ensures other == image { OneShown(store.Now(), other, image); }
    SomeValues(image, t, insert);
    ghost var start, from := store.Now(), |store.history| - 1;
    var inserted := Process(store, insert);
    InsertedRow(insert, start, from, store, inserted, image, t);
    ExtendableDenotes(store.db.bytes, WithRow(t, insert.values));
    var next := Reopen(store);
    InOff(next);
    ShowsStored(next.Now(), store.db.bytes);
    ghost var again, first := next.Now(), |next.history| - 1;
    r := Process(next, select);
    SelectedRow(select, again, first, next, r, store.db.bytes, WithRow(t, insert.values));
  }

  lemma InsertedRow(c: Command, start: State, from: nat, store: Store, r: Result<Answer>, image: Bytes, t: Table)
    requires c.Insert? && IsIdentifier(c.table) && CommandDone(c, start, from, store, r) && WillShow(start, image)
    requires Extendable(image, t) && IncrementalInsert.Fits(t, c.values)
    ensures store.In(Ready) && store.db.File? && Extendable(store.db.bytes, WithRow(t, c.values))
  {
    hide Extendable, WithRow, IncrementalInsert.Fits, WillShow, AtomicFrom, IsIdentifier;
    assert InsertAnswer(store, from, image, c.values, r);
  }

  lemma SelectedRow(c: Command, start: State, from: nat, store: Store, r: Result<Answer>, image: Bytes, t: Table)
    requires c.Select? && IsIdentifier(c.table) && CommandDone(c, start, from, store, r) && WillShow(start, image)
    requires ImageDenotes(image, t)
    ensures SelectAnswer(t, c.columns, c.condition, ShownBy(r))
  {
    hide ImageDenotes, WillShow, SelectAnswer, Untouched, IsIdentifier;
  }

  /** A row that fits has a value for each field, so the list is not empty. */
  lemma SomeValues(image: Bytes, t: Table, c: Command)
    requires Extendable(image, t) && c.Insert? && IncrementalInsert.Fits(t, c.values)
    ensures Listed(c)
  {
    hide Extendable;
    ExtendableDenotes(image, t);
    DenotedTable(image, t);
  }
}
