/** When exactly a power loss is harmless: what of the two files has to be
    synced and named, stage by stage. */
module PowerLosses {
  import opened Ordering
  import opened Codec
  import opened PageCodec
  import opened IndexGrowth
  import opened Streams
  import opened Chains
  import opened TableImage
  import opened ImageCodec
  import opened PageBuffer
  import opened Wal
  import opened CrashModel
  import opened CommitProtocol
  import opened Recovery
  import opened MixedStates

  // ----- the next open

  datatype Outcome = Shows(content: Option<Bytes>) | Refuses

  function Content(f: File): Option<Bytes> { if f.Missing? then None else Some(f.bytes) }

  ghost predicate Replayable(db: File, w: Bytes) { exists image, g :: IsWal(w, image, g) && !Stale(db, g) }

  /** What an open makes of the two files when nothing disturbs it. */
  ghost predicate Opens(db: File, wal: File, o: Outcome) {
    if LogEmpty(wal) then o == Shows(Content(db))
    else
      if Replayable(db, wal.bytes) then o.Shows? && o.content.Some? && exists g :: IsWal(wal.bytes, o.content.value, g)
    else o == Refuses
  }

  ghost predicate Undisturbed(run: seq<State>) {
    && (forall i :: 0 < i < |run| ==> Works(run[i - 1], run[i]))
    && forall i :: 0 <= i < |run| - 1 ==> !run[i].stage.Ready? && !run[i].stage.Refused?
  }

  /** A replay on its way. */
  ghost predicate Replaying(s: State, t: Task) {
    match s.stage
    case Opening(u) => u == t
    case Writing(u, _, next) => u == t && s.db.File? && AppliedBelow(s.db.bytes, t.buffer, next)
    case DataSynced(u, _) => u == t && Applied(s, t)
    case Truncating(u) => u == t && Applied(s, t)
    case Truncated(u) => u == t && Applied(s, t)
    case Ready => Applied(s, t)
    case _ => false
  }

  lemma ReplayGoesOn(s: State, s': State, t: Task)
    requires Replaying(s, t) && !s.stage.Ready? && Works(s, s') && TaskOk(t)
    requires forall file :: CleanPagesPresent(file, t.buffer)
    ensures Replaying(s', t)
  {
    hide WalRecord, AtMost, IsWal, CleanPagesPresent, AppliedBelow, BufferOk, Stale, ImageDenotes;
    if SizeData(s, s') {
      ResizedApplies(Contents(s.db), t.buffer);
    } else if WriteData(s, s') {
      WriteApplies(s, s', t);
    } else if WritePiece(s, s') {
      PieceGoesOn(s, s', t);
    } else if SyncData(s, s') {
      SyncApplies(s, t);
    }
  }

  lemma WriteApplies(s: State, s': State, t: Task)
    requires Replaying(s, t) && WriteData(s, s')
    ensures Replaying(s', t)
  {
    hide WalRecord, AtMost, IsWal, WithPage;
    var p := s'.stage.next - 1;
    assert AppliedBelow(s.db.bytes, t.buffer, p);
    PageApplied(s.db.bytes, t.buffer, p);
  }

  lemma PieceGoesOn(s: State, s': State, t: Task)
    requires Replaying(s, t) && WritePiece(s, s')
    ensures Replaying(s', t)
  {
    hide WalRecord, AtMost, IsWal, Piece, AppliedBelow;
    var p: nat, n: nat :| PieceOf(s, p, n) && s' == s.(db := s.db.(bytes := Piece(s.db.bytes, p, n, t.buffer.image)));
    PieceApplies(s.db.bytes, t.buffer, s.stage.next, p, n);
  }

  lemma SyncApplies(s: State, t: Task)
    requires Replaying(s, t) && s.stage.Writing? && TaskOk(t)
    requires forall p :: p in t.buffer.dirtyPages ==> p < s.stage.next
    ensures s.db.bytes == t.buffer.image
  {
    hide WalRecord, AtMost, IsWal, ImageDenotes;
    assert AppliedBelow(s.db.bytes, t.buffer, PageCount(t.buffer.image));
    AllApplied(s.db.bytes, t.buffer);
  }

  lemma {:induction false} ReplayRuns(run: seq<State>, i: nat, t: Task)
    requires Undisturbed(run) && 1 <= i < |run| && Replaying(run[1], t) && TaskOk(t)
    requires forall file :: CleanPagesPresent(file, t.buffer)
    ensures Replaying(run[i], t)
  {
    hide Works, Replaying, TaskOk, CleanPagesPresent;
    if i > 1 {
      ReplayRuns(run, i - 1, t);
      ReplayGoesOn(run[i - 1], run[i], t);
    }
  }

  /** The definition is what the code does: an open that runs to its end shows
      exactly that content, or refuses exactly then, with the database as it was. */
  lemma UndisturbedOpen(run: seq<State>)
    requires |run| >= 2 && Undisturbed(run) && run[0].stage.Off?
    requires var last := run[|run| - 1]; last.stage.Ready? || last.stage.Refused?
    ensures var last := run[|run| - 1];
      && Opens(run[0].db, run[0].wal, if last.stage.Ready? then Shows(Content(last.db)) else Refuses)
      && (last.stage.Refused? ==> last.db == run[0].db)
  {
    hide WalRecord, AtMost, IsWal, Stale, TaskOk, CleanPagesPresent, AppliedBelow, BufferOk;
    var s, s' := run[0], run[1];
    assert Works(s, s');
    if RecoverReplay(s, s') {
      var t := s'.stage.task;
      ReplayTask(s.wal.bytes, t);
      ReplayRuns(run, |run| - 1, t);
    }
  }

  // ----- the condition

  /** Nothing between the old and the new image: either of them, or a refusal
      over the old one because of a log that is no record. */
  ghost predicate Atomic(s: State, o: Outcome) {
    match o
    case Shows(content) => content == s.committed || (s.pending.Some? && content == Some(s.pending.value.image))
    case Refuses => s.wal.File? && !IsRecord(s.wal.bytes) && Content(s.db) == s.committed
  }

  ghost predicate OpensWell(s: State) { forall o :: Opens(s.db, s.wal, o) ==> Atomic(s, o) }

  /** The log is there and whole after any power loss: the record in flight, or
      that of the last commit. */
  ghost predicate LogCarries(s: State) {
    && s.wal.File? && s.wal.named && s.wal.synced == s.wal.bytes
    && ((s.pending.Some? && s.wal.bytes == PendingLog(s.pending.value)) || IsOldLog(s.wal.bytes, s.committed))
  }

  /** The database is whole after any power loss: synced, and named unless it
      may as well be absent. */
  ghost predicate DataWhole(s: State) {
    && (Content(s.db) == s.committed || ShowsNew(s))
    && (s.db.File? ==> s.db.synced == s.db.bytes && (s.db.named || s.committed.None?))
  }

  /** A power loss may leave a log that is neither empty nor a record. */
  ghost predicate LogMayTear(s: State) {
    s.wal.File? && s.wal.bytes != [] && (s.wal.synced != s.wal.bytes || !IsRecord(s.wal.bytes))
  }

  /** The synced log, should it come back, is one that an open gets right. */
  ghost predicate SyncedLogFits(s: State) {
    s.wal.File? && s.wal.synced != [] ==>
      if IsRecord(s.wal.synced) then
        forall image, g :: IsWal(s.wal.synced, image, g) ==>
          !Stale(s.db, g) && (Some(image) == s.committed || (s.pending.Some? && image == s.pending.value.image))
      else Content(s.db) == s.committed
  }

  ghost predicate Withstands(s: State) {
    LogCarries(s) || (DataWhole(s) && (LogMayTear(s) ==> Content(s.db) == s.committed) && SyncedLogFits(s))
  }

  /** The durable database is not later than the log. */
  ghost predicate Aged(s: State) {
    s.wal.File? && s.db.File? ==>
      forall image, g :: IsWal(s.wal.bytes, image, g) ==> SurvivesAtMost(s.db.synced, s.db.bytes, g)
  }

  // ----- what the current log is

  lemma LogForms(s: State)
    requires Sound(s)
    ensures InFlight(s)
    ensures
      || LogEmpty(s.wal)
      || (s.pending.Some? && s.wal.bytes == PendingLog(s.pending.value) && FileAtMost(s.db, s.pending.value.generation))
      || LeftCommittedLog(s)
      || LeftPart(s)
  {
    hide WalRecord, AtMost, IsWal, CleanPagesPresent, AppliedBelow, BufferOk, ImageDenotes, LeftPart;
    if !s.stage.Off? && !s.stage.Ready? && !s.stage.Refused? {
      TaskAtMost(s.stage.task);
      TaskIsWal(s.stage.task);
    }
    if s.stage.Logging? { LoggingIsPart(s); }
  }

  lemma LoggingIsPart(s: State)
    requires Sound(s) && s.stage.Logging?
    ensures s.wal.bytes == [] || s.wal.bytes == PendingLog(s.pending.value) || LeftPart(s)
  {
    hide WalRecord, AtMost, IsWal, CleanPagesPresent, BufferOk, ImageDenotes, TaskOk;
  }

  lemma ShortIsNoRecord(w: Bytes)
    requires |w| <= 1
    ensures !IsRecord(w)
  {
    hide IsWal;
    forall image, g ensures !IsWal(w, image, g) { RejectedIsNoWal(w, image, g); }
  }

  /** A current log that is a record is that of the old or of the new image,
      and the database is not later. */
  lemma CurrentRecord(s: State, image: Bytes, g: nat)
    requires Sound(s) && s.wal.File? && IsWal(s.wal.bytes, image, g)
    ensures
      || (s.pending == Some(WalImage(image, g)) && s.wal.bytes == PendingLog(s.pending.value))
      || (IsOldLog(s.wal.bytes, s.committed) && s.committed == Some(image))
    ensures FileAtMost(s.db, g)
  {
    hide WalRecord, AtMost, IsWal, ImageDenotes, IsOldLog, Sound, LeftPart;
    LogForms(s);
    if s.wal.bytes == [] {
      NoEmptyWal(image, g);
    } else if LeftPart(s) {
      PartIsNoRecord(s);
    } else if LeftCommittedLog(s) {
      var h :| IsWal(s.wal.bytes, s.committed.value, h) && FileAtMost(s.db, h);
      WalUnique(s.wal.bytes, image, g, s.committed.value, h);
      OldLog(s, h);
    } else {
      WalUnique(s.wal.bytes, image, g, s.pending.value.image, s.pending.value.generation);
    }
  }

  lemma OldLog(s: State, g: nat)
    requires s.wal.File? && s.committed.Some? && IsWal(s.wal.bytes, s.committed.value, g)
    ensures IsOldLog(s.wal.bytes, s.committed)
  {
    hide IsWal;
  }

  // ----- it is enough

  lemma DataOutcomes(f: File, f': File)
    requires PagesLoss(f, f')
    ensures f.File? && f.synced == f.bytes ==> f'.Missing? || Content(f') == Content(f)
    ensures f'.Missing? && f.File? ==> !f.named
    ensures f.Missing? ==> f'.Missing?
  {
  }

  lemma RecordOpens(s: State, image: Bytes, g: nat)
    requires s.wal.File? && IsWal(s.wal.bytes, image, g) && !Stale(s.db, g)
    requires Some(image) == s.committed || (s.pending.Some? && image == s.pending.value.image)
    ensures OpensWell(s)
  {
    hide IsWal, Stale;
    if s.wal.bytes == [] { NoEmptyWal(image, g); }
    forall o | Opens(s.db, s.wal, o) ensures Atomic(s, o) {
      if s.wal.bytes != [] {
        assert Replayable(s.db, s.wal.bytes);
        var h :| IsWal(s.wal.bytes, o.content.value, h);
        WalUnique(s.wal.bytes, image, g, o.content.value, h);
      }
    }
  }

  lemma NoRecordOpens(s: State)
    requires s.wal.File? && !IsRecord(s.wal.bytes) && Content(s.db) == s.committed
    ensures OpensWell(s)
  {
    hide IsWal, Stale;
  }

  lemma EmptyOpens(s: State)
    requires LogEmpty(s.wal) && (Content(s.db) == s.committed || ShowsNew(s))
    ensures OpensWell(s)
  {
    hide IsWal, Stale;
  }

  lemma CarriedIsEnough(s: State, s': State)
    requires Sound(s) && Aged(s) && LogCarries(s) && PowerLoss(s, s')
    ensures OpensWell(s')
  {
    hide WalRecord, AtMost, IsWal, Sound, OpensWell, PagesSurvive, Stale, ImageDenotes;
    LogForms(s);
    var image, g := CarriedImage(s);
    CurrentRecord(s, image, g);
    if s'.db.File? { SurvivorAtMost(s.db.synced, s.db.bytes, s'.db.bytes, g); }
    NotStale(s'.db, g);
    RecordOpens(s', image, g);
  }

  lemma CarriedImage(s: State) returns (image: Bytes, g: nat)
    requires InFlight(s) && LogCarries(s)
    ensures IsWal(s.wal.bytes, image, g)
  {
    hide IsWal;
    if IsOldLog(s.wal.bytes, s.committed) {
      image := s.committed.value;
      g :| IsWal(s.wal.bytes, image, g);
    } else {
      image, g := s.pending.value.image, s.pending.value.generation;
    }
  }

  lemma WholeIsEnough(s: State, s': State)
    requires Sound(s) && DataWhole(s) && (LogMayTear(s) ==> Content(s.db) == s.committed) && SyncedLogFits(s)
    requires PowerLoss(s, s')
    ensures OpensWell(s')
  {
    hide WalRecord, AtMost, IsWal, Sound, OpensWell, PagesSurvive, Stale, IsRecord;
    DataOutcomes(s.db, s'.db);
    if LogEmpty(s'.wal) {
      EmptyOpens(s');
    } else if s'.wal.bytes == s.wal.synced {
      SyncedIsEnough(s, s');
    } else {
      assert s'.wal.bytes <= s.wal.bytes;
      CurrentIsEnough(s, s');
    }
  }

  lemma StaleContent(db: File, db': File, g: nat)
    requires Stale(db', g)
    requires Content(db') == Content(db) || db'.Missing?
    ensures Stale(db, g)
  {
    hide ImageDenotes;
  }

  lemma SyncedIsEnough(s: State, s': State)
    requires DataWhole(s) && SyncedLogFits(s) && s.wal.File? && s'.wal.File? && s'.wal.bytes == s.wal.synced != []
    requires Content(s'.db) == Content(s.db) || (s'.db.Missing? && (s.db.Missing? || s.committed.None?))
    requires s'.committed == s.committed && s'.pending == s.pending
    ensures OpensWell(s')
  {
    hide WalRecord, AtMost, IsWal, OpensWell, Stale;
    if IsRecord(s.wal.synced) {
      var image, g :| IsWal(s.wal.synced, image, g);
      if Stale(s'.db, g) { StaleContent(s.db, s'.db, g); }
      RecordOpens(s', image, g);
    } else {
      NoRecordOpens(s');
    }
  }

  /** Part of a log that was not synced. */
  lemma CurrentIsEnough(s: State, s': State)
    requires Sound(s) && DataWhole(s) && (LogMayTear(s) ==> Content(s.db) == s.committed)
    requires s.wal.File? && s'.wal.File? && s'.wal.bytes != [] && s'.wal.bytes <= s.wal.bytes
    requires s.wal.synced != s.wal.bytes
    requires Content(s'.db) == Content(s.db) || (s'.db.Missing? && (s.db.Missing? || s.committed.None?))
    requires s'.committed == s.committed && s'.pending == s.pending
    ensures OpensWell(s')
  {
    hide WalRecord, AtMost, IsWal, OpensWell, Stale, Sound;
    if IsRecord(s'.wal.bytes) {
      var image, g :| IsWal(s'.wal.bytes, image, g);
      WholePrefix(s, s'.wal.bytes, image, g);
      CurrentRecord(s, image, g);
      NotStale(s.db, g);
      if Stale(s'.db, g) { StaleContent(s.db, s'.db, g); }
      RecordOpens(s', image, g);
    } else {
      NoRecordOpens(s');
    }
  }

  /** A prefix of the log that is a record is all of it. */
  lemma WholePrefix(s: State, w: Bytes, image: Bytes, g: nat)
    requires Sound(s) && s.wal.File? && w <= s.wal.bytes && IsWal(w, image, g)
    ensures w == s.wal.bytes
  {
    hide WalRecord, AtMost, IsWal, Sound, ImageDenotes;
    if w < s.wal.bytes {
      LogForms(s);
      if LeftPart(s) {
        PartOfPart(s, w);
      } else if LeftCommittedLog(s) {
        var h :| IsWal(s.wal.bytes, s.committed.value, h) && FileAtMost(s.db, h);
        RecordBytes(s.wal.bytes, s.committed.value, h);
        TornIsNoRecord(WalImage(s.committed.value, h), w);
      } else {
        TornIsNoRecord(s.pending.value, w);
      }
    }
  }

  lemma PartOfPart(s: State, w: Bytes)
    requires LeftPart(s) && InFlight(s) && w < s.wal.bytes
    ensures !IsRecord(w)
  {
    hide WalRecord, AtMost, IsWal;
    if s.pending.Some? && s.wal.bytes < PendingLog(s.pending.value) {
      TornIsNoRecord(s.pending.value, w);
    } else {
      var v :| IsOldLog(v, s.committed) && s.wal.bytes < v;
      var g :| IsWal(v, s.committed.value, g);
      RecordBytes(v, s.committed.value, g);
      TornIsNoRecord(WalImage(s.committed.value, g), w);
    }
  }

  // ----- it is needed

  /** An image has at least its superblock and a schema page. */
  lemma ImageHasPages(image: Bytes, t: Table)
    requires ImageDenotes(image, t)
    ensures |image| > PAGE_SIZE
  {
    hide ImageOf, IndexesDenote, FieldsOk, Rectangular, SuperDenotes, RowBytes, DirectoryBytes, Follow, Typed,
      OwnedByIndexes, IndexesApart;
    var pages: seq<Page>, l: Layout :| pages != [] && Stores(image, pages) && Denotes(pages, l, t);
    StoredSize(image, pages);
    SchemaNotEmpty(t.fields);
    NoPayloads(pages);
    assert l.schema[0] in SetOf(l.schema) by { InSetOf(l.schema, 0); }
    assert l.schema[0] in ChainPages(l) && l.schema[0] in Range(0, |pages|) && l.schema[0] != 0;
  }

  lemma NoPayloads(pages: seq<Page>)
    ensures Payloads(pages, []) == []
  {
  }

  lemma SchemaNotEmpty(fields: seq<Key>)
    ensures SchemaBytes(fields) != []
  {
  }

  lemma InSetOf(ids: seq<nat>, i: nat)
    requires i < |ids|
    ensures ids[i] in SetOf(ids)
  {
  }

  lemma PendingHasPages(s: State)
    requires InFlight(s) && s.pending.Some?
    ensures |s.pending.value.image| > PAGE_SIZE
  {
    hide ImageDenotes, WalRecord, AtMost;
    var w := s.pending.value;
    var t :| ImageDenotes(w.image, t) && t.generation == w.generation;
    ImageHasPages(w.image, t);
  }

  ghost predicate OldOrNew(s: State, content: Option<Bytes>) {
    content == s.committed || (s.pending.Some? && content == Some(s.pending.value.image))
  }

  /** A file of that size and first page that is neither of two others. */
  lemma SomethingElse(first: Bytes, a: Bytes, b: Bytes, size: nat) returns (c: Bytes)
    requires |first| == PAGE_SIZE < size
    ensures |c| == size && c[..PAGE_SIZE] == first && c != a && c != b
  {
    var x := OtherByte(a, b);
    c := first + seq(size - PAGE_SIZE, _ => x);
    assert c[PAGE_SIZE] == x;
  }

  ghost function OtherByte(a: Bytes, b: Bytes): (x: byte)
    ensures |a| > PAGE_SIZE ==> a[PAGE_SIZE] != x
    ensures |b| > PAGE_SIZE ==> b[PAGE_SIZE] != x
  {
    var u, v := if |a| > PAGE_SIZE then a[PAGE_SIZE] else 0, if |b| > PAGE_SIZE then b[PAGE_SIZE] else 0;
    if u != 0 && v != 0 then 0 else if u != 1 && v != 1 then 1 else 2
  }

  /** Unsynced page writes can leave a file that is neither image. */
  lemma UnsyncedDataTears(s: State) returns (f: File)
    requires InFlight(s) && s.db.File? && s.db.synced != s.db.bytes
    ensures PagesLoss(s.db, f) && f.File? && !OldOrNew(s, Content(f))
  {
    hide IsWal, AtMost, PagesSurvive, InFlight, PendingLog, WalRecord;
    var a, b := s.db.synced, s.db.bytes;
    EitherSurvives(a, b);
    if !OldOrNew(s, Some(a)) {
      f := Settled(a);
    } else if !OldOrNew(s, Some(b)) {
      f := Settled(b);
    } else {
      PendingHasPages(s);
      var image := s.pending.value.image;
      assert image == a || image == b;
      var c := SomethingElse(image[..PAGE_SIZE], a, b, |image|);
      f := Settled(c);
      TornSurvives(a, b, c, image);
    }
  }

  lemma EitherSurvives(a: Bytes, b: Bytes)
    requires a != b
    ensures PagesSurvive(a, b, a) && PagesSurvive(a, b, b)
  {
    hide Zeros, AgeField;
    EitherField(a, b);
  }

  lemma TornSurvives(a: Bytes, b: Bytes, c: Bytes, image: Bytes)
    requires a != b && (image == a || image == b) && |c| == |image| > PAGE_SIZE && c[..PAGE_SIZE] == image[..PAGE_SIZE]
    ensures PagesSurvive(a, b, c)
  {
    hide Zeros, AgeField;
    FirstPage(c);
    FirstPage(image);
    EitherField(a, b);
  }

  lemma EitherField(a: Bytes, b: Bytes)
    ensures Torn(AgeField(b), AgeField(a), 0) == AgeField(a) && Torn(AgeField(b), AgeField(a), 8) == AgeField(b)
  {
    hide AgeField;
  }

  lemma BrokenData(s: State) returns (f: File)
    requires InFlight(s) && !DataWhole(s)
    ensures PagesLoss(s.db, f) && !OldOrNew(s, Content(f))
  {
    hide IsWal, AtMost, PagesSurvive, InFlight, PendingLog, WalRecord;
    if s.db.Missing? {
      f := Missing;
    } else if s.db.synced != s.db.bytes {
      f := UnsyncedDataTears(s);
    } else if !OldOrNew(s, Some(s.db.bytes)) {
      f := Settled(s.db.bytes);
      SurvivesItself(s.db.bytes);
    } else {
      f := Missing;
    }
  }

  lemma SurvivesItself(b: Bytes)
    ensures PagesSurvive(b, b, b) && LogSurvives(b, b, b)
  {
  }

  /** A log that does not carry may come back empty or torn. */
  lemma BrokenLog(s: State) returns (f: File)
    requires Sound(s) && !LogCarries(s)
    ensures LogLoss(s.wal, f) && (LogEmpty(f) || !IsRecord(f.bytes))
  {
    hide IsWal, Sound, IsRecord, IsOldLog;
    if s.wal.Missing? || !s.wal.named {
      f := Missing;
    } else if s.wal.synced != s.wal.bytes {
      f := Settled([]);
    } else {
      f := Settled(s.wal.bytes);
      if IsRecord(s.wal.bytes) { RecordCarries(s); }
    }
  }

  lemma RecordCarries(s: State)
    requires Sound(s) && s.wal.File? && IsRecord(s.wal.bytes) && s.wal.named && s.wal.synced == s.wal.bytes
    ensures LogCarries(s)
  {
    hide IsWal, Sound, IsOldLog;
    var image, g :| IsWal(s.wal.bytes, image, g);
    CurrentRecord(s, image, g);
  }

  lemma NotAtomic(s: State, o: Outcome)
    requires Opens(s.db, s.wal, o) && !Atomic(s, o)
    ensures !OpensWell(s)
  {
  }

  lemma BrokenDataFails(s: State) returns (s': State)
    requires Sound(s) && !LogCarries(s) && !DataWhole(s)
    ensures PowerLoss(s, s') && !OpensWell(s')
  {
    hide IsWal, Sound, OpensWell, Stale, PagesLoss, LogLoss, LogCarries, DataWhole, IsRecord;
    LogForms(s);
    var db := BrokenData(s);
    var wal := BrokenLog(s);
    s' := s.(db := db, wal := wal, stage := Off);
    if LogEmpty(wal) {
      NotAtomic(s', Shows(Content(db)));
    } else {
      NoReplay(db, wal.bytes);
      NotAtomic(s', Refuses);
    }
  }

  lemma NoReplay(db: File, w: Bytes)
    requires !IsRecord(w)
    ensures !Replayable(db, w)
  {
    hide IsWal, Stale;
  }

  lemma SameData(s: State) returns (f: File)
    requires DataWhole(s)
    ensures PagesLoss(s.db, f) && Content(f) == Content(s.db) && (f.File? <==> s.db.File?)
  {
    hide PagesSurvive;
    if s.db.Missing? {
      f := Missing;
    } else {
      f := Settled(s.db.bytes);
      SurvivesItself(s.db.bytes);
    }
  }

  lemma TornLogFails(s: State) returns (s': State)
    requires Sound(s) && DataWhole(s) && LogMayTear(s) && Content(s.db) != s.committed
    ensures PowerLoss(s, s') && !OpensWell(s')
  {
    hide IsWal, Sound, OpensWell, Stale, PagesLoss, IsRecord;
    var db := SameData(s);
    var torn := if s.wal.synced != s.wal.bytes then s.wal.bytes[..1] else s.wal.bytes;
    if s.wal.synced != s.wal.bytes { ShortIsNoRecord(torn); }
    s' := s.(db := db, wal := Settled(torn), stage := Off);
    assert LogLoss(s.wal, s'.wal);
    NoReplay(db, torn);
    NotAtomic(s', Refuses);
  }

  lemma SyncedLogFails(s: State) returns (s': State)
    requires Sound(s) && DataWhole(s) && !SyncedLogFits(s)
    ensures PowerLoss(s, s') && !OpensWell(s')
  {
    hide IsWal, Sound, OpensWell, Stale, PagesLoss;
    var q := s.wal.synced;
    var db := SameData(s);
    s' := s.(db := db, wal := Settled(q), stage := Off);
    assert LogLoss(s.wal, s'.wal);
    if IsRecord(q) {
      var image, g :|
        && IsWal(q, image, g)
        && !(!Stale(s.db, g) && (Some(image) == s.committed || (s.pending.Some? && image == s.pending.value.image)));
      WrongRecordFails(s, s', image, g);
    } else {
      NoReplay(db, q);
      NotAtomic(s', Refuses);
    }
  }

  lemma WrongRecordFails(s: State, s': State, image: Bytes, g: nat)
    requires s'.wal.File? && s'.wal.bytes != [] && IsWal(s'.wal.bytes, image, g) && Content(s'.db) == Content(s.db)
    requires s'.committed == s.committed && s'.pending == s.pending
    requires Stale(s.db, g) || !OldOrNew(s, Some(image))
    ensures !OpensWell(s')
  {
    hide IsWal, OpensWell, Stale;
    if Stale(s.db, g) {
      StaleContent(s'.db, s.db, g);
      forall other, h | IsWal(s'.wal.bytes, other, h)
        ensures Stale(s'.db, h)
      {
        WalUnique(s'.wal.bytes, image, g, other, h);
      }
      NotAtomic(s', Refuses);
    } else {
      if Stale(s'.db, g) { StaleContent(s.db, s'.db, g); }
      assert Replayable(s'.db, s'.wal.bytes);
      NotAtomic(s', Shows(Some(image)));
    }
  }

  lemma WithstandsIsNeeded(s: State) returns (s': State)
    requires Sound(s) && !Withstands(s)
    ensures PowerLoss(s, s') && !OpensWell(s')
  {
    hide Sound, OpensWell, LogCarries, DataWhole, LogMayTear, SyncedLogFits, PowerLoss;
    if !DataWhole(s) {
      s' := BrokenDataFails(s);
    } else if !SyncedLogFits(s) {
      s' := SyncedLogFails(s);
    } else {
      s' := TornLogFails(s);
    }
  }

  /** A power loss is harmless, whatever survives of it, exactly if the synced
      and named part of the two files withstands it. */
  lemma HarmlessExactly(s: State)
    requires Sound(s) && Aged(s)
    ensures (forall s' :: PowerLoss(s, s') ==> OpensWell(s')) <==> Withstands(s)
  {
    hide Sound, Aged, OpensWell, LogCarries, DataWhole, LogMayTear, SyncedLogFits, PowerLoss;
    if Withstands(s) {
      forall s' | PowerLoss(s, s') ensures OpensWell(s') {
        if LogCarries(s) { CarriedIsEnough(s, s'); } else { WholeIsEnough(s, s'); }
      }
    } else {
      var s' := WithstandsIsNeeded(s);
    }
  }

  // ----- stage by stage

  /** What has to be synced and named in each stage. */
  ghost predicate NeededIn(s: State) {
    match s.stage
    case Ready => Durable(s.db) && SyncedLogFits(s)
    case Logging(_, _, _) => LogCarries(s) || (Durable(s.db) && SyncedLogFits(s))
    case Logged(_, _) => Durable(s.wal) || (Durable(s.db) && SyncedLogFits(s))
    case Refused => Durable(s.db) && SyncedLogFits(s)
    case Truncated(_) => DataWhole(s) && SyncedLogFits(s)
    case Off => Withstands(s)
    case _ =>
      || Durable(s.wal)
      || (DataWhole(s) && SyncedLogFits(s) && (s.wal.synced == s.wal.bytes || Content(s.db) == s.committed))
  }

  lemma StageByStage(s: State)
    requires Sound(s)
    ensures Withstands(s) <==> NeededIn(s)
  {
    hide WalRecord, AtMost, IsWal, CleanPagesPresent, AppliedBelow, BufferOk, ImageDenotes, TaskOk, SyncedLogFits,
      IsRecord;
    match s.stage {
      case Off =>
      case Ready => if s.wal.File? { OldLogIsRecord(s.wal.bytes, s.committed); }
      case Refused => RefusedMayTear(s);
      case Logging(_, _, _) =>
        PendingNotEmpty(s);
        RunningRecord(s);
      case Logged(_, _) => RunningRecord(s);
      case Truncated(_) =>
        PendingNotEmpty(s);
        OldLogIsRecord(s.wal.bytes, s.committed);
      case _ => RunningRecord(s);
    }
  }

  lemma PendingNotEmpty(s: State)
    requires Sound(s)
    ensures s.pending.Some? ==> PendingLog(s.pending.value) != []
  {
    hide WalRecord, AtMost, IsWal, CleanPagesPresent, AppliedBelow, BufferOk, ImageDenotes, TaskOk;
    if s.pending.Some? { NoEmptyWal(s.pending.value.image, s.pending.value.generation); }
  }

  lemma RefusedMayTear(s: State)
    requires LeftPart(s) && InFlight(s)
    ensures !IsRecord(s.wal.bytes) && !LogCarries(s)
  {
    hide WalRecord, AtMost, IsWal;
    PartIsNoRecord(s);
    OldLogIsRecord(s.wal.bytes, s.committed);
  }

  lemma OldLogIsRecord(w: Bytes, committed: Option<Bytes>)
    ensures IsOldLog(w, committed) ==> IsRecord(w) && w != []
  {
    hide IsWal;
    if IsOldLog(w, committed) {
      OldLogNotEmpty(w, committed);
      var g :| IsWal(w, committed.value, g);
    }
  }

  /** In a running commit the log is a record as soon as it is whole. */
  lemma RunningRecord(s: State)
    requires Sound(s) && !s.stage.Off? && !s.stage.Ready? && !s.stage.Refused?
    ensures InProgress(s, s.stage.task) || IsOldLog(Record(s.stage.task), s.committed)
    ensures IsRecord(Record(s.stage.task)) && Record(s.stage.task) != []
  {
    hide WalRecord, AtMost, IsWal, CleanPagesPresent, AppliedBelow, BufferOk, ImageDenotes, TaskOk;
    TaskIsWal(s.stage.task);
    RecordNotEmpty(s.stage.task);
  }
}
