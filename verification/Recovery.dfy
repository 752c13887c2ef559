/** What every step of the commit and recovery protocol keeps, and what a
    crash at any point leaves to the next open. */
module Recovery {
  import opened Ordering
  import opened Codec
  import opened PageCodec
  import opened IndexGrowth
  import opened TableImage
  import opened ImageCodec
  import opened PageBuffer
  import opened Wal
  import opened CrashModel
  import opened CommitProtocol

  ghost predicate ShowsOld(s: State) {
    if s.committed.None? then s.db.Missing? else s.db.File? && s.db.bytes == s.committed.value
  }

  ghost predicate ShowsNew(s: State) { s.pending.Some? && s.db.File? && s.db.bytes == s.pending.value.image }

  function PendingLog(w: WalImage): Bytes { WalRecord(w.image, w.generation) }

  /** The record in flight is one that `parse_wal` accepts, and the file it
      replaces is not later. */
  ghost predicate InFlight(s: State) {
    s.pending.Some? ==>
      var w := s.pending.value;
      && IsWal(PendingLog(w), w.image, w.generation)
      && (s.committed.Some? ==> AtMost(s.committed.value, w.generation))
  }

  // ----- the five things a crash can leave

  ghost predicate LeftOld(s: State) { LogEmpty(s.wal) && ShowsOld(s) && !s.touched }

  ghost predicate LeftNew(s: State) { LogEmpty(s.wal) && ShowsNew(s) }

  /** A torn log in front of an untouched database. */
  ghost predicate LeftTornLog(s: State) {
    && s.pending.Some? && s.wal.File? && s.wal.bytes != [] && s.wal.bytes < PendingLog(s.pending.value)
    && ShowsOld(s) && !s.touched
  }

  /** A whole log; the database file may be torn. */
  ghost predicate LeftWholeLog(s: State) {
    && s.pending.Some? && s.wal.File? && s.wal.bytes == PendingLog(s.pending.value)
    && FileAtMost(s.db, s.pending.value.generation)
  }

  ghost predicate IsOldLog(w: Bytes, committed: Option<Bytes>) {
    committed.Some? && exists g :: IsWal(w, committed.value, g)
  }

  /** The log of the last commit, back because its removal was never synced. */
  ghost predicate LeftOldLog(s: State) {
    s.wal.File? && IsOldLog(s.wal.bytes, s.committed) && ShowsOld(s) && !s.touched
  }

  /** The image the next open shows is `image`. */
  ghost predicate WillShow(s: State, image: Bytes) {
    || (LogEmpty(s.wal) && s.db.File? && s.db.bytes == image)
    || (LeftWholeLog(s) && s.pending.value.image == image)
    || (!LeftWholeLog(s) && LeftOldLog(s) && s.committed.value == image)
  }

  // ----- what the files hold now

  /** The committed image is written once more. */
  ghost predicate Repeats(s: State, t: Task) { s.committed == Some(t.buffer.image) && ShowsOld(s) && !s.touched }

  ghost predicate Carries(s: State, t: Task) { TaskOk(t) && s.wal.File? && (InProgress(s, t) || Repeats(s, t)) }

  ghost predicate Applied(s: State, t: Task) { s.db.File? && s.db.bytes == t.buffer.image }

  ghost predicate Weak(s: State) {
    && InFlight(s)
    && match s.stage
       case Ready => LogEmpty(s.wal) && ShowsOld(s) && !s.touched && s.pending.None?
       case Off => LeftOld(s) || LeftNew(s) || LeftTornLog(s) || LeftWholeLog(s) || LeftOldLog(s)
       case Refused => LeftTornLog(s)
       case Logging(t, _, n) =>
         && Carries(s, t) && InProgress(s, t) && n <= |Record(t)| && s.wal.bytes == Record(t)[..n] && ShowsOld(s)
         && !s.touched && Committable(s.db, t)
       case Logged(t, _) =>
         && Carries(s, t) && InProgress(s, t) && s.wal.bytes == Record(t) && ShowsOld(s) && !s.touched
         && Committable(s.db, t)
       case Opening(t) =>
         && Carries(s, t) && s.wal.bytes == Record(t) && Committable(s.db, t)
       case Writing(t, _, next) =>
         && Carries(s, t) && s.wal.bytes == Record(t) && s.db.File? && AtMost(s.db.bytes, t.generation)
         && AppliedBelow(s.db.bytes, t.buffer, next)
       case DataSynced(t, _) => Carries(s, t) && s.wal.bytes == Record(t) && Applied(s, t)
       case Truncating(t) => Carries(s, t) && s.wal.bytes == Record(t) && Applied(s, t)
       case Truncated(t) => Carries(s, t) && s.wal.bytes == [] && Applied(s, t)
  }

  // ----- what the files hold after a power loss

  /** The durable log is empty or that of the last commit. */
  ghost predicate NothingNewSynced(s: State) {
    s.wal.File? ==> s.wal.synced == [] || IsOldLog(s.wal.synced, s.committed)
  }

  /** An emptied log whose removal was not synced holds what the file shows. */
  ghost predicate EmptiedLogFits(s: State)
    requires s.wal.File?
  {
    || s.wal.synced == [] || (LeftOld(s) && IsOldLog(s.wal.synced, s.committed))
    || (ShowsNew(s) && s.wal.synced == PendingLog(s.pending.value))
  }

  ghost predicate SafeOff(s: State) {
    if LogEmpty(s.wal) then
      Durable(s.db) && (s.wal.File? ==> s.wal.named && EmptiedLogFits(s))
    else if LeftTornLog(s) then
      Durable(s.db) && (s.wal.synced == s.wal.bytes || NothingNewSynced(s))
    else
      Durable(s.wal) && (Durable(s.db) || (LeftWholeLog(s) && SafeData(s.db, s.pending.value.generation)))
  }

  /** The database file will not vanish, and none of it is later than the log. */
  ghost predicate SafeData(db: File, g: nat) { db.File? ==> db.named && SurvivesAtMost(db.synced, db.bytes, g) }

  ghost predicate Safe(s: State) {
    match s.stage
    case Ready => Durable(s.db) && (s.wal.File? ==> s.wal.named) && NothingNewSynced(s)
    case Off => SafeOff(s)
    case Refused => SafeOff(s)
    case Logging(_, first, _) => Durable(s.db) && s.wal.File? && NothingNewSynced(s) && (first || s.wal.named)
    case Logged(_, first) => Durable(s.db) && s.wal.File? && s.wal.synced == s.wal.bytes && (first || s.wal.named)
    case Opening(t) => Durable(s.wal) && (Durable(s.db) || (InProgress(s, t) && SafeData(s.db, t.generation)))
    case Writing(t, first, _) =>
      && Durable(s.wal) && s.db.File? && (first || s.db.named) && SurvivesAtMost(s.db.synced, s.db.bytes, t.generation)
      && (Durable(s.db) || InProgress(s, t))
    case DataSynced(t, first) =>
      Durable(s.wal) && s.db.File? && s.db.synced == s.db.bytes && (s.db.named || (first && InProgress(s, t)))
    case Truncating(_) => Durable(s.wal) && Durable(s.db)
    case Truncated(t) => Durable(s.db) && s.wal.File? && s.wal.named && s.wal.synced == Record(t)
  }

  /** Where a killed process leaves files that a later power loss can ruin:
      the whole log written and not synced, the log created and not named, the
      database created and not named. */
  ghost predicate Exposed(stage: Stage) {
    match stage
    case Logging(t, first, n) => n == |Record(t)| || (first && n == 0)
    case Logged(_, first) => first
    case Writing(_, first, _) => first
    case DataSynced(_, first) => first
    case _ => false
  }

  // ----- facts about images

  lemma TaskIsWal(t: Task)
    requires TaskOk(t)
    ensures IsWal(Record(t), t.buffer.image, t.generation)
  {
    hide WalRecord, ImageDenotes;
  }

  lemma TaskAtMost(t: Task)
    requires TaskOk(t)
    ensures AtMost(t.buffer.image, t.generation) && |t.buffer.image| % PAGE_SIZE == 0
    ensures Age(t.buffer.image) == t.generation && |t.buffer.image| >= PAGE_SIZE
  {
    hide ImageDenotes, Age;
    var table :| ImageDenotes(t.buffer.image, table) && table.generation == t.generation;
    ImageClaims(t.buffer.image, table);
  }

  lemma EmptyAtMost(g: nat)
    ensures AtMost([], g)
  {
    ZeroAge();
  }

  /** A log that `parse_wal` accepts gives a task that replays it. */
  lemma ReplayTask(w: Bytes, t: Task)
    requires IsWal(w, t.buffer.image, t.generation) && t.buffer == Everything(t.buffer.image)
    ensures TaskOk(t)
    ensures forall file :: CleanPagesPresent(file, t.buffer)
  {
    hide WalRecord, StreamsDenote, IndexesDenote, Partition, FieldsOk, SuperDenotes, ImageOf;
    var table :| ImageDenotes(t.buffer.image, table) && table.generation == t.generation;
    var pages: seq<Page>, l: Layout :| pages != [] && Stores(t.buffer.image, pages) && Denotes(pages, l, table);
    StoredSize(t.buffer.image, pages);
    assert 0 in Range(0, PageCount(t.buffer.image));
  }

  /** A replayed log is the one in flight. */
  lemma ReplayIsPending(s: State, t: Task)
    requires LeftWholeLog(s) && InFlight(s) && IsWal(s.wal.bytes, t.buffer.image, t.generation)
    ensures s.pending == Some(WalImage(t.buffer.image, t.generation)) && s.wal.bytes == Record(t)
  {
    hide WalRecord, AtMost;
    WalUnique(s.wal.bytes, t.buffer.image, t.generation, s.pending.value.image, s.pending.value.generation);
  }

  lemma WalSized(w: Bytes, image: Bytes, g: nat)
    requires IsWal(w, image, g)
    ensures |image| < U64 && g < U64
  {
  }

  lemma TornIsNoWal(s: State, image: Bytes, g: nat)
    requires LeftTornLog(s) && InFlight(s)
    ensures !IsWal(s.wal.bytes, image, g)
  {
    hide WalRecord, LengthRejects, AtMost, IsWal;
    var w := s.pending.value;
    WalSized(PendingLog(w), w.image, w.generation);
    PrefixRejected(w.image, w.generation, |s.wal.bytes|);
    assert s.wal.bytes == PendingLog(w)[..|s.wal.bytes|];
    RejectedIsNoWal(s.wal.bytes, image, g);
  }

  /** Recovery never takes a log that a crash left for a stale one. */
  lemma NeverStale(s: State, image: Bytes, g: nat)
    requires Weak(s) && s.stage.Off? && s.wal.File? && IsWal(s.wal.bytes, image, g)
    ensures !Stale(s.db, g)
  {
    hide WalRecord, AtMost, ImageDenotes, LengthRejects;
    NoEmptyWal(image, g);
    if LeftTornLog(s) {
      TornIsNoWal(s, image, g);
    } else if LeftOldLog(s) {
      OldLogIsOld(s, image, g);
      forall t | s.db.File? && ImageDenotes(s.db.bytes, t) ensures t.generation <= g { AtMostBounds(s.db.bytes, g, t); }
    } else if LeftWholeLog(s) {
      WalUnique(s.wal.bytes, image, g, s.pending.value.image, s.pending.value.generation);
      forall t | s.db.File? && ImageDenotes(s.db.bytes, t) ensures t.generation <= g { AtMostBounds(s.db.bytes, g, t); }
    }
  }

  lemma NoEmptyWal(image: Bytes, g: nat)
    ensures !IsWal([], image, g)
  {
    RejectedIsNoWal([], image, g);
  }

  /** The log of the last commit holds the committed image. */
  lemma OldLogIsOld(s: State, image: Bytes, g: nat)
    requires s.wal.File? && IsOldLog(s.wal.bytes, s.committed) && IsWal(s.wal.bytes, image, g)
    ensures s.committed == Some(image) && AtMost(image, g) && |image| >= PAGE_SIZE
  {
    hide WalRecord, AtMost, ImageDenotes;
    var h :| IsWal(s.wal.bytes, s.committed.value, h);
    WalUnique(s.wal.bytes, image, g, s.committed.value, h);
    var t :| ImageDenotes(image, t) && t.generation == g;
    ImageAtMost(image, t, g);
  }

  // ----- every step keeps it

  lemma LogStepsKeepWeak(s: State, s': State)
    requires Weak(s) && (BeginCommit(s, s') || WriteLog(s, s') || SyncLog(s, s') || NameLog(s, s'))
    ensures Weak(s')
  {
    hide WalRecord, AtMost, ImageDenotes, CleanPagesPresent, BufferOk, IsWal, AppliedBelow;
    if BeginCommit(s, s') {
      var t := s'.stage.task;
      TaskIsWal(t);
      assert s'.wal.bytes == [] == Record(t)[..0];
    }
  }

  lemma SizeKeepsWeak(s: State, s': State)
    requires Weak(s) && SizeData(s, s')
    ensures Weak(s')
  {
    hide WalRecord, AtMost, ImageDenotes, CleanPagesPresent, BufferOk, IsWal, AppliedBelow, Resized;
    var t := s.stage.task;
    TaskAtMost(t);
    EmptyAtMost(t.generation);
    ResizedAtMost(Contents(s.db), t.generation, |t.buffer.image|);
    ResizedApplies(Contents(s.db), t.buffer);
    if s.db.File? { NothingToWrite(s.db.bytes); }
  }

  lemma WriteKeepsWeak(s: State, s': State)
    requires Weak(s) && WriteData(s, s')
    ensures Weak(s')
  {
    hide WalRecord, AtMost, ImageDenotes, BufferOk, IsWal, WithPage;
    var t, p := s.stage.task, s'.stage.next - 1;
    TaskAtMost(t);
    WholePiece(s.db.bytes, p, t.buffer.image);
    PieceAtMost(s.db.bytes, p, PAGE_SIZE, t.buffer.image);
    assert AppliedBelow(s.db.bytes, t.buffer, p);
    PageApplied(s.db.bytes, t.buffer, p);
    NothingToWrite(s.db.bytes);
  }

  lemma PieceKeepsWeak(s: State, s': State)
    requires Weak(s) && WritePiece(s, s')
    ensures Weak(s')
  {
    hide WalRecord, AtMost, ImageDenotes, BufferOk, IsWal, Piece;
    var t := s.stage.task;
    var p: nat, n: nat :| PieceOf(s, p, n) && s' == s.(db := s.db.(bytes := Piece(s.db.bytes, p, n, t.buffer.image)));
    TaskAtMost(t);
    PieceAtMost(s.db.bytes, p, n, t.buffer.image);
    PieceApplies(s.db.bytes, t.buffer, s.stage.next, p, n);
    NothingToPiece(s.db.bytes);
  }

  lemma SyncKeepsWeak(s: State, s': State)
    requires Weak(s) && SyncData(s, s')
    ensures Weak(s')
  {
    hide WalRecord, AtMost, ImageDenotes, IsWal;
    var t := s.stage.task;
    assert AppliedBelow(s.db.bytes, t.buffer, PageCount(t.buffer.image));
    AllApplied(s.db.bytes, t.buffer);
  }

  lemma EndStepsKeepWeak(s: State, s': State)
    requires Weak(s) && (NameData(s, s') || TruncateLog(s, s') || Finish(s, s') || NextCall(s, s'))
    ensures Weak(s')
  {
    hide WalRecord, AtMost, ImageDenotes, CleanPagesPresent, BufferOk, IsWal, AppliedBelow;
  }

  lemma RecoverKeepsWeak(s: State, s': State)
    requires Weak(s) && (RecoverNothing(s, s') || RecoverReplay(s, s') || RecoverRefuse(s, s'))
    ensures Weak(s')
  {
    hide WalRecord, AtMost, ImageDenotes, CleanPagesPresent, BufferOk, IsWal, AppliedBelow, Stale, TaskOk, IsOldLog;
    if RecoverNothing(s, s') {
      if LeftOldLog(s) { OldLogNotEmpty(s.wal.bytes, s.committed); }
    } else if RecoverReplay(s, s') {
      ReplayCarries(s, s'.stage.task);
    } else {
      RefusedIsTorn(s);
    }
  }

  lemma OldLogNotEmpty(w: Bytes, committed: Option<Bytes>)
    requires IsOldLog(w, committed)
    ensures w != []
  {
    hide IsWal;
    var g :| IsWal(w, committed.value, g);
    NoEmptyWal(committed.value, g);
  }

  /** What a replayed log is: the one in flight or that of the last commit. */
  lemma ReplayCarries(s: State, t: Task)
    requires Weak(s) && s.stage.Off? && !LogEmpty(s.wal) && IsWal(s.wal.bytes, t.buffer.image, t.generation)
    requires t.buffer == Everything(t.buffer.image)
    ensures TaskOk(t) && Committable(s.db, t) && s.wal.bytes == Record(t)
    ensures (LeftWholeLog(s) && InProgress(s, t)) || (LeftOldLog(s) && Repeats(s, t))
    ensures LeftWholeLog(s) ==> InProgress(s, t)
  {
    hide WalRecord, AtMost, ImageDenotes, CleanPagesPresent, BufferOk, IsWal, TaskOk, IsOldLog;
    RecordIs(s.wal.bytes, t);
    ReplayTask(s.wal.bytes, t);
    if LeftTornLog(s) {
      TornIsNoWal(s, t.buffer.image, t.generation);
    } else if LeftWholeLog(s) {
      ReplayIsPending(s, t);
    } else {
      OldLogIsOld(s, t.buffer.image, t.generation);
    }
  }

  lemma RecordIs(w: Bytes, t: Task)
    requires IsWal(w, t.buffer.image, t.generation)
    ensures w == Record(t)
  {
    hide WalRecord, ImageDenotes;
  }

  lemma RefusedIsTorn(s: State)
    requires Weak(s) && s.stage.Off? && !LogEmpty(s.wal)
    requires forall image, g :: IsWal(s.wal.bytes, image, g) ==> Stale(s.db, g)
    ensures LeftTornLog(s)
  {
    hide WalRecord, AtMost, IsWal, Stale;
    if LeftWholeLog(s) {
      NeverStale(s, s.pending.value.image, s.pending.value.generation);
    } else if LeftOldLog(s) {
      var g :| IsWal(s.wal.bytes, s.committed.value, g);
      NeverStale(s, s.committed.value, g);
    }
  }

  lemma StepKeepsWeak(s: State, s': State)
    requires Weak(s) && Works(s, s')
    ensures Weak(s')
  {
    hide Weak, BeginCommit, WriteLog, SyncLog, NameLog, SizeData, WriteData, WritePiece, SyncData, NameData,
      TruncateLog, Finish, RecoverNothing, RecoverReplay, RecoverRefuse, NextCall;
    if BeginCommit(s, s') || WriteLog(s, s') || SyncLog(s, s') || NameLog(s, s') { LogStepsKeepWeak(s, s'); }
    if SizeData(s, s') { SizeKeepsWeak(s, s'); }
    if WriteData(s, s') { WriteKeepsWeak(s, s'); }
    if WritePiece(s, s') { PieceKeepsWeak(s, s'); }
    if SyncData(s, s') { SyncKeepsWeak(s, s'); }
    if NameData(s, s') || TruncateLog(s, s') || Finish(s, s') || NextCall(s, s') { EndStepsKeepWeak(s, s'); }
    if RecoverNothing(s, s') || RecoverReplay(s, s') || RecoverRefuse(s, s') { RecoverKeepsWeak(s, s'); }
  }

  lemma StepKeepsSafe(s: State, s': State)
    requires Weak(s) && Safe(s) && Works(s, s')
    ensures Safe(s')
  {
    hide WalRecord, AtMost, ImageDenotes, CleanPagesPresent, BufferOk, IsWal, AppliedBelow, Stale, Resized, WithPage,
      TaskOk, IsOldLog;
    if RecoverNothing(s, s') {
      NothingKeepsSafe(s, s');
    } else if RecoverReplay(s, s') {
      ReplayKeepsSafe(s, s');
    } else if SizeData(s, s') || WriteData(s, s') || WritePiece(s, s') {
      DataKeepsSafe(s, s');
    } else if Finish(s, s') || NextCall(s, s') || RecoverRefuse(s, s') {
      EndKeepsSafe(s, s');
    }
  }

  lemma DataKeepsSafe(s: State, s': State)
    requires Weak(s) && Safe(s) && (SizeData(s, s') || WriteData(s, s') || WritePiece(s, s'))
    ensures Safe(s')
  {
    hide WalRecord, AtMost, ImageDenotes, CleanPagesPresent, BufferOk, IsWal, AppliedBelow, Resized, WithPage, TaskOk,
      IsOldLog, SurvivesAtMost, Piece;
    if s.db.File? { SafeSurvives(s); }
    DataSurvives(s, s');
    if s.db.File? {
      NothingToWrite(s.db.bytes);
      NothingToPiece(s.db.bytes);
    }
  }

  /** While an image is applied, what a power loss can leave is not later. */
  lemma SafeSurvives(s: State)
    requires Weak(s) && Safe(s) && s.db.File?
    requires s.stage.Opening? || s.stage.Writing? || s.stage.DataSynced? || s.stage.Truncating? || s.stage.Truncated?
    ensures SurvivesAtMost(s.db.synced, s.db.bytes, s.stage.task.generation)
  {
    hide WalRecord, AtMost, ImageDenotes, CleanPagesPresent, BufferOk, IsWal, AppliedBelow, TaskOk, IsOldLog,
      SurvivesAtMost;
    var t := s.stage.task;
    TaskAtMost(t);
    SettledAtMost(s.db.bytes, t.generation);
  }

  /** Writing pages keeps what a power loss can leave within the image's age. */
  lemma DataSurvives(s: State, s': State)
    requires (SizeData(s, s') || WriteData(s, s') || WritePiece(s, s')) && TaskOk(s.stage.task)
    requires s.db.File? ==> SurvivesAtMost(s.db.synced, s.db.bytes, s.stage.task.generation)
    ensures SurvivesAtMost(s'.db.synced, s'.db.bytes, s.stage.task.generation)
  {
    hide TaskOk, SurvivesAtMost, Age, Resized, Piece, WithPage;
    var t := s.stage.task;
    TaskAtMost(t);
    if SizeData(s, s') {
      EmptyAtMost(t.generation);
      SettledAtMost([], t.generation);
      ResizedSurvives(if s.db.File? then s.db.synced else [], Contents(s.db), t.generation, |t.buffer.image|);
    } else if WriteData(s, s') {
      var p := s'.stage.next - 1;
      WholePiece(s.db.bytes, p, t.buffer.image);
      PieceSurvives(s.db.synced, s.db.bytes, p, PAGE_SIZE, t.buffer.image);
    } else {
      var p: nat, n: nat :| PieceOf(s, p, n) && s' == s.(db := s.db.(bytes := Piece(s.db.bytes, p, n, t.buffer.image)));
      PieceSurvives(s.db.synced, s.db.bytes, p, n, t.buffer.image);
    }
  }

  lemma NothingKeepsSafe(s: State, s': State)
    requires Weak(s) && Safe(s) && RecoverNothing(s, s')
    ensures Safe(s')
  {
    hide WalRecord, AtMost, IsWal;
    if LeftOldLog(s) { OldLogNotEmpty(s.wal.bytes, s.committed); }
    if s.pending.Some? { assert IsWal(PendingLog(s.pending.value), s.pending.value.image, s.pending.value.generation); }
  }

  lemma ReplayKeepsSafe(s: State, s': State)
    requires Weak(s) && Safe(s) && RecoverReplay(s, s')
    ensures Safe(s')
  {
    hide WalRecord, AtMost, IsWal, Stale, IsOldLog, Committable, TaskOk, Weak;
    ReplayCarries(s, s'.stage.task);
    if LeftTornLog(s) {
      WeakInFlight(s);
      TornIsNoWal(s, s'.stage.task.buffer.image, s'.stage.task.generation);
    }
  }

  lemma WeakInFlight(s: State)
    requires Weak(s)
    ensures InFlight(s)
  {
    hide WalRecord, AtMost, IsWal;
  }

  lemma EndKeepsSafe(s: State, s': State)
    requires Weak(s) && Safe(s) && (Finish(s, s') || NextCall(s, s') || RecoverRefuse(s, s'))
    ensures Safe(s')
  {
    hide WalRecord, AtMost, IsWal, Stale, IsOldLog;
  }

  /** A killed process leaves one of the five. */
  lemma KillKeepsWeak(s: State, s': State)
    requires Weak(s) && Kill(s, s')
    ensures Weak(s')
  {
    hide WalRecord, AtMost, ImageDenotes, CleanPagesPresent, BufferOk, IsWal, AppliedBelow, Resized, WithPage;
    if !s.stage.Off? && !s.stage.Ready? && !s.stage.Refused? {
      TaskAtMost(s.stage.task);
      TaskIsWal(s.stage.task);
    }
  }

  /** Outside the exposed stages it leaves durable what has to be. */
  lemma KillKeepsSafe(s: State, s': State)
    requires Weak(s) && Safe(s) && Kill(s, s') && !Exposed(s.stage)
    ensures Safe(s')
  {
    hide WalRecord, AtMost, ImageDenotes, CleanPagesPresent, BufferOk, IsWal, AppliedBelow;
    if !s.stage.Off? && !s.stage.Ready? && !s.stage.Refused? {
      TaskAtMost(s.stage.task);
      TaskIsWal(s.stage.task);
      RecordNotEmpty(s.stage.task);
    }
  }

  lemma RecordNotEmpty(t: Task)
    requires TaskOk(t)
    ensures Record(t) != []
  {
    hide IsWal, TaskOk;
    TaskIsWal(t);
    NoEmptyWal(t.buffer.image, t.generation);
  }

  /** So does a power loss, as long as what has to be durable is. */
  lemma PowerLossKeeps(s: State, s': State)
    requires Weak(s) && Safe(s) && PowerLoss(s, s')
    ensures Weak(s') && Safe(s')
  {
    hide Weak, Safe, PowerLoss;
    match s.stage {
      case Ready => LossAtRest(s, s');
      case Off => LossAtRest(s, s');
      case Refused => LossAtRest(s, s');
      case Logging(_, _, _) => LossWhileLogging(s, s');
      case Logged(_, _) => LossWhileLogging(s, s');
      case _ => LossWhileApplying(s, s');
    }
  }

  lemma LossAtRest(s: State, s': State)
    requires Weak(s) && Safe(s) && PowerLoss(s, s') && (s.stage.Ready? || s.stage.Off? || s.stage.Refused?)
    ensures Weak(s') && Safe(s')
  {
    hide WalRecord, AtMost, IsWal, PagesSurvive, IsOldLog;
    SyncedSurvives(s.db, s'.db);
    if s.pending.Some? { RecordAtMost(s.pending.value); }
    if s.db.File? && s'.db.File? && s.pending.Some? && LeftWholeLog(s) && !Durable(s.db) {
      SurvivorAtMost(s.db.synced, s.db.bytes, s'.db.bytes, s.pending.value.generation);
    }
  }

  lemma RecordAtMost(w: WalImage)
    requires IsWal(PendingLog(w), w.image, w.generation)
    ensures AtMost(w.image, w.generation)
  {
    hide WalRecord, AtMost, ImageDenotes;
    var t :| ImageDenotes(w.image, t) && t.generation == w.generation;
    ImageAtMost(w.image, t, w.generation);
  }

  lemma LossWhileLogging(s: State, s': State)
    requires Weak(s) && Safe(s) && PowerLoss(s, s') && (s.stage.Logging? || s.stage.Logged?)
    ensures Weak(s') && Safe(s')
  {
    hide WalRecord, AtMost, IsWal, PagesSurvive, IsOldLog, TaskOk, CleanPagesPresent;
    SyncedSurvives(s.db, s'.db);
  }

  lemma LossWhileApplying(s: State, s': State)
    requires Weak(s) && Safe(s) && PowerLoss(s, s')
    requires s.stage.Opening? || s.stage.Writing? || s.stage.DataSynced? || s.stage.Truncating? || s.stage.Truncated?
    ensures Weak(s') && Safe(s')
  {
    hide WalRecord, AtMost, IsWal, PagesSurvive, TaskOk, CleanPagesPresent, AppliedBelow;
    var t := s.stage.task;
    SyncedSurvives(s.db, s'.db);
    TaskAtMost(t);
    TaskIsWal(t);
    if s.db.File? && s'.db.File? {
      SafeSurvives(s);
      SurvivorAtMost(s.db.synced, s.db.bytes, s'.db.bytes, t.generation);
      SettledAtMost(s'.db.bytes, t.generation);
    }
  }

  lemma SyncedSurvives(f: File, f': File)
    requires PagesLoss(f, f')
    ensures f.Missing? ==> f' == Missing
    ensures f.File? && f.synced == f.bytes && f'.File? ==> f'.bytes == f.bytes
    ensures f.File? && f.named ==> f'.File?
    ensures f'.File? ==> f' == Settled(f'.bytes)
  {
  }
}
