/** What kills and power losses together can leave: the invariant of runs that
    mix them. */
module MixedStates {
  import opened Ordering
  import opened Codec
  import opened PageCodec
  import opened ImageCodec
  import opened PageBuffer
  import opened Wal
  import opened CrashModel
  import opened CommitProtocol
  import opened Recovery

  ghost predicate IsRecord(w: Bytes) { exists image, g :: IsWal(w, image, g) }

  // ----- what can be left between two processes

  ghost predicate LeftEither(s: State) { LogEmpty(s.wal) && (ShowsOld(s) || ShowsNew(s)) }

  /** Part of a record, of the image in flight or of the committed one. */
  ghost predicate LeftPart(s: State) {
    && s.wal.File? && s.wal.bytes != [] && ShowsOld(s)
    && (|| (s.pending.Some? && s.wal.bytes < PendingLog(s.pending.value))
        || exists w :: IsOldLog(w, s.committed) && s.wal.bytes < w)
  }

  /** A log of the committed image; the database file may be torn or gone. */
  ghost predicate LeftCommittedLog(s: State) {
    s.wal.File? && s.committed.Some? && exists g :: IsWal(s.wal.bytes, s.committed.value, g) && FileAtMost(s.db, g)
  }

  /** The image in flight, or the committed one once more. */
  ghost predicate Brings(s: State, t: Task) {
    TaskOk(t) && s.wal.File? && (InProgress(s, t) || s.committed == Some(t.buffer.image))
  }

  ghost predicate Sound(s: State) {
    && InFlight(s)
    && match s.stage
       case Ready => LogEmpty(s.wal) && ShowsOld(s) && s.pending.None?
       case Off => LeftEither(s) || LeftPart(s) || LeftWholeLog(s) || LeftCommittedLog(s)
       case Refused => LeftPart(s)
       case Logging(t, _, n) =>
         && Brings(s, t) && InProgress(s, t) && n <= |Record(t)| && s.wal.bytes == Record(t)[..n] && ShowsOld(s)
         && Committable(s.db, t)
       case Logged(t, _) =>
         Brings(s, t) && InProgress(s, t) && s.wal.bytes == Record(t) && ShowsOld(s) && Committable(s.db, t)
       case Opening(t) => Brings(s, t) && s.wal.bytes == Record(t) && Committable(s.db, t)
       case Writing(t, _, next) =>
         && Brings(s, t) && s.wal.bytes == Record(t) && s.db.File? && AtMost(s.db.bytes, t.generation)
         && AppliedBelow(s.db.bytes, t.buffer, next)
       case DataSynced(t, _) => Brings(s, t) && s.wal.bytes == Record(t) && Applied(s, t)
       case Truncating(t) => Brings(s, t) && s.wal.bytes == Record(t) && Applied(s, t)
       case Truncated(t) => Brings(s, t) && s.wal.bytes == [] && Applied(s, t)
  }

  // ----- facts about records

  lemma TornIsNoRecord(w: WalImage, torn: Bytes)
    requires IsWal(PendingLog(w), w.image, w.generation) && torn < PendingLog(w)
    ensures !IsRecord(torn)
  {
    hide IsWal, WalRecord, LengthRejects;
    WalSized(PendingLog(w), w.image, w.generation);
    PrefixRejected(w.image, w.generation, |torn|);
    assert torn == PendingLog(w)[..|torn|];
    forall image, g ensures !IsWal(torn, image, g) { RejectedIsNoWal(torn, image, g); }
  }

  lemma RecordBytes(w: Bytes, image: Bytes, g: nat)
    requires IsWal(w, image, g)
    ensures w == PendingLog(WalImage(image, g))
  {
    hide WalRecord, ImageDenotes;
  }

  lemma PartIsNoRecord(s: State)
    requires LeftPart(s) && InFlight(s)
    ensures !IsRecord(s.wal.bytes)
  {
    hide IsWal, WalRecord, AtMost;
    if s.pending.Some? && s.wal.bytes < PendingLog(s.pending.value) {
      TornIsNoRecord(s.pending.value, s.wal.bytes);
    } else {
      var w :| IsOldLog(w, s.committed) && s.wal.bytes < w;
      var g :| IsWal(w, s.committed.value, g);
      RecordBytes(w, s.committed.value, g);
      TornIsNoRecord(WalImage(s.committed.value, g), s.wal.bytes);
    }
  }

  lemma WeakIsSound(s: State)
    requires Weak(s)
    ensures Sound(s)
  {
    hide WalRecord, AtMost, ImageDenotes, CleanPagesPresent, BufferOk, IsWal, AppliedBelow, TaskOk;
    if s.stage.Off? && LeftOldLog(s) {
      var g :| IsWal(s.wal.bytes, s.committed.value, g);
      RecordBytes(s.wal.bytes, s.committed.value, g);
      RecordAtMost(WalImage(s.committed.value, g));
    }
  }

  // ----- every step keeps it

  lemma LogStepsKeepSound(s: State, s': State)
    requires Sound(s) && (BeginCommit(s, s') || WriteLog(s, s') || SyncLog(s, s') || NameLog(s, s'))
    ensures Sound(s')
  {
    hide WalRecord, AtMost, ImageDenotes, CleanPagesPresent, BufferOk, IsWal, AppliedBelow;
    if BeginCommit(s, s') {
      var t := s'.stage.task;
      TaskIsWal(t);
      assert s'.wal.bytes == [] == Record(t)[..0];
    }
  }

  lemma SizeKeepsSound(s: State, s': State)
    requires Sound(s) && SizeData(s, s')
    ensures Sound(s')
  {
    hide WalRecord, AtMost, ImageDenotes, CleanPagesPresent, BufferOk, IsWal, AppliedBelow, Resized;
    var t := s.stage.task;
    TaskAtMost(t);
    EmptyAtMost(t.generation);
    ResizedAtMost(Contents(s.db), t.generation, |t.buffer.image|);
    ResizedApplies(Contents(s.db), t.buffer);
  }

  lemma WriteKeepsSound(s: State, s': State)
    requires Sound(s) && WriteData(s, s')
    ensures Sound(s')
  {
    hide WalRecord, AtMost, ImageDenotes, BufferOk, IsWal, WithPage;
    var t, p := s.stage.task, s'.stage.next - 1;
    TaskAtMost(t);
    WholePiece(s.db.bytes, p, t.buffer.image);
    PieceAtMost(s.db.bytes, p, PAGE_SIZE, t.buffer.image);
    assert AppliedBelow(s.db.bytes, t.buffer, p);
    PageApplied(s.db.bytes, t.buffer, p);
  }

  lemma PieceKeepsSound(s: State, s': State)
    requires Sound(s) && WritePiece(s, s')
    ensures Sound(s')
  {
    hide WalRecord, AtMost, ImageDenotes, BufferOk, IsWal, Piece;
    var t := s.stage.task;
    var p: nat, n: nat :| PieceOf(s, p, n) && s' == s.(db := s.db.(bytes := Piece(s.db.bytes, p, n, t.buffer.image)));
    TaskAtMost(t);
    PieceAtMost(s.db.bytes, p, n, t.buffer.image);
    PieceApplies(s.db.bytes, t.buffer, s.stage.next, p, n);
  }

  lemma SyncKeepsSound(s: State, s': State)
    requires Sound(s) && SyncData(s, s')
    ensures Sound(s')
  {
    hide WalRecord, AtMost, ImageDenotes, IsWal;
    var t := s.stage.task;
    assert AppliedBelow(s.db.bytes, t.buffer, PageCount(t.buffer.image));
    AllApplied(s.db.bytes, t.buffer);
  }

  lemma EndStepsKeepSound(s: State, s': State)
    requires Sound(s) && (NameData(s, s') || TruncateLog(s, s') || Finish(s, s') || NextCall(s, s'))
    ensures Sound(s')
  {
    hide WalRecord, AtMost, ImageDenotes, CleanPagesPresent, BufferOk, IsWal, AppliedBelow;
  }

  /** The log that is replayed. */
  lemma ReplayBrings(s: State, t: Task)
    requires Sound(s) && s.stage.Off? && !LogEmpty(s.wal) && IsWal(s.wal.bytes, t.buffer.image, t.generation)
    ensures s.wal.bytes == Record(t) && FileAtMost(s.db, t.generation)
    ensures InProgress(s, t) || s.committed == Some(t.buffer.image)
  {
    hide WalRecord, AtMost, ImageDenotes, CleanPagesPresent, BufferOk, IsWal, IsOldLog;
    RecordIs(s.wal.bytes, t);
    if LeftPart(s) {
      PartIsNoRecord(s);
    } else if LeftWholeLog(s) {
      ReplayIsPending(s, t);
    } else {
      var g :| IsWal(s.wal.bytes, s.committed.value, g) && FileAtMost(s.db, g);
      WalUnique(s.wal.bytes, t.buffer.image, t.generation, s.committed.value, g);
    }
  }

  lemma NotStale(db: File, g: nat)
    requires FileAtMost(db, g)
    ensures !Stale(db, g)
  {
    hide AtMost, ImageDenotes;
    forall t | db.File? && ImageDenotes(db.bytes, t) ensures t.generation <= g { AtMostBounds(db.bytes, g, t); }
  }

  lemma RefusedIsPart(s: State)
    requires Sound(s) && s.stage.Off? && !LogEmpty(s.wal)
    requires forall image, g :: IsWal(s.wal.bytes, image, g) ==> Stale(s.db, g)
    ensures LeftPart(s)
  {
    hide WalRecord, AtMost, IsWal, Stale;
    if LeftWholeLog(s) {
      NotStale(s.db, s.pending.value.generation);
    } else if LeftCommittedLog(s) {
      var g :| IsWal(s.wal.bytes, s.committed.value, g) && FileAtMost(s.db, g);
      NotStale(s.db, g);
    }
  }

  lemma RecoverKeepsSound(s: State, s': State)
    requires Sound(s) && (RecoverNothing(s, s') || RecoverReplay(s, s') || RecoverRefuse(s, s'))
    ensures Sound(s')
  {
    hide WalRecord, AtMost, ImageDenotes, CleanPagesPresent, BufferOk, IsWal, AppliedBelow, Stale, TaskOk, IsOldLog;
    if RecoverReplay(s, s') {
      var t := s'.stage.task;
      ReplayTask(s.wal.bytes, t);
      ReplayBrings(s, t);
    } else if RecoverRefuse(s, s') {
      RefusedIsPart(s);
    }
  }

  lemma StepKeepsSound(s: State, s': State)
    requires Sound(s) && Works(s, s')
    ensures Sound(s')
  {
    hide Sound, BeginCommit, WriteLog, SyncLog, NameLog, SizeData, WriteData, WritePiece, SyncData, NameData,
      TruncateLog, Finish, RecoverNothing, RecoverReplay, RecoverRefuse, NextCall;
    if BeginCommit(s, s') || WriteLog(s, s') || SyncLog(s, s') || NameLog(s, s') { LogStepsKeepSound(s, s'); }
    if SizeData(s, s') { SizeKeepsSound(s, s'); }
    if WriteData(s, s') { WriteKeepsSound(s, s'); }
    if WritePiece(s, s') { PieceKeepsSound(s, s'); }
    if SyncData(s, s') { SyncKeepsSound(s, s'); }
    if NameData(s, s') || TruncateLog(s, s') || Finish(s, s') || NextCall(s, s') { EndStepsKeepSound(s, s'); }
    if RecoverNothing(s, s') || RecoverReplay(s, s') || RecoverRefuse(s, s') { RecoverKeepsSound(s, s'); }
  }

  lemma KillKeepsSound(s: State, s': State)
    requires Sound(s) && Kill(s, s')
    ensures Sound(s')
  {
    hide WalRecord, AtMost, ImageDenotes, CleanPagesPresent, BufferOk, IsWal, AppliedBelow, Resized, WithPage;
    if !s.stage.Off? && !s.stage.Ready? && !s.stage.Refused? {
      TaskAtMost(s.stage.task);
      TaskIsWal(s.stage.task);
    }
  }
}
