/** Runs of steps, kills and power losses that the files withstood: what they
    keep, what the next open shows, and when exactly the next power loss is
    harmless. */
module WithstoodRuns {
  import opened Ordering
  import opened Codec
  import opened ImageCodec
  import opened PageBuffer
  import opened Wal
  import opened CrashModel
  import opened CommitProtocol
  import opened Recovery
  import opened MixedStates
  import opened CrashRuns
  import opened PowerLosses

  // ----- what such runs know of the durable bytes

  /** Unsynced pages stand behind a whole record; nothing that can survive of the
      database is later than the image in flight or the log; the synced log is
      empty, a record, or the current one of a stopped process. */
  ghost predicate Tracked(s: State) {
    && (s.db.File? && s.db.synced != s.db.bytes ==>
          (s.stage.Off? || s.stage.Opening? || s.stage.Writing?) && s.wal.File? && IsRecord(s.wal.bytes))
    && (s.db.File? && s.pending.Some? ==> SurvivesAtMost(s.db.synced, s.db.bytes, s.pending.value.generation))
    && Aged(s)
    && (s.wal.File? ==>
          || s.wal.synced == []
          || IsRecord(s.wal.synced)
          || (s.wal.synced == s.wal.bytes && (s.stage.Off? || s.stage.Refused?)))
  }

  lemma LaterSurvives(f: File, g: nat, h: nat)
    requires f.File? && SurvivesAtMost(f.synced, f.bytes, g) && g <= h
    ensures SurvivesAtMost(f.synced, f.bytes, h)
  {
    hide FromLE, AgeField, Torn;
  }

  /** The image on its way is not later than the one in flight. */
  lemma TaskNotLater(s: State, t: Task)
    requires Brings(s, t) && InFlight(s) && s.pending.Some?
    ensures t.generation <= s.pending.value.generation
  {
    hide IsWal, WalRecord, Age, TaskOk;
    TaskAtMost(t);
  }

  /** The age of the record in a running commit. */
  lemma RunningAge(s: State, image: Bytes, g: nat)
    requires Sound(s) && !s.stage.Off? && !s.stage.Ready? && !s.stage.Refused?
    requires s.wal.File? && IsWal(s.wal.bytes, image, g)
    ensures g == s.stage.task.generation && s.wal.bytes == Record(s.stage.task)
  {
    hide WalRecord, AtMost, IsWal, CleanPagesPresent, AppliedBelow, BufferOk, ImageDenotes, TaskOk;
    var t := s.stage.task;
    TaskIsWal(t);
    NoEmptyWal(image, g);
    if s.stage.Logging? && s.wal.bytes < Record(t) {
      TornIsNoRecord(WalImage(t.buffer.image, t.generation), s.wal.bytes);
    }
    if s.wal.bytes == Record(t) { WalUnique(s.wal.bytes, image, g, t.buffer.image, t.generation); }
  }

  lemma AgedByTask(s: State)
    requires Sound(s) && !s.stage.Off? && !s.stage.Ready? && !s.stage.Refused?
    requires s.db.File? ==> SurvivesAtMost(s.db.synced, s.db.bytes, s.stage.task.generation)
    ensures Aged(s)
  {
    hide Sound, IsWal, SurvivesAtMost;
    if s.wal.File? && s.db.File? {
      forall image, g | IsWal(s.wal.bytes, image, g)
        ensures SurvivesAtMost(s.db.synced, s.db.bytes, g)
      {
        RunningAge(s, image, g);
      }
    }
  }

  lemma NoRecordAged(s: State)
    requires s.wal.File? ==> s.wal.bytes == []
    ensures Aged(s)
  {
    hide IsWal, SurvivesAtMost;
    if s.wal.File? {
      forall image, g ensures !IsWal(s.wal.bytes, image, g) { NoEmptyWal(image, g); }
    }
  }

  lemma EmptyIsNoRecord()
    ensures !IsRecord([])
  {
    hide IsWal;
    forall image, g ensures !IsWal([], image, g) { NoEmptyWal(image, g); }
  }

  lemma LogStepsKeepTracked(s: State, s': State)
    requires Sound(s) && Sound(s') && Tracked(s)
    requires BeginCommit(s, s') || WriteLog(s, s') || SyncLog(s, s') || NameLog(s, s')
    ensures Tracked(s')
  {
    hide WalRecord, AtMost, IsWal, CleanPagesPresent, ImageDenotes, TaskOk, IsRecord, SurvivesAtMost, Aged;
    TaskIsWal(s'.stage.task);
    if BeginCommit(s, s') {
      NoRecordAged(s');
      if s.db.File? { SettledAtMost(s.db.bytes, s'.pending.value.generation); }
    } else {
      AgedByTask(s');
      TaskIsRecord(s'.stage.task);
    }
  }

  lemma TaskIsRecord(t: Task)
    requires TaskOk(t)
    ensures IsRecord(Record(t))
  {
    hide IsWal, TaskOk;
    TaskIsWal(t);
  }

  /** While an image is applied, its log has its age. */
  lemma TaskAged(s: State)
    requires Sound(s) && Tracked(s) && s.db.File? && (s.stage.Opening? || s.stage.Writing? || s.stage.DataSynced?)
    ensures SurvivesAtMost(s.db.synced, s.db.bytes, s.stage.task.generation)
  {
    hide WalRecord, AtMost, IsWal, CleanPagesPresent, AppliedBelow, BufferOk, ImageDenotes, TaskOk, IsRecord,
      SurvivesAtMost;
    TaskIsWal(s.stage.task);
  }

  lemma DataStepsKeepTracked(s: State, s': State)
    requires Sound(s) && Sound(s') && Tracked(s)
    requires SizeData(s, s') || WriteData(s, s') || WritePiece(s, s') || SyncData(s, s')
    ensures Tracked(s')
  {
    hide WalRecord, AtMost, IsWal, CleanPagesPresent, ImageDenotes, TaskOk, IsRecord, AppliedBelow, Resized, WithPage,
      BufferOk, Piece, SurvivesAtMost, Aged;
    var t := s.stage.task;
    TaskIsRecord(t);
    if s.db.File? { TaskAged(s); }
    if SyncData(s, s') {
      SurvivesBoth(s.db.synced, s.db.bytes, t.generation);
      SettledAtMost(s.db.bytes, t.generation);
    } else {
      DataSurvives(s, s');
    }
    AgedByTask(s');
    if s'.pending.Some? {
      TaskNotLater(s', t);
      LaterSurvives(s'.db, t.generation, s'.pending.value.generation);
    }
  }

  lemma OtherStepsKeepTracked(s: State, s': State)
    requires Sound(s) && Tracked(s)
    requires
      || NameData(s, s')
      || TruncateLog(s, s')
      || Finish(s, s')
      || RecoverNothing(s, s')
      || RecoverReplay(s, s')
      || RecoverRefuse(s, s')
      || NextCall(s, s')
    ensures Tracked(s')
  {
    hide WalRecord, AtMost, IsWal, CleanPagesPresent, ImageDenotes, TaskOk, IsOldLog, AppliedBelow, BufferOk, Stale,
      Sound, SurvivesAtMost, Aged, IsRecord;
    SameAged(s, s');
    EmptyIsNoRecord();
    if s.stage.Truncated? { TruncatedEmpty(s); }
    if RecoverRefuse(s, s') {
      RefusedIsPart(s);
      SoundInFlight(s);
      PartIsNoRecord(s);
    } else if RecoverReplay(s, s') {
      RecordIsRecord(s.wal.bytes, s'.stage.task.buffer.image, s'.stage.task.generation);
    }
  }

  lemma TruncatedEmpty(s: State)
    requires Sound(s) && s.stage.Truncated?
    ensures s.wal.File? && s.wal.bytes == []
  {
    hide IsWal, AtMost, WalRecord;
  }

  lemma RecordIsRecord(w: Bytes, image: Bytes, g: nat)
    requires IsWal(w, image, g)
    ensures IsRecord(w)
  {
    hide IsWal;
  }

  lemma SoundInFlight(s: State)
    requires Sound(s)
    ensures InFlight(s)
  {
    hide IsWal, AtMost, WalRecord;
  }

  lemma SameAged(s: State, s': State)
    requires Aged(s)
    requires s'.wal.File? && s'.wal.bytes != [] ==>
               && s.wal.File? && s'.wal.bytes == s.wal.bytes
               && (s'.db.File? ==> s.db.File? && s'.db.synced == s.db.synced && s'.db.bytes == s.db.bytes)
    ensures Aged(s')
  {
    hide IsWal, SurvivesAtMost;
    if s'.wal.File? && s'.wal.bytes == [] { NoRecordAged(s'); }
  }

  lemma StepKeepsTracked(s: State, s': State)
    requires Sound(s) && Sound(s') && Tracked(s) && Works(s, s')
    ensures Tracked(s')
  {
    hide Sound, Tracked, BeginCommit, WriteLog, SyncLog, NameLog, SizeData, WriteData, WritePiece, SyncData, NameData,
      TruncateLog, Finish, RecoverNothing, RecoverReplay, RecoverRefuse, NextCall;
    if BeginCommit(s, s') || WriteLog(s, s') || SyncLog(s, s') || NameLog(s, s') {
      LogStepsKeepTracked(s, s');
    } else if SizeData(s, s') || WriteData(s, s') || WritePiece(s, s') || SyncData(s, s') {
      DataStepsKeepTracked(s, s');
    } else {
      OtherStepsKeepTracked(s, s');
    }
  }

  lemma KillKeepsTracked(s: State, s': State)
    requires Tracked(s) && Kill(s, s')
    ensures Tracked(s')
  {
    hide IsWal, SurvivesAtMost, IsRecord;
  }

  // ----- a power loss that is withstood

  lemma SameImageSameAge(w: Bytes, v: Bytes, image: Bytes, g: nat, h: nat)
    requires IsWal(w, image, g) && IsWal(v, image, h)
    ensures g == h
  {
    hide WalRecord, ImageDenotes;
    var t :| ImageDenotes(image, t) && t.generation == g;
    var u :| ImageDenotes(image, u) && u.generation == h;
    ImageDenotesUnique(image, t, u);
  }

  /** The synced log comes back over a database that is whole. */
  lemma SyncedLogAge(s: State, image: Bytes, g: nat)
    requires InFlight(s) && s.wal.File? && s.db.File? && DataWhole(s) && SyncedLogFits(s)
    requires IsWal(s.wal.synced, image, g)
    ensures AtMost(s.db.bytes, g)
  {
    hide WalRecord, ImageDenotes, IsWal, Age, Stale;
    NoEmptyWal(image, g);
    RecordIsRecord(s.wal.synced, image, g);
    RecordBytes(s.wal.synced, image, g);
    RecordAtMost(WalImage(image, g));
    if ShowsNew(s) {
      var w := s.pending.value;
      ImageNotStale(s.db, w, g);
      RecordAtMost(w);
    } else if s.committed != Some(image) {
      SameImageSameAge(s.wal.synced, PendingLog(s.pending.value), image, g, s.pending.value.generation);
    }
  }

  lemma ImageNotStale(db: File, w: WalImage, g: nat)
    requires db.File? && db.bytes == w.image && IsWal(PendingLog(w), w.image, w.generation) && !Stale(db, g)
    ensures w.generation <= g
  {
    hide WalRecord, ImageDenotes;
  }

  /** What the log is then. */
  lemma WithstoodLog(s: State, s': State, image: Bytes, g: nat)
    requires Sound(s) && Tracked(s) && Withstands(s) && PowerLoss(s, s') && s'.wal.File?
    requires IsWal(s'.wal.bytes, image, g)
    ensures FileAtMost(s'.db, g)
  {
    hide WalRecord, AtMost, IsWal, Sound, SurvivesAtMost, Stale, PagesSurvive, IsRecord, DataWhole, SyncedLogFits;
    if s'.db.File? {
      if s'.wal.bytes <= s.wal.bytes {
        WholePrefix(s, s'.wal.bytes, image, g);
        SurvivorAtMost(s.db.synced, s.db.bytes, s'.db.bytes, g);
      } else {
        SoundInFlight(s);
        SyncedLogAge(s, image, g);
        WholeStays(s, s');
      }
    }
  }

  lemma WholeStays(s: State, s': State)
    requires DataWhole(s) && PagesLoss(s.db, s'.db) && s'.db.File?
    ensures s.db.File? && s'.db.bytes == s.db.bytes
  {
    hide PagesSurvive;
    DataOutcomes(s.db, s'.db);
  }

  lemma RecordSound(s: State, image: Bytes, g: nat)
    requires InFlight(s) && s.stage.Off? && s.wal.File? && IsWal(s.wal.bytes, image, g) && FileAtMost(s.db, g)
    requires OpensWell(s)
    ensures LeftWholeLog(s) || LeftCommittedLog(s)
  {
    hide WalRecord, AtMost, IsWal, Stale;
    NoEmptyWal(image, g);
    NotStale(s.db, g);
    assert Replayable(s.db, s.wal.bytes);
    assert Opens(s.db, s.wal, Outcome.Shows(Some(image)));
    assert Atomic(s, Outcome.Shows(Some(image)));
    if s.committed != Some(image) {
      RecordBytes(s.wal.bytes, image, g);
      SameImageSameAge(s.wal.bytes, PendingLog(s.pending.value), image, g, s.pending.value.generation);
    }
  }

  lemma PartSound(s: State, s': State)
    requires Sound(s) && Tracked(s) && PowerLoss(s, s') && s'.wal.File? && s'.wal.bytes != [] && !IsRecord(s'.wal.bytes)
    requires OpensWell(s')
    ensures LeftPart(s')
  {
    hide WalRecord, AtMost, IsWal, Sound, Stale, SurvivesAtMost, PagesSurvive, IsRecord, Aged;
    LogForms(s);
    NoReplay(s'.db, s'.wal.bytes);
    assert Opens(s'.db, s'.wal, Refuses);
    assert Atomic(s', Refuses);
    assert s'.wal.bytes <= s.wal.bytes;
    ProperPrefix(s'.wal.bytes, s.wal.bytes);
    if LeftCommittedLog(s) {
      var g :| IsWal(s.wal.bytes, s.committed.value, g) && FileAtMost(s.db, g);
      OldLog(s, g);
      RecordIsRecord(s.wal.bytes, s.committed.value, g);
      assert s'.wal.bytes < s.wal.bytes;
    } else if LeftPart(s) {
      assert s.pending.Some? && s.wal.bytes < PendingLog(s.pending.value) ==>
               s'.wal.bytes < PendingLog(s.pending.value);
      forall w | IsOldLog(w, s.committed) && s.wal.bytes < w ensures s'.wal.bytes < w {}
    } else {
      SoundInFlight(s);
      RecordIsRecord(s.wal.bytes, s.pending.value.image, s.pending.value.generation);
    }
  }

  lemma ProperPrefix(a: Bytes, b: Bytes)
    requires a <= b
    ensures a == b || a < b
  {
  }

  lemma LossKeepsSound(s: State, s': State)
    requires Sound(s) && Tracked(s) && Withstands(s) && PowerLoss(s, s')
    ensures Sound(s')
  {
    hide WalRecord, AtMost, IsWal, Sound, Stale, SurvivesAtMost, PagesSurvive, IsRecord, Aged, Withstands, OpensWell,
      Tracked, PowerLoss;
    TrackedAged(s);
    HarmlessExactly(s);
    SoundInFlight(s);
    LossIsOff(s, s');
    if LogEmpty(s'.wal) {
      EmptySound(s');
    } else if IsRecord(s'.wal.bytes) {
      var image, g := RecordOf(s'.wal.bytes);
      WithstoodLog(s, s', image, g);
      RecordSound(s', image, g);
    } else {
      PartSound(s, s');
    }
    OffIsSound(s');
  }

  lemma LossIsOff(s: State, s': State)
    requires PowerLoss(s, s')
    ensures s'.stage.Off? && s'.committed == s.committed && s'.pending == s.pending
    ensures InFlight(s) ==> InFlight(s')
  {
    hide IsWal, AtMost, WalRecord, PagesLoss, LogLoss;
  }

  lemma RecordOf(w: Bytes) returns (image: Bytes, g: nat)
    requires IsRecord(w)
    ensures IsWal(w, image, g)
  {
    hide IsWal;
    image, g :| IsWal(w, image, g);
  }

  lemma EmptySound(s: State)
    requires LogEmpty(s.wal) && OpensWell(s)
    ensures LeftEither(s)
  {
    hide IsWal, Stale;
    assert Opens(s.db, s.wal, Outcome.Shows(Content(s.db)));
    assert Atomic(s, Outcome.Shows(Content(s.db)));
  }

  lemma OffIsSound(s: State)
    requires InFlight(s) && s.stage.Off? && (LeftEither(s) || LeftPart(s) || LeftWholeLog(s) || LeftCommittedLog(s))
    ensures Sound(s)
  {
    hide IsWal, AtMost, WalRecord;
  }

  lemma TrackedAged(s: State)
    requires Tracked(s)
    ensures Aged(s)
  {
  }

  lemma LossKeepsTracked(s: State, s': State)
    requires Sound(s) && Tracked(s) && Withstands(s) && PowerLoss(s, s')
    ensures Tracked(s')
  {
    hide WalRecord, AtMost, IsWal, Sound, Stale, SurvivesAtMost, PagesSurvive, IsRecord, Withstands, Aged;
    if s'.db.File? {
      if s.pending.Some? {
        SurvivorAtMost(s.db.synced, s.db.bytes, s'.db.bytes, s.pending.value.generation);
        SettledAtMost(s'.db.bytes, s.pending.value.generation);
      }
    }
    LossAged(s, s');
  }

  lemma LossAged(s: State, s': State)
    requires Sound(s) && Tracked(s) && Withstands(s) && PowerLoss(s, s')
    ensures Aged(s')
  {
    hide WalRecord, AtMost, IsWal, Sound, Stale, SurvivesAtMost, PagesSurvive, IsRecord, Withstands, Tracked;
    if s'.wal.File? && s'.db.File? {
      forall image, g | IsWal(s'.wal.bytes, image, g) ensures SurvivesAtMost(s'.db.synced, s'.db.bytes, g) {
        WithstoodLog(s, s', image, g);
        SettledAtMost(s'.db.bytes, g);
      }
    }
  }

  // ----- runs

  /** Steps and kills anywhere, and power losses where the files withstand them. */
  ghost predicate Withstood(run: seq<State>, n: nat) {
    forall i :: 0 < i <= n && i < |run| ==>
      Works(run[i - 1], run[i]) || Kill(run[i - 1], run[i]) || (PowerLoss(run[i - 1], run[i]) && NeededIn(run[i - 1]))
  }

  lemma RestIsSound(s: State)
    requires AtRest(s)
    ensures Sound(s) && Tracked(s)
  {
    hide IsWal, AtMost, FromLE, SurvivesAtMost;
    NoRecordAged(s);
  }

  lemma {:induction false} SoundAlways(run: seq<State>, i: nat)
    requires i < |run| && AtRest(run[0]) && Withstood(run, i)
    ensures Sound(run[i]) && Tracked(run[i])
  {
    hide Sound, Tracked, Works, Kill, PowerLoss, NeededIn, AtRest;
    if i == 0 {
      RestIsSound(run[0]);
    } else {
      SoundAlways(run, i - 1);
      var s, s' := run[i - 1], run[i];
      if Works(s, s') {
        StepKeepsSound(s, s');
        StepKeepsTracked(s, s');
      } else if Kill(s, s') {
        KillKeepsSound(s, s');
        KillKeepsTracked(s, s');
      } else {
        WithstandsHere(s);
        LossKeepsSound(s, s');
        LossKeepsTracked(s, s');
      }
    }
  }

  lemma WithstandsHere(s: State)
    requires Sound(s) && NeededIn(s)
    ensures Withstands(s)
  {
    hide Sound, NeededIn, Withstands;
    StageByStage(s);
  }

  /** Along every run of steps, kills and power losses that the files withstood:
      the next power loss is harmless, whatever survives of it, exactly if the
      synced and named part of the files withstands it. */
  lemma HarmlessInRun(run: seq<State>, i: nat)
    requires i < |run| && AtRest(run[0]) && Withstood(run, i)
    ensures (forall s' :: PowerLoss(run[i], s') ==> OpensWell(s')) <==> NeededIn(run[i])
  {
    hide Sound, Tracked, Withstood, PowerLoss, OpensWell, Withstands, NeededIn, Aged, AtRest;
    SoundAlways(run, i);
    TrackedAged(run[i]);
    HarmlessExactly(run[i]);
    StageByStage(run[i]);
  }

  lemma SoundReturns(s: State, s': State)
    requires Sound(s) && !s.stage.Ready? && s'.stage.Ready? && Works(s, s')
    ensures HoldsOld(s'.db, s.committed) || HoldsNew(s'.db, s.pending)
    ensures HoldsOld(s'.db, s'.committed)
  {
    hide IsWal, Stale, WalRecord, TaskOk, CleanPagesPresent, FileAtMost, AtMost, WithPage, Resized, BufferOk,
      AppliedBelow;
    EmptyIsNoRecord();
  }

  lemma StepKeepsImages(s: State, s': State)
    requires !s.stage.Ready? && !s'.stage.Ready? && (Works(s, s') || Kill(s, s') || PowerLoss(s, s'))
    ensures s'.committed == s.committed && s'.pending == s.pending
  {
    hide Works, PowerLoss, Kill;
    StepKeepsSpec(s, s', if Kill(s, s') then ProcessStops else AnythingStops);
  }

  lemma {:induction false} ImagesKept(run: seq<State>, i: nat, k: nat)
    requires i <= k < |run| && Withstood(run, k) && Unreturned(run, i, k + 1)
    ensures run[k].committed == run[i].committed && run[k].pending == run[i].pending
    decreases k - i
  {
    hide Works, PowerLoss, Kill, NeededIn;
    if i < k {
      ImagesKept(run, i, k - 1);
      StepKeepsImages(run[k - 1], run[k]);
    }
  }

  /** Crash atomicity of such runs: the next time the store is open it holds
      exactly the old or exactly the new image. */
  lemma NextOpenInRun(run: seq<State>, i: nat, j: nat)
    requires i < j < |run| && AtRest(run[0]) && Withstood(run, j) && Unreturned(run, i, j) && run[j].stage.Ready?
    ensures HoldsOld(run[j].db, run[i].committed) || HoldsNew(run[j].db, run[i].pending)
    ensures HoldsOld(run[j].db, run[j].committed)
  {
    hide Sound, Tracked, Works, PowerLoss, Kill, NeededIn, AtRest;
    SoundAlways(run, j - 1);
    ImagesKept(run, i, j - 1);
    ReadyByStep(run[j - 1], run[j]);
    SoundReturns(run[j - 1], run[j]);
  }

  lemma ReadyByStep(s: State, s': State)
    requires s'.stage.Ready?
    ensures !Kill(s, s') && !PowerLoss(s, s')
  {
    hide PagesLoss, LogLoss;
  }

  /** And a refusal means a log that is no record over the old image. */
  lemma RefusalInRun(run: seq<State>, i: nat, j: nat)
    requires i <= j < |run| && AtRest(run[0]) && Withstood(run, j) && Unreturned(run, i, j) && run[j].stage.Refused?
    ensures HoldsOld(run[j].db, run[i].committed) && run[j].wal.File? && !IsRecord(run[j].wal.bytes)
  {
    hide Tracked, Works, PowerLoss, Kill, NeededIn, AtRest, IsWal, IsRecord, WalRecord, AtMost, IsOldLog;
    SoundAlways(run, j);
    ImagesKept(run, i, j);
    PartIsNoRecord(run[j]);
  }
}
