/** Atomicity over whole runs: any number of statements, crashes and
    recoveries, in any order. */
module CrashRuns {
  import opened Ordering
  import opened Codec
  import opened PageBuffer
  import opened Wal
  import opened CrashModel
  import opened CommitProtocol
  import opened Recovery

  /** Processes are killed anywhere; or the power fails anywhere and processes
      are killed outside the exposed stages. */
  datatype CrashKind = ProcessStops | AnythingStops

  ghost predicate Crashes(s: State, s': State, kind: CrashKind) {
    if kind.ProcessStops? then Kill(s, s') else PowerLoss(s, s') || (Kill(s, s') && !Exposed(s.stage))
  }

  /** Steps of the code with such crashes between any two of them. */
  ghost predicate Run(run: seq<State>, kind: CrashKind) {
    forall i :: 0 < i < |run| ==> Works(run[i - 1], run[i]) || Crashes(run[i - 1], run[i], kind)
  }

  ghost predicate Keeps(s: State, kind: CrashKind) { Weak(s) && (kind.AnythingStops? ==> Safe(s)) }

  /** A disk at rest under a synced database, or none. */
  ghost predicate AtRest(s: State) {
    && s.stage.Ready? && ShowsOld(s) && !s.touched && s.pending.None? && Durable(s.db)
    && (s.wal.Missing? || s.wal == Settled([]))
  }

  lemma CrashKeeps(s: State, s': State, kind: CrashKind)
    requires Keeps(s, kind) && Crashes(s, s', kind)
    ensures Keeps(s', kind)
  {
    hide Weak, Safe, PowerLoss, Kill, Exposed;
    if kind.AnythingStops? && PowerLoss(s, s') {
      PowerLossKeeps(s, s');
    } else {
      KillKeepsWeak(s, s');
      if kind.AnythingStops? { KillKeepsSafe(s, s'); }
    }
  }

  lemma {:induction false} RunKeeps(run: seq<State>, kind: CrashKind, i: nat)
    requires Run(run, kind) && i < |run| && Keeps(run[0], kind)
    ensures Keeps(run[i], kind)
  {
    hide Weak, Safe, Works, Crashes;
    if i > 0 {
      RunKeeps(run, kind, i - 1);
      var s, s' := run[i - 1], run[i];
      if Works(s, s') {
        StepKeepsWeak(s, s');
        if kind.AnythingStops? { StepKeepsSafe(s, s'); }
      } else {
        CrashKeeps(s, s', kind);
      }
    }
  }

  lemma RestKeeps(s: State, kind: CrashKind)
    requires AtRest(s)
    ensures Keeps(s, kind)
  {
    hide AtMost, IsWal;
  }

  // ----- one statement with the crashes and recoveries it meets

  /** No statement or recovery returns from `i` up to `j`. */
  ghost predicate Unreturned(run: seq<State>, i: nat, j: nat) {
    forall k :: i <= k < j && k < |run| ==> !run[k].stage.Ready?
  }

  lemma StepKeepsSpec(s: State, s': State, kind: CrashKind)
    requires !s.stage.Ready? && !s'.stage.Ready? && (Works(s, s') || Crashes(s, s', kind))
    ensures s'.committed == s.committed && s'.pending == s.pending && (s.touched ==> s'.touched)
  {
    hide IsWal, Stale, WalRecord, TaskOk, CleanPagesPresent, FileAtMost, PagesLoss, LogLoss, WithPage, Resized,
      BeginCommit;
    assert !BeginCommit(s, s') by { NotReadyNoCommit(s, s'); }
  }

  lemma NotReadyNoCommit(s: State, s': State)
    requires !s.stage.Ready?
    ensures !BeginCommit(s, s')
  {
  }

  lemma {:induction false} SpecKept(run: seq<State>, kind: CrashKind, i: nat, k: nat)
    requires Run(run, kind) && i <= k < |run| && Unreturned(run, i, k + 1)
    ensures run[k].committed == run[i].committed && run[k].pending == run[i].pending
    ensures run[i].touched ==> run[k].touched
    decreases k - i
  {
    hide Works, Crashes;
    if i < k {
      StepKeepsSpec(run[i], run[i + 1], kind);
      SpecKept(run, kind, i + 1, k);
    }
  }

  ghost predicate HoldsOld(db: File, committed: Option<Bytes>) {
    if committed.None? then db.Missing? else db.File? && db.bytes == committed.value
  }

  ghost predicate HoldsNew(db: File, pending: Option<WalImage>) {
    pending.Some? && db.File? && db.bytes == pending.value.image
  }

  lemma ReturnShows(s: State, s': State, kind: CrashKind)
    requires Weak(s) && !s.stage.Ready? && s'.stage.Ready? && (Works(s, s') || Crashes(s, s', kind))
    ensures (HoldsOld(s'.db, s.committed) && !s.touched) || HoldsNew(s'.db, s.pending)
    ensures HoldsOld(s'.db, s'.committed)
  {
    hide IsWal, Stale, WalRecord, TaskOk, CleanPagesPresent, FileAtMost, AtMost, PagesLoss, LogLoss, WithPage, Resized,
      BufferOk, AppliedBelow, Piece, BeginCommit, WriteData, WritePiece, SizeData, IsOldLog;
    OnlyEndsReturn(s, s', kind);
  }

  lemma OnlyEndsReturn(s: State, s': State, kind: CrashKind)
    requires !s.stage.Ready? && s'.stage.Ready? && (Works(s, s') || Crashes(s, s', kind))
    ensures Finish(s, s') || RecoverNothing(s, s')
  {
    hide IsWal, Stale, WalRecord, PagesLoss, LogLoss, WithPage, Resized, Piece, BufferOk, Committable;
  }

  /** Crash atomicity.  Whatever crashes and recoveries lie in between, the next
      time the store is open it holds exactly the old or exactly the new image,
      and the new one if any database page may have been written. */
  lemma NextOpenShows(run: seq<State>, kind: CrashKind, i: nat, j: nat)
    requires i < j < |run| && Run(run, kind) && Keeps(run[0], kind) && Unreturned(run, i, j) && run[j].stage.Ready?
    ensures
      || (HoldsOld(run[j].db, run[i].committed) && forall k :: i <= k < j ==> !run[k].touched)
      || HoldsNew(run[j].db, run[i].pending)
    ensures HoldsOld(run[j].db, run[j].committed)
  {
    hide Works, Crashes, Keeps, Weak, Safe;
    RunKeeps(run, kind, j - 1);
    KeepsWeak(run[j - 1], kind);
    SpecKept(run, kind, i, j - 1);
    ReturnShows(run[j - 1], run[j], kind);
    forall k | i <= k < j ensures run[k].touched ==> run[j - 1].touched {
      SpecKept(run, kind, k, j - 1);
    }
  }

  /** The same for every run that starts on a disk at rest. */
  lemma NextOpenFromRest(run: seq<State>, kind: CrashKind, i: nat, j: nat)
    requires i < j < |run| && Run(run, kind) && AtRest(run[0]) && Unreturned(run, i, j) && run[j].stage.Ready?
    ensures
      || (HoldsOld(run[j].db, run[i].committed) && forall k :: i <= k < j ==> !run[k].touched)
      || HoldsNew(run[j].db, run[i].pending)
  {
    hide Works, Crashes, Keeps, AtRest;
    RestKeeps(run[0], kind);
    NextOpenShows(run, kind, i, j);
  }

  lemma KeepsWeak(s: State, kind: CrashKind)
    requires Keeps(s, kind)
    ensures Weak(s)
  {
  }

  /** A refusal means a torn log and a database nobody touched. */
  lemma RefusalLeavesOld(run: seq<State>, kind: CrashKind, i: nat, j: nat)
    requires i <= j < |run| && Run(run, kind) && Keeps(run[0], kind) && Unreturned(run, i, j) && run[j].stage.Refused?
    ensures HoldsOld(run[j].db, run[i].committed) && forall k :: i <= k <= j ==> !run[k].touched
    ensures run[j].wal.File? && LengthRejects(run[j].wal.bytes)
  {
    hide Works, Crashes, Keeps, Safe, LengthRejects, WalRecord, AtMost, IsWal;
    RunKeeps(run, kind, j);
    KeepsWeak(run[j], kind);
    SpecKept(run, kind, i, j);
    forall k | i <= k <= j ensures run[k].touched ==> run[j].touched {
      SpecKept(run, kind, k, j);
    }
    var w := run[j].pending.value;
    WalSized(PendingLog(w), w.image, w.generation);
    PrefixRejected(w.image, w.generation, |run[j].wal.bytes|);
    assert run[j].wal.bytes == PendingLog(w)[..|run[j].wal.bytes|];
  }

  /** Recovery refuses only logs that `parse_wal` rejects, never stale ones. */
  lemma RefusalIsNeverStale(s: State, s': State)
    requires Weak(s) && RecoverRefuse(s, s')
    ensures forall image, g :: !IsWal(s.wal.bytes, image, g)
  {
    hide Weak, IsWal, Stale;
    forall image, g ensures !IsWal(s.wal.bytes, image, g) {
      if IsWal(s.wal.bytes, image, g) { NeverStale(s, image, g); }
    }
  }

  /** Opening again after a successful open changes nothing, whatever crashes
      lie in between. */
  lemma SecondRecover(run: seq<State>, kind: CrashKind, i: nat, j: nat)
    requires i + 1 < j < |run| && Run(run, kind) && Keeps(run[0], kind)
    requires run[i].stage.Ready? && run[i + 1].stage.Off? && Unreturned(run, i + 1, j) && run[j].stage.Ready?
    ensures HoldsOld(run[j].db, run[i].committed) && run[j].committed == run[i].committed
  {
    hide Works, Crashes, Keeps, Weak, Safe;
    RunKeeps(run, kind, i);
    KeepsWeak(run[i], kind);
    StopsWhileReady(run[i], run[i + 1], kind);
    NextOpenShows(run, kind, i + 1, j);
  }

  lemma StopsWhileReady(s: State, s': State, kind: CrashKind)
    requires Weak(s) && s.stage.Ready? && s'.stage.Off? && (Works(s, s') || Crashes(s, s', kind))
    ensures s'.committed == s.committed && s'.pending.None?
  {
    hide IsWal, Stale, WalRecord, TaskOk, CleanPagesPresent, FileAtMost, PagesLoss, LogLoss, WithPage, Resized;
  }

  // ----- a crash after any step of the code

  /** The states a process has passed through. */
  ghost predicate Stepwise(h: seq<State>) { forall i :: 0 < i < |h| ==> Works(h[i - 1], h[i]) }

  lemma CrashedRun(h: seq<State>, kind: CrashKind, k: nat, tail: seq<State>)
    requires Stepwise(h) && k < |h| && tail != [] && Run(tail, kind) && Crashes(h[k], tail[0], kind)
    ensures Run(h[..k + 1] + tail, kind)
  {
    hide Works, Crashes;
    var run := h[..k + 1] + tail;
    forall i | 0 < i < |run| ensures Works(run[i - 1], run[i]) || Crashes(run[i - 1], run[i], kind) {
      if i > k + 1 {
        assert run[i - 1] == tail[i - 1 - (k + 1)] && run[i] == tail[i - (k + 1)];
      }
    }
  }

  /** Wherever a process is stopped, and whatever follows, the next open shows
      what was committed in that state, or what was in flight. */
  lemma CrashAnywhere(h: seq<State>, kind: CrashKind, k: nat, tail: seq<State>, j: nat)
    requires Stepwise(h) && k < |h| && Keeps(h[0], kind)
    requires j < |tail| && Run(tail, kind) && Crashes(h[k], tail[0], kind) && Unreturned(tail, 0, j)
    requires tail[j].stage.Ready?
    ensures (HoldsOld(tail[j].db, h[k].committed) && !h[k].touched) || HoldsNew(tail[j].db, h[k].pending)
  {
    hide Works, Keeps, Weak, Safe, PowerLoss;
    var run := h[..k + 1] + tail;
    CrashedRun(h, kind, k, tail);
    var end := k + 1 + j;
    assert run[end] == tail[j];
    forall i | k + 1 <= i < end ensures !run[i].stage.Ready? { assert run[i] == tail[i - (k + 1)]; }
    if h[k].stage.Ready? {
      RunKeeps(run, kind, k);
      KeepsWeak(h[k], kind);
      CrashStops(h[k], tail[0], kind);
      StopsWhileReady(h[k], tail[0], kind);
      ReadyUntouched(h[k]);
      NextOpenShows(run, kind, k + 1, end);
    } else {
      NextOpenShows(run, kind, k, end);
    }
  }

  lemma CrashStops(s: State, s': State, kind: CrashKind)
    requires Crashes(s, s', kind)
    ensures s'.stage.Off?
  {
  }

  lemma ReadyUntouched(s: State)
    requires Weak(s) && s.stage.Ready?
    ensures !s.touched
  {
    hide IsWal, AtMost, WalRecord;
  }

  // ----- an open that is settled

  /** The next time the store is open it holds this, whatever stops the
      processes until then: it is in the database, or in the log in front. */
  ghost predicate Settles(s: State, content: Option<Bytes>) {
    match s.stage
    case Ready => HoldsOld(s.db, content)
    case Off => if LogEmpty(s.wal) then HoldsOld(s.db, content) else IsOldLog(s.wal.bytes, content)
    case Refused => false
    case Logging(_, _, _) => false
    case Logged(_, _) => false
    case _ => content == Some(s.stage.task.buffer.image)
  }

  lemma ReplaySettles(s: State, s': State, content: Option<Bytes>)
    requires s.stage.Off? && Settles(s, content) && RecoverReplay(s, s')
    ensures Settles(s', content)
  {
    hide IsWal, Stale;
    var t := s'.stage.task;
    var g :| IsWal(s.wal.bytes, content.value, g);
    WalUnique(s.wal.bytes, t.buffer.image, t.generation, content.value, g);
  }

  lemma SettledIsNotRefused(s: State, s': State, content: Option<Bytes>)
    requires Weak(s) && Settles(s, content)
    ensures !RecoverRefuse(s, s')
  {
    hide IsWal, Stale, Weak, WalRecord, AtMost;
    if RecoverRefuse(s, s') {
      RefusedIsTorn(s);
      WeakInFlight(s);
      var g :| IsWal(s.wal.bytes, content.value, g);
      TornIsNoWal(s, content.value, g);
    }
  }

  lemma StepKeepsSettled(s: State, s': State, content: Option<Bytes>)
    requires Weak(s) && Settles(s, content) && !s.stage.Ready? && Works(s, s')
    ensures Settles(s', content)
  {
    hide IsWal, Stale, WalRecord, TaskOk, CleanPagesPresent, FileAtMost, AtMost, WithPage, Resized, BufferOk,
      AppliedBelow, IsOldLog, RecoverRefuse;
    SettledIsNotRefused(s, s', content);
    if RecoverReplay(s, s') { ReplaySettles(s, s', content); }
  }

  lemma TaskIsOldLog(t: Task)
    requires TaskOk(t)
    ensures IsOldLog(Record(t), Some(t.buffer.image)) && Record(t) != []
  {
    hide IsWal, TaskOk, WalRecord;
    TaskIsWal(t);
    RecordNotEmpty(t);
  }

  lemma KillKeepsSettled(s: State, s': State, content: Option<Bytes>)
    requires Weak(s) && Settles(s, content) && Kill(s, s')
    ensures Settles(s', content)
  {
    hide IsWal, WalRecord, TaskOk, CleanPagesPresent, FileAtMost, AtMost, BufferOk, AppliedBelow, IsOldLog;
    if !s.stage.Off? && !s.stage.Ready? { TaskIsOldLog(s.stage.task); }
  }

  lemma LossKeepsSettled(s: State, s': State, content: Option<Bytes>)
    requires Weak(s) && Safe(s) && Settles(s, content) && PowerLoss(s, s')
    ensures Settles(s', content)
  {
    hide Weak, Safe, PowerLoss;
    if s.stage.Off? {
      OffLossSettles(s, s', content);
    } else {
      RunningLossSettles(s, s', content);
    }
  }

  lemma RunningLossSettles(s: State, s': State, content: Option<Bytes>)
    requires Weak(s) && Safe(s) && Settles(s, content) && PowerLoss(s, s') && !s.stage.Off?
    ensures Settles(s', content)
  {
    hide IsWal, WalRecord, TaskOk, CleanPagesPresent, FileAtMost, AtMost, BufferOk, AppliedBelow, IsOldLog,
      PagesSurvive, SurvivesAtMost;
    SyncedSurvives(s.db, s'.db);
    if !s.stage.Ready? { TaskIsOldLog(s.stage.task); }
  }

  lemma OffLossSettles(s: State, s': State, content: Option<Bytes>)
    requires Weak(s) && Safe(s) && Settles(s, content) && PowerLoss(s, s') && s.stage.Off?
    ensures Settles(s', content)
  {
    hide IsWal, WalRecord, TaskOk, AtMost, PagesSurvive, SurvivesAtMost;
    SyncedSurvives(s.db, s'.db);
    WeakInFlight(s);
    if !LogEmpty(s.wal) { SettledIsNotTorn(s, content); }
  }

  lemma SettledIsNotTorn(s: State, content: Option<Bytes>)
    requires Weak(s) && s.stage.Off? && s.wal.File? && IsOldLog(s.wal.bytes, content)
    ensures !LeftTornLog(s)
  {
    hide IsWal, Weak, WalRecord, AtMost;
    if LeftTornLog(s) {
      WeakInFlight(s);
      var g :| IsWal(s.wal.bytes, content.value, g);
      TornIsNoWal(s, content.value, g);
    }
  }

  lemma CrashKeepsSettled(s: State, s': State, content: Option<Bytes>, kind: CrashKind)
    requires Keeps(s, kind) && Settles(s, content) && Crashes(s, s', kind)
    ensures Settles(s', content)
  {
    hide Weak, Safe, Settles, PowerLoss, Kill, Exposed;
    if kind.AnythingStops? && PowerLoss(s, s') {
      LossKeepsSettled(s, s', content);
    } else {
      KillKeepsSettled(s, s', content);
    }
  }

  /** Along the steps of a process until it returns. */
  lemma {:induction false} SettledOn(h: seq<State>, from: nat, k: nat, content: Option<Bytes>)
    requires Stepwise(h) && from <= k < |h| && Weak(h[from]) && Settles(h[from], content)
    requires forall i :: from <= i < k ==> !h[i].stage.Ready?
    ensures Weak(h[k]) && Settles(h[k], content)
  {
    hide Weak, Settles, Works;
    if from < k {
      SettledOn(h, from, k - 1, content);
      StepKeepsWeak(h[k - 1], h[k]);
      StepKeepsSettled(h[k - 1], h[k], content);
    }
  }

  /** Along runs with crashes. */
  lemma {:induction false} SettledAlong(run: seq<State>, kind: CrashKind, i: nat, content: Option<Bytes>)
    requires Run(run, kind) && i < |run| && Keeps(run[0], kind) && Settles(run[0], content) && Unreturned(run, 0, i)
    ensures Settles(run[i], content)
  {
    hide Keeps, Settles, Works, Crashes;
    if i > 0 {
      SettledAlong(run, kind, i - 1, content);
      RunKeeps(run, kind, i - 1);
      KeepsWeak(run[i - 1], kind);
      if Works(run[i - 1], run[i]) {
        StepKeepsSettled(run[i - 1], run[i], content);
      } else {
        CrashKeepsSettled(run[i - 1], run[i], content, kind);
      }
    }
  }

  /** A process stopped in a settled state: the next open shows the content. */
  lemma SettledShows(h: seq<State>, kind: CrashKind, k: nat, tail: seq<State>, j: nat, content: Option<Bytes>)
    requires Stepwise(h) && k < |h| && Keeps(h[0], kind) && Settles(h[k], content)
    requires j < |tail| && Run(tail, kind) && Crashes(h[k], tail[0], kind) && Unreturned(tail, 0, j)
    requires tail[j].stage.Ready?
    ensures HoldsOld(tail[j].db, content)
  {
    hide Keeps, Works, Crashes;
    assert Run(h, kind);
    RunKeeps(h, kind, k);
    CrashKeeps(h[k], tail[0], kind);
    CrashKeepsSettled(h[k], tail[0], content, kind);
    SettledAlong(tail, kind, j, content);
  }

  /** A stored content is settled. */
  lemma ShowsSettles(s: State, image: Bytes)
    requires Weak(s) && s.stage.Off? && WillShow(s, image)
    ensures Settles(s, Some(image))
  {
    hide IsWal, WalRecord, AtMost;
    WeakInFlight(s);
  }
}
