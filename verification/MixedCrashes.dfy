/** Kills and power losses in one run: for every exposed stage a run in which a
    kill there ruins the store. */
module MixedCrashes {
  import opened Codec
  import opened PageCodec
  import opened IndexGrowth
  import opened ImageCodec
  import opened IncrementalInsert
  import opened PageBuffer
  import opened Wal
  import opened CrashModel
  import opened CommitProtocol
  import opened Recovery
  import opened MixedStates
  import opened CrashRuns
  import opened PowerLosses

  /** The only kill is in state `k`. */
  ghost predicate OneKill(run: seq<State>, k: nat) {
    && k + 1 < |run| && Kill(run[k], run[k + 1])
    && forall i :: 0 < i < |run| && i != k + 1 ==> Works(run[i - 1], run[i]) || PowerLoss(run[i - 1], run[i])
  }

  /** A power loss, and the open behind it shows neither the old nor the new. */
  ghost predicate Ruined(run: seq<State>) {
    && |run| >= 3 && AtRest(run[0]) && PowerLoss(run[|run| - 3], run[|run| - 2])
    && Works(run[|run| - 2], run[|run| - 1]) && run[|run| - 1].stage.Ready?
    && !OldOrNew(run[|run| - 3], Content(run[|run| - 1].db))
  }

  ghost predicate Replays(t: Task) { TaskOk(t) && t.buffer == Everything(t.buffer.image) }

  // ----- pieces of runs

  ghost predicate Steady(run: seq<State>) {
    forall i :: 0 < i < |run| ==> Works(run[i - 1], run[i]) || PowerLoss(run[i - 1], run[i])
  }

  lemma SteadyJoin(a: seq<State>, b: seq<State>)
    requires Steady(a) && Steady(b) && a != [] && b != [] && Works(a[|a| - 1], b[0])
    ensures Steady(a + b)
  {
    hide Works, PowerLoss;
    forall i | 0 < i < |a + b| ensures Works((a + b)[i - 1], (a + b)[i]) || PowerLoss((a + b)[i - 1], (a + b)[i]) {
      assert i > |a| ==> (a + b)[i - 1] == b[i - 1 - |a|] && (a + b)[i] == b[i - |a|];
    }
  }

  lemma KillJoin(a: seq<State>, b: seq<State>)
    requires Steady(a) && Steady(b) && a != [] && b != [] && Kill(a[|a| - 1], b[0])
    ensures OneKill(a + b, |a| - 1)
  {
    hide Works, PowerLoss;
    forall i | 0 < i < |a + b| && i != |a|
      ensures Works((a + b)[i - 1], (a + b)[i]) || PowerLoss((a + b)[i - 1], (a + b)[i])
    {
      assert i > |a| ==> (a + b)[i - 1] == b[i - 1 - |a|] && (a + b)[i] == b[i - |a|];
    }
  }

  lemma Pair(s: State, s': State)
    requires Works(s, s') || PowerLoss(s, s')
    ensures Steady([s, s'])
  {
    hide Works, PowerLoss;
  }

  lemma NothingClean(t: Task)
    requires Replays(t)
    ensures Committable(Missing, t) && InFlightTask(t) && Record(t) != []
  {
    hide WalRecord, ImageDenotes, BufferOk;
    TaskIsWal(t);
    RecordNotEmpty(t);
    ReplayTask(Record(t), t);
  }

  ghost predicate InFlightTask(t: Task) { IsWal(Record(t), t.buffer.image, t.generation) }

  ghost function Flying(t: Task): WalImage { WalImage(t.buffer.image, t.generation) }

  /** The power fails, the log is gone, and the next open takes what is left of
      the database for whole. */
  lemma LosesLog(s: State, wal: File) returns (tail: seq<State>)
    requires InFlight(s) && !DataWhole(s) && LogLoss(s.wal, wal) && LogEmpty(wal)
    ensures |tail| == 2 && PowerLoss(s, tail[0]) && Works(tail[0], tail[1]) && tail[1].stage.Ready?
    ensures !OldOrNew(s, Content(tail[1].db))
  {
    hide IsWal, AtMost, WalRecord, PagesLoss, LogLoss, DataWhole;
    var db := BrokenData(s);
    var lost := s.(db := db, wal := wal, stage := Off);
    var open := lost.(stage := Ready, committed := Content(db), pending := None, touched := false);
    assert RecoverNothing(lost, open);
    tail := [lost, open];
  }

  /** A first commit with the log file in front of it: its steps up to the
      whole record written. */
  lemma WritesRecord(s: State, t: Task) returns (run: seq<State>)
    requires Replays(t) && s.stage.Ready? && s.db.Missing? && s.committed.None? && (s.wal.Missing? || s.wal.bytes == [])
    ensures Steady(run) && |run| == 3 && run[0] == s
    ensures run[1].stage == Logging(t, s.wal.Missing?, 0)
    ensures var wal := if s.wal.Missing? then File(false, [], []) else s.wal;
      && run[1] == s.(wal := wal, stage := run[1].stage, pending := Some(Flying(t)))
      && run[2] == run[1].(wal := wal.(bytes := Record(t)), stage := Logging(t, s.wal.Missing?, |Record(t)|))
  {
    hide IsWal, AtMost, WalRecord, Committable, ImageDenotes, BufferOk, TaskOk;
    NothingClean(t);
    var wal := if s.wal.Missing? then File(false, [], []) else s.wal.(bytes := []);
    var s1 := s.(wal := wal, stage := Logging(t, s.wal.Missing?, 0), pending := Some(Flying(t)));
    var s2 := s1.(wal := wal.(bytes := Record(t)), stage := Logging(t, s.wal.Missing?, |Record(t)|));
    assert BeginCommit(s, s1);
    assert Record(t)[..|Record(t)|] == Record(t);
    assert WriteLog(s1, s2);
    run := [s, s1, s2];
  }

  /** The log is replayed onto a database file that does not exist yet, and the
      power fails with the log not durable. */
  lemma ReplayTears(s: State, t: Task, wal: File) returns (tail: seq<State>)
    requires Replays(t) && s.stage.Off? && s.db.Missing? && s.committed.None? && s.pending == Some(Flying(t))
    requires s.wal.File? && s.wal.bytes == Record(t) && LogLoss(s.wal, wal) && LogEmpty(wal)
    ensures Steady(tail) && |tail| == 5 && tail[0] == s && PowerLoss(tail[2], tail[3]) && Works(tail[3], tail[4])
    ensures tail[4].stage.Ready? && !OldOrNew(tail[2], Content(tail[4].db))
  {
    hide IsWal, AtMost, WalRecord, Committable, ImageDenotes, BufferOk, TaskOk, LogLoss, PowerLoss, Stale;
    NothingClean(t);
    var s1 := s.(stage := Opening(t));
    assert RecoverReplay(s, s1) by { NoDataNotStale(t.generation); }
    var end := SizesAndTears(s1, t, wal);
    tail := [s] + end;
    Pair(s, s1);
  }

  lemma NoDataNotStale(g: nat)
    ensures !Stale(Missing, g)
  {
  }

  lemma SizesAndTears(s: State, t: Task, wal: File) returns (tail: seq<State>)
    requires Replays(t) && s.stage == Opening(t) && s.db.Missing? && s.committed.None? && s.pending == Some(Flying(t))
    requires LogLoss(s.wal, wal) && LogEmpty(wal)
    ensures Steady(tail) && |tail| == 4 && tail[0] == s && PowerLoss(tail[1], tail[2]) && Works(tail[2], tail[3])
    ensures tail[3].stage.Ready? && !OldOrNew(tail[1], Content(tail[3].db))
  {
    hide IsWal, AtMost, WalRecord, Committable, ImageDenotes, LogLoss, PowerLoss, Zeros;
    NothingClean(t);
    var size := |t.buffer.image|;
    var s1 := s.(db := File(false, [], Resized([], size)), stage := Writing(t, true, 0), touched := true);
    assert SizeData(s, s1);
    assert s1.db.synced != s1.db.bytes;
    var end := LosesLog(s1, wal);
    tail := [s, s1] + end;
  }

  // ----- one run for each exposed stage

  /** The log of a first commit is whole but not synced: an existing, named log
      file comes back empty. */
  lemma UnsyncedLogRuins(t: Task) returns (run: seq<State>)
    requires Replays(t)
    ensures |run| == 8 && run[2].wal == File(true, [], Record(t))
    ensures Ruined(run) && OneKill(run, 2) && run[2].stage == Logging(t, false, |Record(t)|)
  {
    hide IsWal, AtMost, WalRecord, Committable, ImageDenotes, BufferOk, TaskOk, PowerLoss, Works, Steady, OneKill;
    var front := WritesRecord(State(Missing, Settled([]), Ready, None, None, false), t);
    var off := front[2].(stage := Off);
    assert LogLoss(off.wal, Settled([]));
    var back := ReplayTears(off, t, Settled([]));
    KillJoin(front, back);
    run := front + back;
  }

  /** Its log is synced but its name is not: the log file vanishes. */
  lemma UnnamedLogRuins(t: Task) returns (run: seq<State>)
    requires Replays(t)
    ensures |run| == 9 && Ruined(run) && OneKill(run, 3) && run[3].stage == Logged(t, true)
  {
    hide IsWal, AtMost, WalRecord, Committable, ImageDenotes, BufferOk, TaskOk, PowerLoss, Steady, OneKill;
    var front := WritesRecord(State(Missing, Missing, Ready, None, None, false), t);
    var logged := front[2].(wal := front[2].wal.(synced := front[2].wal.bytes), stage := Logged(t, true));
    assert SyncLog(front[2], logged);
    Single(logged);
    SteadyJoin(front, [logged]);
    assert LogLoss(logged.wal, Missing);
    var back := ReplayTears(logged.(stage := Off), t, Missing);
    KillJoin(front + [logged], back);
    run := front + [logged] + back;
  }

  lemma Single(s: State)
    ensures Steady([s])
  {
  }

  /** The log file was only just created: the next commit finds it and never
      names it. */
  lemma CreatedLogRuins(t: Task) returns (run: seq<State>)
    requires Replays(t)
    ensures |run| == 11 && Ruined(run) && OneKill(run, 1) && run[1].stage == Logging(t, true, 0)
  {
    hide IsWal, AtMost, WalRecord, Committable, ImageDenotes, BufferOk, TaskOk, PowerLoss, Steady, OneKill;
    var first := WritesRecord(State(Missing, Missing, Ready, None, None, false), t);
    var off := first[1].(stage := Off);
    var ready := off.(stage := Ready, pending := None);
    assert RecoverNothing(off, ready);
    var second := WritesRecord(ready, t);
    var logged := second[2].(wal := second[2].wal.(synced := second[2].wal.bytes), stage := Logged(t, false));
    assert SyncLog(second[2], logged);
    var opening := logged.(stage := Opening(t));
    assert NameLog(logged, opening);
    assert LogLoss(opening.wal, Missing);
    var end := SizesAndTears(opening, t, Missing);
    FirstStep(first);
    Pair(first[0], first[1]);
    Single(off);
    SteadyJoin([off], second);
    Single(logged);
    SteadyJoin([off] + second, [logged]);
    SteadyJoin([off] + second + [logged], end);
    KillJoin([first[0], first[1]], [off] + second + [logged] + end);
    run := [first[0], first[1]] + ([off] + second + [logged] + end);
  }

  lemma FirstStep(run: seq<State>)
    requires Steady(run) && |run| >= 2 && !run[1].stage.Off?
    ensures Works(run[0], run[1])
  {
    hide Works;
  }

  /** The pages from `k` on, up to the sync. */
  lemma {:induction false} WritesAndSyncs(s: State, t: Task, first: bool, k: nat) returns (run: seq<State>)
    requires Replays(t) && s.stage == Writing(t, first, k) && k <= PageCount(t.buffer.image) && s.db.File?
    requires AppliedBelow(s.db.bytes, t.buffer, k) && |s.db.bytes| == |t.buffer.image|
    ensures Steady(run) && run != [] && run[0] == s
    ensures forall i :: 0 <= i < |run| ==> run[i].stage.Writing? || run[i].stage.DataSynced?
    ensures run[|run| - 1] == s.(db := File(s.db.named, t.buffer.image, t.buffer.image), stage := DataSynced(t, first))
    decreases PageCount(t.buffer.image) - k
  {
    hide IsWal, WalRecord, Works, AppliedBelow, WithPage, Steady, ImageDenotes;
    var image := t.buffer.image;
    if k == PageCount(image) {
      AllApplied(s.db.bytes, t.buffer);
      var synced := s.(db := File(s.db.named, image, image), stage := DataSynced(t, first));
      assert SyncData(s, synced);
      WorksSync(s, synced);
      run := [s, synced];
      Pair(s, synced);
    } else {
      var next := s.(db := s.db.(bytes := WithPage(s.db.bytes, k, PageAt(image, k))),
          stage := Writing(t, first, k + 1));
      OnePage(s, next, t, first, k);
      var rest := WritesAndSyncs(next, t, first, k + 1);
      Single(s);
      SteadyJoin([s], rest);
      run := [s] + rest;
    }
  }

  lemma WorksSync(s: State, s': State)
    requires SyncData(s, s')
    ensures Works(s, s')
  {
    hide SyncData;
  }

  lemma OnePage(s: State, next: State, t: Task, first: bool, k: nat)
    requires Replays(t) && s.stage == Writing(t, first, k) && k < PageCount(t.buffer.image) && s.db.File?
    requires AppliedBelow(s.db.bytes, t.buffer, k) && |s.db.bytes| == |t.buffer.image|
    requires PAGE_SIZE * (k + 1) <= |t.buffer.image|
    requires next == s.(db := s.db.(bytes := WithPage(s.db.bytes, k, PageAt(t.buffer.image, k))),
                 stage := Writing(t, first, k + 1))
    ensures Works(s, next) && AppliedBelow(next.db.bytes, t.buffer, k + 1)
  {
    hide IsWal, WalRecord, ImageDenotes, WithPage;
    PageApplied(s.db.bytes, t.buffer, k);
    assert k in Range(0, PageCount(t.buffer.image));
    assert WriteData(s, next);
  }

  /** From an opened database file to the synced pages. */
  lemma AppliesAndSyncs(s: State, t: Task) returns (run: seq<State>)
    requires Replays(t) && s.stage == Opening(t) && s.pending == Some(Flying(t))
    ensures Steady(run) && run != [] && run[0] == s && (forall i :: 0 <= i < |run| ==> !run[i].stage.Off?)
    ensures var named := s.db.File? && s.db.named;
      run[|run| - 1] ==
        s.(db := File(named, t.buffer.image, t.buffer.image), stage := DataSynced(t, s.db.Missing?), touched := true)
  {
    hide IsWal, AtMost, WalRecord, ImageDenotes, AppliedBelow, Resized, Steady, BufferOk;
    var size := |t.buffer.image|;
    TaskIsWal(t);
    ReplayTask(Record(t), t);
    ResizedApplies(Contents(s.db), t.buffer);
    var s1 := s.(db := if s.db.Missing? then File(false, [], Resized([], size))
                       else s.db.(bytes := Resized(s.db.bytes, size)),
                 stage := Writing(t, s.db.Missing?, 0), touched := true);
    assert SizeData(s, s1);
    var rest := WritesAndSyncs(s1, t, s.db.Missing?, 0);
    Single(s);
    SteadyJoin([s], rest);
    run := [s] + rest;
  }

  /** The database of a first commit is synced and not named: recovery finds the
      file, never names it and drops the log.  The commit is acknowledged, and a
      power loss takes the whole table away. */
  lemma UnnamedDataRuins(t: Task) returns (run: seq<State>, k: nat)
    requires Replays(t)
    ensures k + 1 < |run| && Ruined(run) && OneKill(run, k) && run[k].stage == DataSynced(t, true)
    ensures var lost := run[|run| - 3];
      lost.stage.Ready? && lost.committed == Some(t.buffer.image) && run[|run| - 1].db.Missing?
  {
    hide IsWal, AtMost, WalRecord, Committable, ImageDenotes, BufferOk, TaskOk, Steady, OneKill, PowerLoss, Stale;
    var front := WritesRecord(State(Missing, Missing, Ready, None, None, false), t);
    var opening := NamesLog(front[2], t);
    SteadyJoin(front, opening);
    var first := AppliesAndSyncs(opening[1], t);
    SyncedJoin(front + opening, first);
    var before := front + opening + first[1..];
    k := |before| - 1;
    var killed := before[k].(stage := Off);
    TaskAtMost(t);
    var back := ReopensAndLoses(killed, t);
    KillJoin(before, back);
    run := before + back;
  }

  /** The same as soon as the file is created. */
  lemma CreatedDataRuins(t: Task) returns (run: seq<State>, k: nat)
    requires Replays(t)
    ensures k + 1 < |run| && Ruined(run) && OneKill(run, k) && run[k].stage == Writing(t, true, 0)
    ensures var lost := run[|run| - 3];
      lost.stage.Ready? && lost.committed == Some(t.buffer.image) && run[|run| - 1].db.Missing?
  {
    hide IsWal, AtMost, WalRecord, Committable, ImageDenotes, BufferOk, TaskOk, Steady, OneKill, PowerLoss, Stale,
      Resized;
    var front := WritesRecord(State(Missing, Missing, Ready, None, None, false), t);
    var opening := NamesLog(front[2], t);
    SteadyJoin(front, opening);
    var size := |t.buffer.image|;
    var writing := opening[1].(db := File(false, [], Resized([], size)), stage := Writing(t, true, 0), touched := true);
    assert SizeData(opening[1], writing);
    Single(writing);
    SteadyJoin(front + opening, [writing]);
    var before := front + opening + [writing];
    k := |before| - 1;
    var killed := writing.(stage := Off);
    EmptyResized(t);
    var back := ReopensAndLoses(killed, t);
    KillJoin(before, back);
    run := before + back;
  }

  lemma EmptyResized(t: Task)
    requires Replays(t)
    ensures AtMost(Resized([], |t.buffer.image|), t.generation)
  {
    hide AtMost, Resized, ImageDenotes;
    TaskAtMost(t);
    EmptyAtMost(t.generation);
    ResizedAtMost([], t.generation, |t.buffer.image|);
  }

  /** Two runs that meet in a state. */
  lemma SyncedJoin(a: seq<State>, b: seq<State>)
    requires Steady(a) && Steady(b) && a != [] && |b| >= 1 && a[|a| - 1] == b[0]
    ensures Steady(a + b[1..]) && (a + b[1..])[|a + b[1..]| - 1] == b[|b| - 1]
  {
    hide Works, PowerLoss;
    var c := a + b[1..];
    forall i | 0 < i < |c| ensures Works(c[i - 1], c[i]) || PowerLoss(c[i - 1], c[i]) {
      assert i >= |a| ==> c[i - 1] == b[i - |a|] && c[i] == b[i + 1 - |a|];
    }
  }

  lemma NamesLog(s: State, t: Task) returns (run: seq<State>)
    requires s.stage == Logging(t, true, |Record(t)|) && s.wal == File(false, [], Record(t))
    ensures Steady(run) && |run| == 2 && Works(s, run[0])
    ensures run[1] == s.(wal := Settled(Record(t)), stage := Opening(t))
  {
    hide IsWal, WalRecord;
    var logged := s.(wal := s.wal.(synced := s.wal.bytes), stage := Logged(t, true));
    var opening := s.(wal := Settled(Record(t)), stage := Opening(t));
    assert SyncLog(s, logged);
    assert NameLog(logged, opening);
    Pair(logged, opening);
    run := [logged, opening];
  }

  /** A killed first commit in front of its log, the database without a name. */
  ghost predicate Unnamed(s: State, t: Task) {
    && s.db.File? && !s.db.named && AtMost(s.db.bytes, t.generation)
    && s == State(s.db, Settled(Record(t)), Off, None, Some(Flying(t)), true)
  }

  lemma ReopensAndLoses(s: State, t: Task) returns (run: seq<State>)
    requires Replays(t) && Unnamed(s, t)
    ensures Steady(run) && |run| >= 3 && run[0] == s
    ensures run[|run| - 3].stage.Ready? && run[|run| - 3].committed == Some(t.buffer.image)
    ensures PowerLoss(run[|run| - 3], run[|run| - 2]) && Works(run[|run| - 2], run[|run| - 1])
    ensures run[|run| - 1].stage.Ready? && run[|run| - 1].db.Missing?
    ensures !OldOrNew(run[|run| - 3], Content(run[|run| - 1].db))
  {
    hide IsWal, AtMost, WalRecord, ImageDenotes, BufferOk, TaskOk, Steady, Stale, PowerLoss, Works;
    NothingClean(t);
    var opening := s.(stage := Opening(t));
    ReplayStarts(s, opening, t);
    var applied := AppliesAndSyncs(opening, t);
    Single(s);
    SteadyJoin([s], applied);
    var end := DropsLogAndLoses(applied[|applied| - 1], t);
    SteadyJoin([s] + applied, end);
    run := [s] + applied + end;
  }

  lemma ReplayStarts(s: State, opening: State, t: Task)
    requires Replays(t) && Unnamed(s, t)
    requires opening == s.(stage := Opening(t))
    ensures Works(s, opening)
  {
    hide IsWal, AtMost, WalRecord, ImageDenotes, BufferOk, Stale;
    NothingClean(t);
    NotStale(s.db, t.generation);
    assert RecoverReplay(s, opening);
  }

  lemma DropsLogAndLoses(s: State, t: Task) returns (run: seq<State>)
    requires s == State(File(false, t.buffer.image, t.buffer.image), Settled(Record(t)), DataSynced(t, false), None,
                 Some(Flying(t)), true)
    ensures Steady(run) && |run| == 5 && Works(s, run[0])
    ensures run[2].stage.Ready? && run[2].committed == Some(t.buffer.image) && PowerLoss(run[2], run[3])
    ensures Works(run[3], run[4])
    ensures run[4].stage.Ready? && run[4].db.Missing? && !OldOrNew(run[2], Content(run[4].db))
  {
    hide IsWal, WalRecord, AtMost;
    var s1 := s.(stage := Truncating(t));
    var s2 := s1.(wal := s1.wal.(bytes := []), stage := Truncated(t));
    var s3 := s2.(wal := Settled([]), stage := Ready, committed := Some(t.buffer.image), pending := None,
        touched := false);
    var s4 := s3.(db := Missing, stage := Off);
    var s5 := s4.(stage := Ready, committed := None);
    assert NameData(s, s1);
    assert TruncateLog(s1, s2);
    assert Finish(s2, s3);
    assert PagesLoss(s3.db, Missing) && LogLoss(s3.wal, s3.wal);
    assert PowerLoss(s3, s4);
    assert RecoverNothing(s4, s5);
    run := [s1, s2, s3, s4, s5];
  }
}
