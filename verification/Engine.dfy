/** Commit and recovery as code: every state it passes through is a step of
    the protocol, so the crash theorems hold between any two statements. */
module Engine {
  import opened Ordering
  import opened Codec
  import opened PageCodec
  import opened IndexGrowth
  import opened TableImage
  import opened ImageCodec
  import opened IncrementalInsert
  import opened PageBuffer
  import opened Wal
  import opened CrashModel
  import opened CommitProtocol
  import opened Recovery
  import opened CrashRuns

  /** From position `from` on no call has returned, and this is the image
      acknowledged last and this the one in flight. */
  ghost predicate Since(h: seq<State>, from: nat, committed: Option<Bytes>, pending: Option<WalImage>) {
    forall k :: from <= k < |h| ==> !h[k].stage.Ready? && h[k].committed == committed && h[k].pending == pending
  }

  lemma SinceNow(h: seq<State>, committed: Option<Bytes>, pending: Option<WalImage>)
    ensures Since(h, |h|, committed, pending)
  {
  }

  lemma SinceJoin(a: seq<State>, b: seq<State>, from: nat, committed: Option<Bytes>, pending: Option<WalImage>)
    requires a <= b && Since(a, from, committed, pending) && Since(b, |a|, committed, pending)
    ensures Since(b, from, committed, pending)
  {
  }

  class Store {
    var db: File
    var wal: File
    /** Every protocol state so far, the last one being the present. */
    ghost var history: seq<State>

    ghost predicate Valid()
      reads this
    {
      history != [] && Now().db == db && Now().wal == wal && Weak(Now()) && Stepwise(history)
    }

    ghost function Now(): State
      requires history != []
      reads this
    {
      history[|history| - 1]
    }

    ghost predicate In(stage: Stage)
      reads this
    {
      Valid() && Now().stage == stage
    }

    /** A process that starts on the files a crash, or nothing, left. */
    constructor (db0: File, wal0: File, ghost start: State)
      requires Weak(start) && start.stage.Off? && start.db == db0 && start.wal == wal0
      ensures In(Off) && history == [start] && db == db0 && wal == wal0
    {
      db, wal, history := db0, wal0, [start];
    }

    /** Records the step that was just made. */
    ghost method Note(s: State, from: nat)
      requires history != [] && Weak(Now()) && Works(Now(), s) && s.db == db && s.wal == wal
      requires Stepwise(history)
      modifies this`history
      ensures Valid() && Now() == s && history == old(history) + [s]
      ensures old(Since(history, from, s.committed, s.pending)) && !s.stage.Ready? ==>
                Since(history, from, s.committed, s.pending)
    {
      hide Weak, Works;
      StepKeepsWeak(Now(), s);
      history := history + [s];
    }

    /** Opening the log, writing it in pieces of any size, and syncing it. */
    method WriteRecord(task: Task)
      requires In(Ready) && Committable(db, task)
      modifies this
      ensures In(Opening(task)) && db == old(db) && old(history) <= history
      ensures Now().committed == old(Now()).committed && InProgress(Now(), task)
      ensures Since(history, |old(history)|, Now().committed, Now().pending)
    {
      hide Since, Weak, TaskOk, WalRecord, CleanPagesPresent, FileAtMost, SizeData, WriteData, SyncData, NameData,
        TruncateLog, Finish, RecoverNothing, RecoverReplay, RecoverRefuse, NextCall;
      ghost var s, from := Now(), |history|;
      SinceNow(history, s.committed, Some(WalImage(task.buffer.image, task.generation)));
      var record := EncodeWal(task.buffer.image, task.generation);
      var firstLog := wal.Missing?;
      wal := if firstLog then File(false, [], []) else wal.(bytes := []);
      s := s.(wal := wal, stage := Logging(task, firstLog, 0),
          pending := Some(WalImage(task.buffer.image, task.generation)));
      assert BeginCommit(Now(), s);
      Note(s, from);
      var done := 0;
      while done < |record|
        invariant done <= |record| && In(Logging(task, firstLog, done)) && wal.File? && wal.bytes == record[..done]
        invariant db == old(db)
        invariant old(history) <= history
        invariant Now().committed == old(Now()).committed && InProgress(Now(), task)
        invariant Since(history, from, Now().committed, Now().pending)
      {
        var written: nat :| 1 <= written <= |record| - done;
        done := done + written;
        s := Now();
        wal := wal.(bytes := record[..done]);
        s := s.(wal := wal, stage := Logging(task, firstLog, done));
        assert WriteLog(Now(), s);
        Note(s, from);
      }
      s := Now();
      wal := wal.(synced := wal.bytes);
      s := s.(wal := wal, stage := Logged(task, firstLog));
      assert SyncLog(Now(), s);
      Note(s, from);
      if firstLog {
        wal := wal.(named := true);
      }
      s := s.(wal := wal, stage := Opening(task));
      assert NameLog(Now(), s);
      Note(s, from);
    }

    /** One page, in pieces of any size. */
    method WritePage(task: Task, firstData: bool, page: nat, ghost next: nat)
      requires In(Writing(task, firstData, next)) && db.File? && next <= page && page in task.buffer.dirtyPages
      requires forall q: nat :: next <= q < page ==> q !in task.buffer.dirtyPages
      modifies this
      ensures In(Writing(task, firstData, page + 1)) && db.File? && wal == old(wal) && old(history) <= history
      ensures Now().committed == old(Now()).committed && Now().pending == old(Now()).pending
      ensures Since(history, |old(history)|, Now().committed, Now().pending)
    {
      hide Since, Weak, TaskOk, WalRecord, Works, WithPage, Piece;
      var image := task.buffer.image;
      ghost var from := |history|;
      SinceNow(history, Now().committed, Now().pending);
      BufferBounds(Now(), task);
      ghost var s;
      var done := 0;
      while done < PAGE_SIZE
        invariant done <= PAGE_SIZE && In(Writing(task, firstData, if done < PAGE_SIZE then next else page + 1))
        invariant db.File? && wal == old(wal)
        invariant |db.bytes| == |image| && PAGE_SIZE * (page + 1) <= |image|
        invariant old(history) <= history && Now().committed == old(Now()).committed
        invariant Now().pending == old(Now()).pending
        invariant Since(history, from, Now().committed, Now().pending)
        decreases PAGE_SIZE - done
      {
        var written: nat :| 1 <= written <= PAGE_SIZE - done;
        done := done + written;
        s := Now();
        if done < PAGE_SIZE {
          db := db.(bytes := Piece(db.bytes, page, done, image));
          s := s.(db := db);
          PieceWorks(Now(), s, page, done);
        } else {
          db := db.(bytes := WithPage(db.bytes, page, PageAt(image, page)));
          s := s.(db := db, stage := Writing(task, firstData, page + 1));
          assert WriteData(Now(), s);
          WorksWrite(Now(), s);
        }
        Note(s, from);
      }
    }

    /** The dirty pages, in ascending order. */
    method WriteDirtyPages(task: Task, firstData: bool) returns (ghost next: nat)
      requires In(Writing(task, firstData, 0)) && db.File?
      modifies this
      ensures In(Writing(task, firstData, next)) && db.File? && wal == old(wal) && old(history) <= history
      ensures forall p :: p in task.buffer.dirtyPages ==> p < next
      ensures Now().committed == old(Now()).committed && Now().pending == old(Now()).pending
      ensures Since(history, |old(history)|, Now().committed, Now().pending)
    {
      hide Since, Weak, TaskOk, WalRecord, Works;
      next := 0;
      ghost var from := |history|;
      SinceNow(history, Now().committed, Now().pending);
      BufferBounds(Now(), task);
      for page := 0 to PageCount(task.buffer.image)
        invariant next <= page && In(Writing(task, firstData, next)) && db.File? && wal == old(wal)
        invariant forall q: nat :: q < page && q in task.buffer.dirtyPages ==> q < next
        invariant old(history) <= history && Now().committed == old(Now()).committed
        invariant Now().pending == old(Now()).pending
        invariant Since(history, from, Now().committed, Now().pending)
      {
        if page in task.buffer.dirtyPages {
          ghost var before := history;
          WritePage(task, firstData, page, next);
          SinceJoin(before, history, from, Now().committed, Now().pending);
          next := page + 1;
        }
      }
    }

    /** `apply_image`: size, write the dirty pages, sync. */
    method ApplyImage(task: Task)
      requires In(Opening(task))
      modifies this
      ensures In(Truncating(task)) && db.File? && db.bytes == task.buffer.image && wal.File? && wal == old(wal)
      ensures old(history) <= history
      ensures Now().committed == old(Now()).committed && Now().pending == old(Now()).pending
      ensures Since(history, |old(history)|, Now().committed, Now().pending)
    {
      hide Since, Weak, TaskOk, WalRecord, AtMost, Resized, BeginCommit, WriteLog, SyncLog, NameLog, WriteData,
        TruncateLog, Finish, RecoverNothing, RecoverReplay, RecoverRefuse, NextCall;
      ghost var s, from := Now(), |history|;
      SinceNow(history, s.committed, s.pending);
      var image := task.buffer.image;
      var firstData := db.Missing?;
      db := if firstData then File(false, [], Resized([], |image|)) else db.(bytes := Resized(db.bytes, |image|));
      s := s.(db := db, stage := Writing(task, firstData, 0), touched := s.touched || InProgress(s, task));
      assert SizeData(Now(), s);
      Note(s, from);
      ghost var sized := history;
      ghost var next := WriteDirtyPages(task, firstData);
      s := Now();
      SinceJoin(sized, history, from, s.committed, s.pending);
      db := db.(synced := db.bytes);
      s := s.(db := db, stage := DataSynced(task, firstData));
      assert SyncData(Now(), s);
      Note(s, from);
      if firstData {
        db := db.(named := true);
      }
      s := s.(db := db, stage := Truncating(task));
      assert NameData(Now(), s);
      Note(s, from);
      WrittenWhole(Now(), task);
    }

    /** `clear_wal`. */
    method ClearWal(ghost task: Task)
      requires In(Truncating(task)) && wal.File?
      modifies this
      ensures In(Ready) && db == old(db) && LogEmpty(wal) && old(history) <= history
      ensures Now().committed == Some(task.buffer.image) && Now().pending.None? && |old(history)| < |history|
      ensures Since(history[..|history| - 1], |old(history)|, old(Now()).committed, old(Now()).pending)
    {
      hide Since, Weak, TaskOk, WalRecord;
      ghost var s, from := Now(), |history|;
      SinceNow(history, s.committed, s.pending);
      wal := wal.(bytes := []);
      s := s.(wal := wal, stage := Truncated(task));
      assert TruncateLog(Now(), s);
      Note(s, from);
      s := Now();
      wal := wal.(synced := wal.bytes);
      s := s.(wal := wal, stage := Ready, committed := Some(task.buffer.image), pending := None, touched := false);
      assert Finish(Now(), s);
      ghost var before := history;
      Note(s, from);
      assert history[..|history| - 1] == before;
    }

    /** What a commit and a replay end with. */
    method ApplyAndClear(task: Task)
      requires In(Opening(task))
      modifies this
      ensures In(Ready) && db.File? && db.bytes == task.buffer.image && LogEmpty(wal)
      ensures Now().committed == Some(task.buffer.image) && Now().pending.None?
      ensures old(history) <= history && |old(history)| < |history|
      ensures Since(history[..|history| - 1], |old(history)|, old(Now()).committed, old(Now()).pending)
    {
      hide Since, Weak, TaskOk, WalRecord, AtMost;
      ApplyImage(task);
      ghost var applied := history;
      ClearWal(task);
      SinceJoin(applied, history[..|history| - 1], |old(history)|, old(Now()).committed, old(Now()).pending);
    }

    /** `commit_image`. */
    method CommitImage(image: Bytes, generation: nat, dirtyPages: set<nat>) returns (r: Result<()>)
      requires In(Ready) && |image| < U64 && generation < U64
      requires exists t :: ImageDenotes(image, t) && t.generation == generation
      requires FileAtMost(db, generation) && (forall p :: p in dirtyPages ==> p < PageCount(image))
      requires dirtyPages != {} ==> CleanPagesPresent(Contents(db), Buffer(image, dirtyPages))
      modifies this
      ensures r.Ok? && In(Ready) && db.File? && db.bytes == image && old(history) <= history
      ensures |old(history)| < |history|
      ensures Now().committed == Some(image) && Now().pending.None?
      ensures Since(history[..|history| - 1], |old(history)|, old(Now()).committed, Some(WalImage(image, generation)))
    {
      hide Since, Weak, WalRecord, FileAtMost, ImageDenotes, IsWal;
      DenotedSize(image, generation);
      var buffer := MakeBuffer(image, dirtyPages);
      if buffer.Err? { return Err(InvalidArgument); }
      var task := Task(buffer.value, generation);
      if dirtyPages == {} {
        assert CleanPagesPresent(Contents(db), buffer.value);
      }
      assert TaskOk(task);
      ghost var flying := Some(WalImage(image, generation));
      WriteRecord(task);
      ghost var logged := history;
      ApplyAndClear(task);
      SinceJoin(logged, history[..|history| - 1], |old(history)|, old(Now()).committed, flying);
      r := Ok(());
    }

    /** The image of the log is written, every page of it. */
    method Replay(w: WalImage) returns (r: Result<()>)
      requires In(Off) && wal.File? && wal.bytes != [] && IsWal(wal.bytes, w.image, w.generation)
      requires !Stale(db, w.generation)
      modifies this
      ensures r.Ok? && In(Ready) && db.File? && db.bytes == w.image && LogEmpty(wal)
      ensures Now().committed == Some(w.image) && Now().pending.None?
      ensures old(history) <= history && |old(history)| < |history|
      ensures Since(history[..|history| - 1], |old(history)|, old(Now()).committed, old(Now()).pending)
    {
      hide Since, Weak, WalRecord, ImageDenotes, IsWal, Stale;
      ghost var start, from := Now(), |history|;
      SinceNow(history, start.committed, start.pending);
      var buffer := MakeBuffer(w.image, {});
      RecordDenotes(wal.bytes, w.image, w.generation);
      DenotedSize(w.image, w.generation);
      if buffer.Err? { return Err(Corruption); }
      var task := Task(buffer.value, w.generation);
      assert task.buffer == Everything(task.buffer.image) by { AllPages(task.buffer); }
      ghost var s := start.(stage := Opening(task));
      assert RecoverReplay(start, s);
      Note(s, from);
      ghost var replayed := history;
      ApplyAndClear(task);
      SinceJoin(replayed, history[..|history| - 1], from, start.committed, start.pending);
      r := Ok(());
    }

    /** `recover`: leaves the old or the new image, or refuses and changes
        nothing. */
    method Recover() returns (r: Result<()>)
      requires In(Off)
      modifies this
      ensures r.Ok? ==> In(Ready) && LogEmpty(wal)
      ensures r.Ok? ==> ShowsOld(old(Now()).(db := db)) || ShowsNew(old(Now()).(db := db))
      ensures r.Ok? && old(LeftWholeLog(Now())) ==> ShowsNew(old(Now()).(db := db))
      ensures r.Ok? && !LogEmpty(old(wal)) && !old(LeftWholeLog(Now())) ==>
                old(LeftOldLog(Now())) && ShowsOld(old(Now()).(db := db))
      ensures r.Ok? && LogEmpty(old(wal)) ==> db == old(db) && wal == old(wal)
      ensures r.Err? ==> In(Refused) && db == old(db) && wal == old(wal) && ShowsOld(Now())
      ensures r.Err? <==> LeftTornLog(old(Now()))
      ensures r.Ok? ==> Now().committed == (if db.Missing? then None else Some(db.bytes)) && Now().pending.None?
      ensures old(history) <= history && |old(history)| < |history|
      ensures LogEmpty(old(wal)) ==> |history| == |old(history)| + 1
      ensures Since(history[..|history| - 1], |old(history)|, old(Now()).committed, old(Now()).pending)
    {
      hide Since, Weak, WalRecord, ImageDenotes, IsWal, Denotes, Stores, Stale, LengthRejects;
      ghost var start, from := Now(), |history|;
      FiveWays(start);
      SinceNow(history, start.committed, start.pending);
      ghost var s := start;
      if wal.Missing? || wal.bytes == [] {
        s := s.(stage := Ready, committed := if db.Missing? then None else Some(db.bytes), pending := None,
            touched := false);
        assert RecoverNothing(Now(), s);
        Note(s, from);
        assert history[..|history| - 1] == old(history);
        return Ok(());
      }
      var parsed := ParseWal(wal.bytes);
      if parsed.Err? {
        s := s.(stage := Refused);
        assert RecoverRefuse(Now(), s);
        Note(s, from);
        assert history[..|history| - 1] == old(history);
        NoRecordTorn(start);
        return Err(Corruption);
      }
      RecordWhole(start, parsed.value);
      if db.File? {
        var check, pages;
        ghost var l;
        check, pages, l := ParseImage(db.bytes);
        if check.Ok? {
          NotLater(db, parsed.value.generation, check.value);
          if check.value.generation > parsed.value.generation { return Err(Corruption); }
        }
      }
      r := Replay(parsed.value);
    }

    /** `open_table`. */
    method OpenTable() returns (r: Result<Table>)
      requires In(Off)
      modifies this
      ensures r.Ok? ==>
                && In(Ready) && db.File? && ImageDenotes(db.bytes, r.value) && LogEmpty(wal)
                && WillShow(old(Now()), db.bytes)
      ensures forall image, t :: old(WillShow(Now(), image)) && ImageDenotes(image, t) ==>
                r == Ok(t) && db.bytes == image && LogEmpty(wal)
      ensures forall image :: old(WillShow(Now(), image)) ==>
                In(Ready) && db.File? && db.bytes == image && LogEmpty(wal)
      ensures old(history) <= history && |old(history)| < |history|
      ensures Since(history[..|history| - 1], |old(history)|, old(Now()).committed, old(Now()).pending)
    {
      hide Since, Weak, ImageDenotes, Denotes, Stores, WalRecord;
      ghost var start := Now();
      FiveWays(start);
      var recovered := Recover();
      if recovered.Err? { return Err(Corruption); }
      if db.Missing? { return Err(RuntimeError); }
      var pages;
      ghost var l;
      r, pages, l := ParseImage(db.bytes);
      forall t | ImageDenotes(db.bytes, t) ensures r == Ok(t) {
        if r.Ok? { ImageDenotesUnique(db.bytes, t, r.value); }
      }
    }
  }

  lemma PieceWorks(s: State, s': State, page: nat, n: nat)
    requires s.stage.Writing? && s.db.File? && PieceOf(s, page, n)
    requires s' == s.(db := s.db.(bytes := Piece(s.db.bytes, page, n, s.stage.task.buffer.image)))
    ensures Works(s, s')
  {
    hide Piece;
    assert WritePiece(s, s');
  }

  lemma WorksWrite(s: State, s': State)
    requires WriteData(s, s')
    ensures Works(s, s')
  {
    hide WriteData;
  }

  lemma BufferBounds(s: State, task: Task)
    requires Weak(s) && s.stage.Writing? && s.stage.task == task
    ensures BufferOk(task.buffer) && |s.db.bytes| == |task.buffer.image|
  {
    hide WalRecord, ImageDenotes, IsWal, AtMost;
  }

  lemma WrittenWhole(s: State, task: Task)
    requires Weak(s) && s.stage == Truncating(task)
    ensures s.db.File? && s.db.bytes == task.buffer.image && s.wal.File?
  {
    hide WalRecord, ImageDenotes, IsWal, AtMost;
  }

  lemma DenotedSize(image: Bytes, generation: nat)
    requires exists t :: ImageDenotes(image, t) && t.generation == generation
    ensures image != [] && |image| % PAGE_SIZE == 0 && PageCount(image) < U32
  {
    hide StreamsDenote, IndexesDenote, Partition, FieldsOk, SuperDenotes, ImageOf;
    var table :| ImageDenotes(image, table) && table.generation == generation;
    var pages: seq<Page>, l: Layout :| pages != [] && Stores(image, pages) && Denotes(pages, l, table);
    StoredSize(image, pages);
  }

  lemma FiveWays(s: State)
    requires Weak(s) && s.stage.Off?
    ensures InFlight(s) && (LeftOld(s) || LeftNew(s) || LeftTornLog(s) || LeftWholeLog(s) || LeftOldLog(s))
    ensures LeftTornLog(s) ==> !LeftOld(s) && !LeftNew(s) && !LeftWholeLog(s) && !LeftOldLog(s)
    ensures LeftWholeLog(s) || LeftOldLog(s) ==> !LogEmpty(s.wal)
  {
    hide WalRecord, ImageDenotes, IsWal, AtMost;
    if LeftOldLog(s) {
      OldLogNotEmpty(s.wal.bytes, s.committed);
      var g :| IsWal(s.wal.bytes, s.committed.value, g);
      if LeftTornLog(s) { TornIsNoWal(s, s.committed.value, g); }
    }
    if s.pending.Some? { NoEmptyWal(s.pending.value.image, s.pending.value.generation); }
  }

  lemma NoRecordTorn(s: State)
    requires Weak(s) && s.stage.Off? && !LogEmpty(s.wal) && forall image, g :: !IsWal(s.wal.bytes, image, g)
    ensures LeftTornLog(s)
  {
    hide WalRecord, ImageDenotes, IsWal, AtMost;
  }

  lemma RecordWhole(s: State, w: WalImage)
    requires Weak(s) && s.stage.Off? && s.wal.File? && s.wal.bytes != [] && IsWal(s.wal.bytes, w.image, w.generation)
    ensures (LeftWholeLog(s) && s.pending == Some(w)) || (LeftOldLog(s) && s.committed == Some(w.image))
    ensures LeftWholeLog(s) ==> s.pending == Some(w)
    ensures !Stale(s.db, w.generation) && !LeftTornLog(s)
  {
    hide WalRecord, ImageDenotes, IsWal, AtMost, Stale;
    NeverStale(s, w.image, w.generation);
    FiveWays(s);
    if LeftTornLog(s) {
      TornIsNoWal(s, w.image, w.generation);
    } else if LeftWholeLog(s) {
      WalUnique(s.wal.bytes, w.image, w.generation, s.pending.value.image, s.pending.value.generation);
    } else {
      OldLogIsOld(s, w.image, w.generation);
    }
  }

  lemma NotLater(db: File, g: nat, t: Table)
    requires !Stale(db, g) && db.File? && ImageDenotes(db.bytes, t)
    ensures t.generation <= g
  {
    hide ImageDenotes;
  }

  lemma AllPages(b: Buffer)
    requires forall p: nat :: p in b.dirtyPages <==> p < PageCount(b.image)
    ensures b == Everything(b.image)
  {
    assert b.dirtyPages == Range(0, PageCount(b.image));
  }

  lemma RecordDenotes(w: Bytes, image: Bytes, g: nat)
    requires IsWal(w, image, g)
    ensures exists t :: ImageDenotes(image, t) && t.generation == g
  {
    hide WalRecord, ImageDenotes;
  }
}
