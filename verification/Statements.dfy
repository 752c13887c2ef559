/** The statements of the storage engine on a store that may have crashed. */
module Statements {
  import opened Ordering
  import opened Codec
  import opened PageCodec
  import opened Streams
  import opened TableImage
  import opened ImageCodec
  import opened TableState
  import opened RowInsert
  import opened IncrementalInsert
  import opened ImageBuilder
  import opened PageBuffer
  import opened Wal
  import opened CommitProtocol
  import opened Recovery
  import opened CrashRuns
  import opened Engine

  /** Room for one more insert below the last page identifier. */
  predicate Room(image: Bytes) { |image| / PAGE_SIZE + MAX_GROWTH <= NO_PAGE }

  // ----- a crash in the middle of a statement

  /** A process stopped in state `k`, and any run after it up to an open. */
  ghost predicate Reopened(h: seq<State>, kind: CrashKind, k: nat, tail: seq<State>, j: nat) {
    && k < |h| && Keeps(h[0], kind) && j < |tail| && Run(tail, kind) && Crashes(h[k], tail[0], kind)
    && Unreturned(tail, 0, j) && tail[j].stage.Ready?
  }

  ghost predicate OneOfTwo(tail: seq<State>, j: nat, before: Option<Bytes>, after: Bytes) {
    j < |tail| && (HoldsOld(tail[j].db, before) || HoldsOld(tail[j].db, Some(after)))
  }

  /** Wherever the process is stopped from `from` on, the next open shows one of
      the two. */
  ghost predicate AtomicFrom(h: seq<State>, from: nat, before: Option<Bytes>, after: Bytes) {
    forall kind, k: nat, tail, j: nat :: from <= k && Reopened(h, kind, k, tail, j) ==> OneOfTwo(tail, j, before, after)
  }

  /** Opened, committed over `before`, and returned. */
  lemma CommitIsAtomic(h: seq<State>, from: nat, before: Option<Bytes>, w: WalImage)
    requires Stepwise(h) && from + 1 < |h| && h[from].committed == before && h[from].pending.None?
    requires Since(h[..|h| - 1], from + 1, before, Some(w)) && h[|h| - 1].committed == Some(w.image)
    requires h[|h| - 1].pending.None?
    ensures AtomicFrom(h, from, before, w.image)
  {
    hide Stepwise, Keeps, Run, Crashes, Unreturned;
    forall kind, k: nat, tail, j: nat | from <= k && Reopened(h, kind, k, tail, j)
      ensures OneOfTwo(tail, j, before, w.image)
    {
      CrashAnywhere(h, kind, k, tail, j);
      if from < k < |h| - 1 { assert h[..|h| - 1][k] == h[k]; }
    }
  }

  /** No call returns before `to`, and the next open is settled at `from`. */
  lemma SettledIsAtomic(h: seq<State>, from: nat, to: nat, before: Option<Bytes>, after: Bytes)
    requires Stepwise(h) && from < to <= |h| && Weak(h[from]) && Settles(h[from], before)
    requires forall i :: from <= i < to - 1 ==> !h[i].stage.Ready?
    requires AtomicFrom(h, to, before, after)
    ensures AtomicFrom(h, from, before, after)
  {
    hide Stepwise, Keeps, Run, Crashes, Unreturned, Weak, Settles;
    forall kind, k: nat, tail, j: nat | from <= k && Reopened(h, kind, k, tail, j)
      ensures OneOfTwo(tail, j, before, after)
    {
      if k < to {
        SettledOn(h, from, k, before);
        SettledShows(h, kind, k, tail, j, before);
      }
    }
  }

  lemma NothingBehind(h: seq<State>, before: Option<Bytes>, after: Bytes)
    ensures AtomicFrom(h, |h|, before, after)
  {
  }

  lemma Returning(h: seq<State>, from: nat, committed: Option<Bytes>, pending: Option<WalImage>)
    requires h != [] && Since(h[..|h| - 1], from, committed, pending)
    ensures forall i :: from <= i < |h| - 1 ==> !h[i].stage.Ready?
  {
    assert forall i :: from <= i < |h| - 1 ==> h[i] == h[..|h| - 1][i];
  }

  /** What opened the files has changed nothing that the next open shows. */
  lemma OpenedIsAtomic(h: seq<State>, from: nat, committed: Option<Bytes>, pending: Option<WalImage>, image: Bytes)
    requires Stepwise(h) && from + 1 < |h| && Weak(h[from]) && h[from].stage.Off? && WillShow(h[from], image)
    requires Since(h[..|h| - 1], from + 1, committed, pending)
    ensures AtomicFrom(h, from, Some(image), image)
  {
    hide Stepwise, Weak, Since, WillShow, AtomicFrom, Settles;
    Returning(h, from + 1, committed, pending);
    ShowsSettles(h[from], image);
    NothingBehind(h, Some(image), image);
    SettledIsAtomic(h, from, |h|, Some(image), image);
  }

  /** The same when something atomic follows. */
  lemma OpenedThenAtomic(open: seq<State>, h: seq<State>, from: nat, to: nat, image: Bytes, after: Bytes,
          committed: Option<Bytes>, pending: Option<WalImage>)
    requires Stepwise(h) && open <= h && from + 1 < |open| && Weak(h[from]) && h[from].stage.Off?
    requires WillShow(h[from], image)
    requires Since(open[..|open| - 1], from + 1, committed, pending)
    requires |open| - 1 <= to <= |open| && AtomicFrom(h, to, Some(image), after)
    ensures AtomicFrom(h, from, Some(image), after)
  {
    hide Stepwise, Weak, Since, WillShow, AtomicFrom, Settles;
    Returning(open, from + 1, committed, pending);
    ShowsSettles(h[from], image);
    SettledIsAtomic(h, from, to, Some(image), after);
  }

  // ----- what an insert does

  ghost predicate Insertable(image: Bytes, row: Row) { exists t :: Extendable(image, t) && Fits(t, row) }

  /** An insert on the image shown: it succeeds exactly on an extendable image
      and a fitting row, and then gives the table with the row; otherwise it
      keeps the image.  Stopped anywhere from `from` on, the next open shows the
      image before or the image after. */
  ghost predicate InsertDone(store: Store, from: nat, image: Bytes, row: Row, ok: bool)
    reads store
  {
    && store.db.File? && (ok <==> Insertable(image, row))
    && (ok ==>
          && store.In(Ready)
          && forall t :: Extendable(image, t) && Fits(t, row) ==> Extendable(store.db.bytes, WithRow(t, row)))
    && (!ok ==> store.db.bytes == image)
    && AtomicFrom(store.history, from, Some(image), store.db.bytes)
  }

  lemma Smaller(size: nat, budget: nat)
    requires size <= PAGE_SIZE * budget && budget <= NO_PAGE + 3000
    ensures size < U64
  {
  }

  /** `create_from_rows`. */
  method CreateFromRows(store: Store, fields: seq<Key>, rows: seq<Row>) returns (r: Result<()>)
    requires store.In(Off) && |rows| < U64 && PageBudget(fields, rows) <= NO_PAGE
    modifies store
    ensures r.Ok? <==>
              old(store.db).Missing? && LogEmpty(old(store.wal)) && FieldsOk(fields) && Rectangular(rows, |fields|)
    ensures r.Ok? ==> store.In(Ready) && store.db.File? && Extendable(store.db.bytes, TableOf(fields, rows, 1))
    ensures r.Err? ==> store.db == old(store.db) && store.wal == old(store.wal)
    ensures r.Ok? ==> AtomicFrom(store.history, |old(store.history)| - 1, None, store.db.bytes)
  {
    hide AtomicFrom, Since, Weak, Works, ImageDenotes, Extendable, FieldsOk, Rectangular, PageBudget, BufferOk;
    if store.db.File? { return Err(RuntimeError); }
    if store.wal.File? && store.wal.bytes != [] { return Err(RuntimeError); }
    var image := BuildImage(fields, rows, 1);
    if image.Err? { return Err(InvalidArgument); }
    ghost var s := store.Now().(stage := Ready, committed := None, pending := None, touched := false);
    NothingToRecover(store.Now(), s);
    store.Note(s, 0);
    Smaller(|image.value|, PageBudget(fields, rows));
    ghost var t := TableOf(fields, rows, 1);
    assert ImageDenotes(image.value, t) && t.generation == 1;
    ghost var open := store.history;
    r := store.CommitImage(image.value, 1, {});
    CommitIsAtomic(store.history, |open| - 1, None, WalImage(image.value, 1));
    NothingSettles(open[|open| - 2]);
    SettledIsAtomic(store.history, |open| - 2, |open| - 1, None, image.value);
  }

  lemma NothingSettles(s: State)
    requires s.stage.Off? && LogEmpty(s.wal) && s.db.Missing?
    ensures Settles(s, None)
  {
    hide IsWal;
  }

  lemma NothingToRecover(s: State, s': State)
    requires s.stage.Off? && LogEmpty(s.wal) && s.db.Missing?
    requires s' == s.(stage := Ready, committed := None, pending := None, touched := false)
    ensures Works(s, s')
  {
    hide IsWal, Stale, WalRecord, Committable, WithPage, Resized;
    assert RecoverNothing(s, s');
  }

  /** What a commit needs to know about an incremental image. */
  lemma InsertCommits(current: Bytes, next: IncrementalImage, t: Table, row: Row)
    requires Extendable(current, t) && Fits(t, row) && Extendable(next.image, WithRow(t, row))
    requires next.generation == t.generation + 1
    requires DirtyComplete(current, next.image, next.dirtyPages)
    ensures exists u :: ImageDenotes(next.image, u) && u.generation == next.generation
    ensures AtMost(current, next.generation) && next.generation < U64
    ensures forall p :: p in next.dirtyPages ==> p < PageCount(next.image)
    ensures CleanPagesPresent(current, Buffer(next.image, next.dirtyPages))
  {
    hide Extendable, ImageDenotes, AtMost, ColumnIndex, StringsOk;
    ExtendableDenotes(current, t);
    ExtendableDenotes(next.image, WithRow(t, row));
    ImageAtMost(current, t, next.generation);
    DirtyCompleteIsEnough(current, next.image, next.dirtyPages);
  }

  /** `insert_row`: recover, build the next image, commit its dirty pages. */
  method InsertRow(store: Store, row: Row) returns (r: Result<()>)
    requires store.In(Off)
    requires forall image :: WillShow(store.Now(), image) ==> Room(image)
    modifies store
    ensures store.Valid() && old(store.history) <= store.history
    ensures r.Ok? ==> store.In(Ready)
    ensures forall image :: old(WillShow(store.Now(), image)) ==>
              InsertDone(store, |old(store.history)| - 1, image, row, r.Ok?)
  {
    hide AtomicFrom, Since, Weak, Works, ImageDenotes, Extendable, Fits, WithRow, DirtyComplete, BufferOk, WalRecord,
      IsWal, AtMost, CleanPagesPresent;
    ghost var start := store.Now();
    ShownCases(start);
    var recovered := store.Recover();
    if recovered.Err? { return Err(Corruption); }
    if store.db.Missing? { return Err(RuntimeError); }
    var current := store.db.bytes;
    assert WillShow(start, current);
    forall image | WillShow(start, image) ensures image == current { OneShown(start, image, current); }
    ghost var from, open := |old(store.history)| - 1, store.history;
    OpenedIsAtomic(open, from, start.committed, start.pending, current);
    var next := BuildIncrementalInsert(current, row);
    forall t, u | Extendable(current, t) && Extendable(current, u) ensures t == u {
      ExtendableDenotes(current, t);
      ExtendableDenotes(current, u);
      ImageDenotesUnique(current, t, u);
    }
    if next.Err? { return Err(InvalidArgument); }
    ghost var t :| Extendable(current, t) && Fits(t, row);
    InsertCommits(current, next.value, t, row);
    RoomForLog(current, next.value.image);
    r := store.CommitImage(next.value.image, next.value.generation, next.value.dirtyPages);
    CommitIsAtomic(store.history, |open| - 1, Some(current), WalImage(next.value.image, next.value.generation));
    OpenedThenAtomic(open, store.history, from, |open| - 1, current, store.db.bytes, start.committed, start.pending);
  }

  lemma RoomForLog(current: Bytes, image: Bytes)
    requires Room(current) && |image| <= |current| + PAGE_SIZE * MAX_GROWTH
    ensures |image| < U64
  {
    assert |current| <= PAGE_SIZE * (|current| / PAGE_SIZE + 1);
  }

  lemma OneShown(s: State, a: Bytes, b: Bytes)
    requires Weak(s) && s.stage.Off? && WillShow(s, a) && WillShow(s, b)
    ensures a == b
  {
    FiveWays(s);
  }

  lemma ShownCases(s: State)
    requires Weak(s) && s.stage.Off?
    ensures LeftTornLog(s) ==> forall image :: !WillShow(s, image)
    ensures !LeftTornLog(s) && !LogEmpty(s.wal) ==> LeftWholeLog(s) || LeftOldLog(s)
  {
    hide Weak, IsWal, AtMost, WalRecord;
    FiveWays(s);
  }
}
