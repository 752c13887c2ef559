/** The steps of commit and recovery between which a crash can fall. */
module CommitProtocol {
  import opened Ordering
  import opened Codec
  import opened PageCodec
  import opened IndexGrowth
  import opened Streams
  import opened TableImage
  import opened ImageCodec
  import opened IncrementalInsert
  import opened PageBuffer
  import opened Wal
  import opened CrashModel

  /** An image on its way to the database file. */
  datatype Task = Task(buffer: Buffer, generation: nat)

  /** Where the running process is; `Off` when there is none. */
  datatype Stage =
    | Off
    | Ready
    | Refused
    | Logging(task: Task, firstLog: bool, written: nat)
    | Logged(task: Task, firstLog: bool)
    | Opening(task: Task)
    | Writing(task: Task, firstData: bool, next: nat)
    | DataSynced(task: Task, firstData: bool)
    | Truncating(task: Task)
    | Truncated(task: Task)

  /** The two files and the stage, with the image acknowledged last, the one in
      flight, and whether the database file was touched for it. */
  datatype State = State(db: File, wal: File, stage: Stage, committed: Option<Bytes>, pending: Option<WalImage>,
      touched: bool)

  function Record(t: Task): Bytes { WalRecord(t.buffer.image, t.generation) }

  ghost function Everything(image: Bytes): Buffer { Buffer(image, Range(0, PageCount(image))) }

  // ----- what generation a database file can claim

  function Age(b: Bytes): nat { FromLE(AgeField(b)) }

  /** The first page claims no later generation than `g`. */
  ghost predicate AtMost(db: Bytes, g: nat) { |db| % PAGE_SIZE == 0 && Age(db) <= g }

  ghost predicate FileAtMost(f: File, g: nat) { f.File? ==> AtMost(f.bytes, g) }

  /** Nor can a power loss leave one that does. */
  ghost predicate SurvivesAtMost(synced: Bytes, bytes: Bytes, g: nat) {
    && |synced| % PAGE_SIZE == 0 && |bytes| % PAGE_SIZE == 0
    && forall n: nat :: n <= 8 ==> FromLE(Torn(AgeField(bytes), AgeField(synced), n)) <= g
  }

  lemma FieldOf(b: Bytes, payload: Bytes)
    requires 8 <= |payload| && 32 + |payload| <= |b| && b[32..32 + |payload|] == payload
    ensures b[32..40] == payload[0..8]
  {
    assert b[32..40] == b[32..32 + |payload|][..8];
  }

  /** The generation stands behind the 32 bytes of the page head. */
  lemma SuperClaims(p: Page, sup: SuperFields)
    requires PageOk(p) && IsSuper(p.payload, sup)
    ensures |EncodePage(p)| == PAGE_SIZE && FromLE(EncodePage(p)[32..40]) == sup.generation
  {
    hide EncodePage, PageOk, Head, AllZero, Consistent, SuperBytes, LE, FromLE, Capacity;
    EncodedIsConsistent(p);
    SuperAt(sup);
    FieldOf(EncodePage(p), p.payload);
    Widths();
    FromLEOfLE(sup.generation, 8);
  }

  /** A database image claims its own generation on its first page. */
  lemma ImageClaims(image: Bytes, t: Table)
    requires ImageDenotes(image, t)
    ensures |image| >= PAGE_SIZE && |image| % PAGE_SIZE == 0 && Age(image) == t.generation
  {
    hide EncodePage, PageOk, ImageOf, StreamsDenote, IndexesDenote, Partition, FieldsOk, Rectangular, Head, AllZero,
      Consistent, SuperBytes;
    var pages: seq<Page>, l: Layout :| pages != [] && Stores(image, pages) && Denotes(pages, l, t);
    StoredSize(image, pages);
    ImageSlice(pages, 0);
    assert IsSuper(pages[0].payload, l.sup);
    FirstPage(image);
    SuperClaims(pages[0], l.sup);
  }

  lemma ImageAtMost(image: Bytes, t: Table, g: nat)
    requires ImageDenotes(image, t) && t.generation <= g
    ensures AtMost(image, g) && |image| >= PAGE_SIZE
  {
    hide ImageDenotes, Age;
    ImageClaims(image, t);
  }

  lemma AtMostBounds(db: Bytes, g: nat, t: Table)
    requires AtMost(db, g) && ImageDenotes(db, t)
    ensures t.generation <= g
  {
    hide ImageDenotes, Age;
    ImageClaims(db, t);
  }

  lemma {:induction false} TornAtMost(a: Bytes, b: Bytes, n: nat)
    requires |a| == |b| && n <= |a| && FromLE(b) <= FromLE(a)
    ensures FromLE(Torn(a, b, n)) <= FromLE(a)
  {
    if n == 0 {
      assert Torn(a, b, 0) == b;
    } else {
      TornAtMost(a[1..], b[1..], n - 1);
      assert Torn(a, b, n)[1..] == Torn(a[1..], b[1..], n - 1);
    }
  }

  /** A write torn over what a torn write left. */
  lemma TornTwice(a: Bytes, b: Bytes, c: Bytes, m: nat, k: nat)
    requires |a| == |b| == |c| && m <= |a| && k <= |a|
    ensures Torn(Torn(a, b, m), c, k) == if k <= m then Torn(a, c, k) else Torn(a, Torn(b, c, k), m)
  {
  }

  lemma SettledAtMost(b: Bytes, g: nat)
    ensures SurvivesAtMost(b, b, g) <==> AtMost(b, g)
  {
    hide FromLE, AgeField;
    var f := AgeField(b);
    forall n: nat | n <= 8 ensures Torn(f, f, n) == f {}
    assert Torn(f, f, 0) == f;
  }

  /** Both the durable content and the current one. */
  lemma SurvivesBoth(synced: Bytes, bytes: Bytes, g: nat)
    requires SurvivesAtMost(synced, bytes, g)
    ensures AtMost(synced, g) && AtMost(bytes, g)
  {
    hide FromLE, AgeField;
    assert Torn(AgeField(bytes), AgeField(synced), 0) == AgeField(synced);
    assert Torn(AgeField(bytes), AgeField(synced), 8) == AgeField(bytes);
  }

  lemma ResizedField(b: Bytes, size: nat)
    requires |b| % PAGE_SIZE == 0 && size >= PAGE_SIZE
    ensures AgeField(Resized(b, size)) == AgeField(b)
  {
  }

  lemma ResizedAtMost(db: Bytes, g: nat, size: nat)
    requires AtMost(db, g) && size % PAGE_SIZE == 0 && size >= PAGE_SIZE
    ensures AtMost(Resized(db, size), g)
  {
    hide FromLE, AgeField, Resized;
    ResizedField(db, size);
  }

  lemma ResizedSurvives(synced: Bytes, bytes: Bytes, g: nat, size: nat)
    requires SurvivesAtMost(synced, bytes, g) && size % PAGE_SIZE == 0 && size >= PAGE_SIZE
    ensures SurvivesAtMost(synced, Resized(bytes, size), g)
  {
    hide FromLE, AgeField, Resized;
    ResizedField(bytes, size);
  }

  /** The first `n` bytes of page `p` of the image written over the file. */
  function Piece(db: Bytes, p: nat, n: nat, image: Bytes): (b: Bytes)
    requires PAGE_SIZE * (p + 1) <= |image| == |db| && n <= PAGE_SIZE
    ensures |b| == |db|
  {
    WithPage(db, p, Torn(PageAt(image, p), PageAt(db, p), n))
  }

  lemma PieceField(db: Bytes, p: nat, n: nat, image: Bytes) returns (m: nat)
    requires PAGE_SIZE * (p + 1) <= |image| == |db| && n <= PAGE_SIZE
    ensures m <= 8 && AgeField(Piece(db, p, n, image)) == Torn(AgeField(image), AgeField(db), m)
  {
    var w := Piece(db, p, n, image);
    m := if p > 0 || n <= 32 then 0 else if n >= 40 then 8 else n - 32;
    FirstPage(w);
    FirstPage(image);
    FirstPage(db);
    WithPageAt(db, p, Torn(PageAt(image, p), PageAt(db, p), n), 0);
  }

  lemma WholePiece(db: Bytes, p: nat, image: Bytes)
    requires PAGE_SIZE * (p + 1) <= |image| == |db|
    ensures Piece(db, p, PAGE_SIZE, image) == WithPage(db, p, PageAt(image, p))
  {
    assert Torn(PageAt(image, p), PageAt(db, p), PAGE_SIZE) == PageAt(image, p);
  }

  lemma PieceApplies(file: Bytes, b: Buffer, next: nat, p: nat, n: nat)
    requires AppliedBelow(file, b, next) && next <= p && p in b.dirtyPages && PAGE_SIZE * (p + 1) <= |b.image|
    requires n <= PAGE_SIZE
    ensures AppliedBelow(Piece(file, p, n, b.image), b, next)
  {
    hide WithPage;
    var page := Torn(PageAt(b.image, p), PageAt(file, p), n);
    forall q: nat | PAGE_SIZE * (q + 1) <= |b.image| && (q < next || q !in b.dirtyPages)
      ensures PageAt(Piece(file, p, n, b.image), q) == PageAt(b.image, q)
    {
      WithPageAt(file, p, page, q);
    }
  }

  lemma NothingToPiece(file: Bytes)
    ensures forall p: nat, n: nat :: PAGE_SIZE * (p + 1) <= |file| && n <= PAGE_SIZE ==> Piece(file, p, n, file) == file
  {
    hide WithPage;
    NothingToWrite(file);
    forall p: nat, n: nat | PAGE_SIZE * (p + 1) <= |file| && n <= PAGE_SIZE ensures Piece(file, p, n, file) == file {
      assert Torn(PageAt(file, p), PageAt(file, p), n) == PageAt(file, p);
    }
  }

  lemma PieceSurvives(synced: Bytes, bytes: Bytes, p: nat, n: nat, image: Bytes)
    requires PAGE_SIZE * (p + 1) <= |image| == |bytes| && n <= PAGE_SIZE && SurvivesAtMost(synced, bytes, Age(image))
    ensures SurvivesAtMost(synced, Piece(bytes, p, n, image), Age(image))
    ensures AtMost(Piece(bytes, p, n, image), Age(image))
  {
    hide FromLE, AgeField, Piece, Torn;
    var m := PieceField(bytes, p, n, image);
    var i, b, s := AgeField(image), AgeField(bytes), AgeField(synced);
    forall k: nat | k <= 8 ensures FromLE(Torn(Torn(i, b, m), s, k)) <= Age(image) {
      TornTwice(i, b, s, m, k);
      if k <= m {
        SurvivesBoth(synced, bytes, Age(image));
        TornAtMost(i, s, k);
      } else {
        TornAtMost(i, Torn(b, s, k), m);
      }
    }
    SurvivesBoth(synced, Piece(bytes, p, n, image), Age(image));
  }

  lemma PieceAtMost(db: Bytes, p: nat, n: nat, image: Bytes)
    requires PAGE_SIZE * (p + 1) <= |image| == |db| && n <= PAGE_SIZE && AtMost(db, Age(image))
    ensures AtMost(Piece(db, p, n, image), Age(image))
  {
    hide FromLE, AgeField, Piece, Torn;
    SettledAtMost(db, Age(image));
    PieceSurvives(db, db, p, n, image);
  }

  lemma SurvivorAtMost(synced: Bytes, bytes: Bytes, after: Bytes, g: nat)
    requires SurvivesAtMost(synced, bytes, g) && PagesSurvive(synced, bytes, after)
    ensures AtMost(after, g)
  {
    hide FromLE, AgeField, Torn, Zeros;
    SurvivesBoth(synced, bytes, g);
    ZeroAge();
  }

  lemma ZeroAge()
    ensures FromLE(Zeros(8)) == 0
  {
    AllZeros(8);
  }

  lemma {:induction false} AllZeros(n: nat)
    ensures FromLE(Zeros(n)) == 0
  {
    if n > 0 {
      AllZeros(n - 1);
      assert Zeros(n)[1..] == Zeros(n - 1);
    }
  }

  // ----- steps of the running process

  /** An image a statement may commit over the database file as it is. */
  ghost predicate TaskOk(t: Task) {
    && BufferOk(t.buffer) && |t.buffer.image| < U64 && t.generation < U64
    && exists table :: ImageDenotes(t.buffer.image, table) && table.generation == t.generation
  }

  function Contents(f: File): Bytes { if f.Missing? then [] else f.bytes }

  ghost predicate Committable(db: File, t: Task) {
    TaskOk(t) && FileAtMost(db, t.generation) && CleanPagesPresent(Contents(db), t.buffer)
  }

  /** The log file opened with `O_CREAT | O_TRUNC`. */
  ghost predicate BeginCommit(s: State, s': State) {
    && s.stage.Ready? && s'.stage.Logging? && s'.stage.written == 0 && s'.stage.firstLog == s.wal.Missing?
    && Committable(s.db, s'.stage.task)
    && s' == s.(wal := if s.wal.Missing? then File(false, [], []) else s.wal.(bytes := []), stage := s'.stage,
                pending := Some(WalImage(s'.stage.task.buffer.image, s'.stage.task.generation)))
  }

  /** One `write` of any positive size. */
  ghost predicate WriteLog(s: State, s': State) {
    && s.stage.Logging? && s'.stage.Logging? && s.wal.File?
    && s.stage.written < s'.stage.written <= |Record(s.stage.task)|
    && s' == s.(wal := s.wal.(bytes := Record(s.stage.task)[..s'.stage.written]),
        stage := s.stage.(written := s'.stage.written))
  }

  ghost predicate SyncLog(s: State, s': State) {
    && s.stage.Logging? && s.stage.written == |Record(s.stage.task)| && s.wal.File?
    && s' == s.(wal := s.wal.(synced := s.wal.bytes), stage := Logged(s.stage.task, s.stage.firstLog))
  }

  /** The directory is synced only if the log file was created just now. */
  ghost predicate NameLog(s: State, s': State) {
    && s.stage.Logged? && s.wal.File?
    && s' == s.(wal := if s.stage.firstLog then s.wal.(named := true) else s.wal, stage := Opening(s.stage.task))
  }

  ghost predicate InProgress(s: State, t: Task) { s.pending == Some(WalImage(t.buffer.image, t.generation)) }

  /** Open or create the database file and give it its new size.  The file is
      touched for the image in flight, not by an older one written again. */
  ghost predicate SizeData(s: State, s': State) {
    && s.stage.Opening?
    && var size := |s.stage.task.buffer.image|;
       s' == s.(db := if s.db.Missing? then File(false, [], Resized([], size))
                      else s.db.(bytes := Resized(s.db.bytes, size)),
                stage := Writing(s.stage.task, s.db.Missing?, 0), touched := s.touched || InProgress(s, s.stage.task))
  }

  /** The next dirty page in ascending order. */
  ghost predicate WriteData(s: State, s': State) {
    && s.stage.Writing? && s'.stage.Writing? && s.db.File?
    && var b, p := s.stage.task.buffer, s'.stage.next - 1;
       && s.stage.next <= p && p in b.dirtyPages && PAGE_SIZE * (p + 1) <= |b.image| == |s.db.bytes|
       && (forall q: nat :: s.stage.next <= q < p ==> q !in b.dirtyPages)
       && s' == s.(db := s.db.(bytes := WithPage(s.db.bytes, p, PageAt(b.image, p))), stage := s.stage.(next := p + 1))
  }

  /** A write that stops inside the next dirty page. */
  ghost predicate WritePiece(s: State, s': State) {
    && s.stage.Writing? && s.db.File?
    && exists p: nat, n: nat ::
         PieceOf(s, p, n) && s' == s.(db := s.db.(bytes := Piece(s.db.bytes, p, n, s.stage.task.buffer.image)))
  }

  ghost predicate PieceOf(s: State, p: nat, n: nat)
    requires s.stage.Writing? && s.db.File?
  {
    var b := s.stage.task.buffer;
    && s.stage.next <= p && p in b.dirtyPages && PAGE_SIZE * (p + 1) <= |b.image| == |s.db.bytes| && n <= PAGE_SIZE
    && forall q: nat :: s.stage.next <= q < p ==> q !in b.dirtyPages
  }

  ghost predicate SyncData(s: State, s': State) {
    && s.stage.Writing? && s.db.File? && (forall p :: p in s.stage.task.buffer.dirtyPages ==> p < s.stage.next)
    && s' == s.(db := s.db.(synced := s.db.bytes), stage := DataSynced(s.stage.task, s.stage.firstData))
  }

  ghost predicate NameData(s: State, s': State) {
    && s.stage.DataSynced? && s.db.File?
    && s' == s.(db := if s.stage.firstData then s.db.(named := true) else s.db, stage := Truncating(s.stage.task))
  }

  ghost predicate TruncateLog(s: State, s': State) {
    && s.stage.Truncating? && s.wal.File?
    && s' == s.(wal := s.wal.(bytes := []), stage := Truncated(s.stage.task))
  }

  /** The truncation is synced; the statement, or the recovery, has returned. */
  ghost predicate Finish(s: State, s': State) {
    && s.stage.Truncated? && s.wal.File?
    && s' == s.(wal := s.wal.(synced := s.wal.bytes), stage := Ready, committed := Some(s.stage.task.buffer.image),
        pending := None, touched := false)
  }

  // ----- steps of recovery

  ghost predicate LogEmpty(wal: File) { wal.Missing? || wal.bytes == [] }

  /** The database file is valid and later than the log. */
  ghost predicate Stale(db: File, g: nat) { db.File? && exists t :: ImageDenotes(db.bytes, t) && t.generation > g }

  /** No log: the database file is what it is. */
  ghost predicate RecoverNothing(s: State, s': State) {
    && s.stage.Off? && LogEmpty(s.wal)
    && s' == s.(stage := Ready, committed := if s.db.Missing? then None else Some(s.db.bytes), pending := None,
        touched := false)
  }

  ghost predicate RecoverReplay(s: State, s': State) {
    && s.stage.Off? && !LogEmpty(s.wal) && s'.stage.Opening? && s' == s.(stage := s'.stage)
    && var t := s'.stage.task;
       && IsWal(s.wal.bytes, t.buffer.image, t.generation) && t.buffer == Everything(t.buffer.image)
       && !Stale(s.db, t.generation)
  }

  ghost predicate RecoverRefuse(s: State, s': State) {
    && s.stage.Off? && !LogEmpty(s.wal)
    && (forall image, g :: IsWal(s.wal.bytes, image, g) ==> Stale(s.db, g))
    && s' == s.(stage := Refused)
  }

  /** The call has returned or failed; the next one starts over. */
  ghost predicate NextCall(s: State, s': State) {
    (s.stage.Ready? || s.stage.Refused?) && s' == s.(stage := Off)
  }

  ghost predicate Works(s: State, s': State) {
    || BeginCommit(s, s') || WriteLog(s, s') || SyncLog(s, s') || NameLog(s, s')
    || SizeData(s, s') || WriteData(s, s') || WritePiece(s, s') || SyncData(s, s') || NameData(s, s')
    || TruncateLog(s, s') || Finish(s, s')
    || RecoverNothing(s, s') || RecoverReplay(s, s') || RecoverRefuse(s, s') || NextCall(s, s')
  }

  // ----- crashes

  /** The machine stops: unsynced data survives in part. */
  ghost predicate PowerLoss(s: State, s': State) {
    PagesLoss(s.db, s'.db) && LogLoss(s.wal, s'.wal) && s' == s.(db := s'.db, wal := s'.wal, stage := Off)
  }

  /** Among its outcomes is every subset of the unsynced page writes. */
  lemma SubsetIsPowerLoss(s: State, after: Bytes, wal: File)
    requires s.db.File? && LogLoss(s.wal, wal)
    requires if s.db.synced == s.db.bytes then after == s.db.bytes else AnySubset(s.db.synced, s.db.bytes, after)
    ensures PowerLoss(s, s.(db := Settled(after), wal := wal, stage := Off))
  {
    hide AnySubset;
    if s.db.synced != s.db.bytes { AnySubsetSurvives(s.db.synced, s.db.bytes, after); }
  }

  /** Only the process stops: the files stay as they are, synced or not. */
  ghost predicate Kill(s: State, s': State) { s' == s.(stage := Off) }
}
