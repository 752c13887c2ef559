/** Two files on a disk that forgets: what a file holds for a running process,
    what of it is durable, and what a crash may leave. */
module CrashModel {
  import opened Ordering
  import opened PageCodec
  import opened IncrementalInsert

  /** `named`: the directory entry is durable.  `synced`: the content at the
      last `fsync`.  `bytes`: what a reader sees now. */
  datatype File = Missing | File(named: bool, synced: Bytes, bytes: Bytes)

  ghost predicate Durable(f: File) { f.File? ==> f.named && f.synced == f.bytes }

  /** The file after the power came back: everything in it is durable. */
  function Settled(b: Bytes): File { File(true, b, b) }

  /** An interrupted log write leaves the old content or a prefix of the new. */
  ghost predicate LogSurvives(synced: Bytes, bytes: Bytes, after: Bytes) {
    if synced == bytes then after == bytes else after == synced || after <= bytes
  }

  /** The first `n` bytes of `a` written over `b`. */
  function Torn(a: Bytes, b: Bytes, n: nat): (r: Bytes)
    requires |a| == |b| && n <= |a|
    ensures |r| == |a|
  {
    a[..n] + b[n..]
  }

  /** Where a first page holds its generation; zeros if there is no page. */
  function AgeField(b: Bytes): (f: Bytes)
    ensures |f| == 8
  {
    if |b| >= PAGE_SIZE then b[32..40] else Zeros(8)
  }

  /** Interrupted page writes: the file has its old or its new size and may hold
      anything at all, torn pages included.  Only the eight generation bytes of
      page zero are not arbitrary: they are still zero, or as far as the write
      got the new ones, and the old ones behind. */
  ghost predicate PagesSurvive(synced: Bytes, bytes: Bytes, after: Bytes) {
    if synced == bytes then after == bytes
    else
      && |after| in {|synced|, |bytes|}
      && (|| AgeField(after) == Zeros(8)
          || exists n: nat :: n <= 8 && AgeField(after) == Torn(AgeField(bytes), AgeField(synced), n))
  }

  function PageOrZeros(b: Bytes, p: nat): Bytes {
    if PAGE_SIZE * (p + 1) <= |b| then PageAt(b, p) else Zeros(PAGE_SIZE)
  }

  /** Any subset of the unsynced writes: the size changed or not, each page with
      its old bytes or its new ones. */
  ghost predicate AnySubset(synced: Bytes, bytes: Bytes, after: Bytes) {
    && |after| in {|synced|, |bytes|} && |after| % PAGE_SIZE == 0
    && forall p: nat :: PAGE_SIZE * (p + 1) <= |after| ==>
         PageAt(after, p) == PageOrZeros(synced, p) || PageAt(after, p) == PageOrZeros(bytes, p)
  }

  lemma AnySubsetSurvives(synced: Bytes, bytes: Bytes, after: Bytes)
    requires AnySubset(synced, bytes, after) && synced != bytes
    ensures PagesSurvive(synced, bytes, after)
  {
    hide Zeros;
    FieldOfZeros();
    assert Torn(AgeField(bytes), AgeField(synced), 0) == AgeField(synced);
    assert Torn(AgeField(bytes), AgeField(synced), 8) == AgeField(bytes);
    if |after| >= PAGE_SIZE {
      assert PageAt(after, 0) == PageOrZeros(synced, 0) || PageAt(after, 0) == PageOrZeros(bytes, 0);
      FirstPage(after);
      if |synced| >= PAGE_SIZE { FirstPage(synced); }
      if |bytes| >= PAGE_SIZE { FirstPage(bytes); }
    }
  }

  lemma FieldOfZeros()
    ensures Zeros(PAGE_SIZE)[32..40] == Zeros(8)
  {
  }

  lemma FirstPage(b: Bytes)
    requires |b| >= PAGE_SIZE
    ensures PageAt(b, 0) == b[..PAGE_SIZE] && AgeField(b) == PageAt(b, 0)[32..40]
  {
  }

  /** A file without a durable name may be gone. */
  ghost predicate LogLoss(f: File, f': File) {
    || (f' == Missing && (f.Missing? || !f.named))
    || (f.File? && f'.File? && f' == Settled(f'.bytes) && LogSurvives(f.synced, f.bytes, f'.bytes))
  }

  ghost predicate PagesLoss(f: File, f': File) {
    || (f' == Missing && (f.Missing? || !f.named))
    || (f.File? && f'.File? && f' == Settled(f'.bytes) && PagesSurvive(f.synced, f.bytes, f'.bytes))
  }
}
