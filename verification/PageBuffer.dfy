/** The owned image with its ordered set of dirty pages, and the effect of
    visiting those pages with a writer. */
module PageBuffer {
  import opened Ordering
  import opened Codec
  import opened PageCodec
  import opened IncrementalInsert

  /** A buffer always owns at least one page and marks at least one dirty. */
  datatype Buffer = Buffer(image: Bytes, dirtyPages: set<nat>)

  function PageCount(image: Bytes): nat { |image| / PAGE_SIZE }

  ghost predicate BufferOk(b: Buffer) {
    && b.image != [] && |b.image| % PAGE_SIZE == 0 && PageCount(b.image) < U32
    && b.dirtyPages != {} && forall p :: p in b.dirtyPages ==> p < PageCount(b.image)
  }

  /** The constructor: an empty dirty set stands for all pages. */
  method MakeBuffer(image: Bytes, dirtyPages: set<nat>) returns (r: Result<Buffer>)
    ensures r.Ok? ==> BufferOk(r.value) && r.value.image == image
    ensures r.Ok? ==> if dirtyPages != {} then r.value.dirtyPages == dirtyPages
                      else forall p: nat :: p in r.value.dirtyPages <==> p < PageCount(image)
    ensures r == Err(InvalidArgument) <==> image == [] || |image| % PAGE_SIZE != 0
    ensures r == Err(LengthError) <==> image != [] && |image| % PAGE_SIZE == 0 && PageCount(image) >= U32
    ensures r.Ok? <==>
      && image != [] && |image| % PAGE_SIZE == 0 && PageCount(image) < U32
      && forall p :: p in dirtyPages ==> p < PageCount(image)
  {
    if image == [] || |image| % PAGE_SIZE != 0 { return Err(InvalidArgument); }
    if PageCount(image) > U32 - 1 { return Err(LengthError); }
    var dirty: set<nat> := dirtyPages;
    if dirty == {} {
      for page := 0 to PageCount(image)
        invariant forall p: nat :: p in dirty <==> p < page
      {
        dirty := dirty + {page};
      }
      assert 0 in dirty;
    }
    var inside := forall p :: p in dirty ==> p < PageCount(image);
    if !inside { return Err(OutOfRange); }
    r := Ok(Buffer(image, dirty));
  }

  // ----- files

  function Resized(file: Bytes, size: nat): (b: Bytes)
    ensures |b| == size
  {
    if size <= |file| then file[..size] else file + Zeros(size - |file|)
  }

  function WithPage(file: Bytes, p: nat, page: Bytes): (b: Bytes)
    requires PAGE_SIZE * (p + 1) <= |file| && |page| == PAGE_SIZE
    ensures |b| == |file|
  {
    file[..PAGE_SIZE * p] + page + file[PAGE_SIZE * (p + 1)..]
  }

  /** Writing a page changes that page and no other. */
  lemma WithPageAt(file: Bytes, p: nat, page: Bytes, q: nat)
    requires PAGE_SIZE * (p + 1) <= |file| && |page| == PAGE_SIZE && PAGE_SIZE * (q + 1) <= |file|
    ensures PageAt(WithPage(file, p, page), q) == if p == q then page else PageAt(file, q)
  {
    var w := WithPage(file, p, page);
    forall i | 0 <= i < PAGE_SIZE ensures PageAt(w, q)[i] == (if p == q then page else PageAt(file, q))[i] {
      assert PageAt(w, q)[i] == w[PAGE_SIZE * q + i];
      assert PageAt(file, q)[i] == file[PAGE_SIZE * q + i];
    }
  }

  /** Growing or cutting a file keeps every page that fits in both. */
  lemma ResizedAt(file: Bytes, size: nat, q: nat)
    requires PAGE_SIZE * (q + 1) <= |file| && PAGE_SIZE * (q + 1) <= size
    ensures PageAt(Resized(file, size), q) == PageAt(file, q)
  {
  }

  lemma NothingToWrite(file: Bytes)
    ensures Resized(file, |file|) == file
    ensures forall p: nat :: PAGE_SIZE * (p + 1) <= |file| ==> WithPage(file, p, PageAt(file, p)) == file
  {
    assert Resized(file, |file|) == file;
    forall p: nat | PAGE_SIZE * (p + 1) <= |file| ensures WithPage(file, p, PageAt(file, p)) == file {
      assert WithPage(file, p, PageAt(file, p)) == file;
    }
  }

  /** Files of whole pages with equal pages are equal. */
  lemma SamePagesSameFile(a: Bytes, b: Bytes)
    requires |a| == |b| && |a| % PAGE_SIZE == 0
    requires forall q: nat :: PAGE_SIZE * (q + 1) <= |a| ==> PageAt(a, q) == PageAt(b, q)
    ensures a == b
  {
    forall i | 0 <= i < |a| ensures a[i] == b[i] {
      var q, r := i / PAGE_SIZE, i % PAGE_SIZE;
      WholePage(i, |a|);
      assert PageAt(a, q) == PageAt(b, q);
      assert PageAt(a, q)[r] == a[PAGE_SIZE * q + r] && PageAt(b, q)[r] == b[PAGE_SIZE * q + r];
    }
  }

  lemma WholePage(i: nat, n: nat)
    requires i < n && n % PAGE_SIZE == 0
    ensures PAGE_SIZE * (i / PAGE_SIZE + 1) <= n && PAGE_SIZE * (i / PAGE_SIZE) + i % PAGE_SIZE == i
  {
  }

  /** The dirty pages below `next` are written, the clean ones need no write. */
  ghost predicate AppliedBelow(file: Bytes, b: Buffer, next: nat) {
    && |file| == |b.image|
    && forall q: nat :: PAGE_SIZE * (q + 1) <= |b.image| && (q < next || q !in b.dirtyPages) ==>
         PageAt(file, q) == PageAt(b.image, q)
  }

  /** Every page outside the dirty set is in the file already. */
  ghost predicate CleanPagesPresent(file: Bytes, b: Buffer) {
    forall q: nat :: PAGE_SIZE * (q + 1) <= |b.image| && q !in b.dirtyPages ==>
      PAGE_SIZE * (q + 1) <= |file| && PageAt(file, q) == PageAt(b.image, q)
  }

  lemma ResizedApplies(file: Bytes, b: Buffer)
    requires CleanPagesPresent(file, b)
    ensures AppliedBelow(Resized(file, |b.image|), b, 0)
  {
    forall q: nat | PAGE_SIZE * (q + 1) <= |b.image| && q !in b.dirtyPages
      ensures PageAt(Resized(file, |b.image|), q) == PageAt(b.image, q)
    {
      ResizedAt(file, |b.image|, q);
    }
  }

  lemma PageApplied(file: Bytes, b: Buffer, p: nat)
    requires AppliedBelow(file, b, p) && PAGE_SIZE * (p + 1) <= |b.image|
    ensures AppliedBelow(WithPage(file, p, PageAt(b.image, p)), b, p + 1)
  {
    var w := WithPage(file, p, PageAt(b.image, p));
    forall q: nat | PAGE_SIZE * (q + 1) <= |b.image| && (q < p + 1 || q !in b.dirtyPages)
      ensures PageAt(w, q) == PageAt(b.image, q)
    {
      WithPageAt(file, p, PageAt(b.image, p), q);
    }
  }

  lemma PageSkipped(file: Bytes, b: Buffer, p: nat)
    requires AppliedBelow(file, b, p) && p !in b.dirtyPages
    ensures AppliedBelow(file, b, p + 1)
  {
  }

  /** Applying only the dirty pages gives the whole new image, byte for byte. */
  lemma AllApplied(file: Bytes, b: Buffer)
    requires BufferOk(b) && AppliedBelow(file, b, PageCount(b.image))
    ensures file == b.image
  {
    forall q: nat | PAGE_SIZE * (q + 1) <= |file| ensures PageAt(file, q) == PageAt(b.image, q) {
      assert q < PageCount(b.image);
    }
    SamePagesSameFile(file, b.image);
  }

  /** The dirty set of an insert covers the difference to the image it edits. */
  lemma DirtyCompleteIsEnough(old_: Bytes, new_: Bytes, dirty: set<nat>)
    requires DirtyComplete(old_, new_, dirty)
    ensures CleanPagesPresent(old_, Buffer(new_, dirty))
  {
  }

  /** `visit_dirty_pages` with the writer of `apply_image`, on a file of any size. */
  method ApplyDirtyPages(file: Bytes, b: Buffer) returns (r: Bytes)
    requires BufferOk(b)
    ensures CleanPagesPresent(file, b) ==> r == b.image
    ensures |r| == |b.image|
    ensures forall q: nat :: PAGE_SIZE * (q + 1) <= |b.image| ==>
              PageAt(r, q) == if q in b.dirtyPages then PageAt(b.image, q) else PageAt(Resized(file, |b.image|), q)
  {
    r := Resized(file, |b.image|);
    ghost var start := r;
    if CleanPagesPresent(file, b) { ResizedApplies(file, b); }
    for page := 0 to PageCount(b.image)
      invariant |r| == |b.image|
      invariant CleanPagesPresent(file, b) ==> AppliedBelow(r, b, page)
      invariant forall q: nat :: PAGE_SIZE * (q + 1) <= |b.image| ==>
                  PageAt(r, q) == if q < page && q in b.dirtyPages then PageAt(b.image, q) else PageAt(start, q)
    {
      ghost var before := r;
      if page in b.dirtyPages {
        r := WithPage(r, page, PageAt(b.image, page));
        forall q: nat | PAGE_SIZE * (q + 1) <= |b.image|
          ensures PageAt(r, q) == if q == page then PageAt(b.image, q) else PageAt(before, q)
        {
          WithPageAt(before, page, PageAt(b.image, page), q);
        }
        if CleanPagesPresent(file, b) { PageApplied(before, b, page); }
      } else {
        if CleanPagesPresent(file, b) { PageSkipped(r, b, page); }
      }
    }
    if CleanPagesPresent(file, b) { AllApplied(r, b); }
  }
}
