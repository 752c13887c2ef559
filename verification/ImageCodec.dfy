/** Page vectors as one byte image, and back. */
module ImageCodec {
  import opened Ordering
  import opened Codec
  import opened PageCodec
  import opened PageStore
  import opened TableImage
  import opened ImageReader
  import opened Streams

  ghost function ImageOf(pages: seq<Page>): Bytes
    requires forall i :: 0 <= i < |pages| ==> PageOk(pages[i])
  {
    if pages == [] then [] else ImageOf(pages[..|pages| - 1]) + EncodePage(pages[|pages| - 1])
  }

  lemma {:induction false} ImageSize(pages: seq<Page>)
    requires forall i :: 0 <= i < |pages| ==> PageOk(pages[i])
    ensures |ImageOf(pages)| == PAGE_SIZE * |pages|
  {
    hide EncodePage, PageOk;
    if pages != [] {
      ImageSize(pages[..|pages| - 1]);
    }
  }

  /** Page `i` lies at its own offset. */
  lemma {:induction false} ImageSlice(pages: seq<Page>, i: nat)
    requires (forall k :: 0 <= k < |pages| ==> PageOk(pages[k])) && i < |pages|
    ensures PAGE_SIZE * (i + 1) <= |ImageOf(pages)|
    ensures ImageOf(pages)[PAGE_SIZE * i..PAGE_SIZE * (i + 1)] == EncodePage(pages[i])
    decreases |pages|
  {
    hide EncodePage, PageOk;
    var n := |pages| - 1;
    ImageSize(pages);
    ImageSize(pages[..n]);
    if i < n {
      ImageSlice(pages[..n], i);
      assert ImageOf(pages)[PAGE_SIZE * i..PAGE_SIZE * (i + 1)] ==
             ImageOf(pages[..n])[PAGE_SIZE * i..PAGE_SIZE * (i + 1)];
    } else {
      assert ImageOf(pages)[PAGE_SIZE * n..PAGE_SIZE * (n + 1)] == EncodePage(pages[n]);
    }
  }

  method EncodePages(pages: seq<Page>) returns (image: Bytes)
    requires PagesOk(pages)
    ensures image == ImageOf(pages)
  {
    hide EncodePage, PageOk;
    image := [];
    for i := 0 to |pages|
      invariant image == ImageOf(pages[..i])
    {
      assert pages[..i + 1][..i] == pages[..i];
      image := image + EncodePage(pages[i]);
    }
    assert pages[..|pages|] == pages;
  }

  ghost predicate Stores(image: Bytes, pages: seq<Page>) {
    PagesOk(pages) && image == ImageOf(pages)
  }

  lemma StoredSize(image: Bytes, pages: seq<Page>)
    requires Stores(image, pages)
    ensures |image| == PAGE_SIZE * |pages| && |image| / PAGE_SIZE == |pages| && |image| % PAGE_SIZE == 0
  {
    hide ImageOf;
    ImageSize(pages);
  }

  lemma StoresUnique(image: Bytes, p: seq<Page>, q: seq<Page>)
    requires Stores(image, p) && Stores(image, q)
    ensures p == q
  {
    hide ImageOf, EncodePage, PageOk;
    StoredSize(image, p);
    StoredSize(image, q);
    forall i | 0 <= i < |p| ensures p[i] == q[i] {
      ImageSlice(p, i);
      ImageSlice(q, i);
      EncodePageInjective(p[i], q[i]);
    }
  }

  /** Decodes every page; page identifiers must be their positions. */
  method DecodePages(image: Bytes) returns (r: Result<seq<Page>>)
    ensures r.Ok? ==> Stores(image, r.value)
    ensures r.Err? ==> forall p :: p != [] ==> !Stores(image, p)
  {
    hide EncodePage, PageOk, ImageOf;
    forall p | Stores(image, p) ensures |image| == PAGE_SIZE * |p| && |p| <= NO_PAGE { StoredSize(image, p); }
    if image == [] || |image| % PAGE_SIZE != 0 { return Err(Corruption); }
    var count := |image| / PAGE_SIZE;
    if count > NO_PAGE { return Err(Corruption); }
    var pages: seq<Page> := [];
    NoImage();
    for id := 0 to count
      invariant |pages| == id && PagesOk(pages) && PAGE_SIZE * id <= |image|
      invariant image[..PAGE_SIZE * id] == ImageOf(pages)
    {
      var bytes := image[PAGE_SIZE * id..PAGE_SIZE * (id + 1)];
      var page := DecodePage(bytes, id);
      forall p | Stores(image, p) && p != [] ensures page.Ok? {
        StoredSize(image, p);
        ImageSlice(p, id);
        assert IsEncodingOf(bytes, id, p[id]);
      }
      if page.Err? { return Err(Corruption); }
      assert image[..PAGE_SIZE * (id + 1)] == image[..PAGE_SIZE * id] + bytes;
      ImageSnoc(pages, page.value);
      pages := pages + [page.value];
    }
    assert image[..PAGE_SIZE * count] == image;
    r := Ok(pages);
  }

  lemma NoImage()
    ensures ImageOf([]) == []
  {
  }

  lemma ImageSnoc(pages: seq<Page>, p: Page)
    requires (forall k :: 0 <= k < |pages| ==> PageOk(pages[k])) && PageOk(p)
    ensures ImageOf(pages + [p]) == ImageOf(pages) + EncodePage(p)
  {
    hide EncodePage, PageOk;
    assert (pages + [p])[..|pages|] == pages;
  }

  // ----- whole images

  /** The bytes are a database image of the table `t`. */
  ghost predicate ImageDenotes(image: Bytes, t: Table) {
    exists pages, l :: pages != [] && Stores(image, pages) && Denotes(pages, l, t)
  }

  /** An image says one thing only. */
  lemma ImageDenotesUnique(image: Bytes, t: Table, t': Table)
    requires ImageDenotes(image, t) && ImageDenotes(image, t')
    ensures t == t'
  {
    hide Stores, Denotes;
    var p, l :| p != [] && Stores(image, p) && Denotes(p, l, t);
    var q, m :| q != [] && Stores(image, q) && Denotes(q, m, t');
    StoresUnique(image, p, q);
    DenotesUnique(p, l, t, m, t');
  }

  /** `parse_image`: accepts exactly the database images. */
  method ParseImage(image: Bytes) returns (r: Result<Table>, pages: seq<Page>, ghost l: Layout)
    ensures r.Ok? ==> pages != [] && Stores(image, pages) && Denotes(pages, l, r.value) && ImageDenotes(image, r.value)
    ensures r.Err? ==> forall t :: !ImageDenotes(image, t)
  {
    hide Stores, Denotes;
    pages, l := [], Layout(SuperFields(0, 0, 0, 0, 0, 0, 0), [], [], [], []);
    var decoded := DecodePages(image);
    if decoded.Err? { return Err(Corruption), pages, l; }
    pages := decoded.value;
    forall p | p != [] && Stores(image, p) ensures p == pages { StoresUnique(image, p, pages); }
    StoredOk(image, pages);
    if pages == [] { return Err(Corruption), pages, l; }
    r, l := ParsePages(pages);
  }

  lemma StoredOk(image: Bytes, pages: seq<Page>)
    requires Stores(image, pages)
    ensures PagesOk(pages)
  {
  }
}
