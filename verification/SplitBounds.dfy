/** Why splitting an overflowing page by entry count always leaves two pages
    that fit: an entry takes 10 to 110 bytes, a branch 14 to 114. */
module SplitBounds {
  import opened Ordering
  import opened Codec
  import opened PageCodec
  import opened IndexPages

  lemma {:induction false} SizeSplit(a: seq<Entry>, b: seq<Entry>, overhead: nat)
    ensures EntriesSize(a + b, overhead) == EntriesSize(a, overhead) + EntriesSize(b, overhead)
  {
    if a == [] {
      assert a + b == b;
    } else {
      assert (a + b)[1..] == a[1..] + b;
      SizeSplit(a[1..], b, overhead);
    }
  }

  lemma SizeOne(e: Entry, overhead: nat)
    ensures EntriesSize([e], overhead) == overhead + |e.key|
  {
  }

  lemma {:induction false} SizeBound(es: seq<Entry>, overhead: nat)
    requires All(es, EntryOk)
    ensures overhead * |es| <= EntriesSize(es, overhead) <= (overhead + MAX_VALUE_LENGTH) * |es|
  {
    if es != [] {
      SizeBound(es[1..], overhead);
      assert EntryOk(es[0]);
      assert (overhead + MAX_VALUE_LENGTH) * |es| ==
             (overhead + MAX_VALUE_LENGTH) * |es[1..]| + (overhead + MAX_VALUE_LENGTH);
    }
  }

  lemma SizeAfterInsert(es: seq<Entry>, k: nat, e: Entry, overhead: nat)
    requires k <= |es|
    ensures EntriesSize(es[..k] + [e] + es[k..], overhead) == EntriesSize(es, overhead) + overhead + |e.key|
  {
    hide EntriesSize;
    SizeSplit(es[..k] + [e], es[k..], overhead);
    SizeSplit(es[..k], [e], overhead);
    SizeSplit(es[..k], es[k..], overhead);
    SizeOne(e, overhead);
    assert es == es[..k] + es[k..];
  }

  lemma AllParts<T>(es: seq<T>, k: nat, ok: T -> bool)
    requires k <= |es| && All(es, ok)
    ensures All(es[..k], ok) && All(es[k..], ok)
  {
  }

  /** A leaf that overflowed by one entry, cut at half its count. */
  lemma LeafSplitFits(es: seq<Entry>)
    requires All(es, EntryOk)
    requires PAYLOAD_SIZE < LeafSize(es) <= PAYLOAD_SIZE + 110
    ensures var half := |es| / 2;
      && 0 < half < |es| && |es| < U16
      && LeafSize(es[..half]) <= PAYLOAD_SIZE && LeafSize(es[half..]) <= PAYLOAD_SIZE
  {
    hide EntriesSize, All;
    var half := |es| / 2;
    AllParts(es, half, EntryOk);
    SizeBound(es, 10);
    SizeBound(es[..half], 10);
    SizeBound(es[half..], 10);
    SizeSplit(es[..half], es[half..], 10);
    assert es == es[..half] + es[half..];
  }

  /** An internal page that overflowed by one branch: of the m + 1 children the
      first half stays, one separator moves up, the rest goes right. */
  lemma NodeSplitFits(seps: seq<Entry>)
    requires All(seps, EntryOk)
    requires PAYLOAD_SIZE < NodeSize(seps) <= PAYLOAD_SIZE + 114
    ensures var half := (|seps| + 1) / 2;
      && 2 <= half && half + 2 <= |seps| + 1 && |seps| < U16
      && NodeSize(seps[..half - 1]) <= PAYLOAD_SIZE && NodeSize(seps[half..]) <= PAYLOAD_SIZE
  {
    hide EntriesSize, All;
    SizeBound(seps, 14);
    var half := (|seps| + 1) / 2;
    AllParts(seps, half - 1, EntryOk);
    AllParts(seps, half, EntryOk);
    SizeBound(seps[..half - 1], 14);
    SizeBound(seps[half - 1..], 14);
    SizeBound(seps[..half], 14);
    SizeBound(seps[half..], 14);
    SizeSplit(seps[..half - 1], seps[half - 1..], 14);
    SizeSplit(seps[..half], seps[half..], 14);
    assert seps == seps[..half - 1] + seps[half - 1..];
    assert seps == seps[..half] + seps[half..];
  }

  lemma LeafCountFits(es: seq<Entry>)
    requires All(es, EntryOk) && LeafSize(es) <= PAYLOAD_SIZE + 110
    ensures |es| < U16
  {
    SizeBound(es, 10);
  }

  lemma NodeCountFits(seps: seq<Entry>)
    requires All(seps, EntryOk) && NodeSize(seps) <= PAYLOAD_SIZE + 114
    ensures |seps| < U16
  {
    SizeBound(seps, 14);
  }
}
