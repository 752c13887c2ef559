/** Byte streams cut across chained pages: reading a chain, writing one, and
    appending to one. */
module Chains {
  import opened Ordering
  import opened Codec
  import opened PageCodec
  import opened IndexTree
  import opened IndexGrowth
  import opened PageStore

  /** Following `next` from `head` passes exactly `ids` and arrives at `end`. */
  ghost predicate Follow(pages: seq<Page>, head: nat, ids: seq<nat>, end: nat)
    decreases |ids|
  {
    if ids == [] then head == end
    else head == ids[0] && head < |pages| && Follow(pages, pages[head].next, ids[1..], end)
  }

  ghost predicate Typed(pages: seq<Page>, ids: seq<nat>, ptype: PageType) {
    forall i :: 0 <= i < |ids| ==> ids[i] < |pages| && pages[ids[i]].ptype == ptype
  }

  /** The payloads of `ids`, joined. */
  ghost function Payloads(pages: seq<Page>, ids: seq<nat>): Bytes {
    if ids == [] then [] else (if ids[0] < |pages| then pages[ids[0]].payload else []) + Payloads(pages, ids[1..])
  }

  function SetOf(ids: seq<nat>): (s: set<nat>)
    ensures forall x :: x in s <==> x in ids
  {
    set x | x in ids
  }

  ghost predicate Chained(pages: seq<Page>, head: nat, ids: seq<nat>, ptype: PageType) {
    Follow(pages, head, ids, NO_PAGE) && Typed(pages, ids, ptype) && NoDup(ids)
  }

  lemma {:induction false} FollowSnoc(pages: seq<Page>, head: nat, ids: seq<nat>, current: nat)
    requires Follow(pages, head, ids, current) && current < |pages|
    ensures Follow(pages, head, ids + [current], pages[current].next)
    decreases |ids|
  {
    if ids != [] {
      FollowSnoc(pages, pages[head].next, ids[1..], current);
      assert (ids + [current])[1..] == ids[1..] + [current];
    }
  }

  lemma {:induction false} FollowPrefix(pages: seq<Page>, head: nat, ids: seq<nat>, current: nat, all: seq<nat>)
    requires |pages| <= NO_PAGE && Follow(pages, head, ids, current) && Follow(pages, head, all, NO_PAGE)
    ensures |ids| <= |all| && all[..|ids|] == ids && Follow(pages, current, all[|ids|..], NO_PAGE)
    decreases |ids|
  {
    if ids != [] {
      FollowPrefix(pages, pages[head].next, ids[1..], current, all[1..]);
      assert all == [all[0]] + all[1..] && ids == [ids[0]] + ids[1..];
    }
  }

  lemma FollowUnique(pages: seq<Page>, head: nat, a: seq<nat>, b: seq<nat>)
    requires |pages| <= NO_PAGE && Follow(pages, head, a, NO_PAGE) && Follow(pages, head, b, NO_PAGE)
    ensures a == b
  {
    FollowPrefix(pages, head, a, NO_PAGE, b);
    FollowPrefix(pages, head, b, NO_PAGE, a);
  }

  lemma {:induction false} PayloadsSplit(pages: seq<Page>, a: seq<nat>, b: seq<nat>)
    ensures Payloads(pages, a + b) == Payloads(pages, a) + Payloads(pages, b)
  {
    if a == [] {
      assert a + b == b;
    } else {
      assert (a + b)[1..] == a[1..] + b;
      PayloadsSplit(pages, a[1..], b);
    }
  }

  lemma PayloadsOne(pages: seq<Page>, id: nat)
    requires id < |pages|
    ensures Payloads(pages, [id]) == pages[id].payload
  {
    assert [id][1..] == [];
  }

  lemma {:induction false} ChainFrame(before: seq<Page>, after: seq<Page>, head: nat, ids: seq<nat>, end: nat)
    requires Follow(before, head, ids, end) && |before| <= |after|
    requires forall x :: x in ids && x < |before| ==> after[x] == before[x]
    ensures Follow(after, head, ids, end) && Payloads(after, ids) == Payloads(before, ids)
    decreases |ids|
  {
    if ids != [] {
      assert ids[0] in ids && forall x :: x in ids[1..] ==> x in ids;
      ChainFrame(before, after, before[head].next, ids[1..], end);
    }
  }

  lemma ChainedFrame(before: seq<Page>, after: seq<Page>, head: nat, ids: seq<nat>, ptype: PageType)
    requires Chained(before, head, ids, ptype) && |before| <= |after|
    requires forall x :: x in ids && x < |before| ==> after[x] == before[x]
    ensures Chained(after, head, ids, ptype) && Payloads(after, ids) == Payloads(before, ids)
  {
    ChainFrame(before, after, head, ids, NO_PAGE);
    forall i | 0 <= i < |ids| ensures ids[i] < |after| && after[ids[i]].ptype == ptype {
      assert ids[i] in ids;
    }
  }

  // ----- reading

  /** What a chain has to be for `read_chain` to accept it. */
  ghost predicate Readable(pages: seq<Page>, head: nat, ids: seq<nat>, ptype: PageType, owned: set<nat>) {
    Chained(pages, head, ids, ptype) && SetOf(ids) !! owned
  }

  /** The part read so far. */
  ghost predicate ReadSoFar(pages: seq<Page>, head: nat, ids: seq<nat>, current: nat, ptype: PageType,
          owned: set<nat>, output: Bytes)
  {
    && Follow(pages, head, ids, current) && Typed(pages, ids, ptype) && NoDup(ids) && SetOf(ids) !! owned
    && output == Payloads(pages, ids)
  }

  lemma ReadOne(pages: seq<Page>, head: nat, ids: seq<nat>, current: nat, ptype: PageType, owned: set<nat>,
          output: Bytes)
    requires ReadSoFar(pages, head, ids, current, ptype, owned, output)
    requires current < |pages| && current !in owned && current !in ids && pages[current].ptype == ptype
    ensures ReadSoFar(pages, head, ids + [current], pages[current].next, ptype, owned, output + pages[current].payload)
  {
    FollowSnoc(pages, head, ids, current);
    PayloadsSplit(pages, ids, [current]);
    PayloadsOne(pages, current);
  }

  /** A readable chain goes on through `current`. */
  lemma ReadableGoesOn(pages: seq<Page>, head: nat, ids: seq<nat>, current: nat, ptype: PageType, owned: set<nat>,
          output: Bytes, all: seq<nat>)
    requires |pages| <= NO_PAGE && ReadSoFar(pages, head, ids, current, ptype, owned, output)
    requires Readable(pages, head, all, ptype, owned)
    requires current != NO_PAGE
    ensures current < |pages| && current !in ids && current !in owned && pages[current].ptype == ptype
  {
    FollowPrefix(pages, head, ids, current, all);
    var k := |ids|;
    assert all[k..] != [] && all[k..][0] == current;
    assert all[k] == current && all[k] in all;
    forall i | 0 <= i < k ensures ids[i] != current { assert all[i] == ids[i]; }
  }

  /** `read_chain`: accepts exactly the acyclic chains of one page type that own
      their pages alone. */
  method ReadChain(pages: seq<Page>, head: nat, ptype: PageType, owned0: set<nat>)
    returns (r: Result<Bytes>, owned: set<nat>, ghost ids: seq<nat>)
    requires PagesOk(pages) && owned0 <= Range(0, |pages|)
    ensures r.Ok? ==> Readable(pages, head, ids, ptype, owned0) && r.value == Payloads(pages, ids)
    ensures r.Ok? ==> owned == owned0 + SetOf(ids) && owned <= Range(0, |pages|)
    ensures r.Err? ==> forall all :: !Readable(pages, head, all, ptype, owned0)
  {
    hide PagesOk, ReadSoFar, Readable;
    var output: Bytes := [];
    var current: nat := head;
    var chain: set<nat> := {};
    owned, ids := owned0, [];
    PagesAreBelow(pages);
    NothingRead(pages, head, ptype, owned0);
    while current != NO_PAGE
      invariant ReadSoFar(pages, head, ids, current, ptype, owned0, output)
      invariant chain == SetOf(ids) && owned == owned0 + SetOf(ids) && owned <= Range(0, |pages|)
      decreases Range(0, |pages|) - owned
    {
      forall all | Readable(pages, head, all, ptype, owned0)
        ensures current < |pages| && current !in ids && current !in owned0 && pages[current].ptype == ptype
      {
        ReadableGoesOn(pages, head, ids, current, ptype, owned0, output, all);
      }
      if current >= |pages| { return Err(Corruption), owned, ids; }
      if current in chain { return Err(Corruption), owned, ids; }
      if current in owned { return Err(Corruption), owned, ids; }
      if pages[current].ptype != ptype { return Err(Corruption), owned, ids; }
      ReadOne(pages, head, ids, current, ptype, owned0, output);
      chain, owned, ids := chain + {current}, owned + {current}, ids + [current];
      output := output + pages[current].payload;
      current := pages[current].next;
    }
    ReadAll(pages, head, ids, ptype, owned0, output);
    r := Ok(output);
  }

  lemma PagesAreBelow(pages: seq<Page>)
    requires PagesOk(pages)
    ensures |pages| <= NO_PAGE
  {
  }

  lemma NothingRead(pages: seq<Page>, head: nat, ptype: PageType, owned: set<nat>)
    ensures ReadSoFar(pages, head, [], head, ptype, owned, [])
  {
  }

  lemma ReadAll(pages: seq<Page>, head: nat, ids: seq<nat>, ptype: PageType, owned: set<nat>, output: Bytes)
    requires ReadSoFar(pages, head, ids, NO_PAGE, ptype, owned, output)
    ensures Readable(pages, head, ids, ptype, owned) && output == Payloads(pages, ids)
  {
  }

  // ----- appending

  lemma {:induction false} FollowRetarget(before: seq<Page>, after: seq<Page>, head: nat, ids: seq<nat>, last: nat,
          end: nat, end': nat)
    requires Follow(before, head, ids + [last], end) && |before| <= |after| && last < |before| && last !in ids
    requires after[last].next == end'
    requires forall x :: x in ids && x < |before| ==> after[x].next == before[x].next
    ensures Follow(after, head, ids + [last], end')
    decreases |ids|
  {
    if ids == [] {
      assert (ids + [last])[1..] == [];
    } else {
      assert (ids + [last])[1..] == ids[1..] + [last] && ids[0] in ids;
      FollowRetarget(before, after, before[head].next, ids[1..], last, end, end');
    }
  }

  /** The chain after one page more was hung behind its last page. */
  lemma ChainGrows(pages: seq<Page>, head: nat, ids: seq<nat>, ptype: PageType, p: Page)
    requires PagesOk(pages) && Chained(pages, head, ids, ptype) && ids != [] && |pages| < NO_PAGE
    requires p.ptype == ptype && p.id == |pages| && p.next == NO_PAGE
    ensures var last := ids[|ids| - 1];
      && last < |pages|
      && var after := pages[last := pages[last].(next := |pages|)] + [p];
         && Chained(after, head, ids + [|pages|], ptype)
         && Payloads(after, ids + [|pages|]) == Payloads(pages, ids) + p.payload
  {
    var n, k := |pages|, |ids| - 1;
    var last := ids[k];
    assert last < n;
    var after := pages[last := pages[last].(next := n)] + [p];
    assert ids == ids[..k] + [last];
    FollowRetarget(pages, after, head, ids[..k], last, NO_PAGE, n);
    FollowSnoc(after, head, ids, n);
    forall i | 0 <= i < |ids| ensures ids[i] < n && after[ids[i]].ptype == ptype {}
    SamePayloads(pages, after, ids);
    PayloadsSplit(after, ids, [n]);
    PayloadsOne(after, n);
  }

  lemma {:induction false} SamePayloads(before: seq<Page>, after: seq<Page>, ids: seq<nat>)
    requires forall x :: x in ids ==>
               (x < |before| <==> x < |after|) && (x < |before| ==> after[x].payload == before[x].payload)
    ensures Payloads(after, ids) == Payloads(before, ids)
  {
    if ids != [] {
      assert ids[0] in ids && forall x :: x in ids[1..] ==> x in ids;
      SamePayloads(before, after, ids[1..]);
    }
  }

  /** Bytes put at the end of the last page come at the end of the stream. */
  lemma PayloadsExtended(pages: seq<Page>, after: seq<Page>, ids: seq<nat>, more: Bytes)
    requires ids != [] && NoDup(ids) && (forall x :: x in ids ==> x < |pages|) && |pages| == |after|
    requires var last := ids[|ids| - 1];
      last < |pages| && after == pages[last := pages[last].(payload := pages[last].payload + more)]
    ensures Payloads(after, ids) == Payloads(pages, ids) + more
  {
    hide Payloads;
    var k := |ids| - 1;
    var last := ids[k];
    var a := ids[..k];
    assert ids == a + [last];
    forall x | x in a ensures x < |pages| && after[x].payload == pages[x].payload {
      assert x in ids;
    }
    SamePayloads(pages, after, a);
    PayloadsSplit(pages, a, [last]);
    PayloadsSplit(after, a, [last]);
    PayloadsOne(pages, last);
    PayloadsOne(after, last);
    Reassociate(Payloads(pages, a), pages[last].payload, more);
  }
}
