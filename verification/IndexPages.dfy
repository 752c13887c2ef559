/** The payloads of B+ tree pages and the cursors that decode them. */
module IndexPages {
  import opened Ordering
  import opened Codec

  predicate EntryOk(e: Entry) { StringOk(e.key) && e.record < U64 }

  function EncEntry(e: Entry): (b: Bytes)
    ensures |b| == 10 + |e.key|
  {
    EncString(e.key) + LE(e.record, 8)
  }

  /** A separator with the child to its right. */
  datatype Branch = Branch(sep: Entry, child: nat)

  predicate BranchOk(b: Branch) { EntryOk(b.sep) && b.child < U32 }

  function EncBranch(b: Branch): (r: Bytes)
    ensures |r| == 14 + |b.sep.key|
  {
    EncEntry(b.sep) + LE(b.child, 4)
  }

  function LeafPayload(previous: nat, entries: seq<Entry>): Bytes {
    LE(|entries|, 2) + LE(previous, 4) + LE(0, 2) + EncList(entries, EncEntry)
  }

  function InternalPayload(level: nat, first: nat, branches: seq<Branch>): Bytes {
    LE(level, 2) + LE(|branches|, 2) + LE(first, 4) + EncList(branches, EncBranch)
  }

  // ----- both item codes are self-delimiting

  lemma IntPrefixFree(v: nat, w: nat, width: nat, x: Bytes, y: Bytes)
    requires v < Capacity(width) && w < Capacity(width) && LE(v, width) + x == LE(w, width) + y
    ensures v == w && x == y
  {
    hide LE, Capacity;
    FromLEOfLE(v, width);
    FromLEOfLE(w, width);
    assert (LE(v, width) + x)[..width] == LE(v, width);
    assert (LE(w, width) + y)[..width] == LE(w, width);
    assert (LE(v, width) + x)[width..] == x;
    assert (LE(w, width) + y)[width..] == y;
  }

  lemma EncEntryPrefixFree(a: Entry, b: Entry, x: Bytes, y: Bytes)
    requires EntryOk(a) && EntryOk(b) && EncEntry(a) + x == EncEntry(b) + y
    ensures a == b && x == y
  {
    hide EncString, LE;
    Reassociate(EncString(a.key), LE(a.record, 8), x);
    Reassociate(EncString(b.key), LE(b.record, 8), y);
    EncStringPrefixFree(a.key, b.key, LE(a.record, 8) + x, LE(b.record, 8) + y);
    Widths();
    IntPrefixFree(a.record, b.record, 8, x, y);
  }

  lemma EntriesArePrefixFree()
    ensures PrefixFree(EncEntry, EntryOk)
  {
    hide EncEntry;
    forall a, b, x, y | EntryOk(a) && EntryOk(b) && EncEntry(a) + x == EncEntry(b) + y ensures a == b && x == y {
      EncEntryPrefixFree(a, b, x, y);
    }
  }

  lemma BranchesArePrefixFree()
    ensures PrefixFree(EncBranch, BranchOk)
  {
    hide EncEntry, LE;
    Widths();
    forall a, b, x, y | BranchOk(a) && BranchOk(b) && EncBranch(a) + x == EncBranch(b) + y ensures a == b && x == y {
      Reassociate(EncEntry(a.sep), LE(a.child, 4), x);
      Reassociate(EncEntry(b.sep), LE(b.child, 4), y);
      EncEntryPrefixFree(a.sep, b.sep, LE(a.child, 4) + x, LE(b.child, 4) + y);
      IntPrefixFree(a.child, b.child, 4, x, y);
    }
  }

  // ----- payload sizes

  function EntriesSize(es: seq<Entry>, overhead: nat): (n: nat)
    ensures n >= overhead * |es|
  {
    if es == [] then 0 else overhead + |es[0].key| + EntriesSize(es[1..], overhead)
  }

  function LeafSize(es: seq<Entry>): nat { 8 + EntriesSize(es, 10) }

  function NodeSize(seps: seq<Entry>): nat { 8 + EntriesSize(seps, 14) }

  lemma {:induction false} LeafPayloadSize(previous: nat, es: seq<Entry>)
    ensures |LeafPayload(previous, es)| == LeafSize(es)
  {
    hide LE;
    if es != [] {
      LeafPayloadSize(previous, es[1..]);
    }
  }

  ghost predicate Separate(seps: seq<Entry>, branches: seq<Branch>) {
    |seps| == |branches| && forall i :: 0 <= i < |seps| ==> branches[i].sep == seps[i]
  }

  lemma {:induction false} InternalPayloadSize(level: nat, first: nat, seps: seq<Entry>, branches: seq<Branch>)
    requires Separate(seps, branches)
    ensures |InternalPayload(level, first, branches)| == NodeSize(seps)
  {
    hide LE;
    if seps != [] {
      InternalPayloadSize(level, first, seps[1..], branches[1..]);
    }
  }

  // ----- fields of a leaf payload

  /** The sibling field of a leaf payload. */
  function PreviousOf(payload: Bytes): nat {
    if |payload| < 6 then 0 else FromLE(payload[2..6])
  }

  lemma LeafPrevious(previous: nat, es: seq<Entry>)
    requires previous < U32
    ensures PreviousOf(LeafPayload(previous, es)) == previous
  {
    hide LE, EncList;
    Widths();
    FromLEOfLE(previous, 4);
    assert LeafPayload(previous, es)[2..6] == LE(previous, 4);
  }

  lemma LeafRepointed(previous: nat, es: seq<Entry>, other: nat)
    ensures |LeafPayload(previous, es)| >= 8
    ensures WriteLE(LeafPayload(previous, es), 2, other, 4) == LeafPayload(other, es)
  {
    hide LE, EncList;
    var tail := LE(0, 2) + EncList(es, EncEntry);
    assert LeafPayload(previous, es) == LE(|es|, 2) + LE(previous, 4) + tail;
    assert LeafPayload(other, es) == LE(|es|, 2) + LE(other, 4) + tail;
  }

  // ----- decoding

  datatype LeafContents = LeafContents(previous: nat, entries: seq<Entry>)

  ghost predicate IsLeaf(payload: Bytes, c: LeafContents) {
    && c.previous < U32 && |c.entries| < U16 && All(c.entries, EntryOk)
    && payload == LeafPayload(c.previous, c.entries)
  }

  lemma LeafHeader(c: LeafContents, payload: Bytes, rest: Bytes, count: nat, previous: nat, zero: nat)
    requires IsLeaf(payload, c) && count < U16 && previous < U32 && zero < U16
    requires payload == LE(count, 2) + (LE(previous, 4) + (LE(zero, 2) + rest))
    ensures count == |c.entries| && previous == c.previous && zero == 0 && rest == EncList(c.entries, EncEntry)
  {
    hide LE, EncList;
    Widths();
    var tail := EncList(c.entries, EncEntry);
    assert payload == LE(|c.entries|, 2) + (LE(c.previous, 4) + (LE(0, 2) + tail));
    IntPrefixFree(count, |c.entries|, 2, LE(previous, 4) + (LE(zero, 2) + rest), LE(c.previous, 4) + (LE(0, 2) + tail));
    IntPrefixFree(previous, c.previous, 4, LE(zero, 2) + rest, LE(0, 2) + tail);
    IntPrefixFree(zero, 0, 2, rest, tail);
  }

  lemma LeafContentsUnique(payload: Bytes, a: LeafContents, b: LeafContents)
    requires IsLeaf(payload, a) && IsLeaf(payload, b)
    ensures a == b
  {
    hide LE, EncList, All;
    var rest := EncList(a.entries, EncEntry);
    assert payload == LE(|a.entries|, 2) + (LE(a.previous, 4) + (LE(0, 2) + rest));
    LeafHeader(b, payload, rest, |a.entries|, a.previous, 0);
    EntriesArePrefixFree();
    assert rest + [] == rest;
    EncListInjective(a.entries, b.entries, EncEntry, EntryOk, [], []);
  }

  method ReadEntry(reader: Reader) returns (r: Option<Entry>)
    requires reader.Valid()
    modifies reader
    ensures reader.Valid()
    ensures r.Some? ==> EntryOk(r.value) && old(reader.Rest()) == EncEntry(r.value) + reader.Rest()
    ensures r.None? ==> forall e, x :: EntryOk(e) ==> old(reader.Rest()) != EncEntry(e) + x
  {
    hide LE, EncString, Capacity;
    Widths();
    ghost var before := reader.Rest();
    var key := reader.String();
    if key.None? {
      forall e, x | EntryOk(e) ensures before != EncEntry(e) + x {
        Reassociate(EncString(e.key), LE(e.record, 8), x);
      }
      return None;
    }
    ghost var middle := reader.Rest();
    var record := reader.Unsigned(8);
    if record.None? {
      forall e, x | EntryOk(e) ensures before != EncEntry(e) + x {
        if before == EncEntry(e) + x {
          Reassociate(EncString(e.key), LE(e.record, 8), x);
          EncStringPrefixFree(key.value, e.key, middle, LE(e.record, 8) + x);
        }
      }
      return None;
    }
    Reassociate(EncString(key.value), LE(record.value, 8), reader.Rest());
    r := Some(Entry(key.value, record.value));
  }

  method ReadEntries(reader: Reader, count: nat) returns (r: Option<seq<Entry>>)
    requires reader.Valid()
    modifies reader
    ensures reader.Valid()
    ensures r.Some? ==> |r.value| == count && All(r.value, EntryOk)
    ensures r.Some? ==> old(reader.Rest()) == EncList(r.value, EncEntry) + reader.Rest()
    ensures r.None? ==> forall es :: |es| == count && All(es, EntryOk) ==> old(reader.Rest()) != EncList(es, EncEntry)
  {
    hide EncEntry, EncList, EntryOk;
    ghost var before := reader.Rest();
    var es: seq<Entry> := [];
    assert EncList(es, EncEntry) == [] by { EncNothing(EncEntry); }
    while |es| < count
      invariant |es| <= count && All(es, EntryOk) && reader.Valid()
      invariant before == EncList(es, EncEntry) + reader.Rest()
    {
      ghost var here := reader.Rest();
      var e := ReadEntry(reader);
      if e.None? {
        forall other | |other| == count && All(other, EntryOk) ensures before != EncList(other, EncEntry) {
          if before == EncList(other, EncEntry) {
            EntriesArePrefixFree();
            NextItem(es, other, EncEntry, EntryOk, here, []);
          }
        }
        return None;
      }
      EncListAppend(es, e.value, EncEntry);
      Reassociate(EncList(es, EncEntry), EncEntry(e.value), reader.Rest());
      es := es + [e.value];
    }
    r := Some(es);
  }

  lemma EncNothing<T>(enc: T -> Bytes)
    ensures EncList([], enc) == []
  {
  }

  /** Three consecutive integers of the given widths. */
  method ReadThree(reader: Reader, a: nat, b: nat, c: nat) returns (ok: bool, x: nat, y: nat, z: nat)
    requires reader.Valid()
    modifies reader
    ensures reader.Valid()
    ensures ok <==> a + b + c <= |old(reader.Rest())|
    ensures ok ==> x < Capacity(a) && y < Capacity(b) && z < Capacity(c)
    ensures ok ==> old(reader.Rest()) == LE(x, a) + (LE(y, b) + (LE(z, c) + reader.Rest()))
  {
    hide LE, Capacity;
    ok, x, y, z := false, 0, 0, 0;
    var r := reader.Unsigned(a);
    if r.None? { return; }
    var s := reader.Unsigned(b);
    if s.None? { return; }
    var t := reader.Unsigned(c);
    if t.None? { return; }
    ok, x, y, z := true, r.value, s.value, t.value;
  }

  /** Accepts exactly the leaf payloads, and returns what they encode. */
  method DecodeLeafContents(payload: Bytes) returns (r: Result<LeafContents>)
    ensures r.Ok? ==> IsLeaf(payload, r.value)
    ensures r.Err? ==> forall c :: !IsLeaf(payload, c)
  {
    hide LE, EncList, Capacity, All, IsLeaf, EncEntry, EntryOk;
    Widths();
    var reader := new Reader(payload);
    forall c | IsLeaf(payload, c) ensures |payload| >= 8 { LeafIsLong(payload, c); }
    var ok, count, previous, zero := ReadThree(reader, 2, 4, 2);
    if !ok { return Err(Corruption); }
    ghost var rest := reader.Rest();
    forall c | IsLeaf(payload, c)
      ensures |c.entries| == count && zero == 0 && rest == EncList(c.entries, EncEntry) && All(c.entries, EntryOk)
    {
      LeafHeader(c, payload, rest, count, previous, zero);
      LeafParts(payload, c);
    }
    if zero != 0 { return Err(Corruption); }
    var entries := ReadEntries(reader, count);
    if entries.None? { return Err(Corruption); }
    ghost var tail := reader.Rest();
    forall c | IsLeaf(payload, c) ensures tail == [] { NothingLeft(entries.value, c.entries, tail); }
    if reader.position != |reader.bytes| { return Err(Corruption); }
    r := Ok(LeafContents(previous, entries.value));
    LeafFromParts(payload, r.value);
  }

  lemma NothingLeft(es: seq<Entry>, other: seq<Entry>, tail: Bytes)
    requires |es| == |other| && All(es, EntryOk) && All(other, EntryOk)
    requires EncList(es, EncEntry) + tail == EncList(other, EncEntry)
    ensures tail == []
  {
    EntriesArePrefixFree();
    assert EncList(other, EncEntry) + [] == EncList(other, EncEntry);
    EncListInjective(es, other, EncEntry, EntryOk, tail, []);
  }

  lemma LeafFromParts(payload: Bytes, c: LeafContents)
    requires c.previous < U32 && |c.entries| < U16 && All(c.entries, EntryOk)
    requires payload == LE(|c.entries|, 2) + (LE(c.previous, 4) + (LE(0, 2) + (EncList(c.entries, EncEntry) + [])))
    ensures IsLeaf(payload, c)
  {
    hide LE, EncList, All;
  }

  lemma LeafParts(payload: Bytes, c: LeafContents)
    requires IsLeaf(payload, c)
    ensures c.previous < U32 && |c.entries| < U16 && All(c.entries, EntryOk)
    ensures payload == LeafPayload(c.previous, c.entries)
  {
  }

  lemma LeafIsLong(payload: Bytes, c: LeafContents)
    requires IsLeaf(payload, c)
    ensures |payload| >= 8
  {
  }

  datatype InternalContents = InternalContents(level: nat, separators: seq<Entry>, children: seq<nat>)

  /** Separators paired with the children to their right. */
  function Branches(separators: seq<Entry>, children: seq<nat>): (b: seq<Branch>)
    requires |children| == |separators| + 1
    ensures |b| == |separators| && Separate(separators, b)
  {
    seq(|separators|, i requires 0 <= i < |separators| => Branch(separators[i], children[i + 1]))
  }

  predicate Paired(c: InternalContents) { |c.children| == |c.separators| + 1 }

  ghost predicate InternalOk(c: InternalContents) {
    && Paired(c) && c.level < U16 && |c.separators| < U16
    && All(c.separators, EntryOk) && forall i :: 0 <= i < |c.children| ==> c.children[i] < U32
  }

  function InternalBytes(c: InternalContents): Bytes
    requires Paired(c)
  {
    InternalPayload(c.level, c.children[0], Branches(c.separators, c.children))
  }

  ghost predicate IsInternal(payload: Bytes, c: InternalContents) {
    InternalOk(c) && payload == InternalBytes(c)
  }

  lemma InternalBytesSize(c: InternalContents)
    requires Paired(c)
    ensures |InternalBytes(c)| == NodeSize(c.separators)
  {
    hide Branches, InternalPayload;
    InternalPayloadSize(c.level, c.children[0], c.separators, Branches(c.separators, c.children));
  }

  lemma BranchesOk(c: InternalContents)
    requires InternalOk(c)
    ensures All(Branches(c.separators, c.children), BranchOk)
  {
  }

  lemma InternalHeader(c: InternalContents, payload: Bytes, rest: Bytes, level: nat, count: nat, first: nat)
    requires IsInternal(payload, c) && level < U16 && count < U16 && first < U32
    requires payload == LE(level, 2) + (LE(count, 2) + (LE(first, 4) + rest))
    ensures level == c.level && count == |c.separators| && first == c.children[0]
    ensures rest == EncList(Branches(c.separators, c.children), EncBranch)
  {
    hide LE, EncList, Branches, All;
    Widths();
    var tail := EncList(Branches(c.separators, c.children), EncBranch);
    assert payload == LE(c.level, 2) + (LE(|c.separators|, 2) + (LE(c.children[0], 4) + tail));
    IntPrefixFree(level, c.level, 2, LE(count, 2) + (LE(first, 4) + rest),
        LE(|c.separators|, 2) + (LE(c.children[0], 4) + tail));
    IntPrefixFree(count, |c.separators|, 2, LE(first, 4) + rest, LE(c.children[0], 4) + tail);
    IntPrefixFree(first, c.children[0], 4, rest, tail);
  }

  lemma BranchesDetermine(a: InternalContents, b: InternalContents)
    requires Paired(a) && Paired(b) && a.level == b.level && a.children[0] == b.children[0]
    requires Branches(a.separators, a.children) == Branches(b.separators, b.children)
    ensures a == b
  {
    var x, y := Branches(a.separators, a.children), Branches(b.separators, b.children);
    assert forall i :: 0 <= i < |x| ==> x[i] == y[i] && a.separators[i] == b.separators[i];
    assert forall i :: 0 <= i < |x| ==> x[i].child == a.children[i + 1] && y[i].child == b.children[i + 1];
    assert forall i :: 1 <= i < |a.children| ==> a.children[i] == x[i - 1].child;
    assert forall i :: 1 <= i < |b.children| ==> b.children[i] == y[i - 1].child;
    assert a.children == b.children && a.separators == b.separators;
  }

  lemma InternalContentsUnique(payload: Bytes, a: InternalContents, b: InternalContents)
    requires IsInternal(payload, a) && IsInternal(payload, b)
    ensures a == b
  {
    hide LE, EncList, Branches, All;
    var x, y := Branches(a.separators, a.children), Branches(b.separators, b.children);
    var rest := EncList(x, EncBranch);
    assert payload == LE(a.level, 2) + (LE(|a.separators|, 2) + (LE(a.children[0], 4) + rest));
    InternalHeader(b, payload, rest, a.level, |a.separators|, a.children[0]);
    BranchesOk(a);
    BranchesOk(b);
    BranchesArePrefixFree();
    assert rest + [] == rest;
    EncListInjective(x, y, EncBranch, BranchOk, [], []);
    BranchesDetermine(a, b);
  }

  method ReadBranch(reader: Reader) returns (r: Option<Branch>)
    requires reader.Valid()
    modifies reader
    ensures reader.Valid()
    ensures r.Some? ==> BranchOk(r.value) && old(reader.Rest()) == EncBranch(r.value) + reader.Rest()
    ensures r.None? ==> forall b, x :: BranchOk(b) ==> old(reader.Rest()) != EncBranch(b) + x
  {
    hide LE, EncEntry, Capacity, EntryOk;
    Widths();
    ghost var before := reader.Rest();
    var sep := ReadEntry(reader);
    if sep.None? {
      forall b, x | BranchOk(b) ensures before != EncBranch(b) + x {
        Reassociate(EncEntry(b.sep), LE(b.child, 4), x);
      }
      return None;
    }
    ghost var middle := reader.Rest();
    var child := reader.Unsigned(4);
    if child.None? {
      forall b, x | BranchOk(b) ensures before != EncBranch(b) + x {
        if before == EncBranch(b) + x {
          Reassociate(EncEntry(b.sep), LE(b.child, 4), x);
          EncEntryPrefixFree(sep.value, b.sep, middle, LE(b.child, 4) + x);
        }
      }
      return None;
    }
    Reassociate(EncEntry(sep.value), LE(child.value, 4), reader.Rest());
    r := Some(Branch(sep.value, child.value));
  }

  /** The branches read so far, kept as the two vectors of the node. */
  ghost predicate Collected(branches: seq<Branch>, separators: seq<Entry>, children: seq<nat>, first: nat) {
    && |separators| == |branches| && |children| == |branches| + 1 && children[0] == first
    && branches == Branches(separators, children) && All(branches, BranchOk)
  }

  lemma CollectOne(branches: seq<Branch>, separators: seq<Entry>, children: seq<nat>, first: nat, b: Branch)
    requires Collected(branches, separators, children, first) && BranchOk(b)
    ensures Collected(branches + [b], separators + [b.sep], children + [b.child], first)
    ensures EncList(branches + [b], EncBranch) == EncList(branches, EncBranch) + EncBranch(b)
  {
    hide EncList, EncBranch, BranchOk;
    EncListAppend(branches, b, EncBranch);
    assert Branches(separators + [b.sep], children + [b.child]) == branches + [b];
  }

  method ReadBranches(reader: Reader, count: nat, first: nat)
    returns (ok: bool, separators: seq<Entry>, children: seq<nat>, ghost branches: seq<Branch>)
    requires reader.Valid()
    modifies reader
    ensures reader.Valid()
    ensures ok ==> |branches| == count && Collected(branches, separators, children, first)
    ensures ok ==> old(reader.Rest()) == EncList(branches, EncBranch) + reader.Rest()
    ensures !ok ==> forall bs :: |bs| == count && All(bs, BranchOk) ==> old(reader.Rest()) != EncList(bs, EncBranch)
  {
    hide EncBranch, EncList, BranchOk, Collected;
    ghost var before := reader.Rest();
    ok, separators, children, branches := true, [], [first], [];
    EncNothing(EncBranch);
    NothingCollected(first);
    for i := 0 to count
      invariant |branches| == i && Collected(branches, separators, children, first) && reader.Valid()
      invariant before == EncList(branches, EncBranch) + reader.Rest()
    {
      ghost var here := reader.Rest();
      var b := ReadBranch(reader);
      if b.None? {
        forall other | |other| == count && All(other, BranchOk) ensures before != EncList(other, EncBranch) {
          if before == EncList(other, EncBranch) {
            BranchesArePrefixFree();
            CollectedOk(branches, separators, children, first);
            NextItem(branches, other, EncBranch, BranchOk, here, []);
          }
        }
        ok := false;
        return;
      }
      CollectOne(branches, separators, children, first, b.value);
      Reassociate(EncList(branches, EncBranch), EncBranch(b.value), reader.Rest());
      separators, children := separators + [b.value.sep], children + [b.value.child];
      branches := branches + [b.value];
    }
  }

  lemma NothingCollected(first: nat)
    ensures Collected([], [], [first], first)
  {
  }

  lemma CollectedOk(branches: seq<Branch>, separators: seq<Entry>, children: seq<nat>, first: nat)
    requires Collected(branches, separators, children, first)
    ensures All(branches, BranchOk)
  {
  }

  /** Accepts exactly the internal payloads, and returns what they encode. */
  method DecodeInternalContents(payload: Bytes) returns (r: Result<InternalContents>)
    ensures r.Ok? ==> IsInternal(payload, r.value)
    ensures r.Err? ==> forall c :: !IsInternal(payload, c)
  {
    hide LE, EncList, Capacity, IsInternal, Collected, All, BranchOk;
    Widths();
    var reader := new Reader(payload);
    forall c | IsInternal(payload, c) ensures |payload| >= 8 { InternalIsLong(payload, c); }
    var ok, level, count, first := ReadThree(reader, 2, 2, 4);
    if !ok { return Err(Corruption); }
    ghost var rest := reader.Rest();
    forall c | IsInternal(payload, c) ensures Continues(c, rest, count) {
      InternalHeader(c, payload, rest, level, count, first);
      InternalParts(payload, c);
    }
    var separators, children;
    ghost var branches;
    ok, separators, children, branches := ReadBranches(reader, count, first);
    if !ok { return Err(Corruption); }
    ghost var tail := reader.Rest();
    forall c | IsInternal(payload, c) ensures tail == [] {
      CollectedOk(branches, separators, children, first);
      NoBranchLeft(branches, c, rest, tail);
    }
    if reader.position != |reader.bytes| { return Err(Corruption); }
    r := Ok(InternalContents(level, separators, children));
    InternalFromParts(payload, r.value, branches, first);
  }

  ghost predicate Continues(c: InternalContents, rest: Bytes, count: nat) {
    && Paired(c) && |c.separators| == count
    && All(Branches(c.separators, c.children), BranchOk)
    && rest == EncList(Branches(c.separators, c.children), EncBranch)
  }

  lemma NoBranchLeft(branches: seq<Branch>, c: InternalContents, rest: Bytes, tail: Bytes)
    requires Continues(c, rest, |branches|) && All(branches, BranchOk)
    requires rest == EncList(branches, EncBranch) + tail
    ensures tail == []
  {
    hide EncList, All, BranchOk, EncBranch, Branches;
    BranchesArePrefixFree();
    assert rest + [] == rest;
    EncListInjective(branches, Branches(c.separators, c.children), EncBranch, BranchOk, tail, []);
  }

  lemma InternalParts(payload: Bytes, c: InternalContents)
    requires IsInternal(payload, c)
    ensures Paired(c) && All(Branches(c.separators, c.children), BranchOk)
  {
    BranchesOk(c);
  }

  lemma InternalIsLong(payload: Bytes, c: InternalContents)
    requires IsInternal(payload, c)
    ensures |payload| >= 8
  {
    hide LE, EncList;
  }

  lemma InternalFromParts(payload: Bytes, c: InternalContents, branches: seq<Branch>, first: nat)
    requires Collected(branches, c.separators, c.children, first) && c.level < U16 && |branches| < U16 && first < U32
    requires payload == LE(c.level, 2) + (LE(|branches|, 2) + (LE(first, 4) + (EncList(branches, EncBranch) + [])))
    ensures IsInternal(payload, c)
  {
    hide LE, EncList;
    assert forall i :: 0 <= i < |branches| ==> BranchOk(branches[i]);
    assert forall i :: 0 <= i < |branches| ==> branches[i].sep == c.separators[i];
    forall i | 1 <= i < |c.children| ensures c.children[i] < U32 {
      assert branches[i - 1].child == c.children[i];
    }
  }

  // ----- encoding

  /** `append_string`: refuses values over 100 bytes. */
  method AppendString(output: Bytes, s: Key) returns (r: Result<Bytes>)
    ensures r == if StringOk(s) then Ok(output + EncString(s)) else Err(LengthError)
  {
    hide LE;
    if |s| > MAX_VALUE_LENGTH { return Err(LengthError); }
    var length := AppendLE(output, |s|, 2);
    Reassociate(output, LE(|s|, 2), s);
    r := Ok(length + s);
  }

  method AppendEntry(output: Bytes, e: Entry) returns (r: Result<Bytes>)
    ensures r.Ok? <==> StringOk(e.key)
    ensures r.Ok? ==> r.value == output + EncEntry(e)
  {
    hide EncString, LE;
    var key := AppendString(output, e.key);
    if key.Err? { return key; }
    var all := AppendLE(key.value, e.record, 8);
    Reassociate(output, EncString(e.key), LE(e.record, 8));
    r := Ok(all);
  }

  ghost predicate KeysOk(es: seq<Entry>) { forall i :: 0 <= i < |es| ==> StringOk(es[i].key) }

  /** The header integers of a payload. */
  method EncodeHeader(x: nat, a: nat, y: nat, b: nat, z: nat, c: nat) returns (r: Bytes)
    ensures r == LE(x, a) + LE(y, b) + LE(z, c)
  {
    hide LE;
    r := AppendLE([], x, a);
    r := AppendLE(r, y, b);
    r := AppendLE(r, z, c);
  }

  method EncodeLeafPayload(previous: nat, entries: seq<Entry>) returns (r: Result<Bytes>)
    ensures r.Ok? <==> entries != [] && |entries| < U16 && KeysOk(entries)
    ensures r.Ok? ==> r.value == LeafPayload(previous, entries)
  {
    hide LE, EncEntry, EncList;
    if entries == [] || |entries| >= U16 { return Err(LogicError); }
    var payload := EncodeHeader(|entries|, 2, previous, 4, 0, 2);
    ghost var header := payload;
    EncNothing(EncEntry);
    for i := 0 to |entries|
      invariant payload == header + EncList(entries[..i], EncEntry) && KeysOk(entries[..i])
    {
      var next := AppendEntry(payload, entries[i]);
      if next.Err? { return Err(LengthError); }
      EncListAppend(entries[..i], entries[i], EncEntry);
      assert entries[..i + 1] == entries[..i] + [entries[i]];
      Reassociate(header, EncList(entries[..i], EncEntry), EncEntry(entries[i]));
      payload := next.value;
    }
    assert entries[..|entries|] == entries;
    r := Ok(payload);
  }

  method EncodeInternalPayload(c: InternalContents) returns (r: Result<Bytes>)
    ensures r.Ok? <==> c.level != 0 && |c.children| >= 2 && Paired(c) && |c.separators| < U16 && KeysOk(c.separators)
    ensures r.Ok? ==> r.value == InternalBytes(c)
  {
    hide LE, EncBranch, EncList;
    if c.level == 0 || |c.children| < 2 || |c.separators| + 1 != |c.children| || |c.separators| >= U16 {
      return Err(LogicError);
    }
    ghost var branches := Branches(c.separators, c.children);
    var payload := EncodeHeader(c.level, 2, |c.separators|, 2, c.children[0], 4);
    ghost var header := payload;
    EncNothing(EncBranch);
    for i := 0 to |c.separators|
      invariant payload == header + EncList(branches[..i], EncBranch) && KeysOk(c.separators[..i])
    {
      var next := AppendEntry(payload, c.separators[i]);
      if next.Err? { return Err(LengthError); }
      ghost var before := payload;
      payload := AppendLE(next.value, c.children[i + 1], 4);
      assert payload == before + EncBranch(branches[i]) by { BranchAppended(before, branches[i]); }
      EncListAppend(branches[..i], branches[i], EncBranch);
      assert branches[..i + 1] == branches[..i] + [branches[i]];
      Reassociate(header, EncList(branches[..i], EncBranch), EncBranch(branches[i]));
    }
    assert branches[..|branches|] == branches && c.separators[..|c.separators|] == c.separators;
    r := Ok(payload);
  }

  lemma BranchAppended(output: Bytes, b: Branch)
    ensures output + EncEntry(b.sep) + LE(b.child, 4) == output + EncBranch(b)
  {
    hide EncEntry, LE;
    Reassociate(output, EncEntry(b.sep), LE(b.child, 4));
  }
}
