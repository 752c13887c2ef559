/** Little-endian integers, length-prefixed strings and the cursor that reads
    them back.  Encoders are functions; every reader is proved to accept
    exactly what the matching encoder writes. */
module Codec {
  import opened Ordering

  const MAX_VALUE_LENGTH := 100
  const U16 := 0x1_0000
  const U32 := 0x1_0000_0000
  const U64 := 0x1_0000_0000_0000_0000

  datatype Option<+T> = None | Some(value: T)

  /** The exceptions of the engine, by kind. */
  datatype Error = Corruption | LogicError | InvalidArgument | LengthError | OutOfRange | Overflow | RuntimeError

  datatype Result<+T> = Ok(value: T) | Err(error: Error)

  // ----- integers

  function Capacity(width: nat): (n: nat)
    ensures n >= 1
  {
    if width == 0 then 1 else 256 * Capacity(width - 1)
  }

  function LE(v: nat, width: nat): (b: Bytes)
    ensures |b| == width
  {
    if width == 0 then [] else [v % 256] + LE(v / 256, width - 1)
  }

  function FromLE(b: Bytes): (v: nat)
    ensures v < Capacity(|b|)
  {
    if b == [] then 0 else b[0] + 256 * FromLE(b[1..])
  }

  lemma {:induction false} FromLEOfLE(v: nat, width: nat)
    requires v < Capacity(width)
    ensures FromLE(LE(v, width)) == v
  {
    if width > 0 {
      FromLEOfLE(v / 256, width - 1);
      assert LE(v, width)[1..] == LE(v / 256, width - 1);
    }
  }

  lemma {:induction false} LEOfFromLE(b: Bytes)
    ensures LE(FromLE(b), |b|) == b
  {
    if b != [] {
      var rest := FromLE(b[1..]);
      LEOfFromLE(b[1..]);
      LowAndRest(b[0], rest);
      assert b == [b[0]] + b[1..];
    }
  }

  lemma LowAndRest(low: byte, rest: nat)
    ensures (low + 256 * rest) % 256 == low && (low + 256 * rest) / 256 == rest
  {
  }

  lemma Widths()
    ensures Capacity(2) == U16 && Capacity(4) == U32 && Capacity(8) == U64
  {
    assert Capacity(4) == 256 * (256 * Capacity(2));
    assert Capacity(8) == 256 * (256 * (256 * (256 * Capacity(4))));
  }

  /** Appending one byte at a time, lowest first, writes the little-endian form. */
  method AppendLE(output: Bytes, v: nat, width: nat) returns (r: Bytes)
    ensures r == output + LE(v, width)
  {
    r := output;
    var rest := v;
    for i := 0 to width
      invariant r + LE(rest, width - i) == output + LE(v, width)
    {
      assert LE(rest, width - i) == [rest % 256] + LE(rest / 256, width - i - 1);
      r := r + [rest % 256];
      rest := rest / 256;
    }
    assert LE(rest, 0) == [];
  }

  /** Overwriting `LE`-coded bytes in place inside a payload. */
  function WriteLE(b: Bytes, offset: nat, v: nat, width: nat): (r: Bytes)
    requires offset + width <= |b|
    ensures |r| == |b|
  {
    b[..offset] + LE(v, width) + b[offset + width..]
  }

  // ----- strings

  predicate StringOk(s: Key) { |s| <= MAX_VALUE_LENGTH }

  function EncString(s: Key): (b: Bytes)
    ensures |b| == 2 + |s|
  {
    LE(|s|, 2) + s
  }

  lemma EncStringPrefixFree(s: Key, t: Key, x: Bytes, y: Bytes)
    requires StringOk(s) && StringOk(t) && EncString(s) + x == EncString(t) + y
    ensures s == t && x == y
  {
    Widths();
    FromLEOfLE(|s|, 2);
    FromLEOfLE(|t|, 2);
    assert (EncString(s) + x)[..2] == LE(|s|, 2);
    assert (EncString(t) + y)[..2] == LE(|t|, 2);
    assert (EncString(s) + x)[2..2 + |s|] == s;
    assert (EncString(t) + y)[2..2 + |s|] == t;
    assert (EncString(s) + x)[2 + |s|..] == x;
    assert (EncString(t) + y)[2 + |s|..] == y;
  }

  // ----- lists of self-delimiting items

  function EncList<T>(xs: seq<T>, enc: T -> Bytes): Bytes {
    if xs == [] then [] else enc(xs[0]) + EncList(xs[1..], enc)
  }

  /** No encoding is a proper prefix of another one, even with bytes behind it. */
  ghost predicate PrefixFree<T(!new)>(enc: T -> Bytes, ok: T -> bool) {
    forall a, b, x, y :: ok(a) && ok(b) && enc(a) + x == enc(b) + y ==> a == b && x == y
  }

  lemma PrefixFreeSplits<T(!new)>(enc: T -> Bytes, ok: T -> bool, a: T, b: T, x: Bytes, y: Bytes)
    requires PrefixFree(enc, ok) && ok(a) && ok(b) && enc(a) + x == enc(b) + y
    ensures a == b && x == y
  {
  }

  ghost predicate All<T>(xs: seq<T>, ok: T -> bool) {
    forall i :: 0 <= i < |xs| ==> ok(xs[i])
  }

  lemma {:induction false} EncListSplit<T>(xs: seq<T>, ys: seq<T>, enc: T -> Bytes)
    ensures EncList(xs + ys, enc) == EncList(xs, enc) + EncList(ys, enc)
  {
    if xs == [] {
      assert xs + ys == ys;
    } else {
      assert (xs + ys)[1..] == xs[1..] + ys;
      EncListSplit(xs[1..], ys, enc);
    }
  }

  lemma {:induction false} EncListInjective<T(!new)>(xs: seq<T>, ys: seq<T>, enc: T -> Bytes, ok: T -> bool, a: Bytes,
          b: Bytes)
    requires PrefixFree(enc, ok) && All(xs, ok) && All(ys, ok) && |xs| == |ys|
    requires EncList(xs, enc) + a == EncList(ys, enc) + b
    ensures xs == ys && a == b
  {
    if xs == [] {
      assert [] + a == a && [] + b == b;
    } else {
      var x, y := EncList(xs[1..], enc), EncList(ys[1..], enc);
      Reassociate(enc(xs[0]), x, a);
      Reassociate(enc(ys[0]), y, b);
      PrefixFreeSplits(enc, ok, xs[0], ys[0], x + a, y + b);
      EncListInjective(xs[1..], ys[1..], enc, ok, a, b);
      assert xs == [xs[0]] + xs[1..] && ys == [ys[0]] + ys[1..];
    }
  }

  /** After reading `xs`, a longer list `ys` that explains the same bytes goes on
      with its own next item. */
  lemma NextItem<T(!new)>(xs: seq<T>, ys: seq<T>, enc: T -> Bytes, ok: T -> bool, a: Bytes, b: Bytes)
    requires PrefixFree(enc, ok) && All(xs, ok) && All(ys, ok) && |xs| < |ys|
    requires EncList(xs, enc) + a == EncList(ys, enc) + b
    ensures a == enc(ys[|xs|]) + (EncList(ys[|xs| + 1..], enc) + b)
  {
    hide PrefixFree;
    var n := |xs|;
    var p, q := ys[..n], ys[n..];
    assert ys == p + q;
    EncListSplit(p, q, enc);
    Reassociate(EncList(p, enc), EncList(q, enc), b);
    EncListInjective(xs, p, enc, ok, a, EncList(q, enc) + b);
    assert q[1..] == ys[n + 1..];
    Reassociate(enc(q[0]), EncList(q[1..], enc), b);
  }

  lemma EncListAppend<T>(xs: seq<T>, x: T, enc: T -> Bytes)
    ensures EncList(xs + [x], enc) == EncList(xs, enc) + enc(x)
  {
    EncListSplit(xs, [x], enc);
    assert EncList([x], enc) == enc(x);
  }

  lemma StringsArePrefixFree()
    ensures PrefixFree(EncString, StringOk)
  {
    forall s, t, x, y | StringOk(s) && StringOk(t) && EncString(s) + x == EncString(t) + y
      ensures s == t && x == y
    {
      EncStringPrefixFree(s, t, x, y);
    }
  }

  // ----- the cursor

  class Reader {
    const bytes: Bytes
    var position: nat

    ghost predicate Valid() reads this { position <= |bytes| }

    /** The bytes not read yet. */
    function Rest(): Bytes
      requires Valid()
      reads this
    {
      bytes[position..]
    }

    constructor (b: Bytes)
      ensures Valid() && Rest() == b && bytes == b
    {
      bytes := b;
      position := 0;
    }

    /** u16, u32 and u64 are this with width 2, 4 and 8. */
    method Unsigned(width: nat) returns (r: Option<nat>)
      requires Valid()
      modifies this
      ensures Valid()
      ensures r.Some? <==> width <= old(|Rest()|)
      ensures r.Some? ==> r.value < Capacity(width) && old(Rest()) == LE(r.value, width) + Rest()
      ensures r.None? ==> position == old(position)
    {
      if width > |bytes| - position {
        return None;
      }
      var value: nat, i: nat, scale: nat := 0, 0, 1;
      ghost var start := position;
      while i < width
        invariant i <= width && position == start + i && Valid()
        invariant value == FromLE(bytes[start..position]) && scale == Capacity(i)
      {
        FromLESnoc(bytes[start..position], bytes[position]);
        assert bytes[start..position + 1] == bytes[start..position] + [bytes[position]];
        value := value + bytes[position] * scale;
        scale := scale * 256;
        position := position + 1;
        i := i + 1;
      }
      LEOfFromLE(bytes[start..position]);
      assert bytes[start..] == bytes[start..position] + bytes[position..];
      r := Some(value);
    }

    method String() returns (r: Option<Key>)
      requires Valid()
      modifies this
      ensures Valid()
      ensures r.Some? ==> StringOk(r.value) && old(Rest()) == EncString(r.value) + Rest()
      ensures r.None? ==> forall s, x :: StringOk(s) ==> old(Rest()) != EncString(s) + x
    {
      ghost var before := Rest();
      var length := Unsigned(2);
      if length.None? || length.value > MAX_VALUE_LENGTH || length.value > |bytes| - position {
        forall s, x | StringOk(s) ensures before != EncString(s) + x {
          if before == EncString(s) + x {
            StringLength(before, s, x, if length.Some? then length.value else 0, Rest());
          }
        }
        return None;
      }
      var value := bytes[position..position + length.value];
      position := position + length.value;
      assert before == LE(|value|, 2) + (value + Rest());
      r := Some(value);
    }
  }

  lemma {:induction false} FromLESnoc(b: Bytes, x: byte)
    ensures FromLE(b + [x]) == FromLE(b) + x * Capacity(|b|)
  {
    if b == [] {
      assert b + [x] == [x];
    } else {
      assert (b + [x])[1..] == b[1..] + [x];
      FromLESnoc(b[1..], x);
      assert 256 * (x * Capacity(|b| - 1)) == x * Capacity(|b|);
    }
  }

  /** A coded string announces its own length. */
  lemma StringLength(b: Bytes, s: Key, x: Bytes, length: nat, rest: Bytes)
    requires StringOk(s) && b == EncString(s) + x
    ensures |b| >= 2
    ensures length < U16 && b == LE(length, 2) + rest ==> length == |s| && |rest| >= length
  {
    if length < U16 && b == LE(length, 2) + rest {
      Widths();
      FromLEOfLE(|s|, 2);
      FromLEOfLE(length, 2);
      assert b[..2] == LE(length, 2) == LE(|s|, 2);
    }
  }
}
