/** The reflected IEEE CRC-32 (section 3.2.9 of IEEE 802.3) over byte strings.
    The register is a bit vector; the stored field is its four bytes, lowest
    first, so no arithmetic conversion stands between the two. */
module Crc {
  import opened Ordering

  const POLYNOMIAL: bv32 := 0xedb88320

  function Bit(crc: bv32): bv32 {
    if crc & 1 == 1 then (crc >> 1) ^ POLYNOMIAL else crc >> 1
  }

  function Bits(crc: bv32, n: nat): bv32
    decreases n
  {
    if n == 0 then crc else Bits(Bit(crc), n - 1)
  }

  function Odd(n: nat): bool { n % 2 == 1 }

  function Pack(b0: bool, b1: bool, b2: bool, b3: bool, b4: bool, b5: bool, b6: bool, b7: bool): bv32 {
    (if b0 then 1 else 0) | (if b1 then 2 else 0) | (if b2 then 4 else 0) | (if b3 then 8 else 0) |
    (if b4 then 16 else 0) | (if b5 then 32 else 0) | (if b6 then 64 else 0) | (if b7 then 128 else 0)
  }

  /** The byte as the low eight bits of a register. */
  function Widen(b: byte): bv32 {
    Pack(Odd(b), Odd(b / 2), Odd(b / 4), Odd(b / 8), Odd(b / 16), Odd(b / 32), Odd(b / 64), Odd(b / 128))
  }

  function Weigh(w: bv32, mask: bv32, weight: nat): nat { if w & mask == 0 then 0 else weight }

  /** The low eight bits of a register as a byte. */
  function Low(w: bv32): byte {
    Weigh(w, 1, 1) + Weigh(w, 2, 2) + Weigh(w, 4, 4) + Weigh(w, 8, 8) +
    Weigh(w, 16, 16) + Weigh(w, 32, 32) + Weigh(w, 64, 64) + Weigh(w, 128, 128)
  }

  function Shift(w: bv32, n: bv32): bv32
    requires n < 32
  {
    w >> n
  }

  function WordBytes(w: bv32): (b: Bytes)
    ensures |b| == 4
  {
    [Low(w), Low(Shift(w, 8)), Low(Shift(w, 16)), Low(Shift(w, 24))]
  }

  function Xor(x: bv32, y: bv32): bv32 { x ^ y }

  /** One byte of input. */
  function Step(crc: bv32, b: byte): bv32 { Bits(Xor(crc, Widen(b)), 8) }

  function Fold(crc: bv32, data: Bytes): bv32
    decreases |data|
  {
    if data == [] then crc else Fold(Step(crc, data[0]), data[1..])
  }

  function Crc32(data: Bytes): (b: Bytes)
    ensures |b| == 4
  {
    WordBytes(Xor(Fold(0xffffffff, data), 0xffffffff))
  }

  method StepBits(crc: bv32) returns (r: bv32)
    ensures r == Bits(crc, 8)
  {
    hide Bit;
    r := crc;
    for bit := 0 to 8
      invariant Bits(r, 8 - bit) == Bits(crc, 8)
    {
      r := Bit(r);
    }
  }

  /** The bit-by-bit loop computes the folded register. */
  method ComputeCrc32(data: Bytes) returns (b: Bytes)
    ensures b == Crc32(data)
  {
    hide Xor, Widen, WordBytes, Bits;
    var crc: bv32 := 0xffffffff;
    for i := 0 to |data|
      invariant Fold(crc, data[i..]) == Fold(0xffffffff, data)
    {
      assert data[i..][1..] == data[i + 1..];
      crc := StepBits(Xor(crc, Widen(data[i])));
    }
    b := WordBytes(Xor(crc, 0xffffffff));
  }

  // ----- every step is injective

  lemma BitInjective(x: bv32, y: bv32)
    requires Bit(x) == Bit(y)
    ensures x == y
  {
  }

  lemma {:induction false} BitsInjective(x: bv32, y: bv32, n: nat)
    requires Bits(x, n) == Bits(y, n)
    ensures x == y
    decreases n
  {
    hide Bit;
    if n > 0 {
      BitsInjective(Bit(x), Bit(y), n - 1);
      BitInjective(x, y);
    }
  }

  lemma PackedBits(b0: bool, b1: bool, b2: bool, b3: bool, b4: bool, b5: bool, b6: bool, b7: bool)
    ensures
      var w := Pack(b0, b1, b2, b3, b4, b5, b6, b7);
      && (w & 1 == 0 <==> !b0) && (w & 2 == 0 <==> !b1) && (w & 4 == 0 <==> !b2) && (w & 8 == 0 <==> !b3)
      && (w & 16 == 0 <==> !b4) && (w & 32 == 0 <==> !b5) && (w & 64 == 0 <==> !b6) && (w & 128 == 0 <==> !b7)
  {
  }

  lemma LowOfWiden(b: byte)
    ensures Low(Widen(b)) == b
  {
    hide Pack, Odd;
    PackedBits(Odd(b), Odd(b / 2), Odd(b / 4), Odd(b / 8), Odd(b / 16), Odd(b / 32), Odd(b / 64), Odd(b / 128));
    Nibble(b);
    HighNibble(b);
  }

  function Digit(n: nat): nat { if Odd(n) then 1 else 0 }

  lemma Halve(n: nat)
    ensures n == Digit(n) + 2 * (n / 2)
  {
  }

  lemma Nibble(n: nat)
    ensures n == Digit(n) + 2 * Digit(n / 2) + 4 * Digit(n / 4) + 8 * Digit(n / 8) + 16 * (n / 16)
  {
    hide Digit;
    var h, q, e := n / 2, n / 4, n / 8;
    Halve(n);
    Halve(h);
    Halve(q);
    Halve(e);
    assert h / 2 == q && q / 2 == e && e / 2 == n / 16;
  }

  lemma HighNibble(b: byte)
    ensures b / 16 == Digit(b / 16) + 2 * Digit(b / 32) + 4 * Digit(b / 64) + 8 * Digit(b / 128)
  {
    Nibble(b / 16);
    assert b / 16 / 2 == b / 32 && b / 16 / 4 == b / 64 && b / 16 / 8 == b / 128 && b / 16 / 16 == 0;
  }

  lemma LowInjective(v: bv32, w: bv32)
    requires Low(v) == Low(w)
    ensures v & 255 == w & 255
  {
  }

  lemma FourBytes(v: bv32, w: bv32)
    requires v & 255 == w & 255
    requires (v >> 8) & 255 == (w >> 8) & 255
    requires (v >> 16) & 255 == (w >> 16) & 255
    requires (v >> 24) & 255 == (w >> 24) & 255
    ensures v == w
  {
  }

  lemma WordBytesInjective(v: bv32, w: bv32)
    requires WordBytes(v) == WordBytes(w)
    ensures v == w
  {
    SameLowBytes(v, w);
    FourBytes(v, w);
  }

  lemma SameLowBytes(v: bv32, w: bv32)
    requires WordBytes(v) == WordBytes(w)
    ensures v & 255 == w & 255
    ensures (v >> 8) & 255 == (w >> 8) & 255
    ensures (v >> 16) & 255 == (w >> 16) & 255
    ensures (v >> 24) & 255 == (w >> 24) & 255
  {
    hide Low, Shift;
    assert Low(v) == WordBytes(v)[0] == Low(w);
    assert Low(Shift(v, 8)) == WordBytes(v)[1] == Low(Shift(w, 8));
    assert Low(Shift(v, 16)) == WordBytes(v)[2] == Low(Shift(w, 16));
    assert Low(Shift(v, 24)) == WordBytes(v)[3] == Low(Shift(w, 24));
    ShiftedLow(v, w, 8);
    ShiftedLow(v, w, 16);
    ShiftedLow(v, w, 24);
    LowInjective(v, w);
  }

  lemma ShiftedLow(v: bv32, w: bv32, n: bv32)
    requires n < 32 && Low(Shift(v, n)) == Low(Shift(w, n))
    ensures (v >> n) & 255 == (w >> n) & 255
  {
    hide Low;
    LowInjective(v >> n, w >> n);
  }

  lemma XorCancels(x: bv32, y: bv32, m: bv32)
    requires Xor(x, m) == Xor(y, m) || Xor(m, x) == Xor(m, y)
    ensures x == y
  {
  }

  lemma StepInjective(x: bv32, y: bv32, b: byte)
    requires Step(x, b) == Step(y, b)
    ensures x == y
  {
    hide Bits, Xor, Widen;
    BitsInjective(Xor(x, Widen(b)), Xor(y, Widen(b)), 8);
    XorCancels(x, y, Widen(b));
  }

  lemma StepSeparatesBytes(crc: bv32, a: byte, b: byte)
    requires Step(crc, a) == Step(crc, b)
    ensures a == b
  {
    hide Bits, Xor, Widen, Low;
    BitsInjective(Xor(crc, Widen(a)), Xor(crc, Widen(b)), 8);
    XorCancels(Widen(a), Widen(b), crc);
    LowOfWiden(a);
    LowOfWiden(b);
  }

  lemma {:induction false} FoldInjective(x: bv32, y: bv32, data: Bytes)
    requires Fold(x, data) == Fold(y, data)
    ensures x == y
    decreases |data|
  {
    hide Step;
    if data != [] {
      FoldInjective(Step(x, data[0]), Step(y, data[0]), data[1..]);
      StepInjective(x, y, data[0]);
    }
  }

  lemma {:induction false} FoldDetectsOneByte(crc: bv32, data: Bytes, i: nat, v: byte)
    requires i < |data| && v != data[i]
    ensures Fold(crc, data[i := v]) != Fold(crc, data)
    decreases |data|
  {
    hide Step;
    var other := data[i := v];
    if i == 0 {
      assert other[1..] == data[1..];
      if Fold(crc, other) == Fold(crc, data) {
        FoldInjective(Step(crc, data[0]), Step(crc, v), data[1..]);
        StepSeparatesBytes(crc, data[0], v);
      }
    } else {
      assert other[1..] == data[1..][i - 1 := v];
      FoldDetectsOneByte(Step(crc, data[0]), data[1..], i - 1, v);
    }
  }

  /** Changing any single byte changes the checksum. */
  lemma Crc32DetectsOneByte(data: Bytes, i: nat, v: byte)
    requires i < |data| && v != data[i]
    ensures Crc32(data[i := v]) != Crc32(data)
  {
    hide Fold, WordBytes, Xor;
    FoldDetectsOneByte(0xffffffff, data, i, v);
    var x, y := Fold(0xffffffff, data[i := v]), Fold(0xffffffff, data);
    if Crc32(data[i := v]) == Crc32(data) {
      WordBytesInjective(Xor(x, 0xffffffff), Xor(y, 0xffffffff));
      XorCancels(x, y, 0xffffffff);
    }
  }
}
