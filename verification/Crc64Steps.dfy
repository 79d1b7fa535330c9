/** Word-level facts about the division steps of CRC-64-Jones, decided bit by bit. */
module Crc64Steps {

  import opened Bytes

  /** The Jones polynomial as src/crc64.c documents it, most significant coefficient first. */
  const POLY: bv64 := 0xad93_d235_94c9_35a9

  /** The same polynomial with its bits reversed, as the reflected algorithm uses it. */
  const REFLECTED_POLY: bv64 := 0x95ac_9329_ac4b_c9b5

  /** One step of reflected division: shift right, subtracting the polynomial when a one falls out. */
  function BitStep(c: bv64): (r: bv64) {
    if c & 1 == 1 then (c >> 1) ^ REFLECTED_POLY else c >> 1
  }

  /** Eight division steps written out. */
  function ByteStep(c: bv64): (r: bv64) {
    BitStep(BitStep(BitStep(BitStep(BitStep(BitStep(BitStep(BitStep(c))))))))
  }

  function Xor(a: bv64, b: bv64): (r: bv64) {
    a ^ b
  }

  function Widen(b: byte): (r: bv64) {
    b as bv64
  }

  function Push(w: bv64, b: byte): (r: bv64) {
    (w << 8) | (b as bv64)
  }

  // ----- Linearity of one bit step, by the two bits that fall out

  predicate XorStep(a: bv64, b: bv64) {
    BitStep(Xor(a, b)) == Xor(BitStep(a), BitStep(b))
  }

  lemma BitStepXor00(a: bv64, b: bv64)
    requires a & 1 == 0 && b & 1 == 0
    ensures XorStep(a, b)
  {}

  lemma BitStepXor01(a: bv64, b: bv64)
    requires a & 1 == 0 && b & 1 == 1
    ensures XorStep(a, b)
  {}

  lemma BitStepXor11(a: bv64, b: bv64)
    requires a & 1 == 1 && b & 1 == 1
    ensures XorStep(a, b)
  {}

  lemma XorCommutes(a: bv64, b: bv64)
    ensures Xor(a, b) == Xor(b, a)
  {}

  lemma XorStepCommutes(a: bv64, b: bv64)
    requires XorStep(a, b)
    ensures XorStep(b, a)
  {
    XorCommutes(a, b);
    XorCommutes(BitStep(a), BitStep(b));
  }

  lemma BitStepXor(a: bv64, b: bv64)
    ensures XorStep(a, b)
  {
    if a & 1 == 0 {
      if b & 1 == 0 { BitStepXor00(a, b); } else { BitStepXor01(a, b); }
    } else {
      if b & 1 == 0 { BitStepXor01(b, a); XorStepCommutes(b, a); } else { BitStepXor11(a, b); }
    }
  }

  lemma BitStepInjective(a: bv64, b: bv64)
    requires BitStep(a) == BitStep(b)
    ensures a == b
  {}

  /** The way back: the top bit tells whether the polynomial was subtracted. */
  function BitBack(c: bv64): (r: bv64) {
    if c & TOP == TOP then ((c ^ REFLECTED_POLY) << 1) | 1 else c << 1
  }

  const TOP: bv64 := 0x8000_0000_0000_0000

  lemma BackHigh(c: bv64, r: bv64)
    requires c & TOP == TOP && r == ((c ^ REFLECTED_POLY) << 1) | 1
    ensures BitStep(r) == c
  {}

  lemma BackLow(c: bv64, r: bv64)
    requires c & TOP != TOP && r == c << 1
    ensures BitStep(r) == c
  {}

  lemma BitStepBack(c: bv64)
    ensures BitStep(BitBack(c)) == c
  {
    hide BitStep;
    if c & TOP == TOP {
      BackHigh(c, BitBack(c));
    } else {
      BackLow(c, BitBack(c));
    }
  }

  lemma WidenXor(a: bv64, b: bv64, x: byte, y: byte)
    ensures Xor(Xor(a, b), Widen(x ^ y)) == Xor(Xor(a, Widen(x)), Xor(b, Widen(y)))
  {}

  lemma XorCancel(a: bv64, b: bv64, c: bv64)
    requires Xor(a, c) == Xor(b, c)
    ensures a == b
  {}

  // ----- Splitting a word into the byte that is looked up and the rest

  predicate Mixed(v: bv64, c: bv64, b: byte) {
    v == Xor(c, Widen(b))
  }

  predicate IsSlot(i: byte, c: bv64, b: byte) {
    i == ((c & 0xFF) as byte) ^ b
  }

  predicate Splits(v: bv64, low: byte, high: bv64) {
    v == Xor(Widen(low), high << 8)
  }

  lemma SlotSplits(c: bv64, b: byte, v: bv64, i: byte, high: bv64)
    requires Mixed(v, c, b) && IsSlot(i, c, b) && high == c >> 8
    ensures Splits(v, i, high)
  {}

  // ----- Bit reversal turns reflected division into textbook division

  /** Reverses the 64 bits of a word. */
  function Reverse(c: bv64): (r: bv64) {
    var c1 := ((c & 0x5555_5555_5555_5555) << 1) | ((c >> 1) & 0x5555_5555_5555_5555);
    var c2 := ((c1 & 0x3333_3333_3333_3333) << 2) | ((c1 >> 2) & 0x3333_3333_3333_3333);
    var c4 := ((c2 & 0x0f0f_0f0f_0f0f_0f0f) << 4) | ((c2 >> 4) & 0x0f0f_0f0f_0f0f_0f0f);
    var c8 := ((c4 & 0x00ff_00ff_00ff_00ff) << 8) | ((c4 >> 8) & 0x00ff_00ff_00ff_00ff);
    var c16 := ((c8 & 0x0000_ffff_0000_ffff) << 16) | ((c8 >> 16) & 0x0000_ffff_0000_ffff);
    (c16 << 32) | (c16 >> 32)
  }

  /** One step of ordinary long division by x^64 + POLY over the two-element field. */
  function DivideStep(c: bv64): (r: bv64) {
    if c & 0x8000_0000_0000_0000 != 0 then (c << 1) ^ POLY else c << 1
  }

  function WidenReversed(b: byte): (r: bv64) {
    Reverse(b as bv64)
  }

  lemma ReverseOdd(c: bv64)
    requires c & 1 == 1
    ensures Reverse(BitStep(c)) == DivideStep(Reverse(c))
  {}

  lemma ReverseShift(c: bv64)
    ensures Reverse(c >> 1) == Reverse(c) << 1
  {}

  lemma ReverseTop(c: bv64)
    requires c & 1 == 0
    ensures Reverse(c) & 0x8000_0000_0000_0000 == 0
  {}

  lemma ReverseEven(c: bv64)
    requires c & 1 == 0
    ensures Reverse(BitStep(c)) == DivideStep(Reverse(c))
  {
    ReverseTop(c);
    ReverseShift(c);
  }

  lemma ReverseXor(a: bv64, b: bv64)
    ensures Reverse(a ^ b) == Reverse(a) ^ Reverse(b)
  {}

  // ----- The top byte after a byte step

  predicate Pushes(p: bv64, q: bv64, b: byte) {
    p == Push(q, b)
  }

  /** A word with the byte `h` on top and seven bytes below it. */
  lemma BuiltTop(
    p0: bv64, p1: bv64, p2: bv64, p3: bv64, p4: bv64, p5: bv64, p6: bv64, p7: bv64, p8: bv64,
    a: byte, b: byte, c: byte, d: byte, e: byte, f: byte, g: byte, h: byte)
    requires Pushes(p0, p1, a) && Pushes(p1, p2, b) && Pushes(p2, p3, c) && Pushes(p3, p4, d)
    requires Pushes(p4, p5, e) && Pushes(p5, p6, f) && Pushes(p6, p7, g) && Pushes(p7, p8, h) && p8 == 0
    ensures TopIs(p0, h)
  {}

  predicate TopIs(w: bv64, h: byte) {
    w >> 56 == Widen(h)
  }

  /** The low `k` bits of a byte, as a mask. */
  function LowBits(k: nat): (m: byte)
    requires k < 8
  {
    if k == 0 then 0 else if k == 1 then 1 else if k == 2 then 3 else if k == 3 then 7
    else if k == 4 then 15 else if k == 5 then 31 else if k == 6 then 63 else 127
  }

  predicate IsLowMask(m: byte) {
    m in {0, 1, 3, 7, 15, 31, 63, 127}
  }

  /** The one bits of nine bytes lie within 64 consecutive ones, least significant first, from bit `k` on. */
  predicate Windowed(first: byte, last: byte, m: byte) {
    first & m == 0 && last & !m == 0
  }

  /** Two bytes agree on the bits of a mask. */
  predicate AgreeBits(a: byte, b: byte, m: byte) {
    a & m == b & m
  }

  lemma DifferenceWindowed(a: byte, b: byte, y: byte, z: byte, m: byte)
    requires AgreeBits(a, b, m) && AgreeBits(y, z, !m)
    ensures Windowed(a ^ b, y ^ z, m)
  {}

  lemma NoDifference(a: byte, b: byte)
    requires a ^ b == 0
    ensures a == b
  {}

  /** A byte with `k` clear low bits whose successor has clear bits above bit `k` of its top byte is zero:
      each one bit that falls out is seen at the top. */
  lemma TopShowsBits(b: byte, m: byte, w: bv64, h: byte)
    requires IsLowMask(m) && Windowed(b, h, m) && w == ByteStep(Widen(b)) && TopIs(w, h)
    ensures b == 0
  {}
}
