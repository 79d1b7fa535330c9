/** Bit-at-a-time CRC-64-Jones: reflected polynomial division, and the laws that make it a lawful
    shift register. Bytes are 8-bit vectors and checksums 64-bit vectors throughout. */
module Crc64Bits {

  import opened Bytes
  import opened Crc64Steps
  import opened ShiftRegister

  /** Eight division steps, one message byte. */
  const BYTE_STEP: bv64 -> bv64 := Twice(Twice(Twice(BitStep)))

  const JONES: Register<bv64> := Register(0, Xor, BYTE_STEP, Widen, Push)

  /** The checksum by definition, one bit at a time. */
  function Crc(seed: bv64, msg: seq<byte>): (r: bv64) {
    Run(JONES, seed, msg)
  }

  lemma ByteStepIsTwice(c: bv64)
    ensures BYTE_STEP(c) == ByteStep(c)
  {
    var f, g, h := BitStep, Twice(BitStep), Twice(Twice(BitStep));
    assert h(c) == g(g(c));
    assert g(c) == f(f(c));
  }

  /** Long division fed with each byte's bits, low bit first, at the top. */
  const LONG_DIVISION: Register<bv64> :=
    Register(0, Xor, Twice(Twice(Twice(DivideStep))), WidenReversed, Push)

  // ----- Lifting bit steps to byte steps

  lemma BitStepAdditive(xor: (bv64, bv64) -> bv64, f: bv64 -> bv64)
    requires xor == Xor && f == BitStep
    ensures Additive(xor, f)
  {
    forall a: bv64, b: bv64
      ensures f(xor(a, b)) == xor(f(a), f(b))
    {
      BitStepXor(a, b);
    }
  }

  lemma BitStepOneToOne(f: bv64 -> bv64)
    requires f == BitStep
    ensures OneToOne(f)
  {
    forall a: bv64, b: bv64 | f(a) == f(b)
      ensures a == b
    {
      BitStepInjective(a, b);
    }
  }

  // ----- The laws of the register

  lemma StepLaws()
    ensures StepLinear(JONES) && StepInjective(JONES)
  {
    var f: bv64 -> bv64 := BitStep;
    var xor: (bv64, bv64) -> bv64 := Xor;
    BitStepAdditive(xor, f);
    TwiceAdditive(xor, f);
    TwiceAdditive(xor, Twice(f));
    TwiceAdditive(xor, Twice(Twice(f)));
    BitStepOneToOne(f);
    TwiceOneToOne(f);
    TwiceOneToOne(Twice(f));
    TwiceOneToOne(Twice(Twice(f)));
  }

  lemma WidenLawAt(r: Register<bv64>, a: bv64, b: bv64, x: byte, y: byte)
    requires r.xor == Xor && r.widen == Widen
    ensures WidenLinearAt(r, a, b, x, y)
  {
    WidenXor(a, b, x, y);
  }

  lemma WidenLaw()
    ensures WidenLinear(JONES)
  {
    forall a, b, x, y
      ensures WidenLinearAt(JONES, a, b, x, y)
    {
      WidenLawAt(JONES, a, b, x, y);
    }
  }

  lemma XorLaws()
    ensures XorInjective(JONES) && SelfInverse(JONES)
  {
    forall a: bv64, b: bv64, c: bv64 | JONES.xor(a, c) == JONES.xor(b, c)
      ensures a == b
    {
      XorCancel(a, b, c);
    }
  }

  // ----- Packing at most eight bytes into a word

  /** The low `n` bytes of a word, all ones. */
  function Mask(n: nat): (m: bv64) {
    if n == 0 then 0 else (Mask(n - 1) << 8) | 0xFF
  }

  const LOW_SEVEN: bv64 := 0x00FF_FFFF_FFFF_FFFF

  predicate Within(w: bv64, m: bv64) {
    w & m == w
  }

  predicate WiderMask(m: bv64, n: bv64) {
    n == (m << 8) | 0xFF
  }

  lemma PushWithin(w: bv64, m: bv64, b: byte, n: bv64)
    requires Within(w, m) && WiderMask(m, n)
    ensures Within(Push(w, b), n)
  {}

  lemma MaskWidens(n: nat)
    requires 0 < n
    ensures WiderMask(Mask(n - 1), Mask(n))
  {}

  lemma {:induction false} PackWithin(s: seq<byte>)
    ensures Within(Pack(JONES, s), Mask(|s|))
  {
    hide Within, WiderMask, Mask, Push, Pack;
    if s == [] {
      PackNothing(s);
      NothingWithin();
    } else {
      PackWithin(s[1..]);
      MaskWidens(|s|);
      PackFirst(s);
      PushWithin(Pack(JONES, s[1..]), Mask(|s| - 1), s[0], Mask(|s|));
    }
  }

  lemma NothingWithin()
    ensures Within(0, Mask(0))
  {}

  lemma PackFirst(s: seq<byte>)
    requires s != []
    ensures Pack(JONES, s) == Push(Pack(JONES, s[1..]), s[0])
  {}

  lemma PackNothing(s: seq<byte>)
    requires s == []
    ensures Pack(JONES, s) == 0
  {}

  lemma MaskWithinSeven(n: nat)
    requires n < 8
    ensures Within(Mask(n), LOW_SEVEN)
  {
    if n < 4 {
      assert Mask(0) == 0 && Mask(1) == 0xFF && Mask(2) == 0xFFFF && Mask(3) == 0xFF_FFFF;
    } else {
      assert Mask(4) == 0xFFFF_FFFF && Mask(5) == 0xFF_FFFF_FFFF;
      assert Mask(6) == 0xFFFF_FFFF_FFFF && Mask(7) == LOW_SEVEN;
    }
  }

  lemma NarrowMask(w: bv64, m: bv64, n: bv64)
    requires Within(w, m) && Within(m, n)
    ensures Within(w, n)
  {}

  lemma PackLeavesRoom(s: seq<byte>)
    requires |s| < 8
    ensures Within(Pack(JONES, s), LOW_SEVEN)
  {
    hide Within, Mask, Pack;
    PackWithin(s);
    MaskWithinSeven(|s|);
    NarrowMask(Pack(JONES, s), Mask(|s|), LOW_SEVEN);
  }

  predicate Steps(v: bv64, w: bv64) {
    BitStep(v) == w
  }

  predicate Doubles(v: bv64, w: bv64) {
    w == v << 1 && v & 0x8000_0000_0000_0000 == 0
  }

  lemma StepHalves(v: bv64, w: bv64)
    requires Doubles(v, w)
    ensures Steps(w, v)
  {}

  lemma DoubleLow(w: bv64)
    requires Within(w, LOW_SEVEN)
    ensures Doubles(w, w << 1) && Doubles(w << 1, w << 2) && Doubles(w << 2, w << 3) && Doubles(w << 3, w << 4)
  {}

  lemma DoubleHigh(w: bv64)
    requires Within(w, LOW_SEVEN)
    ensures Doubles(w << 4, w << 5) && Doubles(w << 5, w << 6) && Doubles(w << 6, w << 7) && Doubles(w << 7, w << 8)
  {}

  lemma EightSteps(v8: bv64, v7: bv64, v6: bv64, v5: bv64, v4: bv64, v3: bv64, v2: bv64, v1: bv64, v0: bv64)
    requires Steps(v8, v7) && Steps(v7, v6) && Steps(v6, v5) && Steps(v5, v4)
    requires Steps(v4, v3) && Steps(v3, v2) && Steps(v2, v1) && Steps(v1, v0)
    ensures ByteStep(v8) == v0
  {}

  /** Division steps on a word whose low byte is clear only shift it. */
  lemma ByteStepUndoesShift(w: bv64)
    requires Within(w, LOW_SEVEN)
    ensures ByteStep(w << 8) == w
  {
    DoubleLow(w);
    DoubleHigh(w);
    StepHalves(w << 7, w << 8);
    StepHalves(w << 6, w << 7);
    StepHalves(w << 5, w << 6);
    StepHalves(w << 4, w << 5);
    StepHalves(w << 3, w << 4);
    StepHalves(w << 2, w << 3);
    StepHalves(w << 1, w << 2);
    StepHalves(w, w << 1);
    EightSteps(w << 8, w << 7, w << 6, w << 5, w << 4, w << 3, w << 2, w << 1, w);
  }

  lemma PushZero(w: bv64)
    ensures Push(w, 0) == w << 8
  {}

  lemma XorIntoEmptyByte(w: bv64, d: bv64, b: byte)
    requires Xor(d, Widen(b)) == Push(w, 0)
    ensures d == Push(w, b)
  {}

  lemma ZeroParts(w: bv64, b: byte)
    requires Within(w, LOW_SEVEN)
    requires Push(w, b) == 0
    ensures w == 0 && b == 0
  {}

  lemma PackLaws()
    ensures Packs(JONES)
  {
    forall s: seq<byte> | |s| < 8
      ensures BYTE_STEP(Push(Pack(JONES, s), 0)) == Pack(JONES, s)
    {
      var w := Pack(JONES, s);
      PackLeavesRoom(s);
      PushZero(w);
      ByteStepIsTwice(w << 8);
      ByteStepUndoesShift(w);
    }
    forall w: bv64, d: bv64, b: byte | Xor(d, Widen(b)) == Push(w, 0)
      ensures d == Push(w, b)
    {
      XorIntoEmptyByte(w, d, b);
    }
    forall s: seq<byte>, b: byte | |s| < 8 && Push(Pack(JONES, s), b) == 0
      ensures Pack(JONES, s) == 0 && b == 0
    {
      PackLeavesRoom(s);
      ZeroParts(Pack(JONES, s), b);
    }
  }

  lemma JonesLawful()
    ensures Lawful(JONES)
  {
    StepLaws();
    WidenLaw();
    XorLaws();
    PackLaws();
  }

  const BYTE_BACK: bv64 -> bv64 := Twice(Twice(Twice(BitBack)))

  lemma BitStepReverses(f: bv64 -> bv64, g: bv64 -> bv64)
    requires f == BitStep && g == BitBack
    ensures Reverses(f, g)
  {
    forall a: bv64
      ensures f(g(a)) == a
    {
      BitStepBack(a);
    }
  }

  /** The byte step is a bijection on 64-bit states: no two states have one successor, and every state has
      a predecessor. */
  lemma StepIsBijection(a: bv64, b: bv64)
    ensures JONES.step(a) == JONES.step(b) ==> a == b
    ensures JONES.step(BYTE_BACK(a)) == a
  {
    StepLaws();
    var f: bv64 -> bv64 := BitStep;
    var g: bv64 -> bv64 := BitBack;
    BitStepReverses(f, g);
    TwiceReverses(f, g);
    TwiceReverses(Twice(f), Twice(g));
    TwiceReverses(Twice(Twice(f)), Twice(Twice(g)));
  }

  /** From any state, different strings of the same length up to eight bytes lead to different states. */
  lemma EightBytesInjective(seed: bv64, s: seq<byte>, t: seq<byte>)
    requires |s| == |t| <= 8 && Crc(seed, s) == Crc(seed, t)
    ensures s == t
  {
    JonesLawful();
    RunInjectiveOnWords(JONES, seed, s, t);
  }

  // ----- Nine bytes

  lemma PackStep(s: seq<byte>, i: nat)
    requires i < |s|
    ensures Pushes(Pack(JONES, s[i..]), Pack(JONES, s[i + 1..]), s[i])
  {
    assert s[i..][1..] == s[i + 1..];
  }

  /** The last of eight bytes is on top of their word. */
  lemma PackTop(s: seq<byte>, w: bv64)
    requires |s| == 8 && w == Pack(JONES, s)
    ensures TopIs(w, s[7])
  {
    hide Pushes, TopIs, Pack;
    PackStep(s, 0);
    PackStep(s, 1);
    PackStep(s, 2);
    PackStep(s, 3);
    PackStep(s, 4);
    PackStep(s, 5);
    PackStep(s, 6);
    PackStep(s, 7);
    PackNothing(s[8..]);
    assert s[0..] == s;
    BuiltTop(w, Pack(JONES, s[1..]), Pack(JONES, s[2..]), Pack(JONES, s[3..]), Pack(JONES, s[4..]), Pack(JONES, s[5..]),
             Pack(JONES, s[6..]), Pack(JONES, s[7..]), Pack(JONES, s[8..]),
             s[0], s[1], s[2], s[3], s[4], s[5], s[6], s[7]);
  }

  lemma LowBitsMask(k: nat)
    requires k < 8
    ensures IsLowMask(LowBits(k))
  {}

  /** Of nine difference bytes whose one bits lie within 64 consecutive ones, none can cancel. */
  lemma NineBytesCancel(d: seq<byte>, k: nat)
    requires |d| == 9 && k < 8 && Windowed(d[0], d[8], LowBits(k)) && Run(JONES, 0, d) == 0
    ensures forall i :: 0 <= i < 9 ==> d[i] == 0
  {
    hide LowBits, ByteStep, Widen, Windowed, Lawful, Pack, TopIs;
    var rest, w := d[1..], JONES.step(JONES.xor(0, JONES.widen(d[0])));
    RestCancels(d, w);
    FirstStep(d[0], w);
    PackTop(rest, w);
    LowBitsMask(k);
    TopShowsBits(d[0], LowBits(k), w, d[8]);
    AllZero(rest);
    assert forall i :: 1 <= i < 9 ==> d[i] == rest[i - 1];
  }

  lemma RestCancels(d: seq<byte>, w: bv64)
    requires |d| == 9 && Run(JONES, 0, d) == 0 && w == JONES.step(JONES.xor(0, JONES.widen(d[0])))
    ensures w == Pack(JONES, d[1..])
  {
    JonesLawful();
    CancelledDifference(JONES, w, d[1..]);
  }

  lemma AllZero(s: seq<byte>)
    requires |s| == 8 && Pack(JONES, s) == 0
    ensures forall i :: 0 <= i < 8 ==> s[i] == 0
  {
    JonesLawful();
    PackZero(JONES, s);
  }

  lemma FirstStep(b: byte, w: bv64)
    requires w == JONES.step(JONES.xor(0, JONES.widen(b)))
    ensures w == ByteStep(Widen(b)) && (b == 0 ==> w == 0)
  {
    hide ByteStep;
    ByteStepIsTwice(Xor(0, Widen(b)));
    XorZero(Widen(b));
    if b == 0 {
      ZeroSteps();
    }
  }

  lemma XorZero(w: bv64)
    ensures Xor(0, w) == w
  {}

  lemma ZeroSteps()
    ensures ByteStep(Widen(0)) == 0
  {}

  // ----- The checksum is a bit-reversed polynomial remainder

  lemma ReverseCarriesBit(h: bv64 -> bv64, f: bv64 -> bv64, g: bv64 -> bv64)
    requires h == Reverse && f == BitStep && g == DivideStep
    ensures Carries(h, f, g)
  {
    forall a: bv64
      ensures h(f(a)) == g(h(a))
    {
      if a & 1 == 1 { ReverseOdd(a); } else { ReverseEven(a); }
    }
  }

  lemma ReverseCarriesByte(h: bv64 -> bv64)
    requires h == Reverse
    ensures Carries(h, JONES.step, LONG_DIVISION.step)
  {
    var f: bv64 -> bv64 := BitStep;
    var g: bv64 -> bv64 := DivideStep;
    ReverseCarriesBit(h, f, g);
    TwiceCarries(h, f, g);
    TwiceCarries(h, Twice(f), Twice(g));
    TwiceCarries(h, Twice(Twice(f)), Twice(Twice(g)));
  }

  lemma ReverseMixes(p: Register<bv64>, q: Register<bv64>, h: bv64 -> bv64, w: bv64, b: byte)
    requires h == Reverse && p.xor == Xor && q.xor == Xor && p.widen == Widen && q.widen == WidenReversed
    ensures h(p.xor(w, p.widen(b))) == q.xor(h(w), q.widen(b))
  {
    ReverseXor(w, b as bv64);
  }

  lemma ReverseSimulates(p: Register<bv64>, q: Register<bv64>, h: bv64 -> bv64)
    requires p == JONES && q == LONG_DIVISION && h == Reverse
    ensures Simulates(p, q, h)
  {
    ReverseCarriesByte(h);
    forall w, b
      ensures SimulatesAt(p, q, h, w, b)
    {
      ReverseMixes(p, q, h, w, b);
    }
  }

  /** The reflected checksum, read backwards, is the remainder of long division by POLY. */
  lemma CrcIsReversedRemainder(seed: bv64, msg: seq<byte>)
    ensures Reverse(Crc(seed, msg)) == Run(LONG_DIVISION, Reverse(seed), msg)
  {
    var h: bv64 -> bv64 := Reverse;
    ReverseSimulates(JONES, LONG_DIVISION, h);
    RunSimulates(JONES, LONG_DIVISION, h, seed, msg);
  }
}
