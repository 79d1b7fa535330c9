/** The table-driven checksum loop of src/crc64.c and what its checksums promise. */
module Crc64 {

  import opened Bytes
  import opened Crc64Bits
  import opened Crc64Steps
  import opened Crc64Table
  import opened ShiftRegister

  lemma ShiftRightFits(c: bv64)
    ensures Within(c >> 8, LOW_SEVEN)
  {}

  predicate StepsTo(step: bv64 -> bv64, v: bv64, r: bv64) {
    step(v) == r
  }

  lemma ShiftStep(c: bv64, step: bv64 -> bv64)
    requires step == JONES.step
    ensures StepsTo(step, (c >> 8) << 8, c >> 8)
  {
    ShiftRightFits(c);
    ByteStepIsTwice((c >> 8) << 8);
    ByteStepUndoesShift(c >> 8);
  }

  lemma EntryStep(i: byte, step: bv64 -> bv64)
    requires step == JONES.step
    ensures StepsTo(step, Widen(i), Entry(i))
  {
    ByteStepIsTwice(Widen(i));
    EntryIsByteStep(i);
  }

  lemma SplitStep(step: bv64 -> bv64, xor: (bv64, bv64) -> bv64, v: bv64, low: byte, high: bv64, e: bv64)
    requires xor == Xor && Additive(xor, step)
    requires Splits(v, low, high)
    requires StepsTo(step, high << 8, high) && StepsTo(step, Widen(low), e)
    ensures StepsTo(step, v, Xor(e, high))
  {
    assert v == xor(Widen(low), high << 8);
    assert step(xor(Widen(low), high << 8)) == xor(step(Widen(low)), step(high << 8));
  }

  lemma StepAdditive(xor: (bv64, bv64) -> bv64, step: bv64 -> bv64)
    requires xor == Xor && step == JONES.step
    ensures Additive(xor, step)
  {
    StepLaws();
    forall a, b
      ensures step(xor(a, b)) == xor(step(a), step(b))
    {
      assert JONES.step(JONES.xor(a, b)) == JONES.xor(JONES.step(a), JONES.step(b));
    }
  }

  lemma LookupStep(v: bv64, i: byte, high: bv64, e: bv64, step: bv64 -> bv64)
    requires step == JONES.step
    requires Splits(v, i, high) && StepsTo(step, high << 8, high) && StepsTo(step, Widen(i), e)
    ensures StepsTo(step, v, Xor(e, high))
  {
    StepAdditive(Xor, step);
    SplitStep(step, Xor, v, i, high, e);
  }

  /** One table lookup does eight division steps. */
  lemma TableStepIsByteStep(c: bv64, b: byte, v: bv64, i: byte, high: bv64, e: bv64, step: bv64 -> bv64)
    requires step == JONES.step
    requires Mixed(v, c, b) && IsSlot(i, c, b) && high == c >> 8 && e == Entry(i)
    ensures StepsTo(step, v, Xor(e, high))
  {
    SlotSplits(c, b, v, i, high);
    ShiftStep(c, step);
    EntryStep(i, step);
    LookupStep(v, i, high, e, step);
  }

  lemma CrcSnoc(seed: bv64, msg: seq<byte>, j: nat)
    requires j < |msg|
    ensures Crc(seed, msg[..j + 1]) == JONES.step(JONES.xor(Crc(seed, msg[..j]), JONES.widen(msg[j])))
  {
    assert msg[..j + 1] == msg[..j] + [msg[j]];
    RunConcat(JONES, seed, msg[..j], [msg[j]]);
  }

  /** `crc64`: the fast form computes the bitwise remainder for every seed and message. */
  method Compute(seed: bv64, s: seq<byte>) returns (crc: bv64)
    ensures crc == Crc(seed, s)
  {
    crc := seed;
    for j := 0 to |s|
      invariant crc == Crc(seed, s[..j])
    {
      var i := ((crc & 0xFF) as byte) ^ s[j];
      var next := Xor(Entry(i), crc >> 8);
      TableStepIsByteStep(crc, s[j], Xor(crc, Widen(s[j])), i, crc >> 8, Entry(i), JONES.step);
      CrcSnoc(seed, s, j);
      crc := next;
    }
    assert s[..|s|] == s;
  }

  /** Linear over xor for messages of one length with seed 0. */
  lemma CrcLinear(s: seq<byte>, t: seq<byte>)
    requires |s| == |t|
    ensures Crc(0, XorBytes(s, t)) == Xor(Crc(0, s), Crc(0, t))
  {
    StepLaws();
    WidenLaw();
    XorLaws();
    assert JONES.xor(0, 0) == JONES.zero;
    RunXor(JONES, 0, 0, s, t);
  }

  /** Composes over concatenation. */
  lemma CrcConcat(seed: bv64, s: seq<byte>, t: seq<byte>)
    ensures Crc(seed, s + t) == Crc(Crc(seed, s), t)
  {
    RunConcat(JONES, seed, s, t);
  }

  /** The burst bound: for every seed, length and position, changing a message only within eight
      consecutive bytes changes its checksum. */
  lemma BurstDetected(seed: bv64, prefix: seq<byte>, s: seq<byte>, t: seq<byte>, suffix: seq<byte>)
    requires |s| == |t| <= 8
    requires s != t
    ensures Crc(seed, prefix + s + suffix) != Crc(seed, prefix + t + suffix)
  {
    JonesLawful();
    RunDetectsBurst(JONES, seed, prefix, s, t, suffix);
  }

  /** The same for bits: changing a message only within 64 consecutive bits, in the order the checksum takes
      them (least significant first), at any bit offset `k` and so across up to nine bytes, always changes its
      checksum. */
  lemma BitBurstDetected(seed: bv64, prefix: seq<byte>, s: seq<byte>, t: seq<byte>, suffix: seq<byte>, k: nat)
    requires |s| == |t| == 9 && k < 8 && s != t
    requires AgreeBits(s[0], t[0], LowBits(k)) && AgreeBits(s[8], t[8], !LowBits(k))
    ensures Crc(seed, prefix + s + suffix) != Crc(seed, prefix + t + suffix)
  {
    hide LowBits, AgreeBits, Windowed, Run, Lawful;
    if Crc(seed, prefix + s + suffix) == Crc(seed, prefix + t + suffix) {
      JonesLawful();
      EqualCancels(JONES, seed, prefix, s, t, suffix);
      DifferenceWindowed(s[0], t[0], s[8], t[8], LowBits(k));
      NineBytesCancel(XorBytes(s, t), k);
      SameBytes(s, t);
    }
  }

  lemma SameBytes(s: seq<byte>, t: seq<byte>)
    requires |s| == |t| && forall i :: 0 <= i < |s| ==> XorBytes(s, t)[i] == 0
    ensures s == t
  {
    hide XorBytes;
    forall i | 0 <= i < |s|
      ensures s[i] == t[i]
    {
      assert XorBytes(s, t)[i] == s[i] ^ t[i];
      NoDifference(s[i], t[i]);
    }
  }

  /** "123456789" */
  const DIGITS: seq<byte> := [0x31, 0x32, 0x33, 0x34, 0x35, 0x36, 0x37, 0x38, 0x39]

  predicate StepIs(c: bv64, b: byte, d: bv64) {
    ByteStep(Xor(c, Widen(b))) == d
  }

  predicate Reaches(j: nat, c: bv64) {
    j <= 9 && Crc(0, DIGITS[..j]) == c
  }

  predicate IsDigit(j: nat, b: byte) {
    j < 9 && DIGITS[j] == b
  }

  lemma TheDigits()
    ensures IsDigit(0, 0x31) && IsDigit(1, 0x32) && IsDigit(2, 0x33) && IsDigit(3, 0x34) && IsDigit(4, 0x35)
    ensures IsDigit(5, 0x36) && IsDigit(6, 0x37) && IsDigit(7, 0x38) && IsDigit(8, 0x39)
  {}

  lemma DigitStep(j: nat, c: bv64, b: byte, d: bv64)
    requires IsDigit(j, b) && Reaches(j, c) && StepIs(c, b, d)
    ensures Reaches(j + 1, d)
  {
    hide ByteStep, Run;
    ByteStepIsTwice(Xor(c, Widen(b)));
    CrcSnoc(0, DIGITS, j);
  }

  lemma DigitSteps()
    ensures StepIs(0, 0x31, 0xfdc1_7184_a9f7_39fa)
    ensures StepIs(0xfdc1_7184_a9f7_39fa, 0x32, 0xe103_6451_3a98_ed96)
    ensures StepIs(0xe103_6451_3a98_ed96, 0x33, 0xd5bc_fb81_4479_b1ac)
    ensures StepIs(0xd5bc_fb81_4479_b1ac, 0x34, 0x4359_3c5d_cda5_21f0)
    ensures StepIs(0x4359_3c5d_cda5_21f0, 0x35, 0xf075_8513_239c_7e0d)
    ensures StepIs(0xf075_8513_239c_7e0d, 0x36, 0xa3a9_0925_b2ab_4903)
    ensures StepIs(0xa3a9_0925_b2ab_4903, 0x37, 0x4782_4d36_2431_ad45)
    ensures StepIs(0x4782_4d36_2431_ad45, 0x38, 0x49ec_20b3_15e8_6dc2)
    ensures StepIs(0x49ec_20b3_15e8_6dc2, 0x39, 0xe9c6_d914_c4b8_d9ca)
  {}

  lemma NoDigits()
    ensures Reaches(0, 0)
  {}

  lemma AllDigits(c: bv64)
    requires Reaches(9, c)
    ensures Crc(0, DIGITS) == c
  {
    hide Run;
    assert DIGITS[..9] == DIGITS;
  }

  /** The check value the source gives for its variant, with its initial value 0. */
  lemma CheckValue()
    ensures Crc(0, DIGITS) == 0xe9c6_d914_c4b8_d9ca
  {
    hide StepIs, Reaches, Run, IsDigit, Crc, DIGITS;
    TheDigits();
    NoDigits();
    DigitSteps();
    DigitStep(0, 0, 0x31, 0xfdc1_7184_a9f7_39fa);
    DigitStep(1, 0xfdc1_7184_a9f7_39fa, 0x32, 0xe103_6451_3a98_ed96);
    DigitStep(2, 0xe103_6451_3a98_ed96, 0x33, 0xd5bc_fb81_4479_b1ac);
    DigitStep(3, 0xd5bc_fb81_4479_b1ac, 0x34, 0x4359_3c5d_cda5_21f0);
    DigitStep(4, 0x4359_3c5d_cda5_21f0, 0x35, 0xf075_8513_239c_7e0d);
    DigitStep(5, 0xf075_8513_239c_7e0d, 0x36, 0xa3a9_0925_b2ab_4903);
    DigitStep(6, 0xa3a9_0925_b2ab_4903, 0x37, 0x4782_4d36_2431_ad45);
    DigitStep(7, 0x4782_4d36_2431_ad45, 0x38, 0x49ec_20b3_15e8_6dc2);
    DigitStep(8, 0x49ec_20b3_15e8_6dc2, 0x39, 0xe9c6_d914_c4b8_d9ca);
    AllDigits(0xe9c6_d914_c4b8_d9ca);
  }
}
