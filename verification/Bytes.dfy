/** Bytes and the big-endian integers of the log and wire formats. */
module Bytes {

  import opened Numbers

  type byte = bv8

  /** 256 to the power `n`: how many values fit in `n` bytes. */
  function Range(n: nat): (r: nat)
    ensures 0 < r
  {
    if n == 0 then 1 else 256 * Range(n - 1)
  }

  lemma NumberOfByte(b: byte, n: nat)
    requires n == b as nat
    ensures n < 256 && n as byte == b
  {}

  lemma NextByte(b: byte)
    requires b as nat < 255
    ensures (b + 1) as nat == b as nat + 1
  {}

  /** Every number below 256 is the value of a byte. */
  lemma {:induction false} ByteNumbered(n: nat) returns (b: byte)
    requires n < 256
    ensures b as nat == n
  {
    b := 0;
    if n != 0 {
      b := ByteNumbered(n - 1);
      NextByte(b);
      b := b + 1;
    }
  }

  lemma ByteValue(n: nat)
    requires n < 256
    ensures (n as byte) as nat == n
  {
    var b := ByteNumbered(n);
    NumberOfByte(b, n);
  }

  function ByteOf(n: nat): (b: byte)
    requires n < 256
    ensures b as nat == n
  {
    ByteValue(n);
    n as byte
  }

  lemma ByteOfValue(b: byte)
    ensures ByteOf(b as nat) == b
  {}

  /** The low `n` bytes of `v`, most significant first (`htons`, `htonl`, `htobe64`). */
  function ToBig(v: nat, n: nat): (s: seq<byte>)
    ensures |s| == n
  {
    if n == 0 then [] else ToBig(v / 256, n - 1) + [ByteOf(v % 256)]
  }

  /** The value of a big-endian byte string (`ntohs`, `ntohl`, `be64toh`). */
  function FromBig(s: seq<byte>): (v: nat)
    ensures v < Range(|s|)
  {
    if s == [] then 0 else 256 * FromBig(s[..|s| - 1]) + (s[|s| - 1] as nat)
  }

  /** Writing then reading gives the value back modulo what fits; nothing is lost when it fits. */
  lemma {:induction false} BigRoundTrip(v: nat, n: nat)
    ensures v < Range(n) ==> FromBig(ToBig(v, n)) == v
  {
    if n != 0 && v < Range(n) {
      var s := ToBig(v, n);
      BigRoundTrip(v / 256, n - 1);
      assert s[..n - 1] == ToBig(v / 256, n - 1);
      assert s[n - 1] as nat == v % 256;
    }
  }

  /** Reading then writing gives the bytes back. */
  lemma {:induction false} BigInverse(s: seq<byte>)
    ensures ToBig(FromBig(s), |s|) == s
  {
    if s != [] {
      var n := |s| - 1;
      BigInverse(s[..n]);
      var v := FromBig(s);
      assert v / 256 == FromBig(s[..n]) && v % 256 == s[n] as nat;
      ByteOfValue(s[n]);
      assert s == s[..n] + [s[n]];
    }
  }

  /** The first byte of a number is the most significant. */
  lemma {:induction false} BigTop(x: byte, s: seq<byte>)
    ensures FromBig([x] + s) == x as nat * Range(|s|) + FromBig(s)
  {
    if s == [] {
      assert ([x] + s)[..0] == [];
    } else {
      var n := |s| - 1;
      BigTop(x, s[..n]);
      assert ([x] + s)[..n + 1] == [x] + s[..n];
      TopCarried(x as nat, Range(n));
    }
  }

  lemma TopCarried(x: nat, r: nat)
    ensures 256 * (x * r) == x * (256 * r)
  {}

  lemma DivideTwice(v: nat, b: nat)
    requires 0 < b
    ensures v / 256 / b == v / (256 * b)
  {
    var q, r := v / 256, v % 256;
    var p, t := q / b, q % b;
    assert q == p * b + t;
    TopCarried(p, b);
    DivUnique(v, 256 * b, p, 256 * t + r);
  }

  /** Byte `i` of `n` holds the digit of weight 256 to the power `n - 1 - i`. */
  lemma {:induction false} BigDigit(v: nat, n: nat, i: nat)
    requires i < n
    ensures ToBig(v, n)[i] as nat == v / Range(n - 1 - i) % 256
  {
    if i + 1 < n {
      BigDigit(v / 256, n - 1, i);
      DivideTwice(v, Range(n - 2 - i));
    }
  }

  lemma WordOfNumber(a: bv64, n: nat)
    requires n == a as nat
    ensures n < 0x1_0000_0000_0000_0000 && n as bv64 == a
  {}

  /** A 64-bit word is determined by its value. */
  lemma DistinctWords(a: bv64, b: bv64, m: nat, n: nat)
    requires a != b && m == a as nat && n == b as nat
    ensures m != n
  {
    WordOfNumber(a, m);
    WordOfNumber(b, n);
  }

  const TWO_16: nat := 0x1_0000
  const TWO_32: nat := 0x1_0000_0000
  const TWO_63: int := 0x8000_0000_0000_0000
  const TWO_64: nat := 0x1_0000_0000_0000_0000

  lemma Ranges()
    ensures Range(2) == TWO_16 && Range(4) == TWO_32 && Range(8) == TWO_64
  {
    assert Range(3) == 256 * Range(2);
    assert Range(4) == 256 * Range(3);
    assert Range(5) == 256 * Range(4);
    assert Range(6) == 256 * Range(5);
    assert Range(7) == 256 * Range(6);
    assert Range(8) == 256 * Range(7);
  }

  predicate IsInt64(v: int) {
    -TWO_63 <= v < TWO_63
  }

  /** `(uint64_t)v` */
  function Unsigned(v: int): (u: nat)
    requires IsInt64(v)
    ensures u < TWO_64
  {
    if v < 0 then v + TWO_64 else v
  }

  /** `(int64_t)u`, two's complement */
  function Signed(u: nat): (v: int)
    requires u < TWO_64
    ensures IsInt64(v) && Unsigned(v) == u
  {
    if u < TWO_63 then u else u - TWO_64
  }

  /** Two's complement: the representation is the value modulo 2 to the power 64. */
  lemma UnsignedIsModulo(v: int)
    requires IsInt64(v)
    ensures Unsigned(v) == v % TWO_64
  {}

  lemma {:induction false} Int64RoundTrip(v: int)
    requires IsInt64(v)
    ensures FromBig(ToBig(Unsigned(v), 8)) < TWO_64
    ensures Signed(FromBig(ToBig(Unsigned(v), 8))) == v
  {
    Ranges();
    BigRoundTrip(Unsigned(v), 8);
  }
}
