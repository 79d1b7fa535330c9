/** A checksum as a shift register over an arbitrary word type: a word is mixed with each message
    byte and stepped. Linearity, composition and the burst bound follow from a few laws of the step
    alone, so they are proved here once, without looking at any bits. */
module ShiftRegister {

  import opened Bytes

  /** `xor` mixes words, `step` advances by one byte, `widen` turns a byte into a word and `push`
      shifts a word up by one byte and puts a byte below it. */
  datatype Register<!W> = Register(
    zero: W,
    xor: (W, W) -> W,
    step: W -> W,
    widen: byte -> W,
    push: (W, byte) -> W)

  /** The state after feeding `msg` to the register. */
  function Run<W>(r: Register<W>, seed: W, msg: seq<byte>): (out: W)
    decreases |msg|
  {
    if msg == [] then seed else Run(r, r.step(r.xor(seed, r.widen(msg[0]))), msg[1..])
  }

  /** Composes over concatenation. */
  lemma {:induction false} RunConcat<W>(r: Register<W>, seed: W, s: seq<byte>, t: seq<byte>)
    ensures Run(r, seed, s + t) == Run(r, Run(r, seed, s), t)
    decreases |s|
  {
    if s == [] {
      assert s + t == t;
    } else {
      assert (s + t)[1..] == s[1..] + t;
      RunConcat(r, r.step(r.xor(seed, r.widen(s[0]))), s[1..], t);
    }
  }

  // ----- Linearity

  ghost predicate StepLinear<W(!new)>(r: Register<W>) {
    forall a, b {:trigger r.step(r.xor(a, b))} :: r.step(r.xor(a, b)) == r.xor(r.step(a), r.step(b))
  }

  ghost predicate WidenLinearAt<W(!new)>(r: Register<W>, a: W, b: W, x: byte, y: byte) {
    r.xor(r.xor(a, b), r.widen(x ^ y)) == r.xor(r.xor(a, r.widen(x)), r.xor(b, r.widen(y)))
  }

  ghost predicate WidenLinear<W(!new)>(r: Register<W>) {
    forall a, b, x, y :: WidenLinearAt(r, a, b, x, y)
  }

  function XorBytes(s: seq<byte>, t: seq<byte>): (r: seq<byte>)
    requires |s| == |t|
    ensures |r| == |s|
    ensures forall i :: 0 <= i < |s| ==> r[i] == s[i] ^ t[i]
  {
    seq(|s|, i requires 0 <= i < |s| => s[i] ^ t[i])
  }

  /** Linear over xor for messages of one length, jointly in seed and message. */
  lemma {:induction false} RunXor<W(!new)>(r: Register<W>, x: W, y: W, s: seq<byte>, t: seq<byte>)
    requires StepLinear(r) && WidenLinear(r)
    requires |s| == |t|
    ensures Run(r, r.xor(x, y), XorBytes(s, t)) == r.xor(Run(r, x, s), Run(r, y, t))
    decreases |s|
  {
    if s != [] {
      var z := XorBytes(s, t);
      var x1, y1 := r.xor(x, r.widen(s[0])), r.xor(y, r.widen(t[0]));
      assert z[0] == s[0] ^ t[0];
      assert WidenLinearAt(r, x, y, s[0], t[0]);
      assert r.step(r.xor(x1, y1)) == r.xor(r.step(x1), r.step(y1));
      RunXor(r, r.step(x1), r.step(y1), s[1..], t[1..]);
      assert z[1..] == XorBytes(s[1..], t[1..]);
    }
  }

  // ----- Injectivity and the burst bound

  ghost predicate StepInjective<W(!new)>(r: Register<W>) {
    forall a, b {:trigger r.step(a), r.step(b)} :: r.step(a) == r.step(b) ==> a == b
  }

  ghost predicate XorInjective<W(!new)>(r: Register<W>) {
    forall a, b, x {:trigger r.xor(a, x), r.xor(b, x)} :: r.xor(a, x) == r.xor(b, x) ==> a == b
  }

  ghost predicate Cancels<W(!new)>(r: Register<W>) {
    StepInjective(r) && XorInjective(r)
  }

  /** Two different states never meet again on the same input. */
  lemma {:induction false} RunInjective<W(!new)>(r: Register<W>, x: W, y: W, msg: seq<byte>)
    requires Cancels(r)
    requires Run(r, x, msg) == Run(r, y, msg)
    ensures x == y
    decreases |msg|
  {
    if msg != [] {
      var b := r.widen(msg[0]);
      var x1, y1 := r.xor(x, b), r.xor(y, b);
      RunInjective(r, r.step(x1), r.step(y1), msg[1..]);
      assert x1 == y1;
    }
  }

  /** Bytes packed into a word, first byte lowest. */
  function Pack<W>(r: Register<W>, s: seq<byte>): (w: W) {
    if s == [] then r.zero else r.push(Pack(r, s[1..]), s[0])
  }

  /** Pushing a zero byte under a word with room for it is undone by one step. */
  ghost predicate StepUndoesPush<W(!new)>(r: Register<W>) {
    forall s {:trigger Pack(r, s)} :: |s| < 8 ==> r.step(r.push(Pack(r, s), 0)) == Pack(r, s)
  }

  ghost predicate PushIsXor<W(!new)>(r: Register<W>) {
    forall w, d, b {:trigger r.push(w, b), r.xor(d, r.widen(b))} ::
      r.xor(d, r.widen(b)) == r.push(w, 0) ==> d == r.push(w, b)
  }

  ghost predicate PushNonzero<W(!new)>(r: Register<W>) {
    forall s, b {:trigger r.push(Pack(r, s), b)} ::
      |s| < 8 && r.push(Pack(r, s), b) == r.zero ==> Pack(r, s) == r.zero && b == 0
  }

  ghost predicate Packs<W(!new)>(r: Register<W>) {
    StepUndoesPush(r) && PushIsXor(r) && PushNonzero(r)
  }

  lemma PushZeroParts<W(!new)>(r: Register<W>, s: seq<byte>, b: byte)
    requires PushNonzero(r)
    requires |s| < 8 && r.push(Pack(r, s), b) == r.zero
    ensures Pack(r, s) == r.zero && b == 0
  {}

  lemma XorWasPush<W(!new)>(r: Register<W>, w: W, d: W, b: byte)
    requires PushIsXor(r)
    requires r.xor(d, r.widen(b)) == r.push(w, 0)
    ensures d == r.push(w, b)
  {}

  lemma {:induction false} PackZero<W(!new)>(r: Register<W>, s: seq<byte>)
    requires Packs(r)
    requires |s| <= 8
    requires Pack(r, s) == r.zero
    ensures forall i :: 0 <= i < |s| ==> s[i] == 0
  {
    if s != [] {
      PushZeroParts(r, s[1..], s[0]);
      PackZero(r, s[1..]);
      assert s == [s[0]] + s[1..];
    }
  }

  /** A difference that at most eight further difference bytes bring to zero was exactly those bytes. */
  lemma {:induction false} CancelledDifference<W(!new)>(r: Register<W>, d: W, s: seq<byte>)
    requires Cancels(r) && Packs(r)
    requires |s| <= 8
    requires Run(r, d, s) == r.zero
    ensures d == Pack(r, s)
    decreases |s|
  {
    if s != [] {
      var b := r.widen(s[0]);
      var w := Pack(r, s[1..]);
      CancelledDifference(r, r.step(r.xor(d, b)), s[1..]);
      var d1, w1 := r.xor(d, b), r.push(w, 0);
      assert r.step(d1) == w == r.step(w1);
      XorWasPush(r, w, d, s[0]);
    }
  }

  ghost predicate SelfInverse<W(!new)>(r: Register<W>) {
    forall a {:trigger r.xor(a, a)} :: r.xor(a, a) == r.zero
  }

  /** Everything the burst bound needs of a register. */
  ghost predicate Lawful<W(!new)>(r: Register<W>) {
    StepLinear(r) && WidenLinear(r) && Cancels(r) && Packs(r) && SelfInverse(r)
  }

  /** Equal length, equal checksum and at most eight bytes long: equal. */
  lemma RunInjectiveOnWords<W(!new)>(r: Register<W>, seed: W, s: seq<byte>, t: seq<byte>)
    requires Lawful(r)
    requires |s| == |t| <= 8
    requires Run(r, seed, s) == Run(r, seed, t)
    ensures s == t
  {
    var d := XorBytes(s, t);
    RunXor(r, seed, seed, s, t);
    assert r.xor(seed, seed) == r.zero;
    var c := Run(r, seed, s);
    assert r.xor(c, c) == r.zero;
    CancelledDifference(r, r.zero, d);
    PackZero(r, d);
    forall i | 0 <= i < |s|
      ensures s[i] == t[i]
    {
      assert d[i] == s[i] ^ t[i] == 0;
    }
  }

  /** The burst bound: for every seed, prefix and suffix, changing a message within a window of eight
      consecutive bytes changes its checksum. */
  lemma RunDetectsBurst<W(!new)>(
    r: Register<W>, seed: W, prefix: seq<byte>, s: seq<byte>, t: seq<byte>, suffix: seq<byte>)
    requires Lawful(r)
    requires |s| == |t| <= 8
    requires s != t
    ensures Run(r, seed, prefix + s + suffix) != Run(r, seed, prefix + t + suffix)
  {
    if Run(r, seed, prefix + s + suffix) == Run(r, seed, prefix + t + suffix) {
      RunConcat(r, seed, prefix + s, suffix);
      RunConcat(r, seed, prefix + t, suffix);
      RunConcat(r, seed, prefix, s);
      RunConcat(r, seed, prefix, t);
      RunInjective(r, Run(r, seed, prefix + s), Run(r, seed, prefix + t), suffix);
      RunInjectiveOnWords(r, Run(r, seed, prefix), s, t);
    }
  }

  /** Equal checksums mean that the difference alone, from nothing, leads back to nothing. */
  lemma EqualCancels<W(!new)>(
    r: Register<W>, seed: W, prefix: seq<byte>, s: seq<byte>, t: seq<byte>, suffix: seq<byte>)
    requires Lawful(r) && |s| == |t|
    requires Run(r, seed, prefix + s + suffix) == Run(r, seed, prefix + t + suffix)
    ensures Run(r, r.zero, XorBytes(s, t)) == r.zero
  {
    RunConcat(r, seed, prefix + s, suffix);
    RunConcat(r, seed, prefix + t, suffix);
    RunConcat(r, seed, prefix, s);
    RunConcat(r, seed, prefix, t);
    RunInjective(r, Run(r, seed, prefix + s), Run(r, seed, prefix + t), suffix);
    var c := Run(r, seed, prefix);
    RunXor(r, c, c, s, t);
    assert r.xor(c, c) == r.zero;
    var d := Run(r, c, s);
    assert r.xor(d, d) == r.zero;
  }

  // ----- Building steps and relating registers

  function Twice<W>(f: W -> W): (g: W -> W) {
    x => f(f(x))
  }

  ghost predicate Additive<W(!new)>(xor: (W, W) -> W, f: W -> W) {
    forall a, b {:trigger f(xor(a, b))} :: f(xor(a, b)) == xor(f(a), f(b))
  }

  lemma TwiceAdditive<W(!new)>(xor: (W, W) -> W, f: W -> W)
    requires Additive(xor, f)
    ensures Additive(xor, Twice(f))
  {
    forall a, b
      ensures Twice(f)(xor(a, b)) == xor(Twice(f)(a), Twice(f)(b))
    {
      assert f(xor(a, b)) == xor(f(a), f(b));
      assert f(xor(f(a), f(b))) == xor(f(f(a)), f(f(b)));
    }
  }

  ghost predicate OneToOne<W(!new)>(f: W -> W) {
    forall a, b {:trigger f(a), f(b)} :: f(a) == f(b) ==> a == b
  }

  lemma TwiceOneToOne<W(!new)>(f: W -> W)
    requires OneToOne(f)
    ensures OneToOne(Twice(f))
  {}

  /** Every state is a step of `f` away from another: `g` says from which. */
  ghost predicate Reverses<W(!new)>(f: W -> W, g: W -> W) {
    forall a {:trigger g(a)} :: f(g(a)) == a
  }

  lemma TwiceReverses<W(!new)>(f: W -> W, g: W -> W)
    requires Reverses(f, g)
    ensures Reverses(Twice(f), Twice(g))
  {
    forall a
      ensures Twice(f)(Twice(g)(a)) == a
    {
      assert f(g(g(a))) == g(a) && f(g(a)) == a;
    }
  }

  /** `h` turns a step of `f` into a step of `g`. */
  ghost predicate Carries<W(!new)>(h: W -> W, f: W -> W, g: W -> W) {
    forall a {:trigger h(f(a))} :: h(f(a)) == g(h(a))
  }

  lemma TwiceCarries<W(!new)>(h: W -> W, f: W -> W, g: W -> W)
    requires Carries(h, f, g)
    ensures Carries(h, Twice(f), Twice(g))
  {
    forall a
      ensures h(Twice(f)(a)) == Twice(g)(h(a))
    {
      assert h(f(f(a))) == g(h(f(a)));
    }
  }

  ghost predicate SimulatesAt<W(!new)>(p: Register<W>, q: Register<W>, h: W -> W, w: W, b: byte) {
    h(p.step(p.xor(w, p.widen(b)))) == q.step(q.xor(h(w), q.widen(b)))
  }

  /** `h` carries every transition of `p` to a transition of `q`. */
  ghost predicate Simulates<W(!new)>(p: Register<W>, q: Register<W>, h: W -> W) {
    forall w, b :: SimulatesAt(p, q, h, w, b)
  }

  lemma {:induction false} RunSimulates<W(!new)>(p: Register<W>, q: Register<W>, h: W -> W, seed: W, msg: seq<byte>)
    requires Simulates(p, q, h)
    ensures h(Run(p, seed, msg)) == Run(q, h(seed), msg)
    decreases |msg|
  {
    if msg != [] {
      var next := p.step(p.xor(seed, p.widen(msg[0])));
      assert SimulatesAt(p, q, h, seed, msg[0]);
      RunSimulates(p, q, h, next, msg[1..]);
    }
  }
}
