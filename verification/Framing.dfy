/** Length-prefixed frames on a byte stream: what the read side of src/networking.c takes requests to be. */
module Framing {

  import opened Numbers
  import opened Bytes

  const HDR: nat := 4

  type Payload = seq<byte>

  /** A four-byte big-endian length, then the payload. */
  function Frame(p: Payload): (s: seq<byte>)
    ensures |s| == HDR + |p|
  {
    ToBig(|p|, HDR) + p
  }

  function Joined(ps: seq<Payload>): (s: seq<byte>) {
    if ps == [] then [] else Joined(ps[..|ps| - 1]) + Frame(ps[|ps| - 1])
  }

  function Announced(s: seq<byte>): (n: nat)
    requires HDR <= |s|
  {
    FromBig(s[..HDR])
  }

  predicate Oversized(s: seq<byte>) {
    HDR <= |s| && Announced(s) > MSG_MAX
  }

  /** A whole request stands at the front. */
  predicate HasFrame(s: seq<byte>) {
    HDR <= |s| && Announced(s) <= MSG_MAX && HDR + Announced(s) <= |s|
  }

  function Head(s: seq<byte>): (p: Payload)
    requires HasFrame(s)
    ensures |p| == Announced(s) <= MSG_MAX
  {
    s[HDR..HDR + Announced(s)]
  }

  function Tail(s: seq<byte>): (r: seq<byte>)
    requires HasFrame(s)
    ensures |r| == |s| - HDR - |Head(s)|
  {
    s[HDR + Announced(s)..]
  }

  /** The complete frames of a stream, up to the first oversized one. */
  function Frames(s: seq<byte>): (ps: seq<Payload>)
    decreases |s|
  {
    if HasFrame(s) then [Head(s)] + Frames(Tail(s)) else []
  }

  /** What follows them. */
  function Rest(s: seq<byte>): (r: seq<byte>)
    ensures !HasFrame(r)
    decreases |s|
  {
    if HasFrame(s) then Rest(Tail(s)) else s
  }

  // ----- One frame

  lemma HeadIsFrame(s: seq<byte>)
    requires HasFrame(s)
    ensures s == Frame(Head(s)) + Tail(s)
  {
    BigInverse(s[..HDR]);
    assert s == s[..HDR] + Head(s) + Tail(s);
  }

  lemma FrameIsHead(p: Payload, s: seq<byte>)
    requires |p| <= MSG_MAX
    ensures HasFrame(Frame(p) + s) && Head(Frame(p) + s) == p && Tail(Frame(p) + s) == s
  {
    Ranges();
    BigRoundTrip(|p|, HDR);
    assert (Frame(p) + s)[..HDR] == ToBig(|p|, HDR);
  }

  /** The length counts the payload alone and stands before it, most significant byte first. */
  lemma FrameLayout(p: Payload)
    requires |p| < TWO_32
    ensures var f := Frame(p);
            && f[4..] == p
            && |p| == f[0] as nat * 0x100_0000 + f[1] as nat * 0x1_0000 + f[2] as nat * 0x100 + f[3] as nat
  {
    var h := ToBig(|p|, 4);
    assert Frame(p)[..4] == h;
    Ranges();
    BigRoundTrip(|p|, 4);
    FourBytes(h);
  }

  lemma FourBytes(h: seq<byte>)
    requires |h| == 4
    ensures FromBig(h) == h[0] as nat * 0x100_0000 + h[1] as nat * 0x1_0000 + h[2] as nat * 0x100 + h[3] as nat
  {
    Ranges();
    assert h[..4] == h && h[..4][..3] == h[..3] && h[..3][..2] == h[..2] && h[..2][..1] == h[..1] && h[..1][..0] == [];
    assert FromBig(h[..1]) == h[0] as nat;
    assert FromBig(h[..2]) == 256 * FromBig(h[..1]) + h[1] as nat;
    assert FromBig(h[..3]) == 256 * FromBig(h[..2]) + h[2] as nat;
    assert FromBig(h[..4]) == 256 * FromBig(h[..3]) + h[3] as nat;
  }

  /** More bytes behind a frame leave it as it is. */
  lemma HeadStays(s: seq<byte>, t: seq<byte>)
    requires HasFrame(s)
    ensures HasFrame(s + t) && Head(s + t) == Head(s) && Tail(s + t) == Tail(s) + t
  {
    hide FromBig;
    assert (s + t)[..HDR] == s[..HDR];
  }

  // ----- Streams

  /** Framing does not depend on where the stream is split. */
  lemma {:induction false} FramesSplit(s: seq<byte>, t: seq<byte>)
    ensures Frames(s + t) == Frames(s) + Frames(Rest(s) + t)
    ensures Rest(s + t) == Rest(Rest(s) + t)
    decreases |s|
  {
    hide Announced, Head, Tail, HasFrame;
    if HasFrame(s) {
      HeadStays(s, t);
      FramesSplit(Tail(s), t);
    }
  }

  /** Frames and rest lose nothing of the stream. */
  lemma {:induction false} FramesLossless(s: seq<byte>)
    ensures s == Joined(Frames(s)) + Rest(s)
    ensures forall p :: p in Frames(s) ==> |p| <= MSG_MAX
    decreases |s|
  {
    hide Announced, Head, Tail, HasFrame, Frame;
    if HasFrame(s) {
      HeadIsFrame(s);
      FramesLossless(Tail(s));
      JoinedFront(Head(s), Frames(Tail(s)));
    }
  }

  lemma {:induction false} JoinedFront(p: Payload, ps: seq<Payload>)
    ensures Joined([p] + ps) == Frame(p) + Joined(ps)
  {
    hide Frame;
    if ps != [] {
      var n := |ps| - 1;
      JoinedFront(p, ps[..n]);
      assert ([p] + ps)[..n + 1] == [p] + ps[..n];
    }
  }

  /** What a client frames, the server reads back. */
  lemma {:induction false} FramesOfJoined(ps: seq<Payload>, s: seq<byte>)
    requires forall p :: p in ps ==> |p| <= MSG_MAX
    ensures Frames(Joined(ps) + s) == ps + Frames(s)
    ensures Rest(Joined(ps) + s) == Rest(s)
    decreases |ps|
  {
    hide Announced, Head, Tail, HasFrame, Frame;
    if ps == [] {
      assert Joined(ps) + s == s;
    } else {
      JoinedFront(ps[0], ps[1..]);
      assert ps == [ps[0]] + ps[1..];
      FrameIsHead(ps[0], Joined(ps[1..]) + s);
      assert Joined(ps) + s == Frame(ps[0]) + (Joined(ps[1..]) + s);
      FramesOfJoined(ps[1..], s);
    }
  }
}
