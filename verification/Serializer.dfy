/** `aof_serialize`: a record written into a fixed buffer, field by field. */
module Serializer {

  import opened Bytes
  import opened Crc64
  import opened Crc64Bits
  import opened Store
  import opened Codec
  import opened Transfer

  /** Extends the run of bytes that starts at `HEADER_SIZE` by `field`. */
  method Put(buf: array<byte>, off: nat, field: seq<byte>, ghost s: seq<byte>, ghost done: seq<byte>)
    returns (off': nat)
    requires |s| == buf.Length && off == HEADER_SIZE + |done| && off + |field| <= buf.Length
    requires buf[..] == Spliced(s, HEADER_SIZE, done)
    modifies buf
    ensures off' == off + |field|
    ensures buf[..] == Spliced(s, HEADER_SIZE, done + field)
  {
    hide Spliced;
    CopyIn(buf, off, field);
    SplicedTwice(s, HEADER_SIZE, done, field);
    off' := off + |field|;
  }

  /** The fixed fields, then the length check, then key and value. */
  method PutBody(buf: array<byte>, r: Record) returns (off: nat, ok: bool)
    requires buf.Length == RECORD_MAX && IsInt64(r.expireAt)
    modifies buf
    ensures ok <==> Fits(r)
    ensures ok ==> off == HEADER_SIZE + |Body(r)| && buf[..] == Spliced(old(buf[..]), HEADER_SIZE, Body(r))
  {
    hide Spliced, ToBig;
    ghost var s := buf[..];
    SplicedNothing(s, HEADER_SIZE);
    var op, klen, vlen := [Opcode(r.op)], ToBig(|r.key|, 2), ToBig(|r.value|, 4);
    var deadline := ToBig(Unsigned(r.expireAt), 8);
    off := Put(buf, HEADER_SIZE, op, s, []);
    assert [] + op == op;
    off := Put(buf, off, klen, s, op);
    off := Put(buf, off, vlen, s, op + klen);
    off := Put(buf, off, deadline, s, op + klen + vlen);
    if off + |r.key| + |r.value| > buf.Length {
      return off, false;
    }
    off := Put(buf, off, r.key, s, op + klen + vlen + deadline);
    off := Put(buf, off, r.value, s, op + klen + vlen + deadline + r.key);
    ok := true;
  }

  /** The buffer ends up holding the encoded record, or the call reports that it does not fit. */
  method Serialize(buf: array<byte>, r: Record) returns (n: int)
    requires buf.Length == RECORD_MAX && IsInt64(r.expireAt)
    modifies buf
    ensures n == -1 <==> !Fits(r)
    ensures n == if 27 + |r.key| + |r.value| <= 4096 then 27 + |r.key| + |r.value| else -1
    ensures Fits(r) ==> n == |Encode(r)| && buf[..n] == Encode(r)
  {
    hide Spliced, ToBig, Body, Crc;
    ghost var s := buf[..];
    var off, ok := PutBody(buf, r);
    if !ok {
      return -1;
    }
    var bodyLen := ToBig(off - HEADER_SIZE, 4);
    CopyIn(buf, CRC_SIZE, bodyLen);
    SplicedBefore(s, CRC_SIZE, Body(r), bodyLen);
    ghost var covered := bodyLen + Body(r);
    assert buf[CRC_SIZE..off] == covered by { SplicedSlice(s, CRC_SIZE, covered); }
    var crc := Compute(0, buf[CRC_SIZE..off]);
    CopyIn(buf, 0, ToBig(crc as nat, 8));
    SplicedBefore(s, 0, covered, ToBig(crc as nat, 8));
    SplicedAtStart(s, ToBig(crc as nat, 8) + covered);
    n := off;
  }

  lemma SplicedSlice(s: seq<byte>, at: nat, d: seq<byte>)
    requires at + |d| <= |s|
    ensures Spliced(s, at, d)[at..at + |d|] == d
  {}
}
