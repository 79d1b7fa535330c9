/** The on-disk form of a log record: `aof_serialize` and the decoding half of `aof_replay_record`. */
module Codec {

  import opened Numbers
  import opened Bytes
  import opened Crc64Bits
  import opened Store
  import opened Log

  const CRC_SIZE := 8
  const BODYLEN_SIZE := 4
  const HEADER_SIZE := 12
  const BODY_FIXED := 15
  const RECORD_MAX := 4096
  const BODY_ROOM := 4084

  function Opcode(op: Op): (b: byte) {
    match op
    case OpSet => 1
    case OpDel => 2
    case OpSetex => 3
    case OpExpire => 4
    case OpPersist => 5
  }

  function OpOf(b: byte): (o: Option<Op>) {
    if b == 1 then Some(OpSet)
    else if b == 2 then Some(OpDel)
    else if b == 3 then Some(OpSetex)
    else if b == 4 then Some(OpExpire)
    else if b == 5 then Some(OpPersist)
    else None
  }

  lemma OpcodeRoundTrip(op: Op)
    ensures OpOf(Opcode(op)) == Some(op)
  {}

  predicate NulFree(s: seq<byte>) {
    0 !in s
  }

  /** The record fits the fixed buffer: `off + key_len + val_len <= buf_sz`. */
  predicate Fits(r: Record) {
    HEADER_SIZE + BODY_FIXED + |r.key| + |r.value| <= RECORD_MAX
  }

  /** A record the log can carry: key and value are C strings, the deadline a 64-bit integer, and it fits. */
  predicate Loggable(r: Record) {
    Fits(r) && NulFree(r.key) && NulFree(r.value) && IsInt64(r.expireAt)
  }

  predicate LoggableAll(log: seq<Record>) {
    forall i :: 0 <= i < |log| ==> Loggable(log[i])
  }

  /** Fixed fields, key, value. */
  function Body(r: Record): (s: seq<byte>)
    requires IsInt64(r.expireAt)
    ensures |s| == BODY_FIXED + |r.key| + |r.value|
  {
    [Opcode(r.op)] + ToBig(|r.key|, 2) + ToBig(|r.value|, 4) + ToBig(Unsigned(r.expireAt), 8) + r.key + r.value
  }

  /** Everything the checksum covers. */
  function Covered(r: Record): (s: seq<byte>)
    requires IsInt64(r.expireAt)
    ensures |s| == BODYLEN_SIZE + |Body(r)|
  {
    ToBig(|Body(r)|, 4) + Body(r)
  }

  function Encode(r: Record): (s: seq<byte>)
    requires IsInt64(r.expireAt)
    ensures |s| == HEADER_SIZE + BODY_FIXED + |r.key| + |r.value|
  {
    ToBig(Crc(0, Covered(r)) as nat, 8) + Covered(r)
  }

  // ----- Decoding

  /** A C string: everything before the first NUL. */
  function CString(s: seq<byte>): (c: seq<byte>)
    ensures NulFree(c)
  {
    if s == [] || s[0] == 0 then [] else [s[0]] + CString(s[1..])
  }

  lemma {:induction false} CStringNulFree(s: seq<byte>)
    requires NulFree(s)
    ensures CString(s) == s
  {
    if s != [] {
      CStringNulFree(s[1..]);
    }
  }

  /** The fixed fields at the head of a body. */
  datatype Fields = Fields(opcode: byte, keyLen: nat, valueLen: nat, expireAt: int)

  function ReadFields(buf: seq<byte>): (f: Fields)
    requires |buf| == BODY_ROOM
  {
    Fields(buf[0], FromBig(buf[1..3]), FromBig(buf[3..7]), ReadDeadline(buf[7..15]))
  }

  /** What `aof_replay_record` decides from the fixed fields. `Reject` is EXIT_FAILURE, `Overrun` a pair
      of lengths whose 32-bit sum wraps round and passes the checks. */
  datatype Verdict = Skip | Reject | Overrun | Accept

  /** 32-bit unsigned addition */
  function Sum32(a: nat, b: nat): (c: nat)
    ensures a + b < TWO_32 ==> c == a + b
  {
    (a + b) % TWO_32
  }

  function Judge(f: Fields, bodyLen: nat, now: int): (v: Verdict)
    ensures v.Accept? ==> bodyLen == BODY_FIXED + f.keyLen + f.valueLen
  {
    if 0 < f.expireAt < now then Skip
    else if Sum32(f.keyLen, f.valueLen) > MSG_MAX || Sum32(BODY_FIXED + f.keyLen, f.valueLen) != bodyLen then Reject
    else if f.keyLen + f.valueLen > MSG_MAX then Overrun
    else Accept
  }

  /** The outcome for a whole body; `Corrupt` is EXIT_FAILURE before any database call. */
  datatype Decoded = Skipped | Corrupt | Wrapped | Run(record: Record)

  /** Reads the fields at their fixed offsets from a buffer holding the body and whatever lies behind it. */
  function Decode(buf: seq<byte>, bodyLen: nat, now: int): (d: Decoded)
    requires |buf| == BODY_ROOM && bodyLen <= BODY_ROOM
  {
    var f := ReadFields(buf);
    match Judge(f, bodyLen, now)
    case Skip => Skipped
    case Reject => Corrupt
    case Overrun => Wrapped
    case Accept =>
      var end := BODY_FIXED + f.keyLen;
      match OpOf(f.opcode)
      case None => Corrupt
      case Some(op) => Run(Record(op, CString(buf[BODY_FIXED..end]), CString(buf[end..bodyLen]), f.expireAt))
  }

  function ReadDeadline(s: seq<byte>): (v: int)
    requires |s| == 8
    ensures IsInt64(v)
  {
    Ranges();
    Signed(FromBig(s))
  }

  /** A body behind which anything may lie in the record buffer. */
  predicate Holds(buf: seq<byte>, body: seq<byte>) {
    |buf| == BODY_ROOM && |body| <= BODY_ROOM && buf[..|body|] == body
  }

  lemma BodySlices(r: Record, b: seq<byte>)
    requires IsInt64(r.expireAt) && b == Body(r)
    ensures b[0] == Opcode(r.op)
    ensures b[1..3] == ToBig(|r.key|, 2)
    ensures b[3..7] == ToBig(|r.value|, 4)
    ensures b[7..15] == ToBig(Unsigned(r.expireAt), 8)
    ensures b[15..15 + |r.key|] == r.key
    ensures b[15 + |r.key|..15 + |r.key| + |r.value|] == r.value
  {}

  lemma BufferSlices(r: Record, buf: seq<byte>)
    requires IsInt64(r.expireAt) && Fits(r) && Holds(buf, Body(r))
    ensures buf[0] == Opcode(r.op)
    ensures buf[1..3] == ToBig(|r.key|, 2)
    ensures buf[3..7] == ToBig(|r.value|, 4)
    ensures buf[7..15] == ToBig(Unsigned(r.expireAt), 8)
    ensures buf[15..15 + |r.key|] == r.key
    ensures buf[15 + |r.key|..15 + |r.key| + |r.value|] == r.value
  {
    var b := Body(r);
    BodySlices(r, b);
    assert buf[0] == buf[..|b|][0];
    SliceOf(buf, b, 1, 3);
    SliceOf(buf, b, 3, 7);
    SliceOf(buf, b, 7, 15);
    SliceOf(buf, b, 15, 15 + |r.key|);
    SliceOf(buf, b, 15 + |r.key|, |b|);
  }

  lemma BufferFields(r: Record, buf: seq<byte>)
    requires Loggable(r) && Holds(buf, Body(r))
    ensures ReadFields(buf) == Fields(Opcode(r.op), |r.key|, |r.value|, r.expireAt)
    ensures CString(buf[15..15 + |r.key|]) == r.key
    ensures CString(buf[15 + |r.key|..15 + |r.key| + |r.value|]) == r.value
  {
    BufferSlices(r, buf);
    Ranges();
    BigRoundTrip(|r.key|, 2);
    BigRoundTrip(|r.value|, 4);
    Int64RoundTrip(r.expireAt);
    CStringNulFree(r.key);
    CStringNulFree(r.value);
  }

  lemma SliceOf(buf: seq<byte>, b: seq<byte>, lo: nat, hi: nat)
    requires lo <= hi <= |b| <= |buf| && buf[..|b|] == b
    ensures buf[lo..hi] == b[lo..hi]
  {
    assert |buf[lo..hi]| == |b[lo..hi]|;
    forall i | 0 <= i < hi - lo
      ensures buf[lo..hi][i] == b[lo..hi][i]
    {
      assert buf[..|b|][lo + i] == b[lo + i];
    }
  }

  /** Record round trip: every opcode, NUL-free key and value that fit and every signed 64-bit
      deadline come back from the bytes, unless the deadline has passed. */
  lemma DecodeEncoded(r: Record, buf: seq<byte>, now: int)
    requires Loggable(r) && Holds(buf, Body(r))
    ensures Decode(buf, |Body(r)|, now) == if Elapsed(r, now) then Skipped else Run(r)
  {
    hide ReadFields, CString, NulFree, Opcode, OpOf, FromBig, ToBig;
    BufferFields(r, buf);
    OpcodeRoundTrip(r.op);
  }

  // ----- The layout, and the other direction

  /** A C string ends before the first NUL. */
  lemma {:induction false} CStringCuts(s: seq<byte>)
    ensures CString(s) <= s && (|CString(s)| < |s| ==> s[|CString(s)|] == 0)
  {
    if s != [] && s[0] != 0 {
      CStringCuts(s[1..]);
    }
  }

  /** Every field of an encoded record, by offset, in big-endian order. */
  lemma EncodedLayout(r: Record, e: seq<byte>)
    requires Loggable(r) && e == Encode(r)
    ensures |e| == 27 + |r.key| + |r.value| <= 4096
    ensures FromBig(e[..8]) == Crc(0, e[8..]) as nat && FromBig(e[8..12]) == |e| - 12
    ensures e[12] == match r.op
                     case OpSet => 1
                     case OpDel => 2
                     case OpSetex => 3
                     case OpExpire => 4
                     case OpPersist => 5
    ensures FromBig(e[13..15]) == |r.key| && FromBig(e[15..19]) == |r.value|
    ensures FromBig(e[19..27]) == r.expireAt % TWO_64
    ensures e[27..27 + |r.key|] == r.key && e[27 + |r.key|..] == r.value
  {
    hide Crc, ToBig, FromBig, NulFree, Unsigned;
    var c, b := Covered(r), Body(r);
    assert e == ToBig(Crc(0, c) as nat, 8) + c && c == ToBig(|b|, 4) + b;
    assert e[..8] == ToBig(Crc(0, c) as nat, 8) && e[8..] == c && e[8..12] == ToBig(|b|, 4);
    Ranges();
    BigRoundTrip(Crc(0, c) as nat, 8);
    BigRoundTrip(|b|, 4);
    BodySlices(r, b);
    BigRoundTrip(|r.key|, 2);
    BigRoundTrip(|r.value|, 4);
    BigRoundTrip(Unsigned(r.expireAt), 8);
    UnsignedIsModulo(r.expireAt);
    BodyWithin(r, e, b);
  }

  lemma BodyWithin(r: Record, e: seq<byte>, b: seq<byte>)
    requires |b| == 15 + |r.key| + |r.value| && |e| == 12 + |b| && e[12..] == b
    ensures e[12] == b[0] && e[13..15] == b[1..3] && e[15..19] == b[3..7] && e[19..27] == b[7..15]
    ensures e[27..27 + |r.key|] == b[15..15 + |r.key|]
    ensures e[27 + |r.key|..] == b[15 + |r.key|..15 + |r.key| + |r.value|]
  {
    assert e[12] == e[12..][0];
    assert e[13..15] == e[12..][1..3] && e[15..19] == e[12..][3..7] && e[19..27] == e[12..][7..15];
    assert e[27..27 + |r.key|] == e[12..][15..15 + |r.key|];
    assert e[27 + |r.key|..] == e[12..][15 + |r.key|..15 + |r.key| + |r.value|];
  }

  lemma OpcodeInverse(b: byte)
    ensures OpOf(b).Some? ==> Opcode(OpOf(b).value) == b
  {}

  /** The pieces a record to run was made from. */
  lemma DecodedParts(buf: seq<byte>, len: nat, now: int)
    requires |buf| == BODY_ROOM && len <= BODY_ROOM && Decode(buf, len, now).Run?
    ensures var r, f := Decode(buf, len, now).record, ReadFields(buf);
            && len == BODY_FIXED + f.keyLen + f.valueLen && f.keyLen + f.valueLen <= MSG_MAX
            && OpOf(f.opcode) == Some(r.op) && r.expireAt == f.expireAt && !(0 < r.expireAt < now)
            && r.key == CString(buf[BODY_FIXED..BODY_FIXED + f.keyLen])
            && r.value == CString(buf[BODY_FIXED + f.keyLen..len])
  {
    hide ReadFields, CString, OpOf;
  }

  lemma FixedFieldsBack(buf: seq<byte>)
    requires |buf| == BODY_ROOM
    ensures var f := ReadFields(buf);
            && ToBig(f.keyLen, 2) == buf[1..3] && ToBig(f.valueLen, 4) == buf[3..7]
            && IsInt64(f.expireAt) && ToBig(Unsigned(f.expireAt), 8) == buf[7..15]
            && (OpOf(f.opcode).Some? ==> Opcode(OpOf(f.opcode).value) == buf[0])
  {
    hide ToBig, FromBig, Opcode, OpOf;
    OpcodeInverse(buf[0]);
    BigInverse(buf[1..3]);
    BigInverse(buf[3..7]);
    BigInverse(buf[7..15]);
    Ranges();
  }

  lemma Glued(buf: seq<byte>, m: nat, len: nat)
    requires 15 <= m <= len <= |buf|
    ensures buf[..len] == [buf[0]] + buf[1..3] + buf[3..7] + buf[7..15] + buf[15..m] + buf[m..len]
    ensures buf[15..len] == buf[15..m] + buf[m..len]
  {}

  /** What is run was well formed: a body without NULs in key and value that decodes to a record to run is
      exactly the body of that record, so unknown opcodes and lengths that do not add up never run. */
  lemma DecodedIsEncoded(buf: seq<byte>, len: nat, now: int)
    requires |buf| == BODY_ROOM && len <= BODY_ROOM && Decode(buf, len, now).Run?
    requires BODY_FIXED <= len && NulFree(buf[BODY_FIXED..len])
    ensures var r := Decode(buf, len, now).record;
            Loggable(r) && buf[..len] == Body(r) && !Elapsed(r, now)
  {
    hide ToBig, FromBig, Opcode, OpOf, Signed, Unsigned, Decode, ReadFields, CString, IsInt64;
    var f := ReadFields(buf);
    var m := BODY_FIXED + f.keyLen;
    DecodedParts(buf, len, now);
    FixedFieldsBack(buf);
    Glued(buf, m, len);
    CStringNulFree(buf[BODY_FIXED..m]);
    CStringNulFree(buf[m..len]);
  }
}
