/** The log file as a whole: its 32-byte header, start-up on any file, and the loading loop. */
module LogFile {

  import opened Numbers
  import opened Bytes
  import opened Crc64
  import opened Crc64Bits
  import opened Store
  import opened Codec
  import opened Loader
  import Transfer

  const FILE_HEADER_SIZE := 32

  /** "BYTEKVAF" */
  const MAGIC: seq<byte> := [0x42, 0x59, 0x54, 0x45, 0x4B, 0x56, 0x41, 0x46]

  /** Magic, version 1, no flags, creation time. */
  function HeaderFields(created: nat): (s: seq<byte>)
    ensures |s| == 24
  {
    MAGIC + ToBig(1, 4) + ToBig(0, 4) + ToBig(created, 8)
  }

  /** `aof_write_file_header` */
  function FileHeader(created: nat): (s: seq<byte>)
    ensures |s| == FILE_HEADER_SIZE
  {
    HeaderFields(created) + ToBig(Crc(0, HeaderFields(created)) as nat, 8)
  }

  /** `aof_read_file_header` */
  predicate HeaderOk(h: seq<byte>)
    requires |h| == FILE_HEADER_SIZE
  {
    h[..8] == MAGIC && FromBig(h[8..12]) == 1 && FromBig(h[24..]) == Crc(0, h[..24]) as nat
  }

  lemma HeaderAccepted(created: nat)
    ensures HeaderOk(FileHeader(created))
  {
    hide Crc, ToBig, FromBig;
    var f := HeaderFields(created);
    var h := FileHeader(created);
    assert h[..24] == f && h[24..] == ToBig(Crc(0, f) as nat, 8);
    assert f[..8] == MAGIC && f[8..12] == ToBig(1, 4);
    assert h[..8] == f[..8] && h[8..12] == f[8..12];
    Ranges();
    BigRoundTrip(1, 4);
    BigRoundTrip(Crc(0, f) as nat, 8);
  }

  /** Every field of a file header, by offset, in big-endian order. */
  lemma HeaderLayout(created: nat)
    requires created < TWO_64
    ensures var h := FileHeader(created);
            && h[..8] == [0x42, 0x59, 0x54, 0x45, 0x4B, 0x56, 0x41, 0x46]
            && FromBig(h[8..12]) == 1 && FromBig(h[12..16]) == 0 && FromBig(h[16..24]) == created
            && FromBig(h[24..]) == Crc(0, h[..24]) as nat
  {
    hide Crc, ToBig, FromBig;
    var f := HeaderFields(created);
    var h := FileHeader(created);
    assert h[..24] == f && h[24..] == ToBig(Crc(0, f) as nat, 8);
    assert f[..8] == MAGIC && f[8..12] == ToBig(1, 4) && f[12..16] == ToBig(0, 4) && f[16..24] == ToBig(created, 8);
    assert h[..8] == f[..8] && h[8..12] == f[8..12] && h[12..16] == f[12..16] && h[16..24] == f[16..24];
    Ranges();
    BigRoundTrip(1, 4);
    BigRoundTrip(0, 4);
    BigRoundTrip(created, 8);
    BigRoundTrip(Crc(0, f) as nat, 8);
  }

  lemma AcceptedIsSealed(h: seq<byte>)
    requires |h| == FILE_HEADER_SIZE && HeaderOk(h)
    ensures SealedHeader(h, h[12..24])
  {
    hide Crc, ToBig, FromBig;
    BigInverse(h[8..12]);
    BigInverse(h[24..]);
    assert h[..24] == h[..8] + h[8..12] + h[12..24];
    assert h == h[..24] + h[24..];
  }

  lemma SealedIsAccepted(h: seq<byte>, rest: seq<byte>)
    requires |h| == FILE_HEADER_SIZE && |rest| == 12 && SealedHeader(h, rest)
    ensures HeaderOk(h)
  {
    hide Crc, ToBig, FromBig;
    Ranges();
    BigRoundTrip(1, 4);
    var f := MAGIC + ToBig(1, 4) + rest;
    assert h[..24] == f && h[24..] == ToBig(Crc(0, f) as nat, 8);
    assert f[..8] == MAGIC && f[8..12] == ToBig(1, 4);
    assert h[..8] == f[..8] && h[8..12] == f[8..12];
    BigRoundTrip(Crc(0, f) as nat, 8);
  }

  /** The headers accepted are exactly those with the magic, version 1, any flags and creation time, and their
      checksum. */
  lemma HeaderAcceptedIff(h: seq<byte>)
    requires |h| == FILE_HEADER_SIZE
    ensures HeaderOk(h) <==> exists rest: seq<byte> :: |rest| == 12 && SealedHeader(h, rest)
  {
    hide HeaderOk, SealedHeader;
    if HeaderOk(h) {
      AcceptedIsSealed(h);
    }
    if rest: seq<byte> :| |rest| == 12 && SealedHeader(h, rest) {
      SealedIsAccepted(h, rest);
    }
  }

  predicate SealedHeader(h: seq<byte>, rest: seq<byte>) {
    var f := MAGIC + ToBig(1, 4) + rest;
    h == f + ToBig(Crc(0, f) as nat, 8)
  }

  /** A change confined to eight consecutive bytes of the checked fields, or to the stored checksum, is
      always refused. */
  lemma HeaderDamageRefused(h: seq<byte>, bad: seq<byte>, p: nat, q: nat)
    requires |h| == |bad| == FILE_HEADER_SIZE && HeaderOk(h) && h != bad
    requires p <= q <= FILE_HEADER_SIZE && q - p <= 8 && (q <= 24 || 24 <= p)
    requires bad[..p] == h[..p] && bad[q..] == h[q..]
    ensures !HeaderOk(bad)
  {
    hide Crc, ToBig, FromBig;
    assert h == h[..p] + h[p..q] + h[q..] && bad == bad[..p] + bad[p..q] + bad[q..];
    if q <= 24 {
      assert bad[24..] == bad[q..][24 - q..] == h[24..];
      assert h[..24] == h[..p] + h[p..q] + h[q..24];
      assert bad[q..24] == bad[q..][..24 - q] == h[q..24];
      assert bad[..24] == h[..p] + bad[p..q] + h[q..24];
      BurstDetected(0, h[..p], h[p..q], bad[p..q], h[q..24]);
      var x, y := Crc(0, bad[..24]), Crc(0, h[..24]);
      DistinctWords(x, y, x as nat, y as nat);
    } else {
      assert bad[..24] == bad[..p][..24] == h[..24];
      assert bad == bad[..24] + bad[24..] && h == h[..24] + h[24..];
      BigInverse(bad[24..]);
      BigInverse(h[24..]);
    }
  }

  datatype Startup = Fresh | Refused | Recovered(loaded: Loaded)

  /** `aof_load` on the bytes of the named file; `buf` is what the record buffer happens to hold. */
  function Start(file: seq<byte>, buf: seq<byte>, clock: nat -> int): (s: Startup)
    requires |buf| == RECORD_MAX
  {
    if |file| == 0 then Fresh
    else if |file| < FILE_HEADER_SIZE then Refused
    else if !HeaderOk(file[..FILE_HEADER_SIZE]) then Refused
    else Recovered(LoadFrom(file, FILE_HEADER_SIZE, buf, 0, clock, EMPTY))
  }

  /** A whole log file. */
  function Image(created: nat, log: seq<Record>): (s: seq<byte>)
    requires LoggableAll(log)
    ensures |s| == FILE_HEADER_SIZE + Size(log)
  {
    FileHeader(created) + EncodeAll(log)
  }

  /** Start-up on a log file cut anywhere: nothing left is a fresh start, a torn file header is refused,
      and any other cut recovers exactly the whole records before it. */
  lemma StartOnCut(created: nat, log: seq<Record>, cut: nat, buf: seq<byte>, clock: nat -> int)
    requires LoggableAll(log) && cut <= |Image(created, log)| && |buf| == RECORD_MAX
    ensures var s := Start(Image(created, log)[..cut], buf, clock);
            if cut == 0 then s == Fresh
            else if cut < FILE_HEADER_SIZE then s == Refused
            else s.Recovered? && RecoversWhole(log, cut - FILE_HEADER_SIZE, FILE_HEADER_SIZE, clock, s.loaded)
  {
    hide LoadFrom, FileHeader, EncodeAll, RecoversWhole, HeaderOk;
    var h := FileHeader(created);
    var file := Image(created, log)[..cut];
    if FILE_HEADER_SIZE <= cut {
      assert file == h + EncodeAll(log)[..cut - FILE_HEADER_SIZE];
      assert file[..FILE_HEADER_SIZE] == h;
      HeaderAccepted(created);
      TornTail(h, log, cut - FILE_HEADER_SIZE, buf, clock);
    }
  }

  lemma SplicedHeader(buf: seq<byte>, file: seq<byte>, pos: nat, n: nat)
    requires |buf| == RECORD_MAX && pos + HEADER_SIZE <= |file| && n <= BODY_ROOM && pos + HEADER_SIZE + n <= |file|
    ensures var h := Transfer.Spliced(buf, 0, file[pos..pos + HEADER_SIZE]);
            && h[CRC_SIZE..HEADER_SIZE] == file[pos + CRC_SIZE..pos + HEADER_SIZE]
            && Transfer.Spliced(h, HEADER_SIZE, file[pos + HEADER_SIZE..pos + HEADER_SIZE + n])
               == Fill(file, pos, n, buf)
  {}

  lemma FilledParts(file: seq<byte>, pos: nat, len: nat, buf: seq<byte>)
    requires pos + HEADER_SIZE + len <= |file| && len <= BODY_ROOM && |buf| == RECORD_MAX
    ensures var b := Fill(file, pos, len, buf);
            && b[..CRC_SIZE] == file[pos..pos + CRC_SIZE]
            && b[CRC_SIZE..HEADER_SIZE + len] == file[pos + CRC_SIZE..pos + HEADER_SIZE + len]
  {}

  /** The reading half of a turn: header, body and checksum go through the record buffer. */
  method TakeFrame(file: seq<byte>, pos: nat, record: array<byte>, interrupts: nat) returns (f: Framed)
    requires pos <= |file| && record.Length == RECORD_MAX
    modifies record
    ensures f == ReadFrame(file, pos)
    ensures f.Frame? ==> record[..] == Fill(file, pos, f.bodyLen, old(record[..]))
  {
    hide FromBig, Crc, Fill, Transfer.Spliced;
    var nread;
    ghost var came;
    nread, came := Transfer.ReadExact(file, pos, record, 0, HEADER_SIZE, interrupts, false);
    if nread == 0 {
      return Stopped(CleanEof);
    }
    if nread < HEADER_SIZE {
      return Stopped(TruncatedHeader);
    }
    SplicedHeader(old(record[..]), file, pos, 0);
    assert record[CRC_SIZE..HEADER_SIZE] == record[..][CRC_SIZE..HEADER_SIZE];
    var bodyLen := FromBig(record[CRC_SIZE..HEADER_SIZE]);
    if Min(bodyLen, |file| - pos - HEADER_SIZE) > BODY_ROOM {
      return Stopped(Overran);
    }
    nread, came := Transfer.ReadExact(
      file, pos + HEADER_SIZE, record, HEADER_SIZE, Min(bodyLen, BODY_ROOM), interrupts, false);
    if nread < bodyLen {
      return Stopped(TruncatedBody);
    }
    SplicedHeader(old(record[..]), file, pos, bodyLen);
    FilledParts(file, pos, bodyLen, old(record[..]));
    assert record[..CRC_SIZE] == record[..][..CRC_SIZE];
    assert record[CRC_SIZE..HEADER_SIZE + bodyLen] == record[..][CRC_SIZE..HEADER_SIZE + bodyLen];
    var crc := Compute(0, record[CRC_SIZE..HEADER_SIZE + bodyLen]);
    return if FromBig(record[..CRC_SIZE]) == crc as nat then Frame(bodyLen) else Stopped(CrcMismatch);
  }

  /** The loading loop of `aof_load`, with its one record buffer: it computes what the specification
      says for every file at all. Where the source would write past its buffer, the model stops with `Overran`. */
  method Load(file: seq<byte>, record: array<byte>, clock: nat -> int, interrupts: nat) returns (l: Loaded)
    requires FILE_HEADER_SIZE <= |file| && record.Length == RECORD_MAX
    modifies record
    ensures l == LoadFrom(file, FILE_HEADER_SIZE, old(record[..]), 0, clock, EMPTY)
  {
    hide ReadFrame, Fill, Decode, Apply;
    var tables, validEnd, records := EMPTY, FILE_HEADER_SIZE, 0;
    while true
      invariant validEnd <= |file|
      invariant LoadFrom(file, FILE_HEADER_SIZE, old(record[..]), 0, clock, EMPTY)
             == LoadFrom(file, validEnd, record[..], records, clock, tables)
      decreases |file| - validEnd
    {
      var f := TakeFrame(file, validEnd, record, interrupts);
      match f {
        case Stopped(why) => return Loaded(tables, validEnd, records, why);
        case Frame(bodyLen) =>
          assert record[HEADER_SIZE..] == record[..][HEADER_SIZE..];
          match Decode(record[HEADER_SIZE..], bodyLen, clock(records)) {
            case Corrupt => return Loaded(tables, validEnd, records, ReplayFailed);
            case Run(r) =>
              var a := Apply(tables, r);
              tables := a.tables;
              if !a.ok {
                return Loaded(tables, validEnd, records, ReplayFailed);
              }
            case Skipped =>
            case Wrapped => return Loaded(tables, validEnd, records, Overran);
          }
          records := records + 1;
          validEnd := validEnd + HEADER_SIZE + bodyLen;
      }
    }
  }
}
