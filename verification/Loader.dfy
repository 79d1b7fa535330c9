/** `aof_load` as a function of the file's bytes: framing, checksum, replay, torn tails and damage. */
module Loader {

  import opened Numbers
  import opened Bytes
  import opened Crc64
  import opened Crc64Bits
  import opened Store
  import opened Log
  import opened Codec

  /** Why the replay loop ended. `Overran` stands for a body longer than the record buffer, which the
      source reads without checking. */
  datatype Stop = CleanEof | TruncatedHeader | TruncatedBody | CrcMismatch | ReplayFailed | Overran

  datatype Framed = Stopped(why: Stop) | Frame(bodyLen: nat)

  /** Reads and checks the record that starts at `pos`. */
  function ReadFrame(file: seq<byte>, pos: nat): (f: Framed)
    requires pos <= |file|
    ensures f.Frame? ==> f.bodyLen <= BODY_ROOM && pos + HEADER_SIZE + f.bodyLen <= |file|
  {
    var avail := |file| - pos;
    if avail == 0 then Stopped(CleanEof)
    else if avail < HEADER_SIZE then Stopped(TruncatedHeader)
    else
      var len := FromBig(file[pos + CRC_SIZE..pos + HEADER_SIZE]);
      if Min(len, avail - HEADER_SIZE) > BODY_ROOM then Stopped(Overran)
      else if avail - HEADER_SIZE < len then Stopped(TruncatedBody)
      else if FromBig(file[pos..pos + CRC_SIZE]) != Crc(0, file[pos + CRC_SIZE..pos + HEADER_SIZE + len]) as nat then
        Stopped(CrcMismatch)
      else Frame(len)
  }

  datatype Loaded = Loaded(tables: Tables, validEnd: nat, records: nat, stop: Stop)

  /** The replay loop from offset `pos` on. The record buffer keeps its old bytes behind a shorter
      record; `i` counts the records so far. */
  function LoadFrom(file: seq<byte>, pos: nat, buf: seq<byte>, i: nat, clock: nat -> int, t: Tables): (l: Loaded)
    requires pos <= |file| && |buf| == RECORD_MAX
    ensures pos <= l.validEnd <= |file|
    decreases |file| - pos
  {
    match ReadFrame(file, pos)
    case Stopped(why) => Loaded(t, pos, i, why)
    case Frame(len) =>
      var end := pos + HEADER_SIZE + len;
      var buf' := Fill(file, pos, len, buf);
      match Decode(buf'[HEADER_SIZE..], len, clock(i))
      case Skipped => LoadFrom(file, end, buf', i + 1, clock, t)
      case Corrupt => Loaded(t, pos, i, ReplayFailed)
      case Wrapped => Loaded(t, pos, i, Overran)
      case Run(r) =>
        var a := Apply(t, r);
        if a.ok then LoadFrom(file, end, buf', i + 1, clock, a.tables)
        else Loaded(a.tables, pos, i, ReplayFailed)
  }

  /** The record buffer after reading the record at `pos`. */
  function Fill(file: seq<byte>, pos: nat, len: nat, buf: seq<byte>): (b: seq<byte>)
    requires pos + HEADER_SIZE + len <= |file| && len <= BODY_ROOM && |buf| == RECORD_MAX
    ensures |b| == RECORD_MAX
  {
    file[pos..pos + HEADER_SIZE + len] + buf[HEADER_SIZE + len..]
  }

  // ----- Byte strings that frame a record

  /** `e` passes the framing checks wherever it lies in a file. */
  predicate WellFramed(e: seq<byte>) {
    && HEADER_SIZE <= |e| <= RECORD_MAX
    && FromBig(e[CRC_SIZE..HEADER_SIZE]) == |e| - HEADER_SIZE
    && FromBig(e[..CRC_SIZE]) == Crc(0, e[CRC_SIZE..]) as nat
  }

  /** The body of `e` decodes to `r`, whatever lies behind it in the record buffer. */
  ghost predicate DecodesTo(e: seq<byte>, r: Record)
    requires HEADER_SIZE <= |e| <= RECORD_MAX
  {
    forall buf, now :: Holds(buf, e[HEADER_SIZE..]) ==>
      Decode(buf, |e| - HEADER_SIZE, now) == if Elapsed(r, now) then Skipped else Run(r)
  }

  ghost predicate Frames(e: seq<byte>, r: Record) {
    WellFramed(e) && DecodesTo(e, r)
  }

  lemma EncodedParts(r: Record, e: seq<byte>)
    requires Loggable(r) && e == Encode(r)
    ensures HEADER_SIZE <= |e| <= RECORD_MAX
    ensures e[..CRC_SIZE] == ToBig(Crc(0, Covered(r)) as nat, 8)
    ensures e[CRC_SIZE..] == Covered(r)
    ensures e[CRC_SIZE..HEADER_SIZE] == ToBig(|Body(r)|, 4)
    ensures e[HEADER_SIZE..] == Body(r)
  {
    hide Body, Crc, ToBig, NulFree, IsInt64;
    var c := Covered(r);
    assert c == ToBig(|Body(r)|, 4) + Body(r);
    assert e == ToBig(Crc(0, c) as nat, 8) + c;
  }

  lemma EncodeWellFramed(r: Record, e: seq<byte>)
    requires Loggable(r) && e == Encode(r)
    ensures WellFramed(e)
  {
    hide Encode, Covered, ToBig, FromBig, Crc;
    EncodedParts(r, e);
    Ranges();
    BigRoundTrip(Crc(0, Covered(r)) as nat, 8);
    BigRoundTrip(|Body(r)|, 4);
  }

  lemma EncodeFrames(r: Record, e: seq<byte>)
    requires Loggable(r) && e == Encode(r)
    ensures Frames(e, r)
  {
    hide Encode, WellFramed, Decode, Body;
    EncodedParts(r, e);
    EncodeWellFramed(r, e);
    forall buf, now | Holds(buf, e[HEADER_SIZE..])
      ensures Decode(buf, |e| - HEADER_SIZE, now) == if Elapsed(r, now) then Skipped else Run(r)
    {
      DecodeEncoded(r, buf, now);
    }
  }

  lemma SliceAt(pre: seq<byte>, mid: seq<byte>, rest: seq<byte>, lo: nat, hi: nat)
    requires lo <= hi <= |mid|
    ensures (pre + mid + rest)[|pre| + lo..|pre| + hi] == mid[lo..hi]
  {}

  lemma FrameAnywhere(pre: seq<byte>, e: seq<byte>, rest: seq<byte>)
    requires WellFramed(e)
    ensures ReadFrame(pre + e + rest, |pre|) == Frame(|e| - HEADER_SIZE)
  {
    SliceAt(pre, e, rest, 0, CRC_SIZE);
    SliceAt(pre, e, rest, CRC_SIZE, HEADER_SIZE);
    SliceAt(pre, e, rest, CRC_SIZE, |e|);
    hide FromBig, Crc;
    var file := pre + e + rest;
    assert file[|pre|..|pre| + CRC_SIZE] == e[..CRC_SIZE];
    assert file[|pre| + CRC_SIZE..|pre| + HEADER_SIZE + (|e| - HEADER_SIZE)] == e[CRC_SIZE..];
  }

  lemma FillHolds(pre: seq<byte>, e: seq<byte>, rest: seq<byte>, buf: seq<byte>)
    requires HEADER_SIZE <= |e| <= RECORD_MAX && |buf| == RECORD_MAX
    ensures Holds(Fill(pre + e + rest, |pre|, |e| - HEADER_SIZE, buf)[HEADER_SIZE..], e[HEADER_SIZE..])
  {
    SliceAt(pre, e, rest, 0, |e|);
  }

  /** One turn of the loop over a framed record. */
  lemma LoadRecord(
    pre: seq<byte>, e: seq<byte>, r: Record, rest: seq<byte>, buf: seq<byte>, i: nat, clock: nat -> int, t: Tables)
    returns (buf': seq<byte>)
    requires Frames(e, r) && |buf| == RECORD_MAX
    ensures |buf'| == RECORD_MAX
    ensures var file, end, a := pre + e + rest, |pre| + |e|, Apply(t, r);
            LoadFrom(file, |pre|, buf, i, clock, t) ==
              if Elapsed(r, clock(i)) then LoadFrom(file, end, buf', i + 1, clock, t)
              else if a.ok then LoadFrom(file, end, buf', i + 1, clock, a.tables)
              else Loaded(a.tables, |pre|, i, ReplayFailed)
  {
    hide ReadFrame, Fill, Decode, Apply, WellFramed;
    FrameAnywhere(pre, e, rest);
    FillHolds(pre, e, rest, buf);
    buf' := Fill(pre + e + rest, |pre|, |e| - HEADER_SIZE, buf);
  }

  // ----- The image of a log

  /** The log image: records one after the other. */
  function EncodeAll(log: seq<Record>): (s: seq<byte>)
    requires LoggableAll(log)
  {
    if log == [] then [] else EncodeAll(log[..|log| - 1]) + Encode(log[|log| - 1])
  }

  function Size(log: seq<Record>): (n: nat)
    requires LoggableAll(log)
  {
    |EncodeAll(log)|
  }

  lemma EncodeAllEmpty()
    ensures EncodeAll([]) == []
  {}

  lemma EncodeAllSnoc(log: seq<Record>, r: Record)
    requires LoggableAll(log) && Loggable(r)
    ensures EncodeAll(log + [r]) == EncodeAll(log) + Encode(r)
    ensures Size(log + [r]) == Size(log) + |Encode(r)|
  {
    hide Encode;
    assert (log + [r])[..|log|] == log;
  }

  lemma Regroup<T>(a: seq<T>, b: seq<T>, c: seq<T>)
    ensures a + (b + c) == (a + b) + c
  {}

  lemma SplitLast<T>(s: seq<T>, i: nat)
    requires i + 1 == |s|
    ensures s == s[..i] + [s[i]]
  {}

  lemma {:induction false} EncodeAllConcat(a: seq<Record>, b: seq<Record>)
    requires LoggableAll(a) && LoggableAll(b)
    ensures EncodeAll(a + b) == EncodeAll(a) + EncodeAll(b)
  {
    hide Encode, EncodeAll;
    if b == [] {
      assert a + b == a;
      EncodeAllEmpty();
    } else {
      var i := |b| - 1;
      EncodeAllConcat(a, b[..i]);
      SplitLast(b, i);
      Regroup(a, b[..i], [b[i]]);
      EncodeAllSnoc(a + b[..i], b[i]);
      EncodeAllSnoc(b[..i], b[i]);
      Regroup(EncodeAll(a), EncodeAll(b[..i]), Encode(b[i]));
    }
  }

  /** A log replayed to its end: the loop reaches what follows it, with the replayed tables. */
  lemma {:induction false} LoadThrough(
    pre: seq<byte>, log: seq<Record>, rest: seq<byte>, buf: seq<byte>, clock: nat -> int)
    returns (buf': seq<byte>)
    requires LoggableAll(log) && |buf| == RECORD_MAX
    requires Replay(log, clock).ok
    ensures |buf'| == RECORD_MAX
    ensures var file := pre + EncodeAll(log) + rest;
            LoadFrom(file, |pre|, buf, 0, clock, EMPTY)
            == LoadFrom(file, |pre| + Size(log), buf', |log|, clock, Replay(log, clock).tables)
    decreases |log|
  {
    hide Encode, LoadFrom, Apply, Frames;
    if log == [] {
      buf' := buf;
    } else {
      var i := |log| - 1;
      var r := log[i];
      var e := Encode(r);
      var before := pre + EncodeAll(log[..i]);
      var mid := LoadThrough(pre, log[..i], e + rest, buf, clock);
      Regroup(before, e, rest);
      Regroup(pre, EncodeAll(log[..i]), e);
      EncodeFrames(r, e);
      buf' := LoadRecord(before, e, r, rest, mid, i, clock, Replay(log[..i], clock).tables);
    }
  }

  /** A log whose replay fails: the loop stops at the failing record and keeps everything before it. */
  lemma {:induction false} LoadFails(
    pre: seq<byte>, log: seq<Record>, rest: seq<byte>, buf: seq<byte>, clock: nat -> int)
    requires LoggableAll(log) && |buf| == RECORD_MAX
    requires !Replay(log, clock).ok
    ensures var file, rp := pre + EncodeAll(log) + rest, Replay(log, clock);
            LoadFrom(file, |pre|, buf, 0, clock, EMPTY)
            == Loaded(rp.tables, |pre| + Size(log[..rp.count]), rp.count, ReplayFailed)
    decreases |log|
  {
    hide Encode, LoadFrom, Apply, Frames;
    var i := |log| - 1;
    var r := log[i];
    var e := Encode(r);
    var before := pre + EncodeAll(log[..i]);
    Regroup(before, e, rest);
    Regroup(pre, EncodeAll(log[..i]), e);
    var p := Replay(log[..i], clock);
    if p.ok {
      var mid := LoadThrough(pre, log[..i], e + rest, buf, clock);
      EncodeFrames(r, e);
      var last := LoadRecord(before, e, r, rest, mid, i, clock, p.tables);
    } else {
      LoadFails(pre, log[..i], e + rest, buf, clock);
      assert log[..i][..p.count] == log[..p.count];
    }
  }

  // ----- Torn tails

  /** How many records of the log lie wholly within its first `cut` bytes. */
  function Whole(log: seq<Record>, cut: nat): (n: nat)
    requires LoggableAll(log)
    ensures n <= |log|
  {
    if log == [] || Size(log) <= cut then |log| else Whole(log[..|log| - 1], cut)
  }

  lemma {:induction false} WholeIsWhole(log: seq<Record>, cut: nat)
    requires LoggableAll(log)
    ensures var n := Whole(log, cut);
            Size(log[..n]) <= cut && (n < |log| ==> cut < Size(log[..n + 1]))
  {
    hide Encode, EncodeAll, Loggable;
    EncodeAllEmpty();
    assert log[..|log|] == log;
    if log != [] && cut < Size(log) {
      var i := |log| - 1;
      var n := Whole(log[..i], cut);
      WholeIsWhole(log[..i], cut);
      assert log[..i][..n] == log[..n];
      if n < i {
        assert log[..i][..n + 1] == log[..n + 1];
      }
    }
  }

  lemma {:induction false} EncodeAllPrefix(log: seq<Record>, n: nat)
    requires LoggableAll(log) && n <= |log|
    ensures EncodeAll(log[..n]) <= EncodeAll(log)
  {
    hide Encode;
    assert log == log[..n] + log[n..];
    EncodeAllConcat(log[..n], log[n..]);
  }

  /** The image cut short is the whole records before the cut and part of the next one. */
  predicate CutsTo(log: seq<Record>, cut: nat, n: nat, part: seq<byte>)
    requires LoggableAll(log)
  {
    && n <= |log| && cut <= Size(log)
    && EncodeAll(log)[..cut] == EncodeAll(log[..n]) + part
    && (n == |log| ==> part == [])
    && (n < |log| ==> |part| < |Encode(log[n])| && part == Encode(log[n])[..|part|])
  }

  lemma CutImage(log: seq<Record>, cut: nat) returns (part: seq<byte>)
    requires LoggableAll(log) && cut <= Size(log)
    ensures CutsTo(log, cut, Whole(log, cut), part)
  {
    hide Encode, EncodeAll, Whole;
    var n := Whole(log, cut);
    WholeIsWhole(log, cut);
    EncodeAllPrefix(log, n);
    if n == |log| {
      assert log[..n] == log;
      part := [];
    } else {
      part := EncodeAll(log)[Size(log[..n])..cut];
      EncodeAllPrefix(log, n + 1);
      assert log[..n + 1] == log[..n] + [log[n]];
      EncodeAllSnoc(log[..n], log[n]);
      PrefixSlice(EncodeAll(log[..n]), Encode(log[n]), EncodeAll(log), cut);
    }
  }

  lemma PrefixSlice(a: seq<byte>, b: seq<byte>, s: seq<byte>, cut: nat)
    requires a + b <= s && |a| <= cut < |a| + |b|
    ensures s[..cut] == a + s[|a|..cut]
    ensures s[|a|..cut] == b[..cut - |a|]
  {}

  predicate Torn(why: Stop) {
    why == CleanEof || why == TruncatedHeader || why == TruncatedBody
  }

  /** A strict prefix of a record is never taken for one. */
  lemma TornFrame(pre: seq<byte>, e: seq<byte>, c: nat)
    requires WellFramed(e) && c < |e|
    ensures var f := ReadFrame(pre + e[..c], |pre|);
            f.Stopped? && Torn(f.why) && (f.why == CleanEof <==> c == 0)
  {
    hide FromBig, Crc;
    var file := pre + e[..c];
    if HEADER_SIZE <= c {
      assert file[|pre| + CRC_SIZE..|pre| + HEADER_SIZE] == e[CRC_SIZE..HEADER_SIZE];
    }
  }

  /** `l` is the replay of `log` starting at offset `start`, stopped by `why` if it gets to the end. */
  ghost predicate LoadedAs(log: seq<Record>, start: nat, clock: nat -> int, why: Stop, l: Loaded)
    requires LoggableAll(log)
  {
    var rp := Replay(log, clock);
    l == Loaded(rp.tables, start + Size(log[..rp.count]), rp.count, if rp.ok then why else ReplayFailed)
  }

  /** A log followed by something that is not a record: the log is replayed and the loop stops there. */
  lemma LoadWithTail(pre: seq<byte>, log: seq<Record>, tail: seq<byte>, why: Stop, buf: seq<byte>, clock: nat -> int)
    requires LoggableAll(log) && |buf| == RECORD_MAX
    requires ReadFrame(pre + EncodeAll(log) + tail, |pre| + Size(log)) == Stopped(why)
    ensures LoadedAs(log, |pre|, clock, why, LoadFrom(pre + EncodeAll(log) + tail, |pre|, buf, 0, clock, EMPTY))
  {
    hide Encode, LoadFrom, ReadFrame, Replay, EncodeAll;
    var rp := Replay(log, clock);
    if rp.ok {
      var buf' := LoadThrough(pre, log, tail, buf, clock);
      LoadStops(pre + EncodeAll(log), tail, buf', |log|, clock, rp.tables);
      assert log[..|log|] == log;
    } else {
      LoadFails(pre, log, tail, buf, clock);
    }
  }

  /** `l` is the replay of the whole records before the cut, and ends at their exact end; the end is
      clean only if nothing is left over. */
  predicate RecoversWhole(log: seq<Record>, cut: nat, start: nat, clock: nat -> int, l: Loaded)
    requires LoggableAll(log)
  {
    var n := Whole(log, cut);
    var rp := Replay(log[..n], clock);
    && l.tables == rp.tables && l.records == rp.count
    && l.validEnd == start + Size(log[..rp.count])
    && (if rp.ok then Torn(l.stop) && (l.stop == CleanEof <==> Size(log[..n]) == cut) else l.stop == ReplayFailed)
  }

  /** Torn-tail recovery: for every log and every cut of its image, the loader replays exactly the
      records lying wholly before the cut, ends at their exact end, and reports a clean end only if
      nothing is left over. `pre` is what precedes the records, the file header. */
  lemma TornTail(pre: seq<byte>, log: seq<Record>, cut: nat, buf: seq<byte>, clock: nat -> int)
    requires LoggableAll(log) && cut <= Size(log) && |buf| == RECORD_MAX
    ensures RecoversWhole(log, cut, |pre|, clock, LoadFrom(pre + EncodeAll(log)[..cut], |pre|, buf, 0, clock, EMPTY))
  {
    hide Encode, EncodeAll, Whole, CutsTo, RecoversWhole, LoadFrom, LoadedAs, Torn, Loggable;
    var part := CutImage(log, cut);
    var n := Whole(log, cut);
    var why := TornLoad(pre, log, cut, n, log[..n], part, buf, clock);
    var l := LoadFrom(pre + EncodeAll(log)[..cut], |pre|, buf, 0, clock, EMPTY);
    TornSummary(log, cut, |pre|, clock, n, log[..n], part, why, l);
  }

  lemma TornLoad(
    pre: seq<byte>, log: seq<Record>, cut: nat, n: nat, whole: seq<Record>, part: seq<byte>, buf: seq<byte>,
    clock: nat -> int)
    returns (why: Stop)
    requires LoggableAll(log) && |buf| == RECORD_MAX
    requires CutsTo(log, cut, n, part) && whole == log[..n]
    ensures Torn(why) && (why == CleanEof <==> part == [])
    ensures LoadedAs(whole, |pre|, clock, why, LoadFrom(pre + EncodeAll(log)[..cut], |pre|, buf, 0, clock, EMPTY))
  {
    hide Encode, LoadFrom, ReadFrame, EncodeAll, Torn, LoadedAs;
    var before := pre + EncodeAll(whole);
    TornEnd(before, log, n, part);
    why := ReadFrame(before + part, |before|).why;
    LoadWithTail(pre, whole, part, why, buf, clock);
    Regroup(pre, EncodeAll(whole), part);
  }

  lemma TornSummary(
    log: seq<Record>, cut: nat, start: nat, clock: nat -> int, n: nat, whole: seq<Record>, part: seq<byte>, why: Stop,
    l: Loaded)
    requires LoggableAll(log) && CutsTo(log, cut, n, part) && n == Whole(log, cut) && whole == log[..n]
    requires Torn(why) && (why == CleanEof <==> part == [])
    requires LoadedAs(whole, start, clock, why, l)
    ensures RecoversWhole(log, cut, start, clock, l)
  {
    hide Replay, EncodeAll, Whole, Encode;
    var c := Replay(whole, clock).count;
    assert whole[..c] == log[..c];
    assert cut == Size(whole) + |part|;
  }

  lemma TornEnd(before: seq<byte>, log: seq<Record>, n: nat, part: seq<byte>)
    requires LoggableAll(log) && n <= |log|
    requires n == |log| ==> part == []
    requires n < |log| ==> |part| < |Encode(log[n])| && part == Encode(log[n])[..|part|]
    ensures var f := ReadFrame(before + part, |before|);
            f.Stopped? && Torn(f.why) && (f.why == CleanEof <==> part == [])
  {
    hide Encode, ReadFrame, WellFramed;
    if n < |log| {
      EncodeWellFramed(log[n], Encode(log[n]));
      TornFrame(before, Encode(log[n]), |part|);
    } else {
      NothingLeft(before);
      assert before + part == before;
    }
  }

  lemma NothingLeft(file: seq<byte>)
    ensures ReadFrame(file, |file|) == Stopped(CleanEof)
  {}

  lemma LoadStops(pre: seq<byte>, rest: seq<byte>, buf: seq<byte>, i: nat, clock: nat -> int, t: Tables)
    requires |buf| == RECORD_MAX
    ensures var f := ReadFrame(pre + rest, |pre|);
            f.Stopped? ==> LoadFrom(pre + rest, |pre|, buf, i, clock, t) == Loaded(t, |pre|, i, f.why)
  {
    hide ReadFrame;
  }

  // ----- Reloading the truncated file

  lemma ReadFrameLocal(file: seq<byte>, pos: nat, end: nat)
    requires pos <= end <= |file|
    requires ReadFrame(file, pos).Frame? && pos + HEADER_SIZE + ReadFrame(file, pos).bodyLen <= end
    ensures ReadFrame(file[..end], pos) == ReadFrame(file, pos)
  {
    hide FromBig, Crc;
    var len := ReadFrame(file, pos).bodyLen;
    assert file[..end][pos + CRC_SIZE..pos + HEADER_SIZE] == file[pos + CRC_SIZE..pos + HEADER_SIZE];
    assert file[..end][pos..pos + CRC_SIZE] == file[pos..pos + CRC_SIZE];
    assert file[..end][pos + CRC_SIZE..pos + HEADER_SIZE + len] == file[pos + CRC_SIZE..pos + HEADER_SIZE + len];
  }

  lemma FillLocal(file: seq<byte>, pos: nat, len: nat, buf: seq<byte>, end: nat)
    requires pos + HEADER_SIZE + len <= end <= |file| && len <= BODY_ROOM && |buf| == RECORD_MAX
    ensures Fill(file[..end], pos, len, buf) == Fill(file, pos, len, buf)
  {
    assert file[..end][pos..pos + HEADER_SIZE + len] == file[pos..pos + HEADER_SIZE + len];
  }

  /** Recovery is stable: for every byte string at all, loading the file cut at `validEnd` replays the
      same records to the same tables and ends cleanly with no byte lost. */
  lemma {:induction false} ReloadTruncated(
    file: seq<byte>, pos: nat, buf: seq<byte>, i: nat, clock: nat -> int, t: Tables)
    requires pos <= |file| && |buf| == RECORD_MAX && Consistent(t)
    ensures var l := LoadFrom(file, pos, buf, i, clock, t);
            LoadFrom(file[..l.validEnd], pos, buf, i, clock, t) == l.(stop := CleanEof)
    decreases |file| - pos
  {
    hide ReadFrame, Fill, Decode, Apply;
    var l := LoadFrom(file, pos, buf, i, clock, t);
    if l.validEnd == pos {
      NothingLeft(file[..pos]);
      ApplyFailureKeepsTables(file, pos, buf, i, clock, t);
    } else {
      var len := ReadFrame(file, pos).bodyLen;
      var end := pos + HEADER_SIZE + len;
      var buf' := Fill(file, pos, len, buf);
      ReadFrameLocal(file, pos, l.validEnd);
      FillLocal(file, pos, len, buf, l.validEnd);
      var d := Decode(buf'[HEADER_SIZE..], len, clock(i));
      ReloadTruncated(file, end, buf', i + 1, clock, if d.Run? then Apply(t, d.record).tables else t);
    }
  }

  /** The deadline in the body of the record at `pos`. */
  function DeadlineAt(file: seq<byte>, pos: nat): (d: int)
    requires pos + HEADER_SIZE + BODY_FIXED <= |file|
  {
    ReadDeadline(file[pos + HEADER_SIZE + 7..pos + HEADER_SIZE + BODY_FIXED])
  }

  /** Every record up to `end` has its fixed fields, and both clocks judge its deadline alike. */
  ghost predicate ReadAlike(file: seq<byte>, pos: nat, end: nat, i: nat, clock: nat -> int, clock': nat -> int)
    requires pos <= |file|
    decreases |file| - pos
  {
    match ReadFrame(file, pos)
    case Stopped(_) => true
    case Frame(len) =>
      pos + HEADER_SIZE + len <= end ==>
        && BODY_FIXED <= len
        && (0 < DeadlineAt(file, pos) < clock(i) <==> 0 < DeadlineAt(file, pos) < clock'(i))
        && ReadAlike(file, pos + HEADER_SIZE + len, end, i + 1, clock, clock')
  }

  /** Only the body counts, not what a longer record left behind it. */
  lemma DecodeAlike(a: seq<byte>, b: seq<byte>, len: nat, now: int, now': int)
    requires |a| == |b| == BODY_ROOM && BODY_FIXED <= len <= BODY_ROOM && a[..len] == b[..len]
    requires 0 < ReadDeadline(a[7..15]) < now <==> 0 < ReadDeadline(a[7..15]) < now'
    ensures Decode(a, len, now) == Decode(b, len, now')
  {
    hide FromBig, ReadDeadline, CString, OpOf;
    SliceOf(a, a[..len], 1, 3);
    SliceOf(a, a[..len], 3, 7);
    SliceOf(a, a[..len], 7, 15);
    SliceOf(b, a[..len], 1, 3);
    SliceOf(b, a[..len], 3, 7);
    SliceOf(b, a[..len], 7, 15);
    assert a[0] == a[..len][0] == b[0];
    assert ReadFields(a) == ReadFields(b);
    var f := ReadFields(a);
    if Judge(f, len, now).Accept? {
      var end := BODY_FIXED + f.keyLen;
      SliceOf(a, a[..len], BODY_FIXED, end);
      SliceOf(b, a[..len], BODY_FIXED, end);
      SliceOf(a, a[..len], end, len);
      SliceOf(b, a[..len], end, len);
    }
  }

  lemma SliceOfSlice(s: seq<byte>, at: nat, len: nat, lo: nat, hi: nat)
    requires lo <= hi <= len && at + len <= |s|
    ensures s[at..at + len][lo..hi] == s[at + lo..at + hi]
  {
    var a, b := s[at..at + len][lo..hi], s[at + lo..at + hi];
    assert |a| == |b|;
    forall i | 0 <= i < |a|
      ensures a[i] == b[i]
    {
      assert s[at..at + len][lo + i] == s[at + lo + i];
    }
  }

  lemma FilledAlike(file: seq<byte>, pos: nat, len: nat, buf: seq<byte>, buf': seq<byte>)
    requires pos + HEADER_SIZE + len <= |file| && BODY_FIXED <= len <= BODY_ROOM && |buf| == |buf'| == RECORD_MAX
    ensures var a, b := Fill(file, pos, len, buf)[HEADER_SIZE..], Fill(file, pos, len, buf')[HEADER_SIZE..];
            && a[..len] == b[..len] && ReadDeadline(a[7..15]) == DeadlineAt(file, pos)
  {
    hide ReadDeadline;
    var a, b := Fill(file, pos, len, buf)[HEADER_SIZE..], Fill(file, pos, len, buf')[HEADER_SIZE..];
    assert a[..len] == file[pos + HEADER_SIZE..pos + HEADER_SIZE + len] == b[..len];
    SliceOf(a, a[..len], 7, 15);
    var body := file[pos + HEADER_SIZE..pos + HEADER_SIZE + len];
    assert a[..len] == body;
    SliceOfSlice(file, pos + HEADER_SIZE, len, 7, BODY_FIXED);
  }

  /** The same by another process: whatever its buffer holds, and at any other time at which no deadline is
      judged differently, it finds in the truncated file the same records and tables, and loses no byte. */
  lemma {:induction false} ReloadElsewhere(
    file: seq<byte>, pos: nat, buf: seq<byte>, buf': seq<byte>, i: nat, clock: nat -> int, clock': nat -> int,
    t: Tables)
    requires pos <= |file| && |buf| == |buf'| == RECORD_MAX && Consistent(t)
    requires ReadAlike(file, pos, LoadFrom(file, pos, buf, i, clock, t).validEnd, i, clock, clock')
    ensures var l := LoadFrom(file, pos, buf, i, clock, t);
            LoadFrom(file[..l.validEnd], pos, buf', i, clock', t) == l.(stop := CleanEof)
    decreases |file| - pos
  {
    hide ReadFrame, Fill, Decode, Apply, DeadlineAt;
    var l := LoadFrom(file, pos, buf, i, clock, t);
    if l.validEnd == pos {
      NothingLeft(file[..pos]);
      ApplyFailureKeepsTables(file, pos, buf, i, clock, t);
    } else {
      var len := ReadFrame(file, pos).bodyLen;
      var end := pos + HEADER_SIZE + len;
      ReadFrameLocal(file, pos, l.validEnd);
      FillLocal(file, pos, len, buf', l.validEnd);
      FilledAlike(file, pos, len, buf, buf');
      var a, b := Fill(file, pos, len, buf), Fill(file, pos, len, buf');
      DecodeAlike(a[HEADER_SIZE..], b[HEADER_SIZE..], len, clock(i), clock'(i));
      var d := Decode(a[HEADER_SIZE..], len, clock(i));
      ReloadElsewhere(file, end, a, b, i + 1, clock, clock', if d.Run? then Apply(t, d.record).tables else t);
    }
  }

  lemma ApplyFailureKeepsTables(file: seq<byte>, pos: nat, buf: seq<byte>, i: nat, clock: nat -> int, t: Tables)
    requires pos <= |file| && |buf| == RECORD_MAX && Consistent(t)
    ensures var l := LoadFrom(file, pos, buf, i, clock, t);
            l.validEnd == pos ==> l.tables == t && l.records == i
  {
    hide ReadFrame, Fill, Decode, Apply;
  }

  // ----- Damage

  lemma BadCrcStops(pre: seq<byte>, e: seq<byte>, rest: seq<byte>)
    requires HEADER_SIZE <= |e| <= RECORD_MAX
    requires FromBig(e[CRC_SIZE..HEADER_SIZE]) == |e| - HEADER_SIZE
    requires FromBig(e[..CRC_SIZE]) != Crc(0, e[CRC_SIZE..]) as nat
    ensures ReadFrame(pre + e + rest, |pre|) == Stopped(CrcMismatch)
  {
    hide FromBig, Crc;
    SliceAt(pre, e, rest, 0, CRC_SIZE);
    SliceAt(pre, e, rest, CRC_SIZE, HEADER_SIZE);
    SliceAt(pre, e, rest, CRC_SIZE, |e|);
    var file := pre + e + rest;
    assert file[|pre|..|pre| + CRC_SIZE] == e[..CRC_SIZE];
    assert file[|pre| + CRC_SIZE..|pre| + HEADER_SIZE + (|e| - HEADER_SIZE)] == e[CRC_SIZE..];
  }

  /** Damage the checksum is sure to catch: anything done to the stored checksum itself, or a change
      confined to eight consecutive bytes of the body. */
  ghost predicate Damaged(e: seq<byte>, bad: seq<byte>) {
    && |bad| == |e| && bad != e && HEADER_SIZE <= |e|
    && (|| bad[CRC_SIZE..] == e[CRC_SIZE..]
        || exists p, q ::
             && HEADER_SIZE <= p <= q <= |e| && q - p <= 8
             && bad[..p] == e[..p] && bad[q..] == e[q..])
  }

  lemma WindowDamage(e: seq<byte>, bad: seq<byte>, p: nat, q: nat)
    requires |bad| == |e| && bad != e
    requires HEADER_SIZE <= p <= q <= |e| && q - p <= 8
    requires bad[..p] == e[..p] && bad[q..] == e[q..]
    ensures bad[..HEADER_SIZE] == e[..HEADER_SIZE]
    ensures Crc(0, bad[CRC_SIZE..]) != Crc(0, e[CRC_SIZE..])
  {
    hide Crc;
    assert bad[..HEADER_SIZE] == bad[..p][..HEADER_SIZE] == e[..HEADER_SIZE];
    var prefix, suffix := e[CRC_SIZE..p], e[q..];
    assert e == e[..p] + e[p..q] + e[q..];
    assert bad == bad[..p] + bad[p..q] + bad[q..];
    assert e[CRC_SIZE..] == prefix + e[p..q] + suffix;
    assert bad[CRC_SIZE..p] == bad[..p][CRC_SIZE..p];
    assert bad[CRC_SIZE..] == prefix + bad[p..q] + suffix;
    BurstDetected(0, prefix, e[p..q], bad[p..q], suffix);
  }

  lemma DamageDetected(e: seq<byte>, bad: seq<byte>)
    requires WellFramed(e) && Damaged(e, bad)
    ensures FromBig(bad[CRC_SIZE..HEADER_SIZE]) == |bad| - HEADER_SIZE
    ensures FromBig(bad[..CRC_SIZE]) != Crc(0, bad[CRC_SIZE..]) as nat
  {
    hide Crc, FromBig, ToBig;
    if bad[CRC_SIZE..] == e[CRC_SIZE..] {
      assert bad[CRC_SIZE..HEADER_SIZE] == bad[CRC_SIZE..][..4] == e[CRC_SIZE..HEADER_SIZE];
      assert bad == bad[..CRC_SIZE] + bad[CRC_SIZE..] && e == e[..CRC_SIZE] + e[CRC_SIZE..];
      BigInverse(bad[..CRC_SIZE]);
      BigInverse(e[..CRC_SIZE]);
    } else {
      var p, q :| && HEADER_SIZE <= p <= q <= |e| && q - p <= 8
                  && bad[..p] == e[..p] && bad[q..] == e[q..];
      WindowDamage(e, bad, p, q);
      assert bad[CRC_SIZE..HEADER_SIZE] == bad[..HEADER_SIZE][CRC_SIZE..] == e[CRC_SIZE..HEADER_SIZE];
      assert bad[..CRC_SIZE] == bad[..HEADER_SIZE][..CRC_SIZE] == e[..CRC_SIZE];
      var x, y := Crc(0, bad[CRC_SIZE..]), Crc(0, e[CRC_SIZE..]);
      DistinctWords(x, y, x as nat, y as nat);
    }
  }

  /** Such damage always stops the replay at that record, whatever follows it in the file, with the
      tables of the records before it. */
  lemma DamageStopsReplay(
    pre: seq<byte>, log: seq<Record>, r: Record, bad: seq<byte>, rest: seq<byte>, buf: seq<byte>, clock: nat -> int)
    requires LoggableAll(log) && Loggable(r) && Replay(log, clock).ok
    requires Damaged(Encode(r), bad) && |buf| == RECORD_MAX
    ensures LoadFrom(pre + EncodeAll(log) + bad + rest, |pre|, buf, 0, clock, EMPTY)
         == Loaded(Replay(log, clock).tables, |pre| + Size(log), |log|, CrcMismatch)
  {
    hide Encode, LoadFrom, ReadFrame, Replay, WellFramed, FromBig, Crc;
    var before := pre + EncodeAll(log);
    Regroup(before, bad, rest);
    EncodeWellFramed(r, Encode(r));
    DamageDetected(Encode(r), bad);
    BadCrcStops(before, bad, rest);
    LoadWithTail(pre, log, bad + rest, CrcMismatch, buf, clock);
    assert log[..|log|] == log;
  }
}
