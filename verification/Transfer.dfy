/** The transfer loops of src/util.c under short transfers and interruptions. */
module Transfer {

  import opened Numbers
  import opened Bytes

  /** `read_exact`: whatever sizes the kernel hands out and however often (at most `interrupts` times)
      it interrupts, exactly `len` bytes arrive, or all that is left of the file. A read that fails, which
      only a `faulty` device makes it do, leaves the bytes that came before and returns -1. */
  method ReadExact(file: seq<byte>, pos: nat, buf: array<byte>, at: nat, len: nat, interrupts: nat, faulty: bool)
    returns (n: int, ghost came: nat)
    requires pos <= |file| && at + len <= buf.Length
    modifies buf
    ensures came <= Min(len, |file| - pos) && buf[..] == Spliced(old(buf[..]), at, file[pos..pos + came])
    ensures if n == -1 then faulty && came < len else n == came == Min(len, |file| - pos)
  {
    hide Spliced;
    var off, budget := 0, interrupts;
    SplicedNothing(buf[..], at);
    assert file[pos..pos + 0] == [];
    while off < len
      invariant off <= len && pos + off <= |file|
      invariant buf[..] == Spliced(old(buf[..]), at, file[pos..pos + off])
      decreases len - off, budget
    {
      var interrupted: bool := *;
      if interrupted && 0 < budget {
        budget := budget - 1;
        continue;
      }
      var failed: bool := *;
      if faulty && failed {
        return -1, off;
      }
      if pos + off == |file| {
        break;
      }
      var got: nat :| 1 <= got <= len - off && got <= |file| - pos - off;
      var chunk := file[pos + off..pos + off + got];
      CopyIn(buf, at + off, chunk);
      SplicedTwice(old(buf[..]), at, file[pos..pos + off], chunk);
      assert file[pos..pos + off + got] == file[pos..pos + off] + chunk;
      off := off + got;
    }
    n, came := off, off;
  }

  /** `memcpy` of `data` to offset `at` of a buffer. */
  function Spliced(s: seq<byte>, at: nat, data: seq<byte>): (r: seq<byte>)
    requires at + |data| <= |s|
    ensures |r| == |s|
  {
    s[..at] + data + s[at + |data|..]
  }

  lemma SplicedNothing(s: seq<byte>, at: nat)
    requires at <= |s|
    ensures Spliced(s, at, []) == s
  {}

  lemma SplicedTwice(s: seq<byte>, at: nat, d: seq<byte>, e: seq<byte>)
    requires at + |d| + |e| <= |s|
    ensures Spliced(Spliced(s, at, d), at + |d|, e) == Spliced(s, at, d + e)
  {}

  lemma SplicedBefore(s: seq<byte>, at: nat, d: seq<byte>, e: seq<byte>)
    requires at + |e| + |d| <= |s|
    ensures Spliced(Spliced(s, at + |e|, d), at, e) == Spliced(s, at, e + d)
  {}

  lemma SplicedAtStart(s: seq<byte>, d: seq<byte>)
    requires |d| <= |s|
    ensures Spliced(s, 0, d)[..|d|] == d
  {}

  /** `memcpy` */
  method CopyIn(buf: array<byte>, at: nat, data: seq<byte>)
    requires at + |data| <= buf.Length
    modifies buf
    ensures buf[..] == Spliced(old(buf[..]), at, data)
  {
    forall i | 0 <= i < |data| {
      buf[at + i] := data[i];
    }
  }

  /** `write_all`: on success everything was appended in order; on failure, which only a `faulty` device
      causes, a strict prefix was. */
  method WriteAll(file: seq<byte>, data: seq<byte>, interrupts: nat, faulty: bool) returns (file': seq<byte>, ok: bool)
    ensures !faulty ==> ok
    ensures ok ==> file' == file + data
    ensures !ok ==> exists n: nat :: n < |data| && file' == file + data[..n]
  {
    var off, budget := 0, interrupts;
    file' := file;
    while off < |data|
      invariant off <= |data| && file' == file + data[..off]
      decreases |data| - off, budget
    {
      var interrupted: bool, failed: bool := *, *;
      if interrupted && 0 < budget {
        budget := budget - 1;
        continue;
      }
      if faulty && failed {
        return file', false;
      }
      var put: nat :| 1 <= put <= |data| - off;
      assert data[..off + put] == data[..off] + data[off..off + put];
      file' := file' + data[off..off + put];
      off := off + put;
    }
    ok := true;
    assert data[..|data|] == data;
  }

  /** The interval has passed since the last firing. */
  predicate Due(last: int, now: int, interval: int) {
    interval <= now - last
  }

  /** `run_every_ms` */
  method RunEvery(last: int, now: int, interval: int) returns (fired: bool, last': int)
    ensures fired == (now - last >= interval) && last' == if fired then now else last
  {
    if now - last < interval {
      return false, last;
    }
    return true, now;
  }

  /** The calls among `calls` that fire, each judged from the one before it. */
  function Firings(last: int, interval: int, calls: seq<int>): (fs: seq<int>)
    decreases |calls|
  {
    if calls == [] then []
    else if Due(last, calls[0], interval) then [calls[0]] + Firings(calls[0], interval, calls[1..])
    else Firings(last, interval, calls[1..])
  }

  /** When it last fired, counting from `last`. */
  function LastFiring(last: int, interval: int, calls: seq<int>): (t: int) {
    var fs := Firings(last, interval, calls);
    if fs == [] then last else fs[|fs| - 1]
  }

  /** The callers of `run_every_ms` over time: each keeps the time of its last firing for the next call. */
  method FireAll(last: int, interval: int, calls: seq<int>) returns (fired: seq<int>, last': int)
    ensures fired == Firings(last, interval, calls) && last' == LastFiring(last, interval, calls)
  {
    fired, last' := [], last;
    for i := 0 to |calls|
      invariant fired == Firings(last, interval, calls[..i]) && last' == LastFiring(last, interval, calls[..i])
    {
      FiresWhenDue(last, interval, calls[..i], calls[i]);
      assert calls[..i + 1] == calls[..i] + [calls[i]];
      var now;
      now, last' := RunEvery(last', calls[i], interval);
      if now {
        fired := fired + [calls[i]];
      }
    }
    assert calls[..|calls|] == calls;
  }

  /** However often it is called, two firings in a row are at least the interval apart. */
  lemma {:induction false} FiringsApart(last: int, interval: int, calls: seq<int>, i: nat)
    requires i < |Firings(last, interval, calls)|
    ensures var fs := Firings(last, interval, calls);
            fs[i] - (if i == 0 then last else fs[i - 1]) >= interval
    decreases |calls|
  {
    if Due(last, calls[0], interval) {
      if i > 0 {
        FiringsApart(calls[0], interval, calls[1..], i - 1);
      }
    } else {
      FiringsApart(last, interval, calls[1..], i);
    }
  }

  /** And none is missed: one more call fires exactly if the interval has passed since the last firing. */
  lemma {:induction false} FiresWhenDue(last: int, interval: int, calls: seq<int>, now: int)
    ensures Firings(last, interval, calls + [now]) ==
            Firings(last, interval, calls)
            + if now - LastFiring(last, interval, calls) >= interval then [now] else []
    decreases |calls|
  {
    if calls == [] {
      assert (calls + [now])[1..] == [];
      assert Firings(now, interval, []) == [] == Firings(last, interval, []);
    } else {
      assert (calls + [now])[1..] == calls[1..] + [now];
      FiresWhenDue(if Due(last, calls[0], interval) then calls[0] else last, interval, calls[1..], now);
    }
  }
}
