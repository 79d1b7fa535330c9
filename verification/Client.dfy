/** `client_t` of src/networking.h and its handlers in src/networking.c, on buffers changed in place. */
module Client {

  import opened Numbers
  import opened Bytes
  import opened Framing
  import opened Connection

  class Client {
    const world: World
    const buf: array<byte>
    const wbuf: array<byte>
    var active: bool
    var len: nat
    var wlen: nat
    var woff: nat
    var armed: bool
    var served: nat
    var writes: nat
    ghost var past: Past

    ghost predicate Valid()
      reads this
    {
      && buf.Length == RBUF && wbuf.Length == WBUF && buf != wbuf
      && len <= RBUF && woff <= wlen <= WBUF && (woff == wlen ==> wlen == 0)
    }

    /** The connection this client is. */
    ghost function View(): (c: Conn)
      reads this, buf, wbuf
      requires Valid()
    {
      Conn(active, buf[..len], wbuf[woff..wlen], armed, served, writes, past)
    }

    /** The client part of `on_accept` */
    constructor (world: World)
      ensures Valid() && View() == ACCEPTED && this.world == world
      ensures fresh(buf) && fresh(wbuf)
    {
      this.world := world;
      buf := new byte[RBUF](_ => 0);
      wbuf := new byte[WBUF](_ => 0);
      active, len, wlen, woff, armed, served, writes := true, 0, 0, 0, false, 0, 0;
      past := ACCEPTED.past;
    }

    /** `remove_client` */
    method Remove(ghost broken: bool)
      requires Valid()
      modifies this
      ensures Valid() && View() == Removed(old(View()), broken)
    {
      active, len, wlen, woff, armed := false, 0, 0, 0, false;
      past := past.(broken := past.broken || broken);
    }

    /** The compaction of `queue_write`: the unsent bytes move to the front. */
    method Compact()
      requires Valid()
      modifies this`wlen, this`woff, wbuf
      ensures Valid() && woff == 0 && wbuf[..wlen] == old(wbuf[woff..wlen]) && View() == old(View())
    {
      var pending := wlen - woff;
      forall i | 0 <= i < pending {
        wbuf[i] := wbuf[woff + i];
      }
      wlen, woff := pending, 0;
      assert wbuf[..wlen] == old(wbuf[woff..wlen]);
    }

    /** A write of everything pending. */
    method Flush() returns (o: Outcome)
      requires Valid() && woff < wlen
      modifies this`woff, this`writes, this`past
      ensures o == world.kernel(old(writes))
      ensures woff <= wlen && (!o.Took? ==> woff == old(woff))
      ensures var called := old(View()).(writes := old(writes) + 1);
              Conn(active, buf[..len], wbuf[woff..wlen], armed, served, writes, past) ==
              if o.Took? then Sent(called, Min(o.n, old(wlen - woff))) else called
    {
      o := world.kernel(writes);
      writes := writes + 1;
      if o.Took? {
        var k := Min(o.n, wlen - woff);
        past := past.(sent := past.sent + wbuf[woff..woff + k]);
        woff := woff + k;
        ghost var q := old(wbuf[woff..wlen]);
        assert q[..k] == old(wbuf[woff..woff + k]) && q[k..] == wbuf[woff..wlen];
      }
    }

    /** The `memcpy` of `queue_write` */
    method Append(data: seq<byte>)
      requires Valid() && 0 < |data| && wlen + |data| <= WBUF
      modifies this`wlen, wbuf
      ensures Valid() && wlen == old(wlen) + |data|
      ensures View() == old(View()).(queue := old(View()).queue + data)
    {
      forall i | 0 <= i < |data| {
        wbuf[wlen + i] := data[i];
      }
      wlen := wlen + |data|;
      assert wbuf[woff..wlen] == old(wbuf[woff..wlen]) + data;
    }

    /** `queue_write` */
    method QueueWrite(data: seq<byte>) returns (ok: bool)
      requires Valid() && 0 < |data| && active
      modifies this, wbuf
      ensures Valid() && Queued(View(), ok) == Queue(old(View()), world, data)
    {
      hide Sent;
      if wlen + |data| > WBUF && woff > 0 {
        Compact();
      }
      if wlen + |data| > WBUF {
        return false;
      }
      var wasEmpty := wlen == 0;
      Append(data);
      if wasEmpty {
        ok := WriteNow();
        return;
      }
      armed := true;
      ok := true;
    }

    /** The fast path. */
    method WriteNow() returns (ok: bool)
      requires Valid() && active && woff < wlen
      modifies this
      ensures Valid() && Queued(View(), ok) == Direct(old(View()), world)
    {
      var o := Flush();
      if o.Fatal? {
        Remove(true);
        return false;
      }
      if o.Took? && woff == wlen {
        woff, wlen := 0, 0;
        return true;
      }
      armed := true;
      ok := true;
    }

    /** `send_framed` */
    method SendFramed(p: Payload) returns (ok: bool)
      requires Valid() && active
      modifies this, wbuf
      ensures Valid() && Queued(View(), ok) == Send(old(View()), world, p)
    {
      hide Queue, Frame;
      ok := QueueWrite(Frame(p));
      if ok {
        past := past.(accepted := past.accepted + [p]);
      }
    }

    /** Drops the frame at the front of the read buffer. */
    method Consume(size: nat)
      requires Valid() && HasFrame(buf[..len]) && size == HDR + Announced(buf[..len])
      modifies this`len, this`past, buf
      ensures Valid() && View() == Consumed(old(View())) && len == old(len) - size
    {
      hide FromBig;
      ghost var s := buf[..len];
      past := past.(consumed := past.consumed + [Head(s)], tries := past.tries + [past.attempts + 1], attempts := 0);
      forall i | 0 <= i < len - size {
        buf[i] := buf[size + i];
      }
      len := len - size;
      assert buf[..len] == s[size..];
    }

    /** `process_buffer` */
    method ProcessBuffer()
      requires Valid() && active
      modifies this, buf, wbuf
      ensures Valid() && View() == Process(old(View()), world)
    {
      hide FromBig, Send, Consumed, Removed;
      ghost var start := View();
      while len >= HDR
        invariant Valid() && active
        invariant Process(View(), world) == Process(start, world)
        decreases len
      {
        ghost var c := View();
        var announced := FromBig(buf[..HDR]);
        assert buf[..HDR] == buf[..len][..HDR];
        if announced > MSG_MAX {
          Remove(false);
          return;
        }
        if len < HDR + announced {
          return;
        }
        past := past.(executed := past.executed + [Head(buf[..len])]);
        served := served + 1;
        var ok := SendFramed(world.reply(served - 1));
        if !ok {
          if active {
            past := past.(attempts := past.attempts + 1, refusals := past.refusals + 1);
          }
          return;
        }
        Consume(HDR + announced);
      }
    }

    /** `on_read` */
    method OnRead(incoming: Incoming)
      requires Valid()
      modifies this, buf, wbuf
      ensures Valid() && View() == Read(old(View()), world, incoming)
    {
      hide Process;
      if !active {
        return;
      }
      match incoming
      case End => Remove(false);
      case Unready =>
      case Failed => Remove(true);
      case Data(chunk) =>
        var n := Min(|chunk|, RBUF - len);
        if n == 0 {
          Remove(false);
          return;
        }
        Fill(chunk[..n]);
        ProcessBuffer();
    }

    /** The bytes `read` delivers behind those already there. */
    method Fill(chunk: seq<byte>)
      requires Valid() && len + |chunk| <= RBUF
      modifies this`len, this`past, buf
      ensures Valid() && View() == Filled(old(View()), chunk)
    {
      forall i | 0 <= i < |chunk| {
        buf[len + i] := chunk[i];
      }
      past := past.(received := past.received + chunk);
      len := len + |chunk|;
      assert buf[..len] == old(buf[..len]) + chunk;
    }

    /** `on_write` */
    method OnWrite()
      requires Valid() && (armed ==> active && woff < wlen)
      modifies this, buf, wbuf
      ensures Valid() && View() == Write(old(View()), world)
    {
      hide Process;
      if !armed {
        return;
      }
      var o := Flush();
      match o
      case Again =>
      case Fatal => Remove(true);
      case Took(_) =>
        if woff == wlen {
          woff, wlen, armed := 0, 0, false;
          ProcessBuffer();
        }
    }
  }
}
