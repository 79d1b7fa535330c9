/** Exactly when a connection closes, and what each event does to one that stays open. */
module Closing {

  import opened Numbers
  import opened Bytes
  import opened Framing
  import opened Connection

  // ----- Reasons

  /** Between `c` and `d` the kernel was called, and its last answer was an error. */
  predicate FatalCall(c: Conn, d: Conn, w: World) {
    c.writes < d.writes && w.kernel(d.writes - 1).Fatal?
  }

  /** All complete frames of the stream have been consumed, and what follows announces too much. */
  predicate OversizedReached(d: Conn) {
    d.past.consumed == Frames(d.past.received) && Oversized(Rest(d.past.received))
  }

  /** The event by itself ends the connection: the peer is gone, the read fails, or it has no room. */
  predicate EndsHere(c: Conn, e: Event) {
    e.Readable? && match e.incoming
                   case End => true
                   case Failed => true
                   case Unready => false
                   case Data(chunk) => chunk == [] || |c.input| == RBUF
  }

  // ----- Processing

  lemma OneSend(c: Conn, w: World, p: Payload)
    requires c.active && !c.past.broken
    ensures var s := Send(c, w, p).conn;
            && c.writes <= s.writes <= c.writes + 1
            && (!s.active <==> FatalCall(c, s, w)) && (s.past.broken <==> FatalCall(c, s, w))
  {
    hide Frame;
  }

  lemma FatalOn(c: Conn, m: Conn, d: Conn, w: World)
    requires c.writes <= m.writes <= d.writes && !FatalCall(c, m, w)
    ensures FatalCall(c, d, w) <==> FatalCall(m, d, w)
  {}

  /** An oversized frame at the front of the buffer is an oversized frame reached in the stream. */
  lemma FrontOversized(c: Conn, w: World)
    requires Books(c, w)
    ensures HasFrame(c.input) ==> c.past.consumed != Frames(c.past.received)
    ensures !HasFrame(c.input) ==>
              c.past.consumed == Frames(c.past.received) && Rest(c.past.received) == c.input
  {
    hide Joined, Runs, Answers, Head, Tail, HasFrame, Oversized;
    FramesOfJoined(c.past.consumed, c.input);
  }

  /** Processing closes a connection exactly on a fatal write or an oversized frame, and breaks it exactly on
      a fatal write. */
  lemma {:induction false} ProcessCloses(c: Conn, w: World)
    requires Books(c, w) && Bounded(w) && (HasFrame(c.input) || c.past.attempts == 0)
    ensures var d := Process(c, w);
            && c.writes <= d.writes && d.past.received == c.past.received
            && (!d.active <==> FatalCall(c, d, w) || OversizedReached(d))
            && (d.past.broken <==> FatalCall(c, d, w))
    decreases |c.input|
  {
    hide Runs, Joined, Answers, Head, Tail, Send, Frames, Rest, HasFrame, Oversized, Closed;
    FrontOversized(c, w);
    if Oversized(c.input) {
      NotBoth(c.input);
    } else if HasFrame(c.input) {
      var e := Executed(c);
      var s := Send(e, w, w.reply(c.served));
      SendKeeps(e, w, w.reply(c.served));
      OneSend(e, w, w.reply(c.served));
      if s.ok {
        AcceptedBooks(c, w);
        var m := Consumed(s.conn);
        ProcessCloses(m, w);
        FatalOn(c, m, Process(m, w), w);
      }
    }
  }

  // ----- Events

  lemma RunMore(w: World, es: seq<Event>, e: Event)
    requires Bounded(w)
    ensures Run(w, es + [e]) == Step(Run(w, es), w, e)
  {
    hide Inv, Step;
    assert (es + [e])[..|es|] == es;
  }

  lemma ReadCloses(c: Conn, w: World, incoming: Incoming)
    requires Inv(c, w) && Bounded(w) && c.active && |c.input| <= RBUF
    ensures var d := Read(c, w, incoming);
            && c.writes <= d.writes
            && (!d.active <==> EndsHere(c, Readable(incoming)) || FatalCall(c, d, w) || OversizedReached(d))
            && (d.past.broken <==> incoming == Failed || FatalCall(c, d, w))
  {
    hide Runs, Joined, Answers, Head, Tail, Frames, Rest, HasFrame, Oversized, Closed, Process;
    FrontOversized(c, w);
    if incoming.Data? {
      var n := Min(|incoming.chunk|, RBUF - |c.input|);
      if n != 0 {
        var f := Filled(c, incoming.chunk[..n]);
        FilledKeeps(c, w, incoming.chunk[..n]);
        ProcessCloses(f, w);
        FatalOn(c, f, Process(f, w), w);
      }
    }
  }

  lemma WriteCloses(c: Conn, w: World)
    requires Inv(c, w) && Bounded(w) && c.active
    ensures var d := Write(c, w);
            && c.writes <= d.writes
            && (!d.active <==> FatalCall(c, d, w) || OversizedReached(d))
            && (d.past.broken <==> FatalCall(c, d, w))
  {
    hide Joined, Answers, Head, Tail, Frames, Rest, HasFrame, Oversized, Process, Tried, Repeated, Sum;
    FrontOversized(c, w);
    if c.armed && w.kernel(c.writes).Took? {
      var called := c.(writes := c.writes + 1);
      var k := Min(w.kernel(c.writes).n, |c.queue|);
      var s := Sent(called, k);
      SentKeeps(called, k);
      if s.queue == [] {
        var f := s.(armed := false);
        ProcessCloses(f, w);
        FatalOn(c, f, Process(f, w), w);
      }
    }
  }

  /** Exactly when a connection closes: over every run, an open connection is closed by the next event if and
      only if the event is an end of stream, a read error or a read without room, or a write during it is
      fatal, or it brings processing to an oversized frame. It is broken if and only if the read fails or a
      write is fatal. */
  lemma ClosesIff(w: World, es: seq<Event>, e: Event)
    requires Bounded(w) && Run(w, es).active
    ensures var c, d := Run(w, es), Run(w, es + [e]);
            && (!d.active <==> EndsHere(c, e) || FatalCall(c, d, w) || OversizedReached(d))
            && (d.past.broken <==> e == Readable(Failed) || FatalCall(c, d, w))
  {
    hide Read, Write, Inv, Run;
    RunMore(w, es, e);
    var c := Run(w, es);
    if e.Readable? {
      ReadCloses(c, w, e.incoming);
    } else {
      WriteCloses(c, w);
    }
  }

  /** A closed connection stays as it is. */
  lemma ClosedStays(w: World, es: seq<Event>, e: Event)
    requires Bounded(w) && !Run(w, es).active
    ensures Run(w, es + [e]) == Run(w, es)
  {
    hide Process, Run, Inv, Closed;
    RunMore(w, es, e);
    ClosedUnarmed(Run(w, es), w);
  }

  lemma ClosedUnarmed(c: Conn, w: World)
    requires Inv(c, w) && !c.active
    ensures !c.armed
  {}

  /** A read with nothing to deliver changes nothing, and neither does a write event while the kernel takes
      nothing, but for the call itself. */
  lemma NothingHappens(w: World, es: seq<Event>)
    requires Bounded(w)
    ensures Run(w, es + [Readable(Unready)]) == Run(w, es)
    ensures var c := Run(w, es);
            w.kernel(c.writes).Again? ==>
              Run(w, es + [Writable]) == if c.armed then c.(writes := c.writes + 1) else c
  {
    hide Process, Run, Inv;
    RunMore(w, es, Readable(Unready));
    RunMore(w, es, Writable);
  }

  // ----- Progress of the bytes

  /** As much of the bytes at hand as there is room for. */
  function Taken(c: Conn, chunk: seq<byte>): (t: seq<byte>) {
    if |c.input| + |chunk| <= RBUF then chunk else if |c.input| <= RBUF then chunk[..RBUF - |c.input|] else []
  }

  /** What is read is all that was delivered, up to the room in the buffer. */
  lemma ReadTakesAll(w: World, es: seq<Event>, chunk: seq<byte>)
    requires Bounded(w) && Run(w, es).active
    ensures Run(w, es + [Readable(Data(chunk))]).past.received == Run(w, es).past.received + Taken(Run(w, es), chunk)
  {
    hide Process, Inv, Run;
    RunMore(w, es, Readable(Data(chunk)));
    var c := Run(w, es);
    var n := Min(|chunk|, RBUF - |c.input|);
    assert chunk[..n] == Taken(c, chunk);
    if n != 0 {
      ProcessHistory(Filled(c, chunk[..n]), w);
    }
  }

  /** Sending only ever adds to what was sent. */
  lemma {:induction false} ProcessSends(c: Conn, w: World)
    ensures c.past.sent <= Process(c, w).past.sent
    decreases |c.input|
  {
    hide Head, Tail, HasFrame, Oversized, Frame;
    if !Oversized(c.input) && HasFrame(c.input) {
      var s := Send(Executed(c), w, w.reply(c.served));
      if s.ok {
        ProcessSends(Consumed(s.conn), w);
      }
    }
  }

  /** What the kernel takes of the queue is sent: as much as it says, in order, from the front. */
  lemma WriteSendsTaken(w: World, es: seq<Event>)
    requires Bounded(w) && Run(w, es).armed && w.kernel(Run(w, es).writes).Took?
    ensures var c, d := Run(w, es), Run(w, es + [Writable]);
            var k := Min(w.kernel(c.writes).n, |c.queue|);
            && c.past.sent + c.queue[..k] <= d.past.sent
            && (k < |c.queue| ==> d.past.sent == c.past.sent + c.queue[..k] && d.queue == c.queue[k..])
  {
    hide Process, Inv, Run;
    RunMore(w, es, Writable);
    var c := Run(w, es);
    var s := Sent(c.(writes := c.writes + 1), Min(w.kernel(c.writes).n, |c.queue|));
    ProcessSends(s.(armed := false), w);
  }

  /** So is what it takes of a reply offered to it at once, because nothing was waiting before. */
  lemma ReplySentAtOnce(c: Conn, w: World, p: Payload)
    requires c.queue == [] && |p| <= MSG_MAX && w.kernel(c.writes).Took?
    ensures var s, k := Send(c, w, p), Min(w.kernel(c.writes).n, HDR + |p|);
            && s.ok && s.conn.past.sent == c.past.sent + Frame(p)[..k] && s.conn.queue == Frame(p)[k..]
            && (k == HDR + |p| ==> s.conn.armed == c.armed)
  {
    hide Frame;
    assert [] + Frame(p) == Frame(p);
  }
}
