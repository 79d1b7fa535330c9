/** One connection of src/networking.c as a state machine: any chunking of the input, any partial writes. */
module Connection {

  import opened Numbers
  import opened Bytes
  import opened Framing

  const RBUF: nat := MSG_MAX + HDR
  const WBUF: nat := 2 * (MSG_MAX + HDR)

  /** One call of `write`: so many bytes taken (or all, if fewer), none for now, or an error. */
  datatype Outcome = Took(n: nat) | Again | Fatal

  /** One call of `read`: the bytes at hand, end of stream, none for now, or an error. */
  datatype Incoming = Data(chunk: seq<byte>) | End | Unready | Failed

  /** What the outside does: the reply of the n-th command run and the outcome of the n-th write. */
  datatype World = World(reply: nat -> Payload, kernel: nat -> Outcome)

  ghost predicate Bounded(w: World) {
    forall i :: |w.reply(i)| <= MSG_MAX
  }

  /** What has happened on the connection. */
  datatype Past = Past(
    received: seq<byte>, consumed: seq<Payload>, executed: seq<Payload>,
    accepted: seq<Payload>, sent: seq<byte>,
    /** How often each consumed request ran, and how often the one at the front has run without success */
    tries: seq<nat>, attempts: nat,
    refusals: nat, broken: bool)

  /** `client_t`, with the write queue as the bytes not yet sent. */
  datatype Conn = Conn(
    active: bool, input: seq<byte>, queue: seq<byte>, armed: bool, served: nat, writes: nat, past: Past)

  const ACCEPTED: Conn :=
    Conn(true, [], [], false, 0, 0, Past([], [], [], [], [], [], 0, 0, false))

  /** `remove_client` */
  function Removed(c: Conn, broken: bool): (r: Conn) {
    c.(active := false, input := [], queue := [], armed := false, past := c.past.(broken := c.past.broken || broken))
  }

  datatype Queued = Queued(conn: Conn, ok: bool)

  /** The kernel takes the first `k` bytes of the queue. */
  function Sent(c: Conn, k: nat): (r: Conn)
    requires k <= |c.queue|
  {
    c.(queue := c.queue[k..], past := c.past.(sent := c.past.sent + c.queue[..k]))
  }

  /** `queue_write` */
  function Queue(c: Conn, w: World, data: seq<byte>): (r: Queued)
    ensures r.ok ==> r.conn.input == c.input && r.conn.active == c.active
    ensures r.conn.past.received == c.past.received && r.conn.past.consumed == c.past.consumed
    ensures r.conn.past.refusals == c.past.refusals
  {
    if |c.queue| + |data| > WBUF then Queued(c, false)
    else
      var filled := c.(queue := c.queue + data);
      if c.queue != [] then Queued(filled.(armed := true), true) else Direct(filled, w)
  }

  /** Its fast path: a write at once; what is left waits for the event loop. */
  function Direct(c: Conn, w: World): (r: Queued)
    ensures r.ok ==> r.conn.input == c.input && r.conn.active == c.active
    ensures r.conn.past.received == c.past.received && r.conn.past.consumed == c.past.consumed
    ensures r.conn.past.refusals == c.past.refusals
  {
    var called := c.(writes := c.writes + 1);
    match w.kernel(c.writes)
    case Fatal => Queued(Removed(called, true), false)
    case Again => Queued(called.(armed := true), true)
    case Took(n) =>
      var s := Sent(called, Min(n, |c.queue|));
      Queued(if s.queue == [] then s else s.(armed := true), true)
  }

  /** `send_framed` */
  function Send(c: Conn, w: World, p: Payload): (r: Queued)
    ensures r.ok ==> r.conn.input == c.input && r.conn.active == c.active
    ensures r.conn.past.received == c.past.received && r.conn.past.consumed == c.past.consumed
    ensures r.conn.past.refusals == c.past.refusals
  {
    var q := Queue(c, w, Frame(p));
    if q.ok then Queued(q.conn.(past := q.conn.past.(accepted := q.conn.past.accepted + [p])), true) else q
  }

  /** The command at the front runs. */
  function Executed(c: Conn): (r: Conn)
    requires HasFrame(c.input)
  {
    c.(served := c.served + 1, past := c.past.(executed := c.past.executed + [Head(c.input)]))
  }

  /** Its reply was accepted: the frame leaves the buffer. */
  function Consumed(c: Conn): (r: Conn)
    requires HasFrame(c.input)
  {
    c.(input := Tail(c.input), past := c.past.(
      consumed := c.past.consumed + [Head(c.input)], tries := c.past.tries + [c.past.attempts + 1], attempts := 0))
  }

  /** Its reply was refused: the frame stays. */
  function Refused(c: Conn): (r: Conn) {
    if c.active then c.(past := c.past.(attempts := c.past.attempts + 1, refusals := c.past.refusals + 1)) else c
  }

  /** `process_buffer` */
  function Process(c: Conn, w: World): (r: Conn)
    decreases |c.input|
  {
    if Oversized(c.input) then Removed(c, false)
    else if !HasFrame(c.input) then c
    else
      var s := Send(Executed(c), w, w.reply(c.served));
      if s.ok then Process(Consumed(s.conn), w) else Refused(s.conn)
  }

  /** `on_read`: a zero-length read, for want of bytes or of room, closes the connection. */
  function Read(c: Conn, w: World, incoming: Incoming): (r: Conn)
    requires |c.input| <= RBUF
  {
    if !c.active then c
    else
      match incoming
      case End => Removed(c, false)
      case Unready => c
      case Failed => Removed(c, true)
      case Data(chunk) =>
        var n := Min(|chunk|, RBUF - |c.input|);
        if n == 0 then Removed(c, false)
        else Process(Filled(c, chunk[..n]), w)
  }

  function Filled(c: Conn, chunk: seq<byte>): (r: Conn) {
    c.(input := c.input + chunk, past := c.past.(received := c.past.received + chunk))
  }

  /** `on_write`, called while the write handler is registered */
  function Write(c: Conn, w: World): (r: Conn) {
    if !c.armed then c
    else
      var called := c.(writes := c.writes + 1);
      match w.kernel(c.writes)
      case Again => called
      case Fatal => Removed(called, true)
      case Took(n) =>
        var s := Sent(called, Min(n, |c.queue|));
        if s.queue == [] then Process(s.(armed := false), w) else s
  }

  // ----- What every event keeps

  function Copies(p: Payload, n: nat): (ps: seq<Payload>) {
    seq(n, _ => p)
  }

  /** Each request as often as it was tried. */
  function Repeated(ps: seq<Payload>, tries: seq<nat>): (r: seq<Payload>)
    requires |ps| == |tries|
  {
    if ps == [] then []
    else
      var n := |ps| - 1;
      Repeated(ps[..n], tries[..n]) + Copies(ps[n], tries[n])
  }

  function Sum(tries: seq<nat>): (n: nat) {
    if tries == [] then 0 else Sum(tries[..|tries| - 1]) + tries[|tries| - 1]
  }

  /** The reply of each request's last run. */
  function Answers(w: World, tries: seq<nat>): (ps: seq<Payload>)
    requires Tried(tries)
  {
    if tries == [] then [] else Answers(w, tries[..|tries| - 1]) + [w.reply(Sum(tries) - 1)]
  }

  predicate Tried(tries: seq<nat>) {
    forall i :: 0 <= i < |tries| ==> 1 <= tries[i]
  }

  /** The runs so far are those of the consumed requests, then of the one at the front. */
  predicate Runs(c: Conn) {
    var p := c.past;
    && |p.tries| == |p.consumed| && Tried(p.tries)
    && (p.attempts > 0 ==> HasFrame(c.input))
    && p.executed == Repeated(p.consumed, p.tries)
                     + (if p.attempts > 0 then Copies(Head(c.input), p.attempts) else [])
    && c.served == |p.executed| == Sum(p.tries) + p.attempts == |p.consumed| + p.refusals
  }

  /** Conservation in both directions. */
  predicate Books(c: Conn, w: World) {
    var p := c.past;
    && Runs(c) && c.active && !p.broken && |c.input| <= RBUF && |c.queue| <= WBUF
    && p.received == Joined(p.consumed) + c.input
    && (forall q :: q in p.consumed ==> |q| <= MSG_MAX)
    && p.sent + c.queue == Joined(p.accepted)
    && p.accepted == Answers(w, p.tries)
    && (c.armed <==> c.queue != [])
  }

  /** Between events no request waits, except one whose reply the queue has no room for. */
  predicate Settled(c: Conn) {
    && !Oversized(c.input)
    && (HasFrame(c.input) <==> c.past.attempts > 0)
    && (HasFrame(c.input) ==> c.queue != [])
  }

  predicate Closed(c: Conn) {
    var p := c.past;
    && c.input == [] && c.queue == [] && !c.armed && !c.active
    && p.consumed <= Frames(p.received)
    && p.sent <= Joined(p.accepted)
    && |p.accepted| == |p.consumed|
    && (!p.broken && p.refusals == 0 ==> p.executed == p.consumed == Frames(p.received))
  }

  predicate Inv(c: Conn, w: World) {
    if c.active then Books(c, w) && Settled(c) else Closed(c)
  }

  lemma {:induction false} OnceEach(ps: seq<Payload>, tries: seq<nat>)
    requires |ps| == |tries| && Tried(tries)
    ensures |Repeated(ps, tries)| == Sum(tries) >= |ps|
    ensures Sum(tries) == |ps| <==> Repeated(ps, tries) == ps
  {
    if ps != [] {
      var n := |ps| - 1;
      OnceEach(ps[..n], tries[..n]);
      assert ps == ps[..n] + [ps[n]];
      if Sum(tries) == |ps| {
        assert tries[n] == 1;
        assert Copies(ps[n], 1) == [ps[n]];
      }
    }
  }

  lemma AnswersLength(w: World, tries: seq<nat>)
    requires Tried(tries)
    ensures |Answers(w, tries)| == |tries|
  {}

  /** With no refusal each request ran once. */
  lemma ExactlyOnceIff(c: Conn)
    requires Runs(c)
    ensures c.past.executed == c.past.consumed <==> c.past.refusals == 0
  {
    hide HasFrame;
    var p := c.past;
    OnceEach(p.consumed, p.tries);
  }

  /** The frames of everything received: those consumed, then those still in the buffer. */
  lemma FramesReceived(c: Conn, w: World)
    requires Books(c, w)
    ensures Frames(c.past.received) == c.past.consumed + Frames(c.input)
  {
    hide HasFrame, Joined, Runs, Answers;
    FramesOfJoined(c.past.consumed, c.input);
  }

  lemma RemovedIsClosed(c: Conn, w: World, broken: bool)
    requires Books(c, w) && (broken || !HasFrame(c.input) || c.past.refusals > 0)
    ensures Closed(Removed(c, broken))
  {
    hide HasFrame, Joined, Runs;
    FramesReceived(c, w);
    RunsLengths(c);
    AnswersLength(w, c.past.tries);
    if c.past.refusals == 0 {
      ExactlyOnceIff(c);
    }
  }

  lemma RunsLengths(c: Conn)
    requires Runs(c)
    ensures |c.past.tries| == |c.past.consumed| && Tried(c.past.tries)
  {}

  // ----- Sending

  /** The outgoing half of the books. */
  predicate Outgoing(c: Conn) {
    && c.active && |c.queue| <= WBUF && (c.armed <==> c.queue != [])
    && c.past.sent + c.queue == Joined(c.past.accepted)
  }

  /** A reply is accepted whole and in order, refused for want of room only, or its write breaks the
      connection; an empty queue never refuses. */
  lemma SendKeeps(c: Conn, w: World, p: Payload)
    requires Outgoing(c) && |p| <= MSG_MAX
    ensures var s := Send(c, w, p);
            && (s.ok ==>
                  && Outgoing(s.conn) && s.conn.past.accepted == c.past.accepted + [p]
                  && s.conn == c.(queue := s.conn.queue, armed := s.conn.armed, writes := s.conn.writes,
                                  past := c.past.(sent := s.conn.past.sent, accepted := s.conn.past.accepted)))
            && (!s.ok && s.conn.active <==> |c.queue| + HDR + |p| > WBUF)
            && (!s.ok && s.conn.active ==> s.conn == c && c.queue != [])
            && (!s.ok && !s.conn.active ==> s.conn == Removed(c.(writes := c.writes + 1), true))
  {
    hide Frame, Queue;
    var ps := c.past.accepted;
    assert (ps + [p])[..|ps|] == ps;
    QueueKeeps(c, w, Frame(p));
  }

  /** The same for the bytes of any message shorter than the queue. */
  lemma QueueKeeps(c: Conn, w: World, data: seq<byte>)
    requires c.active && |c.queue| <= WBUF && (c.armed <==> c.queue != []) && 0 < |data| <= RBUF
    ensures var s := Queue(c, w, data);
            && (s.ok ==>
                  && |s.conn.queue| <= WBUF && (s.conn.armed <==> s.conn.queue != [])
                  && s.conn.past.sent + s.conn.queue == c.past.sent + c.queue + data
                  && s.conn == c.(queue := s.conn.queue, armed := s.conn.armed, writes := s.conn.writes,
                                  past := c.past.(sent := s.conn.past.sent)))
            && (!s.ok && s.conn.active <==> |c.queue| + |data| > WBUF)
            && (!s.ok && s.conn.active ==> s.conn == c && c.queue != [])
            && (!s.ok && !s.conn.active ==> s.conn == Removed(c.(writes := c.writes + 1), true))
  {
    hide Direct;
    assert c.past.sent + (c.queue + data) == c.past.sent + c.queue + data;
    if c.queue == [] {
      DirectKeeps(c.(queue := c.queue + data), w);
    }
  }

  lemma DirectKeeps(c: Conn, w: World)
    requires c.active && !c.armed && c.queue != []
    ensures var s := Direct(c, w);
            && (s.ok ==>
                  && |s.conn.queue| <= |c.queue| && (s.conn.armed <==> s.conn.queue != [])
                  && s.conn.past.sent + s.conn.queue == c.past.sent + c.queue
                  && s.conn == c.(queue := s.conn.queue, armed := s.conn.armed, writes := s.conn.writes,
                                  past := c.past.(sent := s.conn.past.sent)))
            && (!s.ok ==> s.conn == Removed(c.(writes := c.writes + 1), true))
  {
    if w.kernel(c.writes).Took? {
      var k := Min(w.kernel(c.writes).n, |c.queue|);
      assert c.queue == c.queue[..k] + c.queue[k..];
    }
  }

  /** Taking bytes off the front of the queue. */
  lemma SentKeeps(c: Conn, k: nat)
    requires Outgoing(c) && k <= |c.queue|
    ensures Sent(c, k).past.sent + Sent(c, k).queue == Joined(c.past.accepted)
  {
    assert c.queue == c.queue[..k] + c.queue[k..];
  }

  // ----- Processing

  lemma RepeatedMore(ps: seq<Payload>, tries: seq<nat>, p: Payload, n: nat)
    requires |ps| == |tries|
    ensures Repeated(ps + [p], tries + [n]) == Repeated(ps, tries) + Copies(p, n)
    ensures Sum(tries + [n]) == Sum(tries) + n
  {
    assert (ps + [p])[..|ps|] == ps && (tries + [n])[..|ps|] == tries;
  }

  lemma AnswersMore(w: World, tries: seq<nat>, n: nat)
    requires Tried(tries) && 1 <= n
    ensures Tried(tries + [n]) && Answers(w, tries + [n]) == Answers(w, tries) + [w.reply(Sum(tries) + n - 1)]
  {
    hide Answers, Sum;
    var more := tries + [n];
    assert more != [] && more[..|more| - 1] == tries && more[|more| - 1] == n;
    AnswersLast(w, more);
  }

  lemma AnswersLast(w: World, tries: seq<nat>)
    requires Tried(tries) && tries != []
    ensures var front, n := tries[..|tries| - 1], tries[|tries| - 1];
            Sum(tries) == Sum(front) + n && Answers(w, tries) == Answers(w, front) + [w.reply(Sum(front) + n - 1)]
  {}

  /** Running the front request once more. */
  lemma ExecutedRuns(c: Conn)
    requires Runs(c) && HasFrame(c.input)
    ensures var e := Executed(c).past;
            && e.executed == Repeated(e.consumed, e.tries) + Copies(Head(c.input), e.attempts + 1)
            && |e.executed| == c.served + 1
  {
    hide HasFrame, Head;
    var p, n := Head(c.input), c.past.attempts;
    assert Copies(p, n + 1) == Copies(p, n) + [p];
  }

  lemma RefusedRuns(c: Conn)
    requires Runs(c) && HasFrame(c.input) && c.active
    ensures Runs(Refused(Executed(c)))
  {
    hide HasFrame, Head, Tried, Repeated, Sum;
    ExecutedRuns(c);
  }

  lemma ConsumedRuns(c: Conn, d: Conn)
    requires Runs(c) && HasFrame(c.input)
    requires d.input == c.input && d.served == c.served + 1
    requires d.past == Executed(c).past.(sent := d.past.sent, accepted := d.past.accepted)
    ensures Runs(Consumed(d))
  {
    hide HasFrame, Head, Tail, Repeated, Sum;
    ExecutedRuns(c);
    RepeatedMore(c.past.consumed, c.past.tries, Head(c.input), c.past.attempts + 1);
  }

  lemma ConsumedStream(c: Conn)
    requires HasFrame(c.input) && c.past.received == Joined(c.past.consumed) + c.input
    ensures c.past.received == Joined(c.past.consumed + [Head(c.input)]) + Tail(c.input)
  {
    hide HasFrame, Head, Tail, Frame;
    HeadIsFrame(c.input);
    var ps := c.past.consumed;
    assert (ps + [Head(c.input)])[..|ps|] == ps;
  }

  lemma {:induction false} ProcessKeeps(c: Conn, w: World)
    requires Books(c, w) && Bounded(w) && (HasFrame(c.input) || c.past.attempts == 0)
    ensures Inv(Process(c, w), w)
    decreases |c.input|
  {
    hide Runs, Joined, Answers, Head, Tail, Send, Frames, HasFrame, Oversized, Closed;
    if Oversized(c.input) {
      NotBoth(c.input);
      RemovedIsClosed(c, w, false);
    } else if HasFrame(c.input) {
      var e := Executed(c);
      var s := Send(e, w, w.reply(c.served));
      SendKeeps(e, w, w.reply(c.served));
      if s.ok {
        AcceptedBooks(c, w);
        ProcessKeeps(Consumed(s.conn), w);
      } else if s.conn.active {
        RefusedRuns(c);
        NotBoth(c.input);
      } else {
        BrokenIsClosed(c, w);
      }
    }
  }

  lemma NotBoth(s: seq<byte>)
    ensures !(Oversized(s) && HasFrame(s))
  {}

  /** The fatal write: the frame ran, its reply is lost with the connection. */
  lemma BrokenIsClosed(c: Conn, w: World)
    requires Books(c, w) && HasFrame(c.input)
    ensures Closed(Removed(Executed(c).(writes := c.writes + 1), true))
  {
    hide HasFrame, Joined, Runs, Frames, Head;
    FramesReceived(c, w);
    RunsLengths(c);
    AnswersLength(w, c.past.tries);
  }

  lemma AcceptedBooks(c: Conn, w: World)
    requires Books(c, w) && Bounded(w) && HasFrame(c.input)
    requires Send(Executed(c), w, w.reply(c.served)).ok
    ensures Books(Consumed(Send(Executed(c), w, w.reply(c.served)).conn), w)
    ensures Consumed(Send(Executed(c), w, w.reply(c.served)).conn).past.attempts == 0
  {
    hide Runs, Joined, Answers, Head, Tail, Send, Frames, HasFrame, Oversized;
    var e := Executed(c);
    var s := Send(e, w, w.reply(c.served)).conn;
    SendKeeps(e, w, w.reply(c.served));
    ConsumedRuns(c, s);
    ConsumedStream(c);
    RunsLengths(c);
    ServedCount(c);
    AnswersMore(w, c.past.tries, c.past.attempts + 1);
  }

  lemma ServedCount(c: Conn)
    requires Runs(c)
    ensures c.served == Sum(c.past.tries) + c.past.attempts
  {}

  // ----- Events and runs

  datatype Event = Readable(incoming: Incoming) | Writable

  lemma ReadKeeps(c: Conn, w: World, incoming: Incoming)
    requires Inv(c, w) && Bounded(w) && |c.input| <= RBUF
    ensures Inv(Read(c, w, incoming), w)
  {
    hide Runs, Joined, Answers, Head, Tail, Frames, HasFrame, Oversized, Closed, Process;
    if c.active {
      RefusalsAtFront(c);
      match incoming
      case Unready =>
      case End => RemovedIsClosed(c, w, false);
      case Failed => RemovedIsClosed(c, w, true);
      case Data(chunk) =>
        var n := Min(|chunk|, RBUF - |c.input|);
        if n == 0 {
          RemovedIsClosed(c, w, false);
        } else {
          FilledKeeps(c, w, chunk[..n]);
          ProcessKeeps(Filled(c, chunk[..n]), w);
        }
    }
  }

  lemma FilledKeeps(c: Conn, w: World, chunk: seq<byte>)
    requires Books(c, w) && |c.input| + |chunk| <= RBUF
    ensures Books(Filled(c, chunk), w)
    ensures HasFrame(c.input) ==> HasFrame(Filled(c, chunk).input)
  {
    hide Joined, Answers, Frames, HasFrame, Oversized, Head, Tail;
    if HasFrame(c.input) {
      HeadStays(c.input, chunk);
    }
    assert Joined(c.past.consumed) + (c.input + chunk) == Joined(c.past.consumed) + c.input + chunk;
  }

  lemma RefusalsAtFront(c: Conn)
    requires Runs(c)
    ensures c.past.attempts > 0 ==> c.past.refusals > 0
  {
    hide HasFrame, Head;
    OnceEach(c.past.consumed, c.past.tries);
  }

  lemma WriteKeeps(c: Conn, w: World)
    requires Inv(c, w) && Bounded(w)
    ensures Inv(Write(c, w), w)
  {
    hide Joined, Answers, Head, Tail, Frames, HasFrame, Oversized, Process, Tried, Repeated, Sum;
    if c.armed {
      var called := c.(writes := c.writes + 1);
      match w.kernel(c.writes)
      case Again =>
      case Fatal => RemovedIsClosed(called, w, true);
      case Took(n) =>
        var k := Min(n, |c.queue|);
        var s := Sent(called, k);
        SentKeeps(called, k);
        if s.queue == [] {
          ProcessKeeps(s.(armed := false), w);
        }
    }
  }

  function Step(c: Conn, w: World, e: Event): (r: Conn)
    requires |c.input| <= RBUF
  {
    match e
    case Readable(incoming) => Read(c, w, incoming)
    case Writable => Write(c, w)
  }

  /** The connection after any events since it was accepted. */
  ghost function Run(w: World, es: seq<Event>): (c: Conn)
    requires Bounded(w)
    ensures Inv(c, w) && |c.input| <= RBUF
  {
    if es == [] then
      AcceptedKeeps(w);
      ACCEPTED
    else
      var n := |es| - 1;
      var c := Run(w, es[..n]);
      StepKeeps(c, w, es[n]);
      Step(c, w, es[n])
  }

  lemma AcceptedKeeps(w: World)
    ensures Inv(ACCEPTED, w)
  {
    hide Inv;
    FreshKeeps(ACCEPTED, w);
  }

  lemma FreshKeeps(c: Conn, w: World)
    requires c.active && c.input == [] && c.queue == [] && !c.armed && c.served == 0 && FreshPast(c.past)
    ensures Inv(c, w)
  {
    hide Closed, HasFrame, Oversized, Head, Repeated, Sum, Answers, Joined;
    NoInput();
    NothingYet(w);
    assert Runs(c);
  }

  predicate FreshPast(p: Past) {
    && p.received == [] && p.consumed == [] && p.executed == [] && p.accepted == [] && p.sent == []
    && p.tries == [] && p.attempts == 0 && p.refusals == 0 && !p.broken
  }

  lemma NoInput()
    ensures !HasFrame([]) && !Oversized([])
  {}

  lemma NothingYet(w: World)
    ensures Repeated([], []) == [] && Sum([]) == 0 && Answers(w, []) == [] && Joined([]) == []
  {}

  lemma StepKeeps(c: Conn, w: World, e: Event)
    requires Inv(c, w) && Bounded(w) && |c.input| <= RBUF
    ensures Inv(Step(c, w, e), w) && |Step(c, w, e).input| <= RBUF
  {
    hide Closed, Runs, Read, Write;
    match e
    case Readable(incoming) =>
      ReadKeeps(c, w, incoming);
      InputFits(Read(c, w, incoming), w);
    case Writable =>
      WriteKeeps(c, w);
      InputFits(Write(c, w), w);
  }

  lemma InputFits(c: Conn, w: World)
    requires Inv(c, w)
    ensures |c.input| <= RBUF
  {}

  // ----- Main results

  /** Framing is independent of chunking: with no reply refused and no error, the commands run are exactly
      the complete frames of the whole stream up to the first oversized one, each once; and while the
      connection is open there is room to read. */
  lemma RunsExactlyTheFrames(w: World, es: seq<Event>)
    requires Bounded(w)
    ensures var c := Run(w, es);
            && (!c.past.broken && c.past.refusals == 0 ==> c.past.executed == Frames(c.past.received))
            && (c.active && c.past.refusals == 0 ==> |c.input| < RBUF)
  {
    hide Closed, Runs, Joined, Answers, Head, Tail, Frames, Step;
    var c := Run(w, es);
    if c.past.refusals == 0 {
      if c.active {
        RefusalsAtFront(c);
        FramesReceived(c, w);
        ExactlyOnceIff(c);
        NoFrames(c.input);
      } else if !c.past.broken {
        ClosedRuns(c);
      }
    }
  }

  lemma NoFrames(s: seq<byte>)
    requires !HasFrame(s)
    ensures Frames(s) == []
  {}

  lemma ClosedRuns(c: Conn)
    requires Closed(c) && !c.past.broken && c.past.refusals == 0
    ensures c.past.executed == Frames(c.past.received)
  {}

  /** Two servers that got the same bytes, however split, ran the same commands. */
  lemma SameBytesSameCommands(w: World, es: seq<Event>, w': World, es': seq<Event>)
    requires Bounded(w) && Bounded(w') && Run(w, es).past.received == Run(w', es').past.received
    requires !Run(w, es).past.broken && Run(w, es).past.refusals == 0
    requires !Run(w', es').past.broken && Run(w', es').past.refusals == 0
    ensures Run(w, es).past.executed == Run(w', es').past.executed
  {
    RunsExactlyTheFrames(w, es);
    RunsExactlyTheFrames(w', es');
  }

  /** Execution is exactly once if and only if no reply was refused; otherwise each request ran as often
      as it was tried. Every consumed request has exactly one accepted reply, that of its last run. */
  lemma RunsAndReplies(w: World, es: seq<Event>)
    requires Bounded(w) && Run(w, es).active
    ensures var c, p := Run(w, es), Run(w, es).past;
            && Runs(c) && |p.executed| == |p.consumed| + p.refusals
            && (p.executed == p.consumed <==> p.refusals == 0)
            && p.accepted == Answers(w, p.tries) && |p.accepted| == |p.consumed|
  {
    hide Closed, Joined, Head, Tail, Frames, Step, HasFrame, Oversized;
    var c := Run(w, es);
    ExactlyOnceIff(c);
    AnswersLength(w, c.past.tries);
  }

  /** Conservation: no byte received or accepted is lost, duplicated or reordered. */
  lemma BytesConserved(w: World, es: seq<Event>)
    requires Bounded(w)
    ensures var c, p := Run(w, es), Run(w, es).past;
            if c.active then
              && p.sent + c.queue == Joined(p.accepted) && p.received == Joined(p.consumed) + c.input
              && (c.armed <==> c.queue != [])
              && (HasFrame(c.input) ==> c.armed)
            else
              p.sent <= Joined(p.accepted) && p.consumed <= Frames(p.received)
  {
    hide Runs, Joined, Head, Tail, Frames, Step, HasFrame, Oversized;
  }

  lemma {:induction false} ProcessHistory(c: Conn, w: World)
    ensures var r := Process(c, w);
            r.past.received == c.past.received && c.past.consumed <= r.past.consumed
    decreases |c.input|
  {
    hide Head, Tail, HasFrame, Oversized, Send;
    if !Oversized(c.input) && HasFrame(c.input) {
      var s := Send(Executed(c), w, w.reply(c.served));
      if s.ok {
        ProcessHistory(Consumed(s.conn), w);
      }
    }
  }

  /** A peer that has sent bytes is taken to have closed if and only if the read buffer is full, which
      happens only while a refused request waits at its front. */
  lemma ZeroReadIffFull(c: Conn, w: World, chunk: seq<byte>)
    requires Inv(c, w) && c.active && chunk != []
    ensures var r := Read(c, w, Data(chunk));
            && (r.past.received == c.past.received <==> |c.input| == RBUF)
            && (|c.input| == RBUF ==> !r.active && !r.past.broken && c.past.attempts > 0 && c.past.refusals > 0)
  {
    hide Runs, Joined, Answers, Head, Tail, Frames, Process, Closed;
    RefusalsAtFront(c);
    if |c.input| < RBUF {
      var n := Min(|chunk|, RBUF - |c.input|);
      ProcessHistory(Filled(c, chunk[..n]), w);
    }
  }

  /** Once the queue drains, the waiting request is served unless its write breaks the connection. */
  lemma DrainServesRetry(c: Conn, w: World)
    requires Inv(c, w) && Bounded(w) && c.active && HasFrame(c.input)
    requires w.kernel(c.writes).Took? && w.kernel(c.writes).n >= |c.queue|
    ensures var r := Write(c, w);
            r.past.broken || c.past.consumed + [Head(c.input)] <= r.past.consumed
  {
    hide Runs, Joined, Answers, Head, Tail, Frames, HasFrame, Oversized, Closed, Send;
    var d := Sent(c.(writes := c.writes + 1), |c.queue|).(armed := false);
    SentKeeps(c.(writes := c.writes + 1), |c.queue|);
    var s := Send(Executed(d), w, w.reply(d.served));
    SendKeeps(Executed(d), w, w.reply(d.served));
    NotBoth(c.input);
    if s.ok {
      ProcessHistory(Consumed(s.conn), w);
    }
  }

  // ----- A busy peer

  /** A kernel that takes nothing and replies of full size. */
  const STALLED: World := World(_ => seq(MSG_MAX, _ => 0), _ => Again)

  lemma StalledReplies()
    ensures Bounded(STALLED) && forall i: nat :: |STALLED.reply(i)| == MSG_MAX && STALLED.kernel(i) == Again
  {}

  /** One request and its reply, with room for it. */
  lemma QueuesUp(c: Conn, p: Payload)
    requires c.active && c.input == [] && |c.queue| + RBUF <= WBUF && |p| <= MSG_MAX
    ensures var r := Read(c, STALLED, Data(Frame(p)));
            && r.active && r.input == [] && |r.queue| == |c.queue| + RBUF
            && r.past.consumed == c.past.consumed + [p] && r.past.executed == c.past.executed + [p]
            && r.past.broken == c.past.broken
  {
    hide Frame, Oversized, HasFrame, Head, Tail, Announced;
    StalledReplies();
    FrameIsHead(p, []);
    NotBoth(Frame(p));
    NoInput();
    assert Frame(p) + [] == Frame(p) && [] + Frame(p) == Frame(p);
    var f := Filled(c, Frame(p));
    assert Frame(p)[..|Frame(p)|] == Frame(p);
    assert Read(c, STALLED, Data(Frame(p))) == Process(f, STALLED);
    var s := Send(Executed(f), STALLED, STALLED.reply(f.served));
    assert s.ok && |s.conn.queue| == |c.queue| + RBUF;
    assert Process(Consumed(s.conn), STALLED) == Consumed(s.conn);
  }

  /** A request whose reply finds the queue full. */
  lemma TurnedAway(c: Conn, chunk: seq<byte>)
    requires c.active && |c.queue| == WBUF && chunk != [] && |c.input| + |chunk| <= RBUF && HasFrame(c.input + chunk)
    ensures Read(c, STALLED, Data(chunk)) == Refused(Executed(Filled(c, chunk)))
  {
    hide Frame, Oversized, HasFrame, Head, Tail, Announced;
    StalledReplies();
    NotBoth(c.input + chunk);
    assert chunk[..|chunk|] == chunk;
  }

  /** Three requests and part of a fourth, from a peer that does not read its replies: the third request runs
      twice, and the next bytes find the connection closed although nobody closed it. */
  lemma BusyPeerIsDropped(p: Payload, filler: seq<byte>, more: seq<byte>)
    requires |p| <= MSG_MAX && |filler| == MSG_MAX - |p| > 0 && more != []
    ensures Bounded(STALLED)
    ensures var c := Run(STALLED, BusyPeer(p, filler));
            c.active && c.past.executed == [p, p, p, p] && c.past.consumed == [p, p] && |c.input| == RBUF
    ensures var d := Run(STALLED, BusyPeer(p, filler) + [Readable(Data(more))]);
            !d.active && !d.past.broken
  {
    hide Frame, Oversized, HasFrame, Head, Tail, Announced, Read, Inv;
    StalledReplies();
    var r, es := Readable(Data(Frame(p))), BusyPeer(p, filler);
    assert es[..3] == [r, r, r] && [r, r, r][..2] == [r, r] && [r, r][..1] == [r] && [r][..0] == [];
    var c1 := Read(ACCEPTED, STALLED, Data(Frame(p)));
    assert Run(STALLED, [r]) == c1;
    QueuesUp(ACCEPTED, p);
    var c2 := Read(c1, STALLED, Data(Frame(p)));
    assert Run(STALLED, [r, r]) == c2;
    QueuesUp(c1, p);
    FrameIsHead(p, []);
    FrameIsHead(p, filler);
    assert Frame(p) + [] == Frame(p) && [] + Frame(p) == Frame(p);
    var c3 := Read(c2, STALLED, Data(Frame(p)));
    assert Run(STALLED, [r, r, r]) == c3;
    TurnedAway(c2, Frame(p));
    var c4 := Read(c3, STALLED, Data(filler));
    assert Run(STALLED, es) == c4;
    TurnedAway(c3, filler);
    assert (es + [Readable(Data(more))])[..4] == es;
    assert Run(STALLED, es + [Readable(Data(more))]) == Read(c4, STALLED, Data(more));
    FullIsClosed(c4, STALLED, more);
  }

  lemma FullIsClosed(c: Conn, w: World, chunk: seq<byte>)
    requires c.active && |c.input| == RBUF
    ensures Read(c, w, Data(chunk)) == Removed(c, false)
  {}

  function BusyPeer(p: Payload, filler: seq<byte>): (es: seq<Event>) {
    var r := Readable(Data(Frame(p)));
    [r, r, r, Readable(Data(filler))]
  }
}
