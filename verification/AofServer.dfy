/** The server's rewrite fields and the code of src/aof.c that updates them, against the state machine. */
module AofServer {

  import opened Bytes
  import opened Store
  import opened Log
  import opened Codec
  import opened Aging
  import opened Rewrite
  import opened RewriteProofs
  import opened Recovery
  import opened Transfer
  import opened Serializer
  import opened Backoff

  /** How the system calls of one finalize turn out. */
  datatype Outcomes = Outcomes(open: bool, write: bool, put: nat, flush: bool, reopen: bool, rename: bool)

  /** `waitpid` without blocking */
  datatype WaitResult = StillRunning | WaitFailed | Finished

  predicate AllOk(o: Outcomes) {
    o.open && o.write && o.flush && o.reopen && o.rename
  }

  predicate ReadyToFinalize(s: State, o: Outcomes) {
    && s.phase == Opening && s.temp.Some? && s.temp.value in s.files && o.put <= |s.diff|
    && s.child.Some? && s.child.value.created.Some?
  }

  predicate TempOk(o: Outcomes) {
    o.open && o.write && o.flush
  }

  /** The first half of finalizing: the diff goes behind the snapshot and the file to the device. */
  function TempCompleted(s: State, o: Outcomes): (s': State)
    requires ReadyToFinalize(s, o)
  {
    if !o.open then s
    else if !o.write then WriteTemp(s, s.temp.value, s.diff[..o.put])
    else
      var s2 := WriteTemp(s, s.temp.value, s.diff);
      if o.flush then Flush(s2, s.temp.value) else s2
  }

  /** The second half: the new descriptor, the rename, the switch of descriptors. */
  function SwitchedOver(s: State, o: Outcomes): (s': State)
    requires ReadyToFinalize(s, o)
  {
    var i, c := s.temp.value, s.child.value;
    if !o.reopen then s
    else if !o.rename then s.(newFd := i)
    else SwitchName(s.(newFd := i), c, i, c.created.value).(fd := i, phase := Opening)
  }

  /** Both halves, up to the first system call that fails. */
  function Attempted(s: State, o: Outcomes): (s': State)
    requires ReadyToFinalize(s, o)
  {
    var s1 := TempCompleted(s, o);
    if TempOk(o) then SwitchedOver(s1, o) else s1
  }

  /** All of `aof_rewrite_finalize`. */
  function Finalized(s: State, o: Outcomes): (s': State)
    requires ReadyToFinalize(s, o)
  {
    if AllOk(o) then Cleanup(Attempted(s, o)) else Discard(Attempted(s, o))
  }

  lemma FinalizedOpens(cfg: Config, s: State, o: Outcomes) returns (s': State)
    requires Inv(cfg, s) && ReadyToFinalize(s, o) && cfg.startCap <= cfg.maxDiff
    ensures Inv(cfg, s') && (if o.open && o.write then s' == WriteTemp(s, s.temp.value, s.diff).(phase := Flushing)
                             else s' == Finalized(s, o))
  {
    hide Inv;
    StepKeeps(cfg, s, FinalOpen(o.open));
    s' := Step(cfg, s, FinalOpen(o.open));
    if o.open {
      StepKeeps(cfg, s', FinalWrite(o.write, o.put));
      s' := Step(cfg, s', FinalWrite(o.write, o.put));
    }
  }

  lemma FinalizedFlushes(cfg: Config, s: State, i: nat, flush: bool, reopen: bool) returns (s': State)
    requires Inv(cfg, s) && s.phase == Flushing && s.temp == Some(i) && i in s.files && cfg.startCap <= cfg.maxDiff
    ensures Inv(cfg, s')
    ensures s' == if !flush then Discard(s) else if !reopen then Discard(Flush(s, i))
                  else Flush(s, i).(newFd := i, phase := Renaming)
  {
    hide Inv;
    StepKeeps(cfg, s, FinalFlush(flush));
    s' := Step(cfg, s, FinalFlush(flush));
    if flush {
      StepKeeps(cfg, s', FinalReopen(reopen));
      s' := Step(cfg, s', FinalReopen(reopen));
    }
  }

  lemma FinalizedRenames(cfg: Config, s: State, i: nat, rename: bool) returns (s': State)
    requires Inv(cfg, s) && s.phase == Renaming && s.temp == Some(i) && s.newFd == i && i in s.files
    requires s.child.Some? && s.child.value.created.Some? && cfg.startCap <= cfg.maxDiff
    ensures Inv(cfg, s')
    ensures s' == if !rename then Discard(s)
                  else Cleanup(SwitchName(s, s.child.value, i, s.child.value.created.value).(fd := i))
  {
    hide Inv;
    StepKeeps(cfg, s, FinalRename(rename));
    s' := Step(cfg, s, FinalRename(rename));
    if rename {
      StepKeeps(cfg, s', FinalSwap);
      s' := Step(cfg, s', FinalSwap);
    }
  }

  /** Finalizing keeps the invariant however its system calls turn out. On return the append descriptor is
      open on the named file, which is the complete new log if everything succeeded and the untouched
      old one otherwise. */
  lemma FinalizedSafe(cfg: Config, s: State, o: Outcomes)
    requires Inv(cfg, s) && ReadyToFinalize(s, o) && cfg.startCap <= cfg.maxDiff
    ensures Inv(cfg, Finalized(s, o))
    ensures var s' := Finalized(s, o);
            && s'.mode == Idle && s'.fd == s'.named && s'.named in s'.files && s.named in s.files
            && if AllOk(o) then s'.named == s.temp.value && s'.files[s'.named].flushed == |s'.files[s'.named].bytes|
               else s'.named == s.named && s'.files[s'.named] == s.files[s.named]
  {
    hide Inv;
    InvDescriptors(cfg, s);
    var i := s.temp.value;
    var s1 := FinalizedOpens(cfg, s, o);
    if o.open && o.write {
      var s2 := FinalizedFlushes(cfg, s1, i, o.flush, o.reopen);
      if o.flush && o.reopen {
        var s3 := FinalizedRenames(cfg, s2, i, o.rename);
        assert s3 == Finalized(s, o);
      } else {
        assert s2 == Finalized(s, o);
      }
    }
  }

  /** In every reachable state an active rewrite whose child succeeded can be finalized. */
  lemma ReapedIsReady(cfg: Config, s: State, o: Outcomes)
    requires Inv(cfg, s) && s.mode == Active && s.phase == Serving && o.put <= |s.diff| && cfg.startCap <= cfg.maxDiff
    requires s.child.Some? && s.child.value.exit == Some(true)
    ensures ReadyToFinalize(s.(phase := Opening), o) && Inv(cfg, s.(phase := Opening))
  {
    hide NamedOk, StoredOk, FinalOk, Loggable, Loader.EncodeAll, LogFile.FileHeader, Visits, Storable, Faithful;
    Stored(s);
    StepKeeps(cfg, s, Reap);
    assert Step(cfg, s, Reap) == s.(phase := Opening);
  }

  lemma InvDescriptors(cfg: Config, s: State)
    requires Inv(cfg, s)
    ensures s.named in s.files && (s.phase != Swapping ==> s.fd == s.named)
    ensures s.temp.Some? ==> s.temp.value != s.named
  {
    hide RewriteOk, FinalOk, StoredOk, SyncedOk, Faithful;
  }

  lemma CompletedReady(s: State, o: Outcomes)
    requires ReadyToFinalize(s, o)
    ensures ReadyToFinalize(TempCompleted(s, o), o)
  {}

  /** What the reaper makes of the child's fate. */
  function Reaction(s: State, wait: WaitResult, exitOk: bool, o: Outcomes): (s': State)
    requires s.mode == Active && wait == Finished && exitOk ==> ReadyToFinalize(s.(phase := Opening), o)
  {
    match wait
    case StillRunning => s
    case WaitFailed => Cleanup(s)
    case Finished =>
      if s.mode == Active && exitOk then Finalized(s.(phase := Opening), o) else Discard(s)
  }

  /** Reaping in every reachable state: while the child runs nothing changes; otherwise the rewrite is over. The
      AOF name moves exactly if the rewrite was active, the child succeeded and so did all of finalizing; a
      rewrite that ended with the child leaves no temporary name. */
  lemma ReapedSafely(cfg: Config, s: State, wait: WaitResult, exitOk: bool, o: Outcomes)
    requires Inv(cfg, s) && s.mode != Idle && s.phase == Serving && o.put <= |s.diff| && cfg.startCap <= cfg.maxDiff
    requires s.child.Some? && (wait == Finished ==> s.child.value.exit == Some(exitOk))
    ensures s.mode == Active && wait == Finished && exitOk ==> ReadyToFinalize(s.(phase := Opening), o)
    ensures var s' := Reaction(s, wait, exitOk, o);
            var done := s.mode == Active && wait == Finished && exitOk && AllOk(o);
            && Inv(cfg, s') && s'.tables == s.tables && s'.history == s.history
            && (wait == StillRunning <==> s' == s)
            && (wait != StillRunning ==> s'.mode == Idle && s'.child.None? && s'.diff == [] && s'.phase == Serving)
            && (wait == WaitFailed ==> s'.temp == s.temp) && (wait == Finished ==> s'.temp.None?)
            && s.named in s.files && (wait != StillRunning ==> s'.fd == s'.named)
            && (if done then Some(s'.named) == s.temp && s'.named != s.named
                else s'.named == s.named && s'.named in s'.files && s'.files[s'.named] == s.files[s.named])
  {
    hide Inv, Solid, Enabled, Step;
    InvDescriptors(cfg, s);
    SolidOf(cfg, s);
    if wait == Finished && s.mode == Active && exitOk {
      ReapedIsReady(cfg, s, o);
      FinalizedSafe(cfg, s.(phase := Opening), o);
      InvDescriptors(cfg, s.(phase := Opening));
      FinalizedShape(s.(phase := Opening), o);
    } else if wait == Finished {
      ReapEnabled(cfg, s, exitOk);
      StepKeeps(cfg, s, Reap);
    } else if wait == WaitFailed {
      WaitEnabled(cfg, s);
      StepKeeps(cfg, s, WaitError);
    }
  }

  lemma SolidOf(cfg: Config, s: State)
    requires Inv(cfg, s)
    ensures Solid(cfg, s)
  {
    hide Solid, Faithful;
  }

  lemma ReapEnabled(cfg: Config, s: State, exitOk: bool)
    requires s.phase == Serving && s.child.Some? && s.child.value.exit == Some(exitOk)
    ensures Enabled(cfg, s, Reap) && Step(cfg, s, Reap) == Reaped(s, exitOk)
  {}

  lemma WaitEnabled(cfg: Config, s: State)
    requires s.phase == Serving && s.child.Some?
    ensures Enabled(cfg, s, WaitError) && Step(cfg, s, WaitError) == Cleanup(s)
  {}

  lemma FinalizedShape(s: State, o: Outcomes)
    requires ReadyToFinalize(s, o)
    ensures var s' := Finalized(s, o);
            && s'.mode == Idle && s'.child.None? && s'.diff == [] && s'.phase == Serving && s'.temp.None?
            && s'.tables == s.tables && s'.history == s.history
  {}

  /** A handler whose append fails half-way: the operation stands, `put` bytes of the record are in the
      file, and the diff has none of it. */
  function HalfHandled(s: State, r: Record, put: nat): (s': State)
    requires s.fd in s.files && IsInt64(r.expireAt) && put < HEADER_SIZE + BODY_FIXED + |r.key| + |r.value| && Fits(r)
  {
    var a := Apply(s.tables, r);
    var s1 := s.(tables := a.tables);
    if a.ok then WriteTemp(s1, s.fd, Encode(r)[..put]) else s1
  }

  /** A half-written record is forgotten by the next start-up: it loads what was there before the command. */
  lemma HalfWriteForgotten(
    cfg: Config, s: State, r: Record, put: nat, buf: seq<byte>, clock: nat -> int, T: int)
    requires Inv(cfg, s) && s.phase == Serving && Loggable(r) && Apply(s.tables, r).ok && put < |Encode(r)|
    requires |buf| == RECORD_MAX && s.time <= T && GoodReload(s, clock, T)
    ensures s.fd in s.files
    ensures var s' := HalfHandled(s, r, put);
            && s'.tables == Apply(s.tables, r).tables && s'.diff == s.diff && s'.named in s'.files
            && var up := LogFile.Start(s'.files[s'.named].bytes, buf, clock);
               up.Recovered? && up.loaded.tables == AliveAt(s.tables, T)
  {
    hide Inv, Solid, Faithful, Encode, Apply, LogFile.Start, GoodReload, AliveAt, PlaceOf, Trail;
    SolidOf(cfg, s);
    InvDescriptors(cfg, s);
    NamedFile(cfg, s);
    FlushedWithin(s);
    var c := Crash(r, |s.files[s.named].bytes| + put, buf, clock, T);
    var j, l := CrashRecovers(cfg, s, c);
    LeadsOf(cfg, s);
    PlaceFound(s, s.root, j);
    RecoveredTables(s, j, l, T);
    assert Remains(s, c) == s.files[s.named].bytes + Encode(r)[..put];
  }

  lemma LeadsOf(cfg: Config, s: State)
    requires Inv(cfg, s)
    ensures Leads(s, s.root, s.rootAt, s.baseAt)
  {
    hide Solid, Captures, Trail, CapturesPart;
  }

  lemma RecoveredTables(s: State, j: nat, l: Loader.Loaded, T: int)
    requires RecoveredTo(s, j, l, T)
    ensures l.tables == AliveAt(TablesAt(s, j), T) && s.baseAt <= j <= |s.history|
  {
    hide Loggable, AliveAt;
  }

  /** The file system as far as the log is concerned. */
  datatype Disk = Disk(files: map<nat, File>, named: nat, temp: Option<nat>)

  /** The process behind `pid`, where finalizing stands, and the description of the run so far. */
  datatype Progress = Progress(
    child: Option<Child>, newFd: nat, phase: Phase, time: int, history: seq<Record>, past: seq<Moment>,
    before: seq<Tables>, synced: nat, trusted: bool, root: Tables, base: seq<Record>, baseAt: nat, rootAt: nat,
    created: nat)

  class Server {
    const cfg: Config
    const backoffBase: nat
    const backoffMax: nat

    var tables: Tables
    var disk: Disk
    var fd: nat
    var dirty: bool
    var mode: Mode
    var pid: int
    /** `aof_rewrite_buf`, `aof_rewrite_len`, `aof_rewrite_cap` */
    var buf: array?<byte>
    var len: nat
    var cap: nat
    var failedStreak: nat
    var nextAttempt: int
    var now: int
    ghost var run: Progress

    /** The buffer exists exactly while a rewrite is active, and is as large as it claims to be. */
    ghost predicate Valid()
      reads this
    {
      && (mode == Active ==> buf != null && buf.Length == cap && len <= cap)
      && (mode != Active ==> buf == null && len == 0)
      && (mode == Idle <==> pid == -1)
      && fd in disk.files
    }

    /** The first `len` bytes of the diff buffer */
    ghost function Diff(): (d: seq<byte>)
      reads this, buf
    {
      if buf == null || buf.Length < len then [] else buf[..len]
    }

    ghost function View(): (s: State)
      reads this, buf
    {
      State(tables, disk.files, disk.named, disk.temp, fd, run.newFd, dirty, mode, run.child, Diff(), cap, run.phase,
            run.time, run.history, run.past, run.before, run.synced, run.trusted, run.root, run.base, run.baseAt,
            run.rootAt, run.created)
    }

    /** `init_server` on an empty log file: empty tables, the file header written. */
    constructor (cfg: Config, backoffBase: nat, backoffMax: nat, inode: nat, created: nat, ghost time: int)
      ensures Valid() && View() == Init(cfg, inode, created, time)
      ensures failedStreak == 0 && nextAttempt == 0
    {
      hide LogFile.FileHeader;
      this.cfg, this.backoffBase, this.backoffMax := cfg, backoffBase, backoffMax;
      tables := EMPTY;
      disk := Disk(map[inode := File(LogFile.FileHeader(created), 0)], inode, None);
      fd, dirty, mode, pid := inode, false, Idle, -1;
      buf, len, cap := null, 0, cfg.startCap;
      failedStreak, nextAttempt, now := 0, 0, 0;
      run := Progress(None, inode, Serving, time, [], [], [], 0, true, EMPTY, [], 0, 0, created);
    }

    /** `aof_abort_rewrite` */
    method AbortRewrite()
      requires Valid() && mode == Active
      modifies this
      ensures Valid() && View() == Abort(old(View()))
      ensures failedStreak == old(failedStreak) && nextAttempt == old(nextAttempt) && now == old(now)
    {
      buf := null;
      len := 0;
      mode := Aborting;
    }

    /** `realloc` to `newCap` bytes: the contents move along. */
    method Grow(newCap: nat)
      requires Valid() && mode == Active && cap <= newCap
      modifies this
      ensures Valid() && View() == old(View()).(cap := newCap) && fresh(buf)
      ensures failedStreak == old(failedStreak) && nextAttempt == old(nextAttempt) && now == old(now)
    {
      var data := buf[..len];
      var grown := new byte[newCap];
      CopyIn(grown, 0, data);
      assert grown[..len] == data;
      buf := grown;
      cap := newCap;
    }

    /** The first half of `aof_emit_diff`: room for `needed` bytes, or the end of the rewrite. */
    method MakeRoom(needed: nat) returns (ok: bool)
      requires Valid() && mode == Active && len <= needed
      modifies this
      ensures Valid() && ok == (needed <= old(cap) || needed <= cfg.maxDiff)
      ensures !ok ==> View() == Abort(old(View()))
      ensures ok ==> View() == old(View()).(cap := GrownCap(cfg, old(cap), needed)) && needed <= cap && mode == Active
      ensures buf == null || buf == old(buf) || fresh(buf)
      ensures failedStreak == old(failedStreak) && nextAttempt == old(nextAttempt) && now == old(now)
    {
      if needed > cap {
        if needed > cfg.maxDiff {
          AbortRewrite();
          return false;
        }
        var newCap := cap * 2;
        if newCap < needed {
          newCap := needed;
        }
        if newCap > cfg.maxDiff {
          newCap := cfg.maxDiff;
        }
        Grow(newCap);
      }
      ok := true;
    }

    /** `aof_emit_diff` */
    method EmitRecord(data: seq<byte>)
      requires Valid() && mode == Active
      modifies this, buf
      ensures Valid() && View() == EmitDiff(cfg, old(View()), data)
      ensures buf == null || buf == old(buf) || fresh(buf)
      ensures failedStreak == old(failedStreak) && nextAttempt == old(nextAttempt) && now == old(now)
    {
      hide GrownCap;
      ghost var d := Diff();
      var needed := len + |data|;
      var ok := MakeRoom(needed);
      if ok {
        assert buf[..len] == d;
        CopyIn(buf, len, data);
        assert buf[..len] == d;
        len := needed;
        assert buf[..len] == d + data;
      }
    }

    /** The bytes `e` of record `r` go to the live file and the diff. */
    method WriteRecord(r: Record, e: seq<byte>)
      requires Valid()
      modifies this, buf
      ensures Valid() && View() == Appended(cfg, old(View()), r, e)
      ensures buf == null || buf == old(buf) || fresh(buf)
      ensures failedStreak == old(failedStreak) && nextAttempt == old(nextAttempt) && now == old(now)
    {
      hide EmitDiff;
      disk := disk.(files := disk.files[fd := File(disk.files[fd].bytes + e, disk.files[fd].flushed)]);
      run := run.(history := run.history + [r]);
      dirty := true;
      if mode == Active {
        EmitRecord(e);
      }
    }

    /** The same, and on to the device if the policy says so. */
    method LogRecord(r: Record, e: seq<byte>, flushOk: bool) returns (ok: bool)
      requires Valid()
      modifies this, buf
      ensures Valid()
      ensures buf == null || buf == old(buf) || fresh(buf)
      ensures View() == Append(cfg, old(View()), r, e, flushOk) && ok == (cfg.policy == FlushAlways ==> flushOk)
      ensures failedStreak == old(failedStreak) && nextAttempt == old(nextAttempt) && now == old(now)
    {
      hide Appended;
      WriteRecord(r, e);
      ok := true;
      if cfg.policy == FlushAlways {
        ok := FlushLive(flushOk);
      }
    }

    /** `aof_append`: serialize, write, copy to the diff, mark dirty, flush if the policy says so. `wrote`
        tells whether the whole record reached the file, `put` how much of it did otherwise. */
    method AppendRecord(r: Record, wrote: bool, put: nat, flushOk: bool) returns (ok: bool)
      requires Valid() && IsInt64(r.expireAt) && run.phase == Serving
      requires put < HEADER_SIZE + BODY_FIXED + |r.key| + |r.value|
      modifies this, buf
      ensures Valid()
      ensures buf == null || buf == old(buf) || fresh(buf)
      ensures !Fits(r) ==> !ok && View() == old(View())
      ensures Fits(r) && !wrote ==>
        !ok && View() == WriteTemp(old(View()), old(fd), Encode(r)[..put])
      ensures Fits(r) && wrote ==>
        View() == Append(cfg, old(View()), r, Encode(r), flushOk) && ok == (cfg.policy == FlushAlways ==> flushOk)
      ensures failedStreak == old(failedStreak) && nextAttempt == old(nextAttempt) && now == old(now)
    {
      hide Encode, Append;
      var record := new byte[RECORD_MAX];
      var n := Serialize(record, r);
      if n == -1 {
        return false;
      }
      var e := record[..n];
      if !wrote {
        disk := disk.(files := disk.files[fd := File(disk.files[fd].bytes + e[..put], disk.files[fd].flushed)]);
        return false;
      }
      ok := LogRecord(r, e, flushOk);
    }

    /** Flushes the live file and clears the dirty flag, if the device obliges. */
    method FlushLive(flushOk: bool) returns (ok: bool)
      requires Valid()
      modifies this`disk, this`dirty, this`run
      ensures Valid() && ok == flushOk
      ensures flushOk ==>
        View() == Flush(old(View()), fd).(dirty := false, synced := |run.history|, trusted := true)
      ensures !flushOk ==> View() == old(View())
    {
      if flushOk {
        disk := disk.(files := disk.files[fd := File(disk.files[fd].bytes, |disk.files[fd].bytes|)]);
        run := run.(synced := |run.history|, trusted := true);
        dirty := false;
      }
      ok := flushOk;
    }

    /** A mutating command handler: the operation first, then the log. The append's result is ignored, so the
        reply says nothing about it. */
    method Execute(r: Record, wrote: bool, put: nat, flushOk: bool) returns (replyOk: bool)
      requires Valid() && IsInt64(r.expireAt) && run.phase == Serving
      requires put < HEADER_SIZE + BODY_FIXED + |r.key| + |r.value|
      modifies this, buf
      ensures Valid() && replyOk == Apply(old(tables), r).ok
      ensures wrote || !Fits(r) ==> View() == Handled(cfg, old(View()), r, flushOk)
      ensures !wrote && Fits(r) ==> View() == HalfHandled(old(View()), r, put)
      ensures failedStreak == old(failedStreak) && nextAttempt == old(nextAttempt) && now == old(now)
    {
      hide Encode, EmitDiff, Apply;
      var a := Apply(tables, r);
      ghost var t := tables;
      tables := a.tables;
      if !a.ok {
        return false;
      }
      if wrote || !Fits(r) {
        run := run.(past := run.past + [if Fits(r) then Moment.Logged(r) else Silent(r)], before := run.before + [t]);
      }
      ghost var mid := View();
      var ignored := AppendRecord(r, wrote, put, flushOk);
      replyOk := true;
    }

    /** `aof_cron` once its interval has passed */
    method Cron(flushOk: bool)
      requires Valid()
      modifies this`disk, this`dirty, this`run
      ensures Valid()
      ensures View() == (if cfg.policy == FlushPerTick then CronFlush(old(View()), flushOk) else old(View()))
      ensures cfg.policy == FlushPerTick && old(dirty) && flushOk ==>
                && !dirty && run.synced == |run.history|
                && disk.files[fd] == File(old(disk.files[fd].bytes), |old(disk.files[fd].bytes)|)
      ensures cfg.policy != FlushPerTick || !old(dirty) || !flushOk ==> View() == old(View())
    {
      if cfg.policy != FlushPerTick || !dirty {
        return;
      }
      var ignored := FlushLive(flushOk);
    }

    /** `aof_rewrite_record_failure` */
    method RecordFailure()
      modifies this`failedStreak, this`nextAttempt
      ensures failedStreak == old(failedStreak) + 1
      ensures nextAttempt == now + Delay(failedStreak, backoffBase, backoffMax)
    {
      failedStreak := failedStreak + 1;
      ghost var peak;
      var delay;
      delay, peak := ComputeDelay(failedStreak, backoffBase, backoffMax);
      nextAttempt := now + delay;
    }

    /** `aof_rewrite_start`, refused by its callers unless idle; `forked` is what the fork returned. */
    method BeginRewrite(ghost order: seq<Key>, forked: int) returns (ok: bool)
      requires Valid() && mode == Idle && run.phase == Serving && forked != 0
      modifies this
      ensures Valid() && ok == (forked > 0) && (buf == null || fresh(buf))
      ensures View() == (if ok then StartRewrite(old(View()), order) else old(View()))
      ensures pid == if ok then forked else -1
      ensures failedStreak == if ok then old(failedStreak) else old(failedStreak) + 1
      ensures nextAttempt == if ok then old(nextAttempt) else now + Delay(failedStreak, backoffBase, backoffMax)
      ensures now == old(now)
    {
      hide Delay;
      if forked < 0 {
        RecordFailure();
        return false;
      }
      buf := new byte[cap];
      len := 0;
      mode := Active;
      pid := forked;
      run := run.(child := Some(Child(tables, |run.history|, |run.past|, order, 0, [], None, None)));
      ok := true;
      assert buf[..len] == [];
    }

    /** `aof_rewrite_cleanup` */
    method EndRewrite()
      requires Valid()
      modifies this`buf, this`len, this`pid, this`mode, this`run
      ensures Valid() && View() == Cleanup(old(View())) && pid == -1
    {
      buf := null;
      len := 0;
      pid := -1;
      mode := Idle;
      run := run.(child := None, phase := Serving);
    }

    /** The failure exit of `aof_rewrite_finalize` and of the reaper */
    method DropRewrite()
      requires Valid()
      modifies this
      ensures Valid() && View() == Discard(old(View()))
      ensures failedStreak == old(failedStreak) + 1 && now == old(now)
      ensures nextAttempt == now + Delay(failedStreak, backoffBase, backoffMax)
    {
      disk := disk.(temp := None);
      RecordFailure();
      EndRewrite();
    }

    /** Opens the temporary file, appends the diff and flushes. */
    method CompleteTemp(o: Outcomes) returns (ok: bool)
      requires Valid() && mode == Active && ReadyToFinalize(View(), o)
      modifies this`disk
      ensures Valid() && ok == TempOk(o) && View() == TempCompleted(old(View()), o)
    {
      if !o.open {
        return false;
      }
      var i := disk.temp.value;
      var data := if o.write then buf[..len] else buf[..len][..o.put];
      disk := disk.(files := disk.files[i := File(disk.files[i].bytes + data, disk.files[i].flushed)]);
      if !o.write || !o.flush {
        return false;
      }
      disk := disk.(files := disk.files[i := File(disk.files[i].bytes, |disk.files[i].bytes|)]);
      ok := true;
    }

    /** Opens the new descriptor before the rename, and switches to it after. */
    method SwitchOver(o: Outcomes) returns (ok: bool)
      requires Valid() && mode == Active && ReadyToFinalize(View(), o)
      modifies this`disk, this`run, this`fd
      ensures Valid() && ok == (o.reopen && o.rename) && View() == SwitchedOver(old(View()), o)
    {
      if !o.reopen {
        return false;
      }
      var i := disk.temp.value;
      run := run.(newFd := i);
      if !o.rename {
        return false;
      }
      disk := disk.(named := i, temp := None);
      run := run.(root := run.child.value.snapshot, base := run.child.value.emitted, baseAt := run.child.value.forkAt,
                  rootAt := run.child.value.bornAt, synced := |run.history|, trusted := true,
                  created := run.child.value.created.value);
      fd := i;
      ok := true;
    }

    method TryFinalize(o: Outcomes) returns (ok: bool)
      requires Valid() && mode == Active && ReadyToFinalize(View(), o)
      modifies this`disk, this`run, this`fd
      ensures Valid() && ok == AllOk(o) && View() == Attempted(old(View()), o)
    {
      hide TempCompleted, SwitchedOver;
      CompletedReady(View(), o);
      ok := CompleteTemp(o);
      if ok {
        ok := SwitchOver(o);
      }
    }

    /** `aof_rewrite_finalize` */
    method Finalize(o: Outcomes) returns (ok: bool)
      requires Valid() && mode == Active && ReadyToFinalize(View(), o)
      modifies this
      ensures Valid() && ok == AllOk(o) && View() == Finalized(old(View()), o)
      ensures failedStreak == if ok then 0 else old(failedStreak) + 1
      ensures nextAttempt == if ok then 0 else now + Delay(failedStreak, backoffBase, backoffMax)
      ensures now == old(now)
    {
      hide Cleanup, Discard, Delay, Attempted;
      ok := TryFinalize(o);
      if !ok {
        DropRewrite();
        return;
      }
      failedStreak := 0;
      nextAttempt := 0;
      EndRewrite();
    }

    /** `aof_rewrite_cron` with a child under way: an aborted rewrite is discarded however its child ended,
        an active one finalized if the child succeeded. */
    method ReapChild(wait: WaitResult, exitOk: bool, o: Outcomes)
      requires Valid() && mode != Idle && run.phase == Serving
      requires mode == Active && wait == Finished && exitOk ==> ReadyToFinalize(View().(phase := Opening), o)
      modifies this
      ensures Valid()
      ensures View() == Reaction(old(View()), wait, exitOk, o)
      ensures var failed := wait == WaitFailed || (wait == Finished && (old(mode) == Aborting || !exitOk || !AllOk(o)));
              && failedStreak == (if failed then old(failedStreak) + 1
                                  else if wait == Finished then 0 else old(failedStreak))
              && nextAttempt == (if failed then now + Delay(failedStreak, backoffBase, backoffMax)
                                 else if wait == Finished then 0 else old(nextAttempt))
              && now == old(now)
    {
      hide Finalized, Discard, Cleanup, Delay;
      match wait {
        case StillRunning =>
        case WaitFailed =>
          RecordFailure();
          EndRewrite();
        case Finished =>
          if mode == Aborting || !exitOk {
            DropRewrite();
          } else {
            run := run.(phase := Opening);
            var ignored := Finalize(o);
          }
      }
    }
  }
}
