/** Every step of the append-only file keeps its invariant. */
module RewriteProofs {

  import opened Bytes
  import opened Store
  import opened Log
  import opened Codec
  import opened Loader
  import opened LogFile
  import opened Aging
  import opened Rewrite

  // ----- What the tables can hold

  lemma StorableSet(t: Tables, k: Key, v: Value)
    requires Storable(t) && NulFree(k) && NulFree(v)
    ensures Storable(Set(t, k, v).tables)
  {
    hide NulFree;
  }

  lemma StorableSetex(t: Tables, k: Key, v: Value, d: int)
    requires Storable(t) && NulFree(k) && NulFree(v) && IsInt64(d)
    ensures Storable(Setex(t, k, v, d).tables)
  {
    hide NulFree, IsInt64;
  }

  lemma StorableExpire(t: Tables, k: Key, d: int)
    requires Storable(t) && IsInt64(d)
    ensures Storable(Expire(t, k, d).tables)
  {
    hide NulFree, IsInt64;
  }

  lemma StorableLess(t: Tables, k: Key)
    requires Storable(t)
    ensures Storable(Del(t, k).tables) && Storable(Persist(t, k).tables)
  {
    hide NulFree, IsInt64;
  }

  lemma ApplyStorable(t: Tables, r: Record)
    requires Storable(t) && Commanded(r)
    ensures Storable(Apply(t, r).tables)
  {
    hide Storable, NulFree, IsInt64, HandlerRecord, Set, Setex, Del, Expire, Persist;
    StorableLess(t, r.key);
    StorableSet(t, r.key, r.value);
    StorableSetex(t, r.key, r.value, r.expireAt);
    StorableExpire(t, r.key, r.expireAt);
  }

  lemma WithoutStorable(t: Tables, ks: set<Key>)
    requires Storable(t) && forall k :: k in ks ==> k in t.expires
    ensures Storable(Without(t, ks))
  {
    hide NulFree, IsInt64;
  }

  lemma AliveStorable(t: Tables, T: int)
    requires Storable(t)
    ensures Storable(AliveAt(t, T))
  {
    hide NulFree, IsInt64, AliveAt;
  }

  lemma StorableConsistent(t: Tables)
    requires Storable(t)
    ensures Consistent(t)
  {}

  lemma EmptyStorable()
    ensures Storable(EMPTY)
  {}

  /** An entry of such tables can be logged exactly if it fits. */
  lemma EntryLoggable(t: Tables, k: Key)
    requires Storable(t) && k in t.keyspace
    ensures IsInt64(SnapshotRecord(t, k).expireAt)
    ensures Loggable(SnapshotRecord(t, k)) <==> Fits(SnapshotRecord(t, k))
  {
    hide NulFree;
  }

  lemma CommandLoggable(r: Record)
    requires Commanded(r)
    ensures IsInt64(r.expireAt) && HandlerRecord(r) && (Fits(r) <==> Loggable(r))
  {
    hide NulFree;
  }

  // ----- Histories that grow

  lemma GrowSlices<X>(s: seq<X>, r: X, n: nat)
    requires n <= |s|
    ensures (s + [r])[n..] == s[n..] + [r]
    ensures (s + [r])[..n] == s[..n]
  {}

  lemma SlicesLoggable(s: seq<Record>, m: nat, n: nat)
    requires LoggableAll(s) && m <= n <= |s|
    ensures LoggableAll(s[m..n]) && LoggableAll(s[..m]) && LoggableAll(s[m..]) && LoggableAll(s[n..])
  {}

  lemma StoredLike(s: State, s': State)
    requires StoredOk(s) && s'.history == s.history && s'.tables == s.tables && s'.before == s.before
    requires s'.past == s.past
    ensures StoredOk(s') && LoggableAll(s.history)
  {
    hide Storable, Loggable;
  }

  lemma GrowStored(s: State, m: Moment)
    requires StoredOk(s) && Commanded(m.r)
    ensures StoredOk(Lived(s, m))
    ensures Fits(m.r) ==> StoredOk(Lived(s, m).(history := s.history + [m.r]))
  {
    hide Storable, Loggable, Apply, Commanded, Fits;
    CommandLoggable(m.r);
    ApplyStorable(s.tables, m.r);
  }

  /** The named file and its flushed part after a record has been appended, flushed or not. */
  lemma GrowNamed(s: State, r: Record, f: File, s': State)
    requires LoggableAll(s.history) && NamedOk(s) && Loggable(r)
    requires f.bytes == s.files[s.named].bytes + Encode(r)
    requires s'.history == s.history + [r] && s'.base == s.base && s'.baseAt == s.baseAt && s'.created == s.created
    requires s'.named == s.named && s'.named in s'.files && s'.files[s.named] == f && LoggableAll(s'.history)
    requires (f.flushed == s.files[s.named].flushed && s'.dirty && s'.synced == s.synced)
          || (f.flushed == |f.bytes| && s'.synced == |s'.history| && s'.trusted)
    ensures NamedOk(s')
  {
    hide Encode, EncodeAll, FileHeader;
    GrowSlices(s.history, r, s.baseAt);
    SlicesLoggable(s.history, s.baseAt, s.synced);
    EncodeAllSnoc(s.history[s.baseAt..], r);
    var h, b, e := FileHeader(s.created), EncodeAll(s.base), EncodeAll(s.history[s.baseAt..]);
    Regroup(h + b, e, Encode(r));
    assert s'.history[s.baseAt..s.synced] == s.history[s.baseAt..s.synced];
    assert s'.history[s.baseAt..|s'.history|] == s'.history[s.baseAt..];
  }

  /** The diff buffer takes the record's bytes, or the rewrite is given up because they do not fit. */
  lemma DiffGrows(cfg: Config, s: State, e: seq<byte>)
    requires |s.diff| <= s.cap <= cfg.maxDiff && s.mode == Active
    ensures var s' := EmitDiff(cfg, s, e);
            && s'.cap <= cfg.maxDiff && |s'.diff| <= s'.cap
            && s' == s.(mode := s'.mode, diff := s'.diff, cap := s'.cap)
            && (if |s.diff| + |e| <= cfg.maxDiff then s'.mode == Active && s'.diff == s.diff + e
                else s'.mode == Aborting && s'.diff == [])
            && (s'.mode == Active && |s.diff| + |e| > s.cap ==> s'.cap == cfg.maxDiff || s'.cap >= 2 * s.cap)
            && (s'.mode == Active && |s.diff| + |e| <= s.cap ==> s'.cap == s.cap)
  {}

  lemma GrowRewrite(cfg: Config, s: State, r: Record, s': State)
    requires LoggableAll(s.history) && Loggable(r) && RewriteOk(cfg, s) && s.phase == Serving
    requires s'.history == s.history + [r] && LoggableAll(s'.history)
    requires s'.child == s.child && s'.temp == s.temp && s'.phase == s.phase
    requires s.temp.Some? && s.temp.value in s.files ==>
               s.temp.value in s'.files && s'.files[s.temp.value] == s.files[s.temp.value]
    requires var d := if s.mode == Active then EmitDiff(cfg, s, Encode(r)) else s;
             s'.mode == d.mode && s'.diff == d.diff && s'.cap == d.cap
    ensures RewriteOk(cfg, s')
  {
    hide Encode, EncodeAll, FileHeader, EmitDiff, Storable, Visits;
    if s.mode == Active {
      DiffGrows(cfg, s, Encode(r));
      var n := s.child.value.forkAt;
      GrowSlices(s.history, r, n);
      EncodeAllSnoc(s.history[n..], r);
    }
  }

  /** What `Append` changes and what it leaves alone. */
  lemma AppendParts(cfg: Config, s: State, r: Record, e: seq<byte>, flushOk: bool)
    requires s.fd in s.files
    ensures var s' := Append(cfg, s, r, e, flushOk);
            var d := if s.mode == Active then EmitDiff(cfg, s, e) else s;
            && s' == s.(files := s'.files, dirty := s'.dirty, synced := s'.synced, trusted := s'.trusted,
                        history := s.history + [r], mode := d.mode, diff := d.diff, cap := d.cap)
            && s'.files == s.files[s.fd := s'.files[s.fd]]
            && s'.files[s.fd].bytes == s.files[s.fd].bytes + e
            && (|| (s'.files[s.fd].flushed == s.files[s.fd].flushed && s'.dirty && s'.synced == s.synced)
                || (s'.files[s.fd].flushed == |s'.files[s.fd].bytes| && s'.synced == |s'.history| && s'.trusted))
  {}

  lemma DiffReads(cfg: Config, s: State, s1: State, e: seq<byte>)
    requires s1.mode == s.mode && s1.diff == s.diff && s1.cap == s.cap
    ensures var d, d1 := EmitDiff(cfg, s, e), EmitDiff(cfg, s1, e);
            d1.mode == d.mode && d1.diff == d.diff && d1.cap == d.cap
  {
    hide Stashed;
  }

  lemma NamedLike(s: State, s': State)
    requires LoggableAll(s.history) && NamedOk(s)
    requires s'.history == s.history && s'.synced == s.synced && s'.base == s.base && s'.baseAt == s.baseAt
    requires s'.created == s.created && s'.named == s.named && s'.dirty == s.dirty && s'.trusted == s.trusted
    requires s'.named in s'.files && s'.files[s.named] == s.files[s.named]
    ensures NamedOk(s')
  {
    hide EncodeAll, FileHeader, Loggable;
  }

  lemma NamedThere(s: State)
    requires LoggableAll(s.history) && NamedOk(s)
    ensures s.named in s.files
  {}

  lemma Stored(s: State)
    requires StoredOk(s)
    ensures LoggableAll(s.history) && Storable(s.tables) && |s.before| == |s.past|
  {}

  // ----- What the events of a rewrite leave alone

  /** Nothing but the rewrite fields and the contents of files has changed; temporary name and child are the
      same or gone. */
  predicate Ends(s: State, s': State) {
    && s' == s.(files := s'.files, temp := s'.temp, mode := s'.mode, child := s'.child, diff := s'.diff,
                phase := s'.phase, newFd := s'.newFd)
    && s.files.Keys <= s'.files.Keys && (s'.temp == s.temp || s'.temp.None?) && (s'.child == s.child || s'.child.None?)
  }

  lemma EndsPlainly(s: State, i: nat, data: seq<byte>, p: Phase)
    ensures Ends(s, Cleanup(s)) && Ends(s, Discard(s)) && Ends(s, s.(phase := p)) && Ends(s, s.(phase := p, newFd := i))
    ensures i in s.files ==> Ends(s, WriteTemp(s, i, data)) && Ends(s, Flush(s, i))
  {}

  lemma EndsTwice(s: State, t: State, u: State)
    requires Ends(s, t) && Ends(t, u)
    ensures Ends(s, u)
  {}

  lemma EndsReaped(s: State, ok: bool)
    ensures Ends(s, Reaped(s, ok))
    ensures s.mode == Aborting ==> Reaped(s, ok).temp.None?
  {
    hide Ends;
    EndsPlainly(s, 0, [], Opening);
  }

  lemma EndsOpened(cfg: Config, s: State, e: Event)
    requires Enabled(cfg, s, e)
    requires e.Reap? || e.WaitError? || e.FinalOpen? || e.FinalReopen? || e == FinalRename(false)
    ensures Ends(s, Step(cfg, s, e))
    ensures e.Reap? && s.mode == Aborting ==> Step(cfg, s, e).temp.None?
  {
    hide Ends, Reaped, Discard, Cleanup, FileHeader, Encode, AfterKill, AfterPowerLoss, CanKill, CanLosePower, Reload;
    EndsPlainly(s, 0, [], Writing);
    if e.Reap? {
      EndsReaped(s, s.child.value.exit.value);
    } else if e.FinalReopen? {
      EndsPlainly(s, s.temp.value, [], Renaming);
    }
  }

  lemma EndsWritten(cfg: Config, s: State, e: Event)
    requires Enabled(cfg, s, e) && (e.FinalWrite? || e.FinalFlush?)
    ensures Ends(s, Step(cfg, s, e))
  {
    hide Ends, Reaped, Discard, Flush, WriteTemp, FileHeader, Encode, AfterKill, AfterPowerLoss, CanKill, CanLosePower,
      Reload;
    var i := s.temp.value;
    EndsPlainly(s, i, s.diff, Flushing);
    if e.FinalFlush? {
      EndsPlainly(Flush(s, i), i, [], Reopening);
      EndsTwice(s, Flush(s, i), Flush(s, i).(phase := Reopening));
    } else if e.ok {
      EndsPlainly(WriteTemp(s, i, s.diff), i, [], Flushing);
      EndsTwice(s, WriteTemp(s, i, s.diff), WriteTemp(s, i, s.diff).(phase := Flushing));
    } else {
      var t := WriteTemp(s, i, s.diff[..e.put]);
      EndsPlainly(s, i, s.diff[..e.put], Flushing);
      EndsPlainly(t, i, [], Flushing);
      EndsTwice(s, t, Discard(t));
    }
  }

  lemma EventEnds(cfg: Config, s: State, e: Event)
    requires Enabled(cfg, s, e)
    requires e.Reap? || e.WaitError? || e.FinalOpen? || e.FinalWrite? || e.FinalFlush? || e.FinalReopen?
          || e == FinalRename(false)
    ensures Ends(s, Step(cfg, s, e))
    ensures e.Reap? && s.mode == Aborting ==> Step(cfg, s, e).temp.None?
  {
    hide Ends, Step, Enabled;
    if e.FinalWrite? || e.FinalFlush? {
      EndsWritten(cfg, s, e);
    } else {
      EndsOpened(cfg, s, e);
    }
  }

  /** The child's events touch its own part and the temporary file. */
  predicate Works(s: State, s': State) {
    && s' == s.(files := s'.files, temp := s'.temp, child := s'.child)
    && s.files.Keys <= s'.files.Keys && s.child.Some? && s'.child.Some?
  }

  lemma EmitWorks(s: State, c: Child, i: nat, now: int)
    requires i in s.files && c.pos < |c.order| && c.order[c.pos] in c.snapshot.keyspace && s.child.Some?
    requires IsInt64(SnapshotRecord(c.snapshot, c.order[c.pos]).expireAt)
    ensures Works(s, EmitKey(s, c, i, now)) && EmitKey(s, c, i, now).temp == s.temp
  {
    hide Encode, Fits, Dead, SnapshotRecord;
  }

  /** Either the temporary name stays, or a file that was not there before gets it. */
  lemma ChildWorks(cfg: Config, s: State, e: Event)
    requires Enabled(cfg, s, e) && (e.ChildOpen? || e.ChildEmit? || e.ChildDone? || e.ChildDie?)
    ensures var s' := Step(cfg, s, e);
            Works(s, s') && (s'.temp == s.temp || (s'.temp.Some? && s'.temp.value !in s.files))
  {
    hide Encode, FileHeader, EmitKey, AfterKill, AfterPowerLoss, CanKill, CanLosePower, Reload, SnapshotRecord;
    if e.ChildEmit? {
      EmitWorks(s, s.child.value, s.temp.value, e.now);
    }
  }

  /** When each can happen. */
  lemma EndPhase(cfg: Config, s: State, e: Event)
    requires Enabled(cfg, s, e)
    ensures e.Reap? || e.WaitError? ==> s.phase == Serving && s.child.Some?
    ensures e.FinalOpen? || e.FinalWrite? || e.FinalFlush? || e.FinalReopen? || e.FinalRename? || e.FinalSwap? ==>
              s.phase != Serving
  {
    hide FileHeader, Encode, CanKill, CanLosePower, Reload, Commanded, Visits;
  }

  // ----- One lemma an event: files, buffer and flags

  lemma MutateSolid(cfg: Config, s: State, r: Record, flushOk: bool)
    requires Solid(cfg, s) && Enabled(cfg, s, Mutate(r, flushOk))
    ensures Solid(cfg, Step(cfg, s, Mutate(r, flushOk)))
  {
    hide Encode, EncodeAll, FileHeader, Apply, EmitDiff, RewriteOk, NamedOk, StoredOk, Commanded, Fits, Storable;
    Stored(s);
    CommandLoggable(r);
    var a := Apply(s.tables, r);
    var s' := Step(cfg, s, Mutate(r, flushOk));
    if a.ok {
      var e := Encode(r);
      var s1 := Lived(s, Moment.Logged(r));
      AppendParts(cfg, s1, r, e, flushOk);
      GrowStored(s, Moment.Logged(r));
      StoredLike(s1.(history := s.history + [r]), s');
      GrowNamed(s, r, s'.files[s.fd], s');
      DiffReads(cfg, s, s1, e);
      GrowRewrite(cfg, s, r, s');
    } else {
      StorableConsistent(s.tables);
      FailureIdle(s.tables, r);
    }
  }

  lemma FailureIdle(t: Tables, r: Record)
    requires Consistent(t) && !Apply(t, r).ok
    ensures Apply(t, r).tables == t
  {}

  /** Tables change, nothing else does. */
  lemma TablesSolid(cfg: Config, s: State, t: Tables)
    requires Solid(cfg, s) && Storable(t)
    ensures Solid(cfg, s.(tables := t))
  {
    hide EncodeAll, FileHeader, Storable, Visits, Loggable;
    NamedLike(s, s.(tables := t));
  }

  lemma UnloggedSolid(cfg: Config, s: State, r: Record)
    requires Solid(cfg, s) && Enabled(cfg, s, Unlogged(r))
    ensures Solid(cfg, Step(cfg, s, Unlogged(r)))
  {
    hide NamedOk, RewriteOk, FinalOk, StoredOk, Apply, Commanded, Fits;
    Stored(s);
    StorableConsistent(s.tables);
    if Apply(s.tables, r).ok {
      var s' := Lived(s, Silent(r));
      GrowStored(s, Silent(r));
      LivedSolid(cfg, s, s');
    } else {
      FailureIdle(s.tables, r);
    }
  }

  lemma LivedSolid(cfg: Config, s: State, s': State)
    requires Solid(cfg, s) && StoredOk(s') && s' == s.(tables := s'.tables, past := s'.past, before := s'.before)
    ensures Solid(cfg, s')
  {
    hide EncodeAll, FileHeader, StoredOk, Visits, Loggable, Storable;
    Stored(s);
    NamedLike(s, s');
  }

  lemma ExpirySolid(cfg: Config, s: State, dead: set<Key>, now: int)
    requires Solid(cfg, s) && Enabled(cfg, s, Expiry(dead, now))
    ensures Solid(cfg, Step(cfg, s, Expiry(dead, now)))
  {
    hide NamedOk, RewriteOk, FinalOk, Storable;
    WithoutStorable(s.tables, dead);
    TablesSolid(cfg, s, Without(s.tables, dead));
  }

  lemma ClockSolid(cfg: Config, s: State, now: int)
    requires Solid(cfg, s)
    ensures Solid(cfg, s.(time := now))
  {
    hide EncodeAll, FileHeader, Storable, Visits, Loggable;
    NamedLike(s, s.(time := now));
  }

  lemma TickSolid(cfg: Config, s: State, flushOk: bool)
    requires Solid(cfg, s) && Enabled(cfg, s, Tick(flushOk))
    ensures Solid(cfg, Step(cfg, s, Tick(flushOk)))
  {
    hide EncodeAll, FileHeader, Loggable, Storable, Visits;
    assert s.history[s.baseAt..|s.history|] == s.history[s.baseAt..];
  }

  lemma ForkSolid(cfg: Config, s: State, order: seq<Key>)
    requires Solid(cfg, s) && Enabled(cfg, s, Fork(order))
    ensures Solid(cfg, Step(cfg, s, Fork(order)))
  {
    hide FileHeader, Loggable, NamedOk, Visits, Encode, Storable;
    var s' := Step(cfg, s, Fork(order));
    NamedThere(s);
    NamedLike(s, s');
    assert s.history[|s.history|..] == [];
    EncodeAllEmpty();
  }

  lemma ChildOpenSolid(cfg: Config, s: State, i: nat, time: nat)
    requires Solid(cfg, s) && Enabled(cfg, s, ChildOpen(i, time))
    ensures Solid(cfg, Step(cfg, s, ChildOpen(i, time)))
  {
    hide EncodeAll, FileHeader, Loggable, NamedOk, StoredOk, Storable, Visits;
    var s' := Step(cfg, s, ChildOpen(i, time));
    StoredLike(s, s');
    NamedThere(s);
    NamedLike(s, s');
    EncodeAllEmpty();
  }

  /** The child's part after one key. */
  lemma EmitChild(s: State, c: Child, i: nat, now: int)
    requires ChildOk(s, c) && s.phase == Serving && s.temp == Some(i) && i in s.files && c.created.Some?
    requires c.pos < |c.order| && c.order[c.pos] in c.snapshot.keyspace && c.exit.None?
    requires IsInt64(SnapshotRecord(c.snapshot, c.order[c.pos]).expireAt)
    ensures var s' := EmitKey(s, c, i, now);
            && s'.child.Some? && ChildOk(s', s'.child.value) && i in s'.files
            && s' == s.(child := s'.child, files := s'.files)
            && s'.child.value.forkAt == c.forkAt
            && forall j :: j in s.files && j != i ==> j in s'.files && s'.files[j] == s.files[j]
  {
    hide EncodeAll, Encode, FileHeader, SnapshotRecord, Visits, Storable, Dead, Fits, Loggable;
    var k := c.order[c.pos];
    EntryLoggable(c.snapshot, k);
    if !Dead(c.snapshot, k, now) && Fits(SnapshotRecord(c.snapshot, k)) {
      var r := SnapshotRecord(c.snapshot, k);
      EncodeAllSnoc(c.emitted, r);
      Regroup(FileHeader(c.created.value), EncodeAll(c.emitted), Encode(r));
    }
  }

  lemma ChildEmitSolid(cfg: Config, s: State, now: int)
    requires Solid(cfg, s) && Enabled(cfg, s, ChildEmit(now))
    ensures Solid(cfg, Step(cfg, s, ChildEmit(now)))
  {
    hide EncodeAll, FileHeader, NamedOk, StoredOk, SnapshotRecord, ChildOk, EmitKey;
    var s' := Step(cfg, s, ChildEmit(now));
    Stored(s);
    RunningServes(cfg, s);
    EmitChild(s, s.child.value, s.temp.value, now);
    StoredLike(s, s');
    NamedThere(s);
    NamedLike(s, s');
  }

  lemma RunningServes(cfg: Config, s: State)
    requires LoggableAll(s.history) && RewriteOk(cfg, s) && Running(s)
    ensures s.phase == Serving
  {
    hide EncodeAll, ChildOk;
  }

  lemma ChildEndSolid(cfg: Config, s: State, e: Event)
    requires Solid(cfg, s) && Enabled(cfg, s, e) && (e == ChildDone || e == ChildDie)
    ensures Solid(cfg, Step(cfg, s, e))
  {
    hide EncodeAll, FileHeader, NamedOk, StoredOk, Visits, Storable, Loggable;
    var s' := Step(cfg, s, e);
    StoredLike(s, s');
    NamedThere(s);
    NamedLike(s, s');
  }

  /** Every way out of a rewrite that changes neither the named file nor the descriptor. */
  lemma CleanupSolid(cfg: Config, s: State, s': State)
    requires Solid(cfg, s) && s.phase != Swapping
    requires s'.history == s.history && s'.tables == s.tables && s'.before == s.before && s'.past == s.past
    requires s'.synced == s.synced
    requires s'.base == s.base && s'.baseAt == s.baseAt && s'.created == s.created && s'.named == s.named
    requires s'.dirty == s.dirty && s'.trusted == s.trusted
    requires s'.fd == s.fd && s'.cap == s.cap && s'.named in s'.files && s'.files[s.named] == s.files[s.named]
    requires s'.mode == Idle && s'.child.None? && s'.diff == [] && s'.phase == Serving
    requires s'.temp.None? || (s'.temp == s.temp && s'.temp.value in s'.files)
    ensures Solid(cfg, s')
  {
    hide EncodeAll, FileHeader, NamedOk, StoredOk, ChildOk;
    StoredLike(s, s');
    NamedLike(s, s');
  }

  lemma DiscardSolid(cfg: Config, s: State)
    requires Solid(cfg, s) && s.phase != Swapping
    ensures Solid(cfg, Discard(s)) && Solid(cfg, Cleanup(s))
  {
    hide NamedOk, StoredOk, RewriteOk, FinalOk;
    Stored(s);
    NamedThere(s);
    CleanupSolid(cfg, s, Discard(s));
    CleanupSolid(cfg, s, Cleanup(s));
  }

  lemma ReapSolid(cfg: Config, s: State)
    requires Solid(cfg, s) && Enabled(cfg, s, Reap)
    ensures Solid(cfg, Step(cfg, s, Reap))
  {
    hide NamedOk, StoredOk, EncodeAll, FileHeader, Visits, Storable, Loggable;
    DiscardSolid(cfg, s);
    var s' := Step(cfg, s, Reap);
    StoredLike(s, s');
    NamedThere(s);
    NamedLike(s, s');
  }

  lemma WaitErrorSolid(cfg: Config, s: State)
    requires Solid(cfg, s) && Enabled(cfg, s, WaitError)
    ensures Solid(cfg, Step(cfg, s, WaitError))
  {
    hide Solid, Cleanup;
    DiscardSolid(cfg, s);
  }

  lemma FinalOpenSolid(cfg: Config, s: State, ok: bool)
    requires Solid(cfg, s) && Enabled(cfg, s, FinalOpen(ok))
    ensures Solid(cfg, Step(cfg, s, FinalOpen(ok)))
  {
    hide NamedOk, StoredOk, EncodeAll, FileHeader, Visits, Storable, Loggable;
    DiscardSolid(cfg, s);
    var s' := Step(cfg, s, FinalOpen(ok));
    StoredLike(s, s');
    NamedThere(s);
    NamedLike(s, s');
  }

  lemma FinalWriteSolid(cfg: Config, s: State, ok: bool, put: nat)
    requires Solid(cfg, s) && Enabled(cfg, s, FinalWrite(ok, put))
    ensures Solid(cfg, Step(cfg, s, FinalWrite(ok, put)))
  {
    hide NamedOk, StoredOk, EncodeAll, FileHeader, Visits, Storable, Loggable;
    Stored(s);
    NamedThere(s);
    var s' := Step(cfg, s, FinalWrite(ok, put));
    if ok {
      StoredLike(s, s');
      NamedLike(s, s');
    } else {
      CleanupSolid(cfg, s, s');
    }
  }

  lemma FinalFlushSolid(cfg: Config, s: State, ok: bool)
    requires Solid(cfg, s) && Enabled(cfg, s, FinalFlush(ok))
    ensures Solid(cfg, Step(cfg, s, FinalFlush(ok)))
  {
    hide NamedOk, StoredOk, EncodeAll, FileHeader, Visits, Storable, Loggable;
    DiscardSolid(cfg, s);
    var s' := Step(cfg, s, FinalFlush(ok));
    StoredLike(s, s');
    NamedThere(s);
    NamedLike(s, s');
  }

  lemma FinalReopenSolid(cfg: Config, s: State, ok: bool)
    requires Solid(cfg, s) && Enabled(cfg, s, FinalReopen(ok))
    ensures Solid(cfg, Step(cfg, s, FinalReopen(ok)))
  {
    hide NamedOk, StoredOk, EncodeAll, FileHeader, Visits, Storable, Loggable;
    DiscardSolid(cfg, s);
    var s' := Step(cfg, s, FinalReopen(ok));
    StoredLike(s, s');
    NamedThere(s);
    NamedLike(s, s');
  }

  /** The rename switches the AOF name from the old log to a complete, durable new one. */
  lemma FinalRenameSolid(cfg: Config, s: State, ok: bool)
    requires Solid(cfg, s) && Enabled(cfg, s, FinalRename(ok))
    ensures Solid(cfg, Step(cfg, s, FinalRename(ok)))
  {
    hide StoredOk, EncodeAll, FileHeader, Visits, Storable, Loggable;
    Stored(s);
    DiscardSolid(cfg, s);
    if ok {
      var s' := Step(cfg, s, FinalRename(ok));
      var c := s.child.value;
      StoredLike(s, s');
      assert s.history[c.forkAt..|s.history|] == s.history[c.forkAt..];
    }
  }

  lemma FinalSwapSolid(cfg: Config, s: State)
    requires Solid(cfg, s) && Enabled(cfg, s, FinalSwap)
    ensures Solid(cfg, Step(cfg, s, FinalSwap))
  {
    hide NamedOk, StoredOk, EncodeAll, FileHeader, ChildOk;
    Stored(s);
    NamedThere(s);
    var s' := Step(cfg, s, FinalSwap);
    StoredLike(s, s');
    NamedLike(s, s');
  }

  /** Every event short of a crash keeps the files, the buffer and the flags in order. */
  lemma StepSolid(cfg: Config, s: State, e: Event)
    requires Solid(cfg, s) && Enabled(cfg, s, e) && !Crashes(e)
    ensures Solid(cfg, Step(cfg, s, e))
  {
    hide Solid, Step, Enabled;
    match e {
      case Mutate(r, flushOk) => MutateSolid(cfg, s, r, flushOk);
      case Unlogged(r) => UnloggedSolid(cfg, s, r);
      case Clock(now) => ClockStep(cfg, s, now);
      case Expiry(dead, now) => ExpirySolid(cfg, s, dead, now);
      case Tick(flushOk) => TickSolid(cfg, s, flushOk);
      case Fork(order) => ForkSolid(cfg, s, order);
      case ChildOpen(i, time) => ChildOpenSolid(cfg, s, i, time);
      case ChildEmit(now) => ChildEmitSolid(cfg, s, now);
      case ChildDone => ChildEndSolid(cfg, s, e);
      case ChildDie => ChildEndSolid(cfg, s, e);
      case Reap => ReapSolid(cfg, s);
      case WaitError => WaitErrorSolid(cfg, s);
      case FinalOpen(ok) => FinalOpenSolid(cfg, s, ok);
      case FinalWrite(ok, put) => FinalWriteSolid(cfg, s, ok, put);
      case FinalFlush(ok) => FinalFlushSolid(cfg, s, ok);
      case FinalReopen(ok) => FinalReopenSolid(cfg, s, ok);
      case FinalRename(ok) => FinalRenameSolid(cfg, s, ok);
      case FinalSwap => FinalSwapSolid(cfg, s);
    }
  }

  lemma ClockStep(cfg: Config, s: State, now: int)
    requires Solid(cfg, s) && Enabled(cfg, s, Clock(now))
    ensures Solid(cfg, Step(cfg, s, Clock(now)))
  {
    hide Solid;
    ClockSolid(cfg, s, now);
  }
}
