/** Every step of the append-only file keeps its records faithful to the live tables. */
module Faithfulness {

  import opened Bytes
  import opened Store
  import opened Log
  import opened Codec
  import opened Loader
  import opened LogFile
  import opened Aging
  import opened Rewrite
  import opened RewriteProofs

  predicate SameWork(c: Child, d: Child) {
    && c.snapshot == d.snapshot && c.forkAt == d.forkAt && c.bornAt == d.bornAt && c.order == d.order && c.pos == d.pos
    && c.emitted == d.emitted
  }

  /** Nothing the records stand for has changed. */
  predicate SameStory(s: State, s': State) {
    && s'.tables == s.tables && s'.time == s.time && s'.history == s.history && s'.before == s.before
    && s'.past == s.past && s'.root == s.root && s'.base == s.base && s'.baseAt == s.baseAt && s'.rootAt == s.rootAt
    && (s'.child.Some? ==> s.child.Some? && SameWork(s.child.value, s'.child.value))
  }

  lemma SameFaithful(s: State, s': State)
    requires Faithful(s) && SameStory(s, s')
    ensures Faithful(s')
  {
    hide Trail, Captures, CapturesPart, KeySet;
  }

  lemma LeadsGrows(s: State, t: Tables, n: nat, h: nat, m: Moment, s': State)
    requires Leads(s, t, n, h) && Consistent(s.tables) && HandlerRecord(m.r) && Apply(s.tables, m.r).ok
    requires s'.tables == Apply(s.tables, m.r).tables && s'.time == s.time
    requires s'.past == s.past + [m] && s'.before == s.before + [s.tables]
    requires s'.history == s.history + if m.Logged? then [m.r] else []
    ensures Leads(s', t, n, h)
  {
    hide Trail, Apply, LoggedIn;
    if m.Logged? {
      GrowSlices(s.history, m.r, h);
    }
    GrowSlices(s.past, m, n);
    LoggedInMore(s.past[n..], m);
    GrowSlices(s.before, s.tables, n);
    TrailGrows(t, s.before[n..], s.past[n..], s.tables, s.time, m);
  }

  lemma LivedFaithful(s: State, m: Moment, s': State)
    requires Faithful(s) && Consistent(s.tables) && HandlerRecord(m.r) && Apply(s.tables, m.r).ok
    requires s'.tables == Apply(s.tables, m.r).tables && s'.time == s.time
    requires s'.past == s.past + [m] && s'.before == s.before + [s.tables]
    requires s'.history == s.history + if m.Logged? then [m.r] else []
    requires s'.root == s.root && s'.base == s.base && s'.baseAt == s.baseAt && s'.rootAt == s.rootAt
    requires s'.child == s.child
    ensures Faithful(s')
  {
    hide Leads, Captures, CapturesPart, Apply;
    LeadsGrows(s, s.root, s.rootAt, s.baseAt, m, s');
    if s.child.Some? {
      LeadsGrows(s, s.child.value.snapshot, s.child.value.bornAt, s.child.value.forkAt, m, s');
    }
  }

  lemma MutateFaithful(cfg: Config, s: State, r: Record, flushOk: bool)
    requires Inv(cfg, s) && Enabled(cfg, s, Mutate(r, flushOk))
    ensures Faithful(Step(cfg, s, Mutate(r, flushOk)))
  {
    hide Encode, EncodeAll, FileHeader, Apply, EmitDiff, RewriteOk, NamedOk, StoredOk, FinalOk, Append, Faithful,
      Storable, Fits;
    Stored(s);
    StorableConsistent(s.tables);
    var s' := Step(cfg, s, Mutate(r, flushOk));
    if Apply(s.tables, r).ok {
      AppendParts(cfg, Lived(s, Moment.Logged(r)), r, Encode(r), flushOk);
      LivedFaithful(s, Moment.Logged(r), s');
    } else {
      FailureIdle(s.tables, r);
    }
  }

  /** A command that goes unlogged is remembered as such. */
  lemma UnloggedFaithful(cfg: Config, s: State, r: Record)
    requires Inv(cfg, s) && Enabled(cfg, s, Unlogged(r))
    ensures Faithful(Step(cfg, s, Unlogged(r)))
  {
    hide EncodeAll, FileHeader, Apply, RewriteOk, NamedOk, StoredOk, FinalOk, Faithful, Storable, Fits;
    Stored(s);
    StorableConsistent(s.tables);
    if Apply(s.tables, r).ok {
      LivedFaithful(s, Silent(r), Lived(s, Silent(r)));
    } else {
      FailureIdle(s.tables, r);
    }
  }

  lemma LeadsLater(s: State, t: Tables, n: nat, h: nat, now: int)
    requires Leads(s, t, n, h) && s.time <= now
    ensures Leads(s.(time := now), t, n, h)
  {
    hide Trail;
    TrailLater(t, s.before[n..], s.past[n..], s.tables, s.time, now);
  }

  lemma ClockFaithful(s: State, now: int)
    requires Faithful(s) && s.time <= now
    ensures Faithful(s.(time := now))
  {
    hide Leads, Captures, CapturesPart;
    CapturesLater(s.base, s.root, s.time, now);
    LeadsLater(s, s.root, s.rootAt, s.baseAt, now);
    if s.child.Some? {
      var c := s.child.value;
      LeadsLater(s, c.snapshot, c.bornAt, c.forkAt, now);
      CapturesPartLater(c.emitted, c.snapshot, KeySet(c.order[..c.pos]), s.time, now);
    }
  }

  lemma LeadsSheds(s: State, t: Tables, n: nat, h: nat, last: Tables)
    requires Leads(s, t, n, h) && Sheds(s.tables, last, s.time)
    ensures Leads(s.(tables := last), t, n, h)
  {
    hide Trail;
    TrailSheds(t, s.before[n..], s.past[n..], s.tables, s.time, last);
  }

  /** Expiry is not logged, and need not be. */
  lemma ExpiryFaithful(s: State, last: Tables)
    requires Faithful(s) && Sheds(s.tables, last, s.time)
    ensures Faithful(s.(tables := last))
  {
    hide Leads, Captures, CapturesPart;
    LeadsSheds(s, s.root, s.rootAt, s.baseAt, last);
    if s.child.Some? {
      LeadsSheds(s, s.child.value.snapshot, s.child.value.bornAt, s.child.value.forkAt, last);
    }
  }

  lemma ForkFaithful(s: State, order: seq<Key>)
    requires Faithful(s) && Consistent(s.tables)
    ensures Faithful(StartRewrite(s, order))
  {
    hide Trail, Captures, CapturesPart;
    var n := |s.past|;
    TrailNew(s.tables, s.time);
    assert s.before[n..] == [] && s.past[n..] == [] && s.history[|s.history|..] == [];
    NothingCaptured(s.tables, s.time);
    assert KeySet(order[..0]) == {};
  }

  lemma EmitFaithful(s: State, c: Child, i: nat, now: int)
    requires ChildFaithful(s, c) && Storable(c.snapshot) && Visits(c.order, c.snapshot) && now <= s.time && i in s.files
    requires c.pos < |c.order| && c.order[c.pos] in c.snapshot.keyspace
    requires IsInt64(SnapshotRecord(c.snapshot, c.order[c.pos]).expireAt)
    ensures var s' := EmitKey(s, c, i, now);
            && s'.child.Some? && ChildFaithful(s', s'.child.value)
            && s' == s.(child := s'.child, files := s'.files)
  {
    hide Trail, CapturesPart, SnapshotRecord, Dead, Fits, Encode, KeySet, NulFree;
    var k := c.order[c.pos];
    var visited := c.order[..c.pos + 1];
    assert visited[..c.pos] == c.order[..c.pos] && visited[c.pos] == k;
    KeySetSnoc(visited, c.pos);
    CapturesMore(c.emitted, c.snapshot, KeySet(c.order[..c.pos]), k, now, s.time);
  }

  lemma ChildEmitFaithful(cfg: Config, s: State, now: int)
    requires Inv(cfg, s) && Enabled(cfg, s, ChildEmit(now))
    ensures Faithful(Step(cfg, s, ChildEmit(now)))
  {
    hide EncodeAll, Encode, FileHeader, NamedOk, StoredOk, FinalOk, SnapshotRecord, Captures, CapturesPart, Trail,
      Visits, Storable, ChildFaithful, EmitKey;
    var s' := Step(cfg, s, ChildEmit(now));
    EmitFaithful(s, s.child.value, s.temp.value, now);
  }

  /** The child's file means the tables at the fork; with the records since then, the live ones. */
  lemma RenameFaithful(cfg: Config, s: State)
    requires Inv(cfg, s) && Enabled(cfg, s, FinalRename(true))
    ensures Faithful(Step(cfg, s, FinalRename(true)))
  {
    hide EncodeAll, Encode, FileHeader, NamedOk, StoredOk, FinalOk, Captures, CapturesPart, Trail;
    Stored(s);
    var c := s.child.value;
    assert c.order[..c.pos] == c.order;
    CapturesWhole(c.emitted, c.snapshot, KeySet(c.order), s.time);
  }

  lemma SameChild(cfg: Config, s: State, e: Event)
    requires Enabled(cfg, s, e) && (e.Tick? || e.ChildOpen? || e.ChildDone? || e.ChildDie?)
    ensures SameStory(s, Step(cfg, s, e))
  {
    hide FileHeader, Encode, Command, EmitKey, AfterKill, AfterPowerLoss, CanKill, CanLosePower, Reload;
  }

  lemma EndsSame(s: State, s': State)
    requires Ends(s, s')
    ensures SameStory(s, s')
  {}

  lemma SwapSame(cfg: Config, s: State)
    requires Enabled(cfg, s, FinalSwap)
    ensures SameStory(s, Step(cfg, s, FinalSwap))
  {}

  lemma SameStep(cfg: Config, s: State, e: Event)
    requires Enabled(cfg, s, e)
    requires e.Tick? || e.ChildOpen? || e.ChildDone? || e.ChildDie? || e.Reap? || e.WaitError? || e.FinalOpen?
          || e.FinalWrite? || e.FinalFlush? || e.FinalReopen? || e == FinalRename(false) || e.FinalSwap?
    ensures SameStory(s, Step(cfg, s, e))
  {
    hide Enabled, Step, SameStory, Ends;
    if e.Tick? || e.ChildOpen? || e.ChildDone? || e.ChildDie? {
      SameChild(cfg, s, e);
    } else if e.FinalSwap? {
      SwapSame(cfg, s);
    } else {
      EventEnds(cfg, s, e);
      EndsSame(s, Step(cfg, s, e));
    }
  }

  /** Every event short of a crash keeps the records faithful, commands that go unlogged included. */
  lemma StepFaithful(cfg: Config, s: State, e: Event)
    requires Inv(cfg, s) && Enabled(cfg, s, e) && !Crashes(e)
    ensures Faithful(Step(cfg, s, e))
  {
    hide Faithful, Solid, Encode, FileHeader, Apply, Command, EmitKey, SwitchName;
    match e {
      case Mutate(r, flushOk) => MutateFaithful(cfg, s, r, flushOk);
      case Unlogged(r) => UnloggedFaithful(cfg, s, r);
      case Clock(now) => ClockFaithful(s, now);
      case Expiry(dead, now) =>
        SolidStored(cfg, s);
        StorableConsistent(s.tables);
        ShedsDead(s.tables, dead, s.time);
        ExpiryFaithful(s, Without(s.tables, dead));
      case Fork(order) =>
        SolidStored(cfg, s);
        StorableConsistent(s.tables);
        ForkFaithful(s, order);
      case ChildEmit(now) => ChildEmitFaithful(cfg, s, now);
      case FinalRename(ok) =>
        if ok {
          RenameFaithful(cfg, s);
        } else {
          SameStep(cfg, s, e);
          SameFaithful(s, Step(cfg, s, e));
        }
      case _ =>
        SameStep(cfg, s, e);
        SameFaithful(s, Step(cfg, s, e));
    }
  }

  lemma SolidStored(cfg: Config, s: State)
    requires Solid(cfg, s)
    ensures LoggableAll(s.history) && Storable(s.tables) && |s.before| == |s.past|
  {
    hide NamedOk, RewriteOk, FinalOk;
  }
}
