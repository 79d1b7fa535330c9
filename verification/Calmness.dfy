/** Runs in which no logged deadline passes: there every reload is good and rebuilds the tables exactly. */
module Calmness {

  import opened Bytes
  import opened Store
  import opened Log
  import opened Codec
  import opened Loader
  import opened LogFile
  import opened Aging
  import opened Rewrite
  import opened RewriteProofs
  import opened Faithfulness
  import opened Recovery
  import opened Durability

  /** No deadline before `T`. */
  predicate Undying(t: Tables, T: int) {
    forall k :: k in t.expires ==> T <= t.expires[k]
  }

  ghost predicate CalmChild(T: int, c: Child) {
    Undying(c.snapshot, T) && Calm(c.emitted, T)
  }

  /** A command that leaves no deadline before `T`, and, if it is not logged, nothing else either. */
  ghost predicate CalmMoment(T: int, t: Tables, m: Moment) {
    Undying(t, T) && if m.Logged? then !Elapsed(m.r, T) else Apply(t, m.r).tables == t
  }

  /** None anywhere in the tables, past or present, or in the files. */
  ghost predicate CalmState(T: int, s: State) {
    && s.time <= T && Calm(s.history, T) && Calm(s.base, T) && Undying(s.tables, T) && Undying(s.root, T)
    && |s.before| == |s.past| && (forall i :: 0 <= i < |s.past| ==> CalmMoment(T, s.before[i], s.past[i]))
    && (s.child.Some? ==> CalmChild(T, s.child.value))
  }

  /** The event logs no deadline before `T`, reads no clock past it, and changes nothing without logging. */
  ghost predicate CalmEvent(T: int, s: State, e: Event) {
    match e
    case Mutate(r, _) => !Elapsed(r, T)
    case Unlogged(r) => Apply(s.tables, r).tables == s.tables
    case Clock(now) => now <= T
    case Kill(c) => CalmCrash(T, c)
    case PowerLoss(c, _) => CalmCrash(T, c)
    case _ => true
  }

  ghost predicate CalmCrash(T: int, c: Crash) {
    c.now <= T && forall i: nat :: c.clock(i) <= T
  }

  ghost predicate CalmRun(cfg: Config, T: int, s: State, run: seq<Event>)
    decreases |run|
  {
    run != [] ==>
      Enabled(cfg, s, run[0]) && CalmEvent(T, s, run[0]) && CalmRun(cfg, T, Step(cfg, s, run[0]), run[1..])
  }

  // ----- Reloads

  lemma UndyingHarmless(t: Tables, m: Moment, T: int, now: int)
    requires CalmMoment(T, t, m) && now <= T
    ensures Harmless(t, m, now)
  {
    hide Apply;
  }

  lemma RootWithin(s: State)
    requires Faithful(s)
    ensures s.rootAt <= |s.past|
  {
    hide Captures, CapturesPart, Trail;
  }

  lemma CalmReload(cfg: Config, T: int, s: State, clock: nat -> int, now: int)
    requires Inv(cfg, s) && CalmState(T, s) && now <= T && forall i: nat :: clock(i) <= T
    ensures GoodReload(s, clock, now)
  {
    hide RewriteOk, FinalOk, NamedOk, Storable, Undying, Harmless, Faithful, CalmMoment;
    NamedFile(cfg, s);
    NamedStarts(s);
    RootWithin(s);
    forall i | s.rootAt <= i < |s.past|
      ensures Harmless(s.before[i], s.past[i], now)
    {
      UndyingHarmless(s.before[i], s.past[i], T, now);
    }
    var log := FileLog(s);
    forall i | 0 <= i < |log|
      ensures Elapsed(log[i], clock(i)) <==> Elapsed(log[i], now)
    {
      assert clock(i) <= T;
      assert !Elapsed(log[i], T);
    }
  }

  // ----- Steps

  lemma ApplyUndying(t: Tables, r: Record, T: int)
    requires Undying(t, T) && !Elapsed(r, T)
    ensures Undying(Apply(t, r).tables, T)
  {}

  lemma MutateCalm(cfg: Config, T: int, s: State, r: Record, flushOk: bool)
    requires CalmState(T, s) && Enabled(cfg, s, Mutate(r, flushOk)) && !Elapsed(r, T)
    ensures CalmState(T, Step(cfg, s, Mutate(r, flushOk)))
  {
    hide Encode, Apply, EmitDiff, Append, Fits, Undying, CalmChild;
    var a := Apply(s.tables, r);
    ApplyUndying(s.tables, r, T);
    if a.ok {
      AppendParts(cfg, Lived(s, Moment.Logged(r)), r, Encode(r), flushOk);
    }
  }

  lemma UnloggedCalm(cfg: Config, T: int, s: State, r: Record)
    requires CalmState(T, s) && Enabled(cfg, s, Unlogged(r)) && Apply(s.tables, r).tables == s.tables
    ensures CalmState(T, Step(cfg, s, Unlogged(r)))
  {
    hide Apply, Fits, Undying, CalmChild;
  }

  lemma EmitCalm(s: State, c: Child, i: nat, now: int, T: int)
    requires CalmChild(T, c) && i in s.files && c.pos < |c.order| && c.order[c.pos] in c.snapshot.keyspace
    requires IsInt64(SnapshotRecord(c.snapshot, c.order[c.pos]).expireAt)
    ensures var s' := EmitKey(s, c, i, now);
            && s'.child.Some? && CalmChild(T, s'.child.value)
            && s' == s.(child := s'.child, files := s'.files)
  {
    hide Encode, Fits, Dead;
  }

  lemma ChildCalm(cfg: Config, T: int, s: State, e: Event)
    requires CalmState(T, s) && Enabled(cfg, s, e) && (e.ChildOpen? || e.ChildEmit? || e.ChildDone? || e.ChildDie?)
    ensures CalmState(T, Step(cfg, s, e))
  {
    hide Encode, FileHeader, Apply, Command, CanKill, CanLosePower, Reload, AfterKill, AfterPowerLoss, EmitKey,
      Undying, Calm;
    if e.ChildEmit? {
      EmitCalm(s, s.child.value, s.temp.value, e.now, T);
    }
  }

  lemma ServeCalm(cfg: Config, T: int, s: State, e: Event)
    requires CalmState(T, s) && Enabled(cfg, s, e) && CalmEvent(T, s, e)
    requires e.Clock? || e.Expiry? || e.Tick? || e.Fork?
    ensures CalmState(T, Step(cfg, s, e))
  {
    hide Encode, Apply, Command, CanKill, CanLosePower, Reload, AfterKill, AfterPowerLoss, EmitKey, Visits;
  }

  lemma SameCalm(T: int, s: State, s': State)
    requires CalmState(T, s) && SameStory(s, s')
    ensures CalmState(T, s')
  {
    hide Calm, Undying;
  }

  lemma EndCalm(cfg: Config, T: int, s: State, e: Event)
    requires CalmState(T, s) && Enabled(cfg, s, e)
    requires e.Reap? || e.WaitError? || e.FinalOpen? || e.FinalWrite? || e.FinalFlush? || e.FinalReopen?
          || e.FinalRename? || e.FinalSwap?
    ensures CalmState(T, Step(cfg, s, e))
  {
    hide CalmState, SameStory, Enabled, Step;
    if e == FinalRename(true) {
      RenameCalm(cfg, T, s);
    } else {
      SameStep(cfg, s, e);
      SameCalm(T, s, Step(cfg, s, e));
    }
  }

  lemma RenameCalm(cfg: Config, T: int, s: State)
    requires CalmState(T, s) && Enabled(cfg, s, FinalRename(true))
    ensures CalmState(T, Step(cfg, s, FinalRename(true)))
  {
    hide Calm, Undying;
  }

  lemma AliveUndying(t: Tables, T: int, now: int)
    requires Undying(t, T)
    ensures Undying(AliveAt(t, now), T)
  {
    hide AliveAt;
  }

  lemma SurvivorCalm(T: int, s: State, s': State, c: Crash)
    requires CalmState(T, s) && Survives(s, s', c) && c.now <= T && |s'.before| == |s'.past|
    ensures CalmState(T, s')
  {
    hide AliveAt, Undying, Elapsed, CalmMoment, PlaceOf;
    UndyingAt(T, s, PlaceOf(s, |s'.history|));
    AliveUndying(TablesAt(s, |s'.history|), T, c.now);
    forall i | 0 <= i < |s'.past|
      ensures CalmMoment(T, s'.before[i], s'.past[i])
    {
      assert s'.before[i] == s.before[i] && s'.past[i] == s.past[i];
    }
    forall i | 0 <= i < |s'.history|
      ensures !Elapsed(s'.history[i], T)
    {
      assert s'.history[i] == s.history[i];
    }
  }

  lemma UndyingAt(T: int, s: State, m: nat)
    requires CalmState(T, s)
    ensures Undying(At(s.before, s.tables, m), T)
  {
    hide Undying;
    if m < |s.past| {
      assert CalmMoment(T, s.before[m], s.past[m]);
    }
  }

  lemma InitCalm(cfg: Config, T: int, inode: nat, created: nat, now: int)
    requires now <= T
    ensures CalmState(T, Init(cfg, inode, created, now))
  {
    hide FileHeader;
  }

  lemma KillCalm(cfg: Config, T: int, s: State, c: Crash)
    requires Inv(cfg, s) && CalmState(T, s) && Enabled(cfg, s, Kill(c)) && CalmCrash(T, c)
    requires cfg.startCap <= cfg.maxDiff
    ensures CalmState(T, Step(cfg, s, Kill(c)))
  {
    hide Inv, CalmState, Step, Enabled, GoodReload, Survives;
    CalmReload(cfg, T, s, c.clock, c.now);
    KillKeeps(cfg, s, c);
    SolidLengths(cfg, Step(cfg, s, Kill(c)));
    SurvivorCalm(T, s, Step(cfg, s, Kill(c)), c);
  }

  lemma PowerLossCalm(cfg: Config, T: int, s: State, c: Crash, created: nat)
    requires Inv(cfg, s) && CalmState(T, s) && Enabled(cfg, s, PowerLoss(c, created)) && CalmCrash(T, c)
    requires cfg.startCap <= cfg.maxDiff
    ensures CalmState(T, Step(cfg, s, PowerLoss(c, created)))
  {
    hide Inv, CalmState, Step, Enabled, GoodReload, Survives, Init;
    CalmReload(cfg, T, s, c.clock, c.now);
    PowerLossKeeps(cfg, s, c, created);
    SolidLengths(cfg, Step(cfg, s, PowerLoss(c, created)));
    if c.cut == 0 {
      InitCalm(cfg, T, s.named, created, c.now);
    } else {
      SurvivorCalm(T, s, Step(cfg, s, PowerLoss(c, created)), c);
    }
  }

  lemma QuietCalm(cfg: Config, T: int, s: State, e: Event)
    requires CalmState(T, s) && Enabled(cfg, s, e) && CalmEvent(T, s, e) && !Crashes(e)
    ensures CalmState(T, Step(cfg, s, e))
  {
    hide CalmState, Step, Enabled;
    if e.Mutate? {
      MutateCalm(cfg, T, s, e.r, e.flushOk);
    } else if e.Unlogged? {
      UnloggedCalm(cfg, T, s, e.r);
    } else if e.Clock? || e.Expiry? || e.Tick? || e.Fork? {
      ServeCalm(cfg, T, s, e);
    } else if e.ChildOpen? || e.ChildEmit? || e.ChildDone? || e.ChildDie? {
      ChildCalm(cfg, T, s, e);
    } else {
      EndCalm(cfg, T, s, e);
    }
  }

  lemma CalmIsSound(cfg: Config, T: int, s: State, e: Event)
    requires Inv(cfg, s) && CalmState(T, s) && CalmEvent(T, s, e)
    ensures Sound(s, e)
  {
    hide Inv, CalmState, GoodReload;
    if Crashes(e) {
      CalmReload(cfg, T, s, e.c.clock, e.c.now);
    }
  }

  lemma CrashIsCalm(T: int, s: State, e: Event)
    requires CalmEvent(T, s, e) && Crashes(e)
    ensures CalmCrash(T, e.c)
  {}

  lemma CrashCalm(cfg: Config, T: int, s: State, e: Event)
    requires Inv(cfg, s) && CalmState(T, s) && Enabled(cfg, s, e) && CalmEvent(T, s, e) && Crashes(e)
    requires cfg.startCap <= cfg.maxDiff
    ensures CalmState(T, Step(cfg, s, e))
  {
    hide Inv, CalmState, Step, Enabled, CalmCrash, CalmEvent;
    CrashIsCalm(T, s, e);
    if e.Kill? {
      KillCalm(cfg, T, s, e.c);
    } else {
      PowerLossCalm(cfg, T, s, e.c, e.created);
    }
  }

  lemma StepCalm(cfg: Config, T: int, s: State, e: Event)
    requires Inv(cfg, s) && CalmState(T, s) && Enabled(cfg, s, e) && CalmEvent(T, s, e) && cfg.startCap <= cfg.maxDiff
    ensures Sound(s, e) && CalmState(T, Step(cfg, s, e))
  {
    hide Inv, CalmState, Step, Enabled, Sound, CalmEvent, Crashes;
    CalmIsSound(cfg, T, s, e);
    if Crashes(e) {
      CrashCalm(cfg, T, s, e);
    } else {
      QuietCalm(cfg, T, s, e);
    }
  }

  /** Every calm run is sound: its reloads are all good. */
  lemma {:induction false} CalmRunSound(cfg: Config, T: int, s: State, run: seq<Event>)
    requires Inv(cfg, s) && CalmState(T, s) && CalmRun(cfg, T, s, run) && cfg.startCap <= cfg.maxDiff
    ensures SoundRun(cfg, s, run) && Possible(cfg, s, run)
    ensures Inv(cfg, Final(cfg, s, run)) && CalmState(T, Final(cfg, s, run))
    decreases |run|
  {
    hide Inv, CalmState, Step, Enabled, CalmEvent, Sound;
    if run != [] {
      StepCalm(cfg, T, s, run[0]);
      StepKeeps(cfg, s, run[0]);
      CalmRunSound(cfg, T, Step(cfg, s, run[0]), run[1..]);
    }
  }

  lemma UndyingAlive(t: Tables, T: int)
    requires Undying(t, T)
    ensures AliveAt(t, T) == t
  {
    assert AliveAt(t, T).keyspace == t.keyspace;
    assert AliveAt(t, T).expires == t.expires;
  }

  /** From a fresh start through every run of commands, flushes, rewrites with all their interleavings and
      failures, kills and power losses, in which no logged deadline passes (so that expiry finds nothing to
      remove) and no command changes the tables without being logged: loading the file under the AOF name
      rebuilds exactly both live tables, to the last byte. */
  lemma NamedFileRebuildsTables(
    cfg: Config, T: int, inode: nat, created: nat, now: int, run: seq<Event>, buf: seq<byte>, clock: nat -> int)
    requires cfg.startCap <= cfg.maxDiff && now <= T && CalmRun(cfg, T, Init(cfg, inode, created, now), run)
    requires |buf| == RECORD_MAX && forall i: nat :: clock(i) <= T
    ensures Possible(cfg, Init(cfg, inode, created, now), run)
    ensures var s := Final(cfg, Init(cfg, inode, created, now), run);
            && s.named in s.files
            && var file := s.files[s.named].bytes;
               var up := Start(file, buf, clock);
               && up.Recovered? && up.loaded.tables == s.tables
               && up.loaded.validEnd == |file| && up.loaded.stop == CleanEof
  {
    hide Start, Final, CalmRun, Init, Inv, Possible, SoundRun, GoodReload, AliveAt;
    InitOk(cfg, inode, created, now);
    InitCalm(cfg, T, inode, created, now);
    CalmRunSound(cfg, T, Init(cfg, inode, created, now), run);
    var s := Final(cfg, Init(cfg, inode, created, now), run);
    CalmReload(cfg, T, s, clock, T);
    LoadsNow(cfg, s, buf, clock, T);
    UndyingAlive(s.tables, T);
  }
}
