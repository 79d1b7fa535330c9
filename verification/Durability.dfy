/** What survives: reloads, power losses, kills and rewrites over every run of the append-only file. */
module Durability {

  import opened Bytes
  import opened Store
  import opened Log
  import opened Codec
  import opened Loader
  import opened LogFile
  import opened Aging
  import opened Rewrite
  import opened RewriteProofs
  import opened Recovery

  // ----- Reloading a whole file

  lemma {:induction false} CountIsOk(log: seq<Record>, clock: nat -> int)
    ensures Replay(log, clock).ok <==> Replay(log, clock).count == |log|
  {
    hide Apply;
  }

  /** Start-up on the image of a whole log is its replay. */
  lemma StartOnImage(created: nat, log: seq<Record>, buf: seq<byte>, clock: nat -> int)
    requires LoggableAll(log) && |buf| == RECORD_MAX
    ensures var up, rp := Start(Image(created, log), buf, clock), Replay(log, clock);
            && up.Recovered? && up.loaded.tables == rp.tables && up.loaded.records == rp.count
            && up.loaded.validEnd == FILE_HEADER_SIZE + Size(log[..rp.count])
            && (rp.ok ==> up.loaded.stop == CleanEof)
  {
    hide EncodeAll, FileHeader, Start, Replay, Whole;
    var file := Image(created, log);
    assert file[..|file|] == file && log[..|log|] == log;
    StartOnCut(created, log, |file|, buf, clock);
    WholeAtLeast(log, Size(log), |log|);
  }

  lemma LoadsNow(cfg: Config, s: State, buf: seq<byte>, clock: nat -> int, T: int)
    requires Inv(cfg, s) && s.time <= T && GoodReload(s, clock, T) && |buf| == RECORD_MAX
    ensures s.named in s.files
    ensures var file := s.files[s.named].bytes;
            var up := Start(file, buf, clock);
            && up.Recovered? && up.loaded.tables == AliveAt(s.tables, T)
            && up.loaded.validEnd == |file| && up.loaded.stop == CleanEof
  {
    hide EncodeAll, FileHeader, Start, Replay, Image, Solid, Faithful, AliveAt, NamedOk, SteadyClock, Loggable;
    NamedFile(cfg, s);
    NamedThere(s);
    NamedImage(s);
    var log := FileLog(s);
    StartOnImage(s.created, log, buf, clock);
    ReplaySteady(log, clock, T);
    ShowsNow(s, T);
    assert log[..|log|] == log;
    ImageSize(s.created, log);
  }

  lemma ShowsNow(s: State, T: int)
    requires Faithful(s) && AllHarmless(s, T) && s.time <= T
    ensures s.baseAt <= |s.history| && Shows(FileLog(s), s.tables, T)
  {
    hide Trail, Captures, CapturesPart, Shows, Harmless, PlaceOf, LoggedIn;
    ShowsAt(s, |s.history|, T);
    PlaceFound(s, s.root, |s.history|);
    assert s.history[s.baseAt..|s.history|] == s.history[s.baseAt..];
  }

  lemma ImageSize(created: nat, log: seq<Record>)
    requires LoggableAll(log)
    ensures |Image(created, log)| == FILE_HEADER_SIZE + Size(log)
  {}

  /** The main theorem. After every sound run, with all its commands, logged or not, its expiry, rewrites,
      failures and crashes, loading the file under the AOF name at any later time uses every byte of it and
      shows exactly what is alive of both live tables, provided the commands since the last completed
      rewrite are harmless. */
  lemma NamedFileShowsTables(cfg: Config, s: State, buf: seq<byte>, clock: nat -> int, T: int)
    requires Reachable(cfg, s) && cfg.startCap <= cfg.maxDiff
    requires s.time <= T && GoodReload(s, clock, T) && |buf| == RECORD_MAX
    ensures s.named in s.files
    ensures var file := s.files[s.named].bytes;
            var up := Start(file, buf, clock);
            && up.Recovered? && up.loaded.tables == AliveAt(s.tables, T)
            && up.loaded.validEnd == |file| && up.loaded.stop == CleanEof
  {
    hide Reachable, Inv, Start, AliveAt, GoodReload;
    ReachableKeeps(cfg, s);
    LoadsNow(cfg, s, buf, clock, T);
  }

  /** The records that were in the file before command `m`. */
  ghost function FileAt(s: State, m: nat): (log: seq<Record>)
    requires s.rootAt <= m <= |s.past|
  {
    s.base + LoggedIn(s.past[s.rootAt..m])
  }

  /** The file as it was before command `m` reloads at `T` to exactly what was alive then, with no record
      lost. */
  ghost predicate Reloads(s: State, m: nat, buf: seq<byte>, T: int)
    requires |buf| == RECORD_MAX && s.rootAt <= m <= |s.past| && LoggableAll(FileAt(s, m))
  {
    var up := Start(Image(s.created, FileAt(s, m)), buf, Always(T));
    && up.Recovered? && up.loaded.tables == AliveAt(At(s.before, s.tables, m), T)
    && up.loaded.records == |FileAt(s, m)| && up.loaded.stop == CleanEof
  }

  lemma ReloadsIffShows(s: State, m: nat, buf: seq<byte>, T: int)
    requires |buf| == RECORD_MAX && s.rootAt <= m <= |s.past| && LoggableAll(FileAt(s, m))
    ensures Reloads(s, m, buf, T) <==> Shows(FileAt(s, m), At(s.before, s.tables, m), T)
  {
    hide EncodeAll, FileHeader, Start, Replay, Image, AliveAt, Loggable, FileAt;
    StartOnImage(s.created, FileAt(s, m), buf, Always(T));
    CountIsOk(FileAt(s, m), Always(T));
  }

  /** Its records are the first of those in the file now. */
  lemma FileAtLoggable(s: State, m: nat)
    requires Leads(s, s.root, s.rootAt, s.baseAt) && LoggableAll(s.base) && LoggableAll(s.history)
    requires s.rootAt <= m <= |s.past|
    ensures LoggableAll(FileAt(s, m)) && FileAt(s, m) <= FileLog(s)
    ensures s.past[s.rootAt..][..m - s.rootAt] == s.past[s.rootAt..m]
  {
    hide Trail, Loggable, LoggedIn;
    var ms, n := s.past[s.rootAt..], m - s.rootAt;
    assert ms[..n] == s.past[s.rootAt..m];
    LoggedInPrefix(ms, n);
  }

  lemma {:induction false} LoggedInPrefix(ms: seq<Moment>, n: nat)
    requires n <= |ms|
    ensures LoggedIn(ms[..n]) <= LoggedIn(ms)
    decreases |ms|
  {
    if n == |ms| {
      assert ms[..n] == ms;
    } else {
      var l := |ms| - 1;
      LoggedInPrefix(ms[..l], n);
      assert ms[..l][..n] == ms[..n];
    }
  }

  /** Every moment since the last completed rewrite reloads exactly. */
  ghost predicate AllReload(s: State, buf: seq<byte>, T: int)
    requires |buf| == RECORD_MAX
  {
    forall m :: s.rootAt <= m <= |s.past| ==> LoggableAll(FileAt(s, m)) && Reloads(s, m, buf, T)
  }

  /** In every reachable state and for every later time: all moments since the last completed rewrite reload
      exactly if and only if every command since its fork is harmless, that is, repeatable if it was logged
      and invisible by then if it was not. A completed rewrite thus mends whatever was harmful before it. */
  lemma ReloadsExactlyIff(cfg: Config, s: State, buf: seq<byte>, T: int)
    requires Reachable(cfg, s) && cfg.startCap <= cfg.maxDiff && s.time <= T && |buf| == RECORD_MAX
    ensures AllReload(s, buf, T) <==> AllHarmless(s, T)
  {
    hide Reachable, Reloads, Trail, Captures, CapturesPart, Shows, Harmless, Loggable, RewriteOk, FinalOk, Storable,
      FileHeader, EncodeAll, LoggedIn, FileAt;
    ReachableKeeps(cfg, s);
    var bs, ms := s.before[s.rootAt..], s.past[s.rootAt..];
    CapturesLater(s.base, s.root, s.time, T);
    TrailLater(s.root, bs, ms, s.tables, s.time, T);
    ReloadExactIff(s.base, s.root, bs, ms, s.tables, T);
    forall m | s.rootAt <= m <= |s.past|
      ensures LoggableAll(FileAt(s, m)) && (Reloads(s, m, buf, T) <==> ShowsMoment(s, m - s.rootAt, T))
    {
      FileAtLoggable(s, m);
      ReloadsIffShows(s, m, buf, T);
      MomentShown(s, m, T);
    }
    Shifted(s, buf, T);
  }

  /** The `i`-th moment since the snapshot, as the log since then shows it. */
  ghost predicate ShowsMoment(s: State, i: nat, T: int)
    requires s.rootAt <= |s.past| == |s.before| && i <= |s.past| - s.rootAt
  {
    Shows(s.base + LoggedIn(s.past[s.rootAt..][..i]), At(s.before[s.rootAt..], s.tables, i), T)
  }

  lemma MomentShown(s: State, m: nat, T: int)
    requires s.rootAt <= m <= |s.past| == |s.before|
    ensures ShowsMoment(s, m - s.rootAt, T) <==> Shows(FileAt(s, m), At(s.before, s.tables, m), T)
  {
    hide Shows, LoggedIn;
    assert s.past[s.rootAt..][..m - s.rootAt] == s.past[s.rootAt..m];
    assert At(s.before[s.rootAt..], s.tables, m - s.rootAt) == At(s.before, s.tables, m);
  }

  lemma Shifted(s: State, buf: seq<byte>, T: int)
    requires |buf| == RECORD_MAX && s.rootAt <= |s.past| == |s.before| && s.baseAt <= |s.history|
    requires forall m :: s.rootAt <= m <= |s.past| ==>
               LoggableAll(FileAt(s, m)) && (Reloads(s, m, buf, T) <==> ShowsMoment(s, m - s.rootAt, T))
    requires (forall i :: 0 <= i <= |s.past[s.rootAt..]| ==>
                Shows(s.base + LoggedIn(s.past[s.rootAt..][..i]), At(s.before[s.rootAt..], s.tables, i), T))
        <==> (forall i :: 0 <= i < |s.past[s.rootAt..]| ==>
                Harmless(s.before[s.rootAt..][i], s.past[s.rootAt..][i], T))
    ensures AllReload(s, buf, T) <==> AllHarmless(s, T)
  {
    hide Reloads, Shows, Harmless, Loggable, At, LoggedIn, FileAt;
    var bs, ms, n := s.before[s.rootAt..], s.past[s.rootAt..], s.rootAt;
    if AllReload(s, buf, T) {
      forall i | 0 <= i <= |ms|
        ensures Shows(s.base + LoggedIn(ms[..i]), At(bs, s.tables, i), T)
      {
        assert Reloads(s, n + i, buf, T);
        assert ShowsMoment(s, n + i - n, T);
      }
      forall i | n <= i < |s.past|
        ensures Harmless(s.before[i], s.past[i], T)
      {
        assert Harmless(bs[i - n], ms[i - n], T);
      }
    }
    if AllHarmless(s, T) {
      forall i | 0 <= i < |ms|
        ensures Harmless(bs[i], ms[i], T)
      {
        assert Harmless(s.before[n + i], s.past[n + i], T);
      }
      forall m | n <= m <= |s.past|
        ensures LoggableAll(FileAt(s, m)) && Reloads(s, m, buf, T)
      {
        assert Shows(s.base + LoggedIn(ms[..m - n]), At(bs, s.tables, m - n), T);
        assert ShowsMoment(s, m - n, T);
      }
    }
  }

  // ----- How far the harm goes

  /** No command on key `k` since the last completed rewrite is harmful. */
  ghost predicate KeyUntroubled(s: State, T: int, k: Key) {
    s.rootAt <= |s.past| == |s.before| && Untroubled(s.before[s.rootAt..], s.past[s.rootAt..], T, k)
  }

  /** In every reachable state: if a reload of the named file gets through, every key without a harmful
      command, logged or not, comes back exactly; and if it stops early, it stops at a record of a key that
      had a harmful command then or before. */
  lemma HarmStaysWithKeys(cfg: Config, s: State, buf: seq<byte>, T: int)
    requires Reachable(cfg, s) && cfg.startCap <= cfg.maxDiff && s.time <= T && |buf| == RECORD_MAX
    ensures s.named in s.files && s.rootAt <= |s.past| == |s.before|
    ensures var up := Start(s.files[s.named].bytes, buf, Always(T));
            && up.Recovered?
            && (up.loaded.stop == CleanEof ==>
                  forall k :: KeyUntroubled(s, T, k) ==> AgreeOn(up.loaded.tables, AliveAt(s.tables, T), k))
            && (up.loaded.stop != CleanEof ==>
                  exists m :: StopsAt(s, m, up.loaded.records, T))
  {
    hide Reachable, Inv, Start, Replay, Image, AliveAt, Loggable, NamedOk, Trail, Captures, LoggedIn, Untroubled,
      AgreeOn, EncodeAll, Solid, CapturesPart;
    ReachableKeeps(cfg, s);
    InvParts(cfg, s);
    NamedFile(cfg, s);
    NamedThere(s);
    NamedImage(s);
    var log, bs, ms := FileLog(s), s.before[s.rootAt..], s.past[s.rootAt..];
    StartOnImage(s.created, log, buf, Always(T));
    StopKind(s.created, log, buf, Always(T));
    CapturesLater(s.base, s.root, s.time, T);
    TrailLater(s.root, bs, ms, s.tables, s.time, T);
    if Replay(log, Always(T)).ok {
      forall k | KeyUntroubled(s, T, k)
        ensures AgreeOn(Replay(log, Always(T)).tables, AliveAt(s.tables, T), k)
      {
        UntroubledKeysShow(s.base, s.root, bs, ms, s.tables, T, k);
      }
    } else {
      var n := StopsOnlyAtTroubledKey(s.base, s.root, bs, ms, s.tables, T);
      assert ms[..n] == s.past[s.rootAt..s.rootAt + n];
      assert ms[..n + 1] == s.past[s.rootAt..s.rootAt + n + 1] && bs[..n + 1] == s.before[s.rootAt..s.rootAt + n + 1];
      assert StopsAt(s, s.rootAt + n, Replay(log, Always(T)).count, T);
    }
  }

  /** Command `m` is the one whose record the reload stops at, after `records` records, and its key had a
      harmful command by then. */
  ghost predicate StopsAt(s: State, m: nat, records: nat, T: int) {
    && s.rootAt <= m < |s.past| == |s.before| && s.past[m].Logged? && records == |FileAt(s, m)|
    && !Untroubled(s.before[s.rootAt..m + 1], s.past[s.rootAt..m + 1], T, s.past[m].r.key)
  }

  lemma InvParts(cfg: Config, s: State)
    requires Inv(cfg, s)
    ensures Solid(cfg, s) && Captures(s.base, s.root, s.time) && Leads(s, s.root, s.rootAt, s.baseAt)
  {
    hide Solid, Captures, Trail, CapturesPart;
  }

  lemma StopKind(created: nat, log: seq<Record>, buf: seq<byte>, clock: nat -> int)
    requires LoggableAll(log) && |buf| == RECORD_MAX
    ensures var up := Start(Image(created, log), buf, clock);
            up.Recovered? && (up.loaded.stop == CleanEof <==> Replay(log, clock).ok)
  {
    hide EncodeAll, FileHeader, Start, Replay, Whole;
    var file := Image(created, log);
    assert file[..|file|] == file && log[..|log|] == log;
    StartOnCut(created, log, |file|, buf, clock);
    WholeAtLeast(log, Size(log), |log|);
  }

  /** At every point of every sound run, whatever part of the file past its flushed part a power loss takes
      away: the next start-up refuses the file exactly if the cut falls within its header, and otherwise
      gives what is alive of the tables of some moment of the history that includes every flushed record. */
  lemma AnyCrashRecovers(cfg: Config, s: State, c: Crash)
    requires Reachable(cfg, s) && cfg.startCap <= cfg.maxDiff && CanLosePower(s, c) && GoodReload(s, c.clock, c.now)
    ensures Reload(s, c) == Refused <==> 0 < c.cut < FILE_HEADER_SIZE
    ensures c.cut == 0 ==> Reload(s, c) == Fresh
    ensures c.cut < FILE_HEADER_SIZE ==> s.synced == 0
    ensures FILE_HEADER_SIZE <= c.cut ==>
              && Reload(s, c).Recovered?
              && exists j ::
                   s.synced <= j <= |s.history| && Reload(s, c).loaded.tables == AliveAt(TablesAt(s, j), c.now)
  {
    hide Reachable, Solid, Faithful, AliveAt, GoodReload, Reload, CanLosePower, TablesAt;
    ReachableKeeps(cfg, s);
    RefusedIff(cfg, s, c);
    if FILE_HEADER_SIZE <= c.cut {
      var j, l := CrashRecovers(cfg, s, c);
    }
  }

  // ----- What was flushed stays

  /** Nothing flushed is forgotten. */
  predicate Retains(s: State, f: State) {
    s.synced <= |s.history| && s.synced <= f.synced && s.history[..s.synced] <= f.history
  }

  lemma MutateRetains(cfg: Config, s: State, r: Record, flushOk: bool)
    requires Enabled(cfg, s, Mutate(r, flushOk)) && s.synced <= |s.history|
    ensures var s' := Step(cfg, s, Mutate(r, flushOk));
            s.history <= s'.history && s.synced <= s'.synced
  {
    hide Encode, Apply, EmitDiff, Append, Fits;
    var a := Apply(s.tables, r);
    if a.ok {
      AppendParts(cfg, Lived(s, Moment.Logged(r)), r, Encode(r), flushOk);
    }
  }

  lemma ServingRetains(cfg: Config, s: State, e: Event)
    requires Enabled(cfg, s, e) && s.synced <= |s.history|
    requires e.Unlogged? || e.Clock? || e.Expiry? || e.Tick? || e.Fork?
    ensures Step(cfg, s, e).history == s.history && s.synced <= Step(cfg, s, e).synced
  {
    hide Encode, FileHeader, Apply, Command, CanKill, CanLosePower, Reload, AfterKill, AfterPowerLoss, EmitKey;
  }

  lemma SwitchRetains(cfg: Config, s: State, e: Event)
    requires Enabled(cfg, s, e) && s.synced <= |s.history| && (e == FinalRename(true) || e == FinalSwap)
    ensures Step(cfg, s, e).history == s.history && s.synced <= Step(cfg, s, e).synced
  {
    hide Encode, FileHeader, CanKill, CanLosePower, Reload, AfterKill, AfterPowerLoss, EmitKey;
  }

  lemma FinalRetains(cfg: Config, s: State, e: Event)
    requires Enabled(cfg, s, e) && s.synced <= |s.history|
    requires e.Reap? || e.WaitError? || e.FinalOpen? || e.FinalWrite? || e.FinalFlush? || e.FinalReopen?
          || e.FinalRename? || e.FinalSwap?
    ensures Step(cfg, s, e).history == s.history && s.synced <= Step(cfg, s, e).synced
  {
    hide Enabled, Step;
    if e == FinalRename(true) || e == FinalSwap {
      SwitchRetains(cfg, s, e);
    } else {
      EventEnds(cfg, s, e);
    }
  }

  lemma QuietRetains(cfg: Config, s: State, e: Event)
    requires Enabled(cfg, s, e) && !Crashes(e) && s.synced <= |s.history|
    ensures s.history <= Step(cfg, s, e).history && s.synced <= Step(cfg, s, e).synced
  {
    hide Enabled, Step;
    if e.Mutate? {
      MutateRetains(cfg, s, e.r, e.flushOk);
    } else if e.Unlogged? || e.Clock? || e.Expiry? || e.Tick? || e.Fork? {
      ServingRetains(cfg, s, e);
    } else if e.ChildOpen? || e.ChildEmit? || e.ChildDone? || e.ChildDie? {
      ChildWorks(cfg, s, e);
    } else {
      FinalRetains(cfg, s, e);
    }
  }

  lemma SyncedBound(cfg: Config, s: State)
    requires Solid(cfg, s)
    ensures s.synced <= |s.history|
  {
    hide RewriteOk, FinalOk, Storable, EncodeAll, FileHeader;
  }

  lemma StepRetains(cfg: Config, s: State, e: Event)
    requires Inv(cfg, s) && Enabled(cfg, s, e) && Sound(s, e) && cfg.startCap <= cfg.maxDiff
    ensures Retains(s, Step(cfg, s, e))
  {
    hide Inv, Solid, Faithful, Enabled, Step, GoodReload, AliveAt;
    SolidPart(cfg, s);
    SyncedBound(cfg, s);
    match e {
      case Kill(c) => KillKeeps(cfg, s, c);
      case PowerLoss(c, created) => PowerLossKeeps(cfg, s, c, created);
      case _ => QuietRetains(cfg, s, e);
    }
  }

  lemma SolidPart(cfg: Config, s: State)
    requires Inv(cfg, s)
    ensures Solid(cfg, s)
  {
    hide Solid, Faithful;
  }

  lemma RetainsOn(s: State, t: State, f: State)
    requires Retains(s, t) && Retains(t, f)
    ensures Retains(s, f)
  {
    var n := s.synced;
    assert t.history[..t.synced][..n] == t.history[..n] == s.history[..n];
    assert f.history[..n] == f.history[..t.synced][..n];
  }

  /** Durability over runs: the records flushed by now keep their places in the history, and stay flushed,
      through every later command, rewrite, failure and crash. */
  lemma {:induction false} FlushedStays(cfg: Config, s: State, run: seq<Event>)
    requires Inv(cfg, s) && SoundRun(cfg, s, run) && cfg.startCap <= cfg.maxDiff
    ensures Possible(cfg, s, run) && Retains(s, Final(cfg, s, run))
    decreases |run|
  {
    hide Inv, Step, Enabled, Sound, Retains;
    if run == [] {
      SolidPart(cfg, s);
      SyncedBound(cfg, s);
      RetainsSelf(s);
    } else {
      var s' := Step(cfg, s, run[0]);
      StepKeeps(cfg, s, run[0]);
      StepRetains(cfg, s, run[0]);
      FlushedStays(cfg, s', run[1..]);
      RetainsOn(s, s', Final(cfg, s', run[1..]));
    }
  }

  lemma RetainsSelf(s: State)
    requires s.synced <= |s.history|
    ensures Retains(s, s)
  {}

  lemma AlwaysFlushes(cfg: Config, s: State, r: Record)
    requires Enabled(cfg, s, Mutate(r, true)) && cfg.policy == FlushAlways && Apply(s.tables, r).ok
    ensures var s' := Step(cfg, s, Mutate(r, true));
            s'.history == s.history + [r] && s'.synced == |s'.history|
  {
    hide Encode, Apply, GrownCap, Commanded, Fits;
  }

  /** Under the always policy, a command whose append succeeded is never lost: it keeps its place in the
      history through every later run, and no power loss at the end of it takes it away. */
  lemma AlwaysIsDurable(cfg: Config, s: State, r: Record, run: seq<Event>, c: Crash)
    requires Inv(cfg, s) && Enabled(cfg, s, Mutate(r, true)) && cfg.policy == FlushAlways && Apply(s.tables, r).ok
    requires cfg.startCap <= cfg.maxDiff && SoundRun(cfg, Step(cfg, s, Mutate(r, true)), run)
    ensures Possible(cfg, Step(cfg, s, Mutate(r, true)), run)
    ensures var f := Final(cfg, Step(cfg, s, Mutate(r, true)), run);
            && |s.history| < f.synced <= |f.history| && f.history[|s.history|] == r
            && (CanLosePower(f, c) && GoodReload(f, c.clock, c.now) ==>
                  && FILE_HEADER_SIZE <= c.cut && Reload(f, c).Recovered?
                  && exists j ::
                       |s.history| < j <= |f.history| && Reload(f, c).loaded.tables == AliveAt(TablesAt(f, j), c.now))
  {
    hide Inv, Step, Enabled, SoundRun, Possible, Final, GoodReload, CanLosePower, Reload, AliveAt, TablesAt, Apply;
    var s' := Step(cfg, s, Mutate(r, true));
    AlwaysFlushes(cfg, s, r);
    MutateSound(s, r);
    StepKeeps(cfg, s, Mutate(r, true));
    FlushedStays(cfg, s', run);
    RunKeeps(cfg, s', run);
    var f := Final(cfg, s', run);
    SolidPart(cfg, f);
    SyncedBound(cfg, f);
    assert s'.history[..s'.synced] == s'.history && s'.history[|s.history|] == r;
    if CanLosePower(f, c) && GoodReload(f, c.clock, c.now) {
      RefusedIff(cfg, f, c);
      var j, l := CrashRecovers(cfg, f, c);
      RecoveredParts(f, j, l, c.now);
    }
  }

  /** A tick that finds the log dirty, and a device that obliges, put all of it on the device. A tick whose
      flush fails leaves it dirty, one that finds it clean does nothing. */
  lemma TickFlushes(cfg: Config, s: State, flushOk: bool)
    requires Enabled(cfg, s, Tick(flushOk))
    ensures var s' := Step(cfg, s, Tick(flushOk));
            && s'.fd == s.fd && s'.fd in s'.files && s'.files[s'.fd].bytes == s.files[s.fd].bytes
            && s'.history == s.history && s'.tables == s.tables && s'.mode == s.mode
            && (s.dirty && flushOk ==>
                  !s'.dirty && s'.synced == |s'.history| && s'.files[s'.fd].flushed == |s'.files[s'.fd].bytes|)
            && (!s.dirty || !flushOk ==> s' == s)
  {}

  /** Under the per-tick policy, every record appended before a successful tick keeps its place in the history
      through every later run, and no power loss at the end of it takes it away. */
  lemma TickIsDurable(cfg: Config, s: State, run: seq<Event>, c: Crash)
    requires Inv(cfg, s) && Enabled(cfg, s, Tick(true)) && s.dirty && cfg.startCap <= cfg.maxDiff
    requires SoundRun(cfg, Step(cfg, s, Tick(true)), run)
    ensures Possible(cfg, Step(cfg, s, Tick(true)), run)
    ensures var f := Final(cfg, Step(cfg, s, Tick(true)), run);
            && |s.history| <= f.synced <= |f.history| && s.history <= f.history
            && (CanLosePower(f, c) && GoodReload(f, c.clock, c.now) && s.history != [] ==>
                  && FILE_HEADER_SIZE <= c.cut && Reload(f, c).Recovered?
                  && exists j ::
                       |s.history| <= j <= |f.history| && Reload(f, c).loaded.tables == AliveAt(TablesAt(f, j), c.now))
  {
    hide Inv, Step, Enabled, SoundRun, Possible, Final, GoodReload, CanLosePower, Reload, AliveAt, TablesAt;
    var s' := Step(cfg, s, Tick(true));
    TickFlushes(cfg, s, true);
    StepKeeps(cfg, s, Tick(true));
    FlushedStays(cfg, s', run);
    RunKeeps(cfg, s', run);
    var f := Final(cfg, s', run);
    SolidPart(cfg, f);
    SyncedBound(cfg, f);
    assert s'.history[..s'.synced] == s.history;
    if CanLosePower(f, c) && GoodReload(f, c.clock, c.now) && s.history != [] {
      RefusedIff(cfg, f, c);
      var j, l := CrashRecovers(cfg, f, c);
      RecoveredParts(f, j, l, c.now);
    }
  }

  lemma MutateSound(s: State, r: Record)
    ensures Sound(s, Mutate(r, true))
  {}

  lemma RecoveredParts(s: State, j: nat, l: Loaded, T: int)
    requires RecoveredTo(s, j, l, T)
    ensures j <= |s.history| && l.tables == AliveAt(TablesAt(s, j), T) && l.records == |s.base| + j - s.baseAt
    ensures s.baseAt <= j
  {
    hide Loggable, EncodeAll, AliveAt;
  }

  // ----- What the dirty flag is worth

  /** A power loss that leaves `cut` bytes loses no record, unless start-up refuses the file outright. */
  ghost predicate KeepsAll(s: State, c: Crash, cut: nat)
    requires CanLosePower(s, c.(cut := cut)) && s.baseAt <= |s.history|
  {
    match Reload(s, c.(cut := cut))
    case Refused => true
    case Fresh => FileLog(s) == []
    case Recovered(l) => l.records == |FileLog(s)|
  }

  ghost predicate LosesNothing(s: State, c: Crash)
    requires s.baseAt <= |s.history|
  {
    forall cut :: 0 <= cut && CanLosePower(s, c.(cut := cut)) ==> KeepsAll(s, c, cut)
  }

  lemma CoveredKeepsAll(cfg: Config, s: State, c: Crash, cut: nat)
    requires Inv(cfg, s) && CanLosePower(s, c.(cut := cut)) && GoodReload(s, c.clock, c.now) && s.synced == |s.history|
    ensures s.baseAt <= |s.history| && KeepsAll(s, c, cut)
  {
    hide Solid, Faithful, AliveAt, Reload, CanLosePower, SteadyClock, Harmless, TablesAt, Loggable, Size;
    var d := c.(cut := cut);
    NamedFile(cfg, s);
    NamedStarts(s);
    RefusedIff(cfg, s, d);
    if FILE_HEADER_SIZE <= cut {
      var j, l := CrashRecovers(cfg, s, d);
      RecoveredParts(s, j, l, c.now);
    } else {
      FlushedNothing(s);
    }
  }

  lemma NamedStarts(s: State)
    requires LoggableAll(s.history) && NamedOk(s)
    ensures s.named in s.files && LoggableAll(s.base) && s.baseAt <= s.synced <= |s.history|
    ensures !s.dirty ==> (s.trusted <==> s.synced == |s.history|)
  {
    hide EncodeAll, FileHeader, Loggable;
  }

  lemma FlushedNothing(s: State)
    requires LoggableAll(s.history) && NamedOk(s) && s.files[s.named].flushed == 0
    ensures s.base == [] && s.baseAt == 0 && s.synced == 0
  {
    hide EncodeAll, Loggable;
  }

  /** Cut at the end of the flushed part, the file loses every record after it. */
  lemma FlushedOnly(cfg: Config, s: State, c: Crash)
    requires Inv(cfg, s) && CanCrash(s, c) && GoodReload(s, c.clock, c.now) && s.synced < |s.history|
    ensures s.baseAt <= |s.history| && CanLosePower(s, c.(cut := s.files[s.named].flushed))
    ensures !KeepsAll(s, c, s.files[s.named].flushed)
  {
    hide RewriteOk, FinalOk, Faithful, AliveAt, Reload, SteadyClock, Harmless, TablesAt, Loggable, EncodeAll,
      FileHeader,
      Storable, Whole, RecoversWhole, Encode;
    var flushed := s.files[s.named].flushed;
    var d := c.(cut := flushed);
    FlushedWithin(s);
    CanCutShort(s, c, flushed);
    RefusedIff(cfg, s, d);
    if flushed == 0 {
      FlushedNothing(s);
    } else {
      var j, l := CrashRecovers(cfg, s, d);
      RecoveredParts(s, j, l, c.now);
      RecoveredSize(s, j, l, c.now);
      ReloadWithin(s, d, l);
      var kept := s.history[s.baseAt..j];
      SlicesOfPrefix(s.history, s.baseAt, s.synced, j);
      SizeGrows(kept, s.synced - s.baseAt);
    }
  }

  lemma RecoveredSize(s: State, j: nat, l: Loaded, T: int)
    requires RecoveredTo(s, j, l, T)
    ensures LoggableAll(s.base) && LoggableAll(s.history) && s.baseAt <= j <= |s.history|
    ensures l.validEnd == FILE_HEADER_SIZE + Size(s.base) + Size(s.history[s.baseAt..j])
  {
    hide Loggable, EncodeAll, AliveAt;
  }

  lemma CanCutShort(s: State, c: Crash, cut: nat)
    requires CanCrash(s, c) && s.files[s.named].flushed <= cut <= |s.files[s.named].bytes|
    ensures CanLosePower(s, c.(cut := cut))
  {
    hide Encode;
    EncodedNotEmpty(c.r);
  }

  /** In every reachable state with a clear dirty flag: no power loss can lose a record if and only if a
      flush has happened since the last start, or the file was fully flushed when it was read then. The
      flag alone does not say so: start-up clears it and flushes nothing. */
  lemma ClearFlagIff(cfg: Config, s: State, c: Crash)
    requires Reachable(cfg, s) && cfg.startCap <= cfg.maxDiff && !s.dirty
    requires CanCrash(s, c) && GoodReload(s, c.clock, c.now)
    ensures s.baseAt <= |s.history|
    ensures LosesNothing(s, c) <==> s.trusted
  {
    hide Reachable, Inv, GoodReload, KeepsAll, CanCrash, CanLosePower;
    ReachableKeeps(cfg, s);
    SolidPart(cfg, s);
    NamedFile(cfg, s);
    NamedStarts(s);
    if s.trusted {
      forall cut: nat | CanLosePower(s, c.(cut := cut))
        ensures KeepsAll(s, c, cut)
      {
        CoveredKeepsAll(cfg, s, c, cut);
      }
    } else {
      FlushedOnly(cfg, s, c);
    }
  }

  // ----- A clear flag that is worth nothing

  /** One logged command on a fresh server that does not flush. */
  lemma FirstCommand(cfg: Config, inode: nat, created: nat, now: int, r: Record, flushOk: bool)
    requires cfg.policy != FlushAlways && Commanded(r) && Fits(r) && Apply(EMPTY, r).ok && !Elapsed(r, now)
    ensures var s := Init(cfg, inode, created, now);
            && Enabled(cfg, s, Mutate(r, flushOk))
            && var s1 := Step(cfg, s, Mutate(r, flushOk));
               && s1.history == [r] && s1.past == [Moment.Logged(r)] && s1.before == [EMPTY] && s1.synced == 0
               && s1.baseAt == 0 && s1.rootAt == 0 && s1.base == []
               && s1.time == now && s1.phase == Serving && s1.named == inode && inode in s1.files
               && s1.files[inode].flushed == 0
  {
    hide Encode, FileHeader, Apply;
  }

  lemma FirstIsHarmless(s: State, r: Record, now: int)
    requires s.history == [r] && s.past <= [Moment.Logged(r)] && s.before <= [EMPTY] && |s.before| == |s.past|
    requires s.baseAt == 0 && s.rootAt == 0 && s.base == [] && !Elapsed(r, now)
    ensures GoodReload(s, Always(now), now)
  {
    assert forall i :: Always(now)(i) == now;
  }

  /** A command acknowledged without a flush, the process killed and started again: the flag is clear, and
      cutting the power now loses the record. */
  lemma KilledThenLost(
    cfg: Config, inode: nat, created: nat, now: int, r: Record, flushOk: bool, buf: seq<byte>, again: nat)
    returns (run: seq<Event>, loss: Event)
    requires cfg.policy != FlushAlways && cfg.startCap <= cfg.maxDiff && |buf| == RECORD_MAX
    requires Commanded(r) && Fits(r) && Apply(EMPTY, r).ok && !Elapsed(r, now)
    ensures var s := Init(cfg, inode, created, now);
            && SoundRun(cfg, s, run) && Possible(cfg, s, run)
            && var f := Final(cfg, s, run);
               && !f.dirty && f.history == [r]
               && loss.PowerLoss? && Enabled(cfg, f, loss) && Sound(f, loss)
               && Step(cfg, f, loss) == Init(cfg, inode, again, now)
  {
    hide Encode, FileHeader, Apply, Init, GoodReload, Inv, Reload, Commanded, Fits, Command;
    var s := Init(cfg, inode, created, now);
    FirstCommand(cfg, inode, created, now, r, flushOk);
    var s1 := Step(cfg, s, Mutate(r, flushOk));
    CommandLoggable(r);
    EncodedNotEmpty(r);
    InitOk(cfg, inode, created, now);
    StepKeeps(cfg, s, Mutate(r, flushOk));
    FirstIsHarmless(s1, r, now);
    var c := Crash(r, |s1.files[inode].bytes|, buf, Always(now), now);
    KillPossible(cfg, s1, c);
    var s2 := Step(cfg, s1, Kill(c));
    KillKeeps(cfg, s1, c);
    KillFlushes(cfg, s1, c);
    run := [Mutate(r, flushOk), Kill(c)];
    TwoEvents(cfg, s, Mutate(r, flushOk), Kill(c));
    SolidLengths(cfg, s2);
    FirstIsHarmless(s2, r, now);
    var d := c.(cut := 0);
    loss := PowerLoss(d, again);
    SolidPart(cfg, s2);
    NamedFile(cfg, s2);
    NamedThere(s2);
    ReloadCut(s2, d);
  }

  lemma SolidLengths(cfg: Config, s: State)
    requires Inv(cfg, s)
    ensures |s.before| == |s.past|
  {
    hide NamedOk, RewriteOk, FinalOk, Faithful;
  }

  lemma KillPossible(cfg: Config, s: State, c: Crash)
    requires Inv(cfg, s) && CanKill(s, c)
    ensures Enabled(cfg, s, Kill(c))
  {
    hide Solid, Faithful, Reload, NamedOk, RecoversWhole, Encode;
    NamedFile(cfg, s);
    FlushedWithin(s);
    ReloadCut(s, c);
  }

  lemma KillFlushes(cfg: Config, s: State, c: Crash)
    requires Enabled(cfg, s, Kill(c)) && s.files[s.named].flushed == 0
    ensures var s' := Step(cfg, s, Kill(c));
            s'.named == s.named && s'.named in s'.files && s'.files[s'.named].flushed == 0
            && s'.baseAt == s.baseAt && s'.rootAt == s.rootAt && s'.base == s.base && s'.phase == Serving
  {
    hide Reload, Remains, Encode;
  }

  lemma TwoEvents(cfg: Config, s: State, d: Event, e: Event)
    requires Enabled(cfg, s, d) && Sound(s, d)
    requires Enabled(cfg, Step(cfg, s, d), e) && Sound(Step(cfg, s, d), e)
    ensures SoundRun(cfg, s, [d, e]) && Possible(cfg, s, [d, e])
    ensures Final(cfg, s, [d, e]) == Step(cfg, Step(cfg, s, d), e)
  {
    hide Enabled, Step, Sound;
    var s' := Step(cfg, s, d);
    assert [d, e][1..] == [e] && [e][1..] == [];
    assert SoundRun(cfg, Step(cfg, s', e), []) && Possible(cfg, Step(cfg, s', e), []);
    assert SoundRun(cfg, s', [e]) && Possible(cfg, s', [e]) && Final(cfg, s', [e]) == Step(cfg, s', e);
  }

  // ----- Commands too large for a record

  /** As long as the commands before it are harmless, a command that succeeded and made a difference a reader
      can see at `T` shows after a reload at `T` if and only if its record fits the record buffer. Durability
      holds of the append's result, not of the reply; and after one visible command that went unlogged, not
      even of that (`UnloggedLosesLater`). */
  lemma SurvivesReloadIffFits(
    cfg: Config, s: State, r: Record, flushOk: bool, buf: seq<byte>, T: int)
    requires Inv(cfg, s) && s.phase == Serving && |buf| == RECORD_MAX && s.time <= T && cfg.startCap <= cfg.maxDiff
    requires AllHarmless(s, T) && Commanded(r) && Repeatable(s.tables, r, T) && Apply(s.tables, r).ok
    requires AliveAt(Apply(s.tables, r).tables, T) != AliveAt(s.tables, T)
    ensures s.fd in s.files && IsInt64(r.expireAt)
    ensures var s' := Handled(cfg, s, r, flushOk);
            && s'.tables == Apply(s.tables, r).tables && s'.named in s'.files
            && var up := Start(s'.files[s'.named].bytes, buf, Always(T));
               up.Recovered? && (up.loaded.tables == AliveAt(s'.tables, T) <==> Fits(r))
  {
    hide Start, Apply, Inv, Append, Encode, AliveAt, Harmless, Repeatable, Commanded, Fits;
    DescriptorThere(cfg, s);
    CommandLoggable(r);
    SteadyAlways(s, T);
    LoadsNow(cfg, s, buf, Always(T), T);
    if Fits(r) {
      StepKeeps(cfg, s, Mutate(r, flushOk));
      var s' := Handled(cfg, s, r, flushOk);
      AppendParts(cfg, Lived(s, Moment.Logged(r)), r, Encode(r), flushOk);
      HarmlessMore(s, r, s', T);
      SteadyAlways(s', T);
      LoadsNow(cfg, s', buf, Always(T), T);
    }
  }

  lemma SteadyAlways(s: State, T: int)
    requires AllHarmless(s, T)
    ensures GoodReload(s, Always(T), T)
  {
    hide Harmless;
    assert forall i :: Always(T)(i) == T;
  }

  lemma HarmlessMore(s: State, r: Record, s': State, T: int)
    requires AllHarmless(s, T) && Repeatable(s.tables, r, T)
    requires s'.history == s.history + [r] && s'.past == s.past + [Moment.Logged(r)]
    requires s'.before == s.before + [s.tables] && s'.baseAt == s.baseAt && s'.rootAt == s.rootAt
    ensures AllHarmless(s', T)
  {
    hide Repeatable, AliveAt;
  }

  lemma DescriptorThere(cfg: Config, s: State)
    requires Inv(cfg, s)
    ensures s.fd in s.files && s.named in s.files
  {
    hide RewriteOk, FinalOk, StoredOk, SyncedOk, Faithful;
  }

  /** What an append leaves, flushed at once. */
  lemma FlushedAppend(cfg: Config, s: State, r: Record)
    requires Enabled(cfg, s, Mutate(r, true)) && cfg.policy == FlushAlways && Apply(s.tables, r).ok
    ensures var s' := Step(cfg, s, Mutate(r, true));
            && s'.history == s.history + [r] && s'.synced == |s'.history| && s'.tables == Apply(s.tables, r).tables
            && s'.phase == s.phase && s'.base == s.base && s'.baseAt == s.baseAt && s'.created == s.created
            && s'.fd == s.fd && s'.fd in s'.files
  {
    hide Encode, Apply, EmitDiff, Append, Fits;
    AlwaysFlushes(cfg, s, r);
    AppendParts(cfg, Lived(s, Moment.Logged(r)), r, Encode(r), true);
  }

  lemma DeletedFirst(k: Key, r: Record, clock: nat -> int)
    ensures Replay([Record(OpDel, k, [], 0), r], clock) == Replayed(EMPTY, 0, false)
  {
    var d := Record(OpDel, k, [], 0);
    assert [d, r][..1] == [d] && [d][..0] == [];
    assert Replay([], clock) == Replayed(EMPTY, 0, true);
    assert EMPTY.keyspace - {k} == map[] && EMPTY.expires - {k} == map[];
    assert Replay([d], clock) == Replayed(EMPTY, 0, false);
  }

  lemma ThreeTables(k: Key, big: Value, j: Key, w: Value)
    ensures var t := Apply(EMPTY, Record(OpSet, k, big, 0));
            var u := Apply(t.tables, Record(OpDel, k, [], 0));
            var v := Apply(u.tables, Record(OpSet, j, w, 0));
            t.ok && u.ok && v == Applied(Tables(map[j := w], map[]), true)
  {
    var t := Apply(EMPTY, Record(OpSet, k, big, 0)).tables;
    assert t.keyspace - {k} == map[] && t.expires - {k} == map[];
  }

  lemma EmptyNulFree()
    ensures NulFree([])
  {}

  /** One value too large to be logged, deleted by a command that is: the flushed record of a third, unrelated
      command is lost. A reload stops at the DEL of a key it has never seen, and cuts off what follows. */
  lemma UnloggedLosesLater(
    cfg: Config, inode: nat, created: nat, now: int, k: Key, big: Value, j: Key, w: Value, buf: seq<byte>,
    clock: nat -> int)
    returns (run: seq<Event>)
    requires cfg.policy == FlushAlways && cfg.startCap <= cfg.maxDiff && |buf| == RECORD_MAX
    requires NulFree(k) && NulFree(big) && NulFree(j) && NulFree(w)
    requires !Fits(Record(OpSet, k, big, 0)) && Fits(Record(OpDel, k, [], 0)) && Fits(Record(OpSet, j, w, 0))
    ensures var s := Init(cfg, inode, created, now);
            && SoundRun(cfg, s, run) && Possible(cfg, s, run)
            && var f := Final(cfg, s, run);
               && f.tables == Tables(map[j := w], map[]) && f.synced == |f.history| == 2 && f.named in f.files
               && var up := Start(f.files[f.named].bytes, buf, clock);
                  && up.Recovered? && up.loaded.tables == EMPTY && up.loaded.records == 0
                  && up.loaded.validEnd == FILE_HEADER_SIZE
  {
    hide Encode, FileHeader, Apply, Start, Fits, NulFree, Replay, Image, EncodeAll, Inv, Command;
    var s := Init(cfg, inode, created, now);
    var a, b, c := Record(OpSet, k, big, 0), Record(OpDel, k, [], 0), Record(OpSet, j, w, 0);
    ThreeTables(k, big, j, w);
    EmptyNulFree();
    InitOk(cfg, inode, created, now);
    var s1 := Step(cfg, s, Unlogged(a));
    StepKeeps(cfg, s, Unlogged(a));
    var s2 := Step(cfg, s1, Mutate(b, true));
    StepKeeps(cfg, s1, Mutate(b, true));
    FlushedAppend(cfg, s1, b);
    var s3 := Step(cfg, s2, Mutate(c, true));
    StepKeeps(cfg, s2, Mutate(c, true));
    FlushedAppend(cfg, s2, c);
    run := [Unlogged(a), Mutate(b, true), Mutate(c, true)];
    ThreeEvents(cfg, s, Unlogged(a), Mutate(b, true), Mutate(c, true));
    assert s3.history == [b, c] && s3.base == [];
    SolidPart(cfg, s3);
    NamedFile(cfg, s3);
    NamedThere(s3);
    NamedImage(s3);
    assert FileLog(s3) == [b, c];
    DeletedFirst(k, c, clock);
    StartOnImage(created, [b, c], buf, clock);
    assert [b, c][..0] == [];
    EncodeAllEmpty();
  }

  lemma ThreeEvents(cfg: Config, s: State, c: Event, d: Event, e: Event)
    requires Enabled(cfg, s, c) && Sound(s, c)
    requires var s1 := Step(cfg, s, c);
             && Enabled(cfg, s1, d) && Sound(s1, d)
             && var s2 := Step(cfg, s1, d);
                Enabled(cfg, s2, e) && Sound(s2, e)
    ensures SoundRun(cfg, s, [c, d, e]) && Possible(cfg, s, [c, d, e])
    ensures Final(cfg, s, [c, d, e]) == Step(cfg, Step(cfg, Step(cfg, s, c), d), e)
  {
    hide Enabled, Step, Sound;
    TwoEvents(cfg, Step(cfg, s, c), d, e);
    assert [c, d, e][1..] == [d, e];
  }

  // ----- Events outside the server's hands

  /** Expiry takes the keys it names out of both tables and no other, and nobody can tell. */
  lemma ExpiryRemoves(cfg: Config, s: State, dead: set<Key>, now: int, T: int)
    requires Solid(cfg, s) && Enabled(cfg, s, Expiry(dead, now)) && s.time <= T
    ensures var s' := Step(cfg, s, Expiry(dead, now));
            && s'.tables.keyspace.Keys == s.tables.keyspace.Keys - dead
            && s'.tables.expires.Keys == s.tables.expires.Keys - dead
            && AliveAt(s'.tables, T) == AliveAt(s.tables, T)
            && s'.files == s.files && s'.history == s.history
  {
    hide NamedOk, RewriteOk, FinalOk, AliveAt, NulFree;
    StorableConsistent(s.tables);
    ShedsDead(s.tables, dead, T);
    ShedsInvisible(s.tables, Without(s.tables, dead), T);
  }

  /** Time passes to where the clock says, and a child that dies has failed. */
  lemma WorldMoves(cfg: Config, s: State)
    ensures forall now :: Enabled(cfg, s, Clock(now)) ==> Step(cfg, s, Clock(now)).time == now >= s.time
    ensures Enabled(cfg, s, ChildDie) ==>
              var s' := Step(cfg, s, ChildDie);
              s'.child.Some? && s'.child.value.exit == Some(false) && s'.files == s.files
  {}
}
