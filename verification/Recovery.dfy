/** Crash recovery over whole runs: what a reload finds after any sequence of commands, expiry, flushes,
    rewrites, failures and crashes. */
module Recovery {

  import opened Bytes
  import opened Store
  import opened Log
  import opened Codec
  import opened Loader
  import opened LogFile
  import opened Aging
  import opened Rewrite
  import opened RewriteProofs
  import opened Faithfulness

  // ----- The named file as a log

  lemma WholeAtLeast(log: seq<Record>, cut: nat, m: nat)
    requires LoggableAll(log) && m <= |log| && Size(log[..m]) <= cut
    ensures m <= Whole(log, cut)
  {
    hide EncodeAll, Whole, Encode;
    var n := Whole(log, cut);
    WholeIsWhole(log, cut);
    if n < m {
      assert log[..m][..n + 1] == log[..n + 1];
      EncodeAllPrefix(log[..m], n + 1);
    }
  }

  /** The file's records up to record `n` of the history, and their size. */
  lemma FileLogParts(s: State, n: nat)
    requires LoggableAll(s.base) && LoggableAll(s.history) && s.baseAt <= n <= |s.history|
    ensures LoggableAll(FileLog(s)) && |FileLog(s)| == |s.base| + |s.history| - s.baseAt
    ensures FileLog(s)[..|s.base| + n - s.baseAt] == s.base + s.history[s.baseAt..n]
    ensures Size(FileLog(s)[..|s.base| + n - s.baseAt]) == Size(s.base) + Size(s.history[s.baseAt..n])
  {
    hide EncodeAll, Encode, Loggable;
    EncodeAllConcat(s.base, s.history[s.baseAt..n]);
    assert FileLog(s)[..|s.base| + n - s.baseAt] == s.base + s.history[s.baseAt..n];
  }

  lemma NamedImage(s: State)
    requires LoggableAll(s.history) && NamedOk(s)
    ensures LoggableAll(FileLog(s)) && s.files[s.named].bytes == Image(s.created, FileLog(s))
  {
    hide EncodeAll, Encode, Loggable, FileHeader;
    EncodeAllConcat(s.base, s.history[s.baseAt..]);
    Regroup(FileHeader(s.created), EncodeAll(s.base), EncodeAll(s.history[s.baseAt..]));
  }

  lemma NamedImageAnd(s: State, r: Record)
    requires LoggableAll(s.history) && NamedOk(s) && Loggable(r)
    ensures LoggableAll(FileLog(s)) && LoggableAll(FileLog(s) + [r])
    ensures s.files[s.named].bytes + Encode(r) == Image(s.created, FileLog(s) + [r])
  {
    hide EncodeAll, Encode, FileHeader;
    NamedImage(s);
    EncodeAllSnoc(FileLog(s), r);
    Regroup(FileHeader(s.created), EncodeAll(FileLog(s)), Encode(r));
  }

  /** The flushed part never ends within the file header or behind the end of the file. */
  lemma FlushedWithin(s: State)
    requires LoggableAll(s.history) && NamedOk(s)
    ensures s.named in s.files && FILE_HEADER_SIZE <= |s.files[s.named].bytes|
    ensures s.files[s.named].flushed <= |s.files[s.named].bytes|
    ensures s.files[s.named].flushed < FILE_HEADER_SIZE ==> s.files[s.named].flushed == 0 && s.synced == 0
  {
    hide EncodeAll, Encode, Loggable;
    FileLogParts(s, s.synced);
    FileLogParts(s, |s.history|);
    assert s.history[s.baseAt..|s.history|] == s.history[s.baseAt..];
    var part := s.history[s.baseAt..][..s.synced - s.baseAt];
    assert part == s.history[s.baseAt..s.synced];
    EncodeAllPrefix(s.history[s.baseAt..], s.synced - s.baseAt);
  }

  lemma NamedFile(cfg: Config, s: State)
    requires Solid(cfg, s)
    ensures LoggableAll(s.history) && NamedOk(s)
  {
    hide RewriteOk, FinalOk, NamedOk, Storable;
  }

  // ----- What start-up makes of a crash

  lemma ReloadCut(s: State, c: Crash)
    requires LoggableAll(s.history) && NamedOk(s) && CanCrash(s, c)
    ensures LoggableAll(FileLog(s) + [c.r]) && c.cut < |Image(s.created, FileLog(s) + [c.r])|
    ensures Remains(s, c) == Image(s.created, FileLog(s) + [c.r])[..c.cut]
    ensures c.cut == 0 ==> Reload(s, c) == Fresh
    ensures 0 < c.cut < FILE_HEADER_SIZE ==> Reload(s, c) == Refused
    ensures FILE_HEADER_SIZE <= c.cut ==>
              && Reload(s, c).Recovered?
              && RecoversWhole(
                   FileLog(s) + [c.r], c.cut - FILE_HEADER_SIZE, FILE_HEADER_SIZE, c.clock, Reload(s, c).loaded)
  {
    hide EncodeAll, Encode, FileHeader, Start, RecoversWhole, Image;
    NamedImageAnd(s, c.r);
    StartOnCut(s.created, FileLog(s) + [c.r], c.cut, c.buf, c.clock);
  }

  /** In every reachable state: start-up after a crash refuses the file if and only if the cut falls within
      the file header, begins anew exactly if nothing is left, and neither can happen once a record has
      been flushed. */
  lemma RefusedIff(cfg: Config, s: State, c: Crash)
    requires Solid(cfg, s) && CanLosePower(s, c)
    ensures Reload(s, c) == Refused <==> 0 < c.cut < FILE_HEADER_SIZE
    ensures Reload(s, c) == Fresh <==> c.cut == 0
    ensures c.cut < FILE_HEADER_SIZE ==> s.files[s.named].flushed == 0 && s.synced == 0
  {
    hide Solid, NamedOk, RecoversWhole, Image, Encode;
    NamedFile(cfg, s);
    ReloadCut(s, c);
    FlushedWithin(s);
  }

  // ----- What a reload shows

  lemma {:induction false} ReplaySteady(log: seq<Record>, clock: nat -> int, T: int)
    requires SteadyClock(log, clock, T)
    ensures Replay(log, clock) == Replay(log, Always(T))
  {
    hide Apply;
    if log != [] {
      var i := |log| - 1;
      ReplaySteady(log[..i], clock, T);
      assert Elapsed(log[i], clock(i)) <==> Elapsed(log[i], T);
    }
  }

  /** The tables just before record `j`. */
  ghost function TablesAt(s: State, j: nat): (t: Tables) {
    At(s.before, s.tables, PlaceOf(s, j))
  }

  /** Where record `j` stands among the commands. */
  lemma PlaceFound(s: State, t: Tables, j: nat)
    requires Leads(s, t, s.rootAt, s.baseAt) && s.baseAt <= j <= |s.history|
    ensures var m := PlaceOf(s, j);
            && s.rootAt <= m <= |s.past| == |s.before|
            && LoggedIn(s.past[s.rootAt..][..m - s.rootAt]) == s.history[s.baseAt..j]
            && At(s.before[s.rootAt..], s.tables, m - s.rootAt) == TablesAt(s, j)
            && (j == |s.history| ==> m == |s.past| && TablesAt(s, j) == s.tables)
  {
    hide Trail, LoggedIn, Place;
    var ms, k := s.past[s.rootAt..], j - s.baseAt;
    PlaceSplits(ms, k);
    assert s.history[s.baseAt..][..k] == s.history[s.baseAt..j];
  }

  lemma ShowsAt(s: State, j: nat, T: int)
    requires Faithful(s) && AllHarmless(s, T) && s.time <= T && s.baseAt <= j <= |s.history|
    ensures Shows(s.base + s.history[s.baseAt..j], TablesAt(s, j), T)
  {
    hide Trail, Captures, CapturesPart, Shows, Harmless, LoggedIn, PlaceOf, TablesAt;
    PlaceFound(s, s.root, j);
    var n := PlaceOf(s, j) - s.rootAt;
    var bs, ms := s.before[s.rootAt..], s.past[s.rootAt..];
    CapturesLater(s.base, s.root, s.time, T);
    TrailLater(s.root, bs, ms, s.tables, s.time, T);
    ShowsUpTo(s.base, s.root, bs, ms, s.tables, T, n);
  }

  /** Recovery kept the history up to record `j`, and nothing else is left of the file. */
  ghost predicate RecoveredTo(s: State, j: nat, l: Loaded, T: int) {
    && LoggableAll(s.base) && LoggableAll(s.history)
    && s.baseAt <= j <= |s.history|
    && l.tables == AliveAt(TablesAt(s, j), T)
    && l.records == |s.base| + j - s.baseAt
    && l.validEnd == FILE_HEADER_SIZE + Size(s.base) + Size(s.history[s.baseAt..j])
  }

  lemma SyncedWithin(s: State, log: seq<Record>, cut: nat)
    requires LoggableAll(s.history) && NamedOk(s) && LoggableAll(log) && FileLog(s) <= log
    requires s.files[s.named].flushed <= cut && FILE_HEADER_SIZE <= cut
    ensures |s.base| + s.synced - s.baseAt <= Whole(log, cut - FILE_HEADER_SIZE)
  {
    hide EncodeAll, Encode, Loggable, Whole, FileHeader;
    FileLogParts(s, s.synced);
    var m := |s.base| + s.synced - s.baseAt;
    assert log[..m] == FileLog(s)[..m];
    EncodeAllEmpty();
    WholeAtLeast(log, cut - FILE_HEADER_SIZE, m);
  }

  lemma StrictlyWithin(log: seq<Record>, r: Record, cut: nat)
    requires LoggableAll(log) && LoggableAll(log + [r]) && cut < Size(log + [r])
    ensures Whole(log + [r], cut) <= |log|
  {
    hide EncodeAll, Encode, Loggable, Whole;
    WholeIsWhole(log + [r], cut);
    assert (log + [r])[..|log| + 1] == log + [r];
  }

  lemma SteadyPrefix(log: seq<Record>, n: nat, clock: nat -> int, T: int)
    requires SteadyClock(log, clock, T) && n <= |log|
    ensures SteadyClock(log[..n], clock, T)
  {
    forall i | 0 <= i < n
      ensures Elapsed(log[..n][i], clock(i)) <==> Elapsed(log[..n][i], T)
    {
      assert Elapsed(log[i], clock(i)) <==> Elapsed(log[i], T);
    }
  }

  lemma RecoveredFromWhole(s: State, r: Record, cut: nat, clock: nat -> int, T: int, l: Loaded)
    requires LoggableAll(s.history) && LoggableAll(s.base) && Faithful(s) && GoodReload(s, clock, T) && s.time <= T
    requires LoggableAll(FileLog(s) + [r])
    requires |s.base| <= Whole(FileLog(s) + [r], cut) <= |FileLog(s)|
    requires RecoversWhole(FileLog(s) + [r], cut, FILE_HEADER_SIZE, clock, l)
    ensures RecoveredTo(s, s.baseAt + Whole(FileLog(s) + [r], cut) - |s.base|, l, T)
  {
    hide Replay, Loggable, EncodeAll, Whole, Trail, Captures, CapturesPart, Harmless, SteadyClock, AliveAt;
    var log := FileLog(s);
    var n := Whole(log + [r], cut);
    var j := s.baseAt + n - |s.base|;
    FileLogParts(s, j);
    assert (log + [r])[..n] == log[..n] == s.base + s.history[s.baseAt..j];
    SteadyPrefix(log, n, clock, T);
    ReplaySteady(log[..n], clock, T);
    ShowsAt(s, j, T);
  }

  /** Crash recovery. Whatever a crash leaves of the named file at or past its flushed part and its header,
      be it within the record being written, a good reload yields exactly what is alive of the tables of
      some moment of the history, no earlier than the last flush; of the last moment, if no byte is lost. */
  lemma CrashRecovers(cfg: Config, s: State, c: Crash) returns (j: nat, l: Loaded)
    requires Inv(cfg, s) && CanLosePower(s, c) && FILE_HEADER_SIZE <= c.cut && GoodReload(s, c.clock, c.now)
    ensures Reload(s, c) == Recovered(l)
    ensures RecoveredTo(s, j, l, c.now) && s.synced <= j
    ensures |s.files[s.named].bytes| <= c.cut ==> j == |s.history|
  {
    hide Loggable, EncodeAll, Encode, FileHeader, Whole, RewriteOk, FinalOk, Faithful, RecoversWhole, GoodReload,
      Reload, Storable;
    var log, rest := FileLog(s), c.cut - FILE_HEADER_SIZE;
    ReloadCut(s, c);
    l := Reload(s, c).loaded;
    SyncedWithin(s, log + [c.r], c.cut);
    NamedImage(s);
    StrictlyWithin(log, c.r, rest);
    RecoveredFromWhole(s, c.r, rest, c.clock, c.now, l);
    j := s.baseAt + Whole(log + [c.r], rest) - |s.base|;
    if |s.files[s.named].bytes| <= c.cut {
      assert (log + [c.r])[..|log|] == log;
      WholeAtLeast(log + [c.r], rest, |log|);
      FileLogParts(s, |s.history|);
    }
  }

  // ----- The next process

  lemma TakeThrough(a: seq<byte>, b: seq<byte>, c: seq<byte>)
    requires b <= c
    ensures (a + c)[..|a| + |b|] == a + b
  {}

  /** Two records more are some bytes more. */
  lemma {:induction false} SizeGrows(log: seq<Record>, n: nat)
    requires LoggableAll(log) && n <= |log|
    ensures Size(log[..n]) <= Size(log) && (Size(log[..n]) == Size(log) <==> n == |log|)
  {
    hide Encode;
    if n == |log| {
      assert log[..n] == log;
    } else {
      var i := |log| - 1;
      SizeGrows(log[..i], n);
      assert log[..i][..n] == log[..n];
      SplitLast(log, i);
      EncodeAllSnoc(log[..i], log[i]);
      EncodedNotEmpty(log[i]);
    }
  }

  lemma EncodedNotEmpty(r: Record)
    requires Loggable(r)
    ensures 0 < |Encode(r)|
  {}

  /** The bytes of the file up to record `j`. */
  lemma KeptBytes(s: State, c: Crash, j: nat, l: Loaded)
    requires LoggableAll(s.history) && NamedOk(s) && CanCrash(s, c) && RecoveredTo(s, j, l, c.now)
    requires l.validEnd <= c.cut
    ensures Remains(s, c)[..l.validEnd] ==
            FileHeader(s.created) + EncodeAll(s.base) + EncodeAll(s.history[s.baseAt..j])
  {
    hide Loggable, EncodeAll, Encode, FileHeader, AliveAt;
    var whole, kept := s.history[s.baseAt..], s.history[s.baseAt..j];
    assert whole[..j - s.baseAt] == kept;
    EncodeAllPrefix(whole, j - s.baseAt);
    TakeThrough(FileHeader(s.created) + EncodeAll(s.base), EncodeAll(kept), EncodeAll(whole));
    var bytes := s.files[s.named].bytes;
    assert Remains(s, c)[..l.validEnd] == bytes[..l.validEnd];
  }

  /** The flushed part and what it covers, as the next process finds them. */
  ghost predicate Covers(s: State, j: nat, l: Loaded, flushed: nat, synced: nat)
    requires s.named in s.files
  {
    || (flushed == l.validEnd && synced == j)
    || (flushed == s.files[s.named].flushed && synced == s.synced <= j)
  }

  lemma RestartNamed(cfg: Config, s: State, c: Crash, j: nat, l: Loaded, flushed: nat, synced: nat)
    requires LoggableAll(s.history) && NamedOk(s) && CanCrash(s, c) && RecoveredTo(s, j, l, c.now)
    requires l.validEnd <= c.cut && Kept(s, l.records) == j && Covers(s, j, l, flushed, synced)
    ensures var s' := Restart(cfg, s, l, Remains(s, c), flushed, synced, c.now);
            LoggableAll(s'.history) && NamedOk(s')
  {
    hide Loggable, EncodeAll, Encode, FileHeader, AliveAt, Remains;
    KeptBytes(s, c, j, l);
    var s' := Restart(cfg, s, l, Remains(s, c), flushed, synced, c.now);
    var kept := s.history[s.baseAt..j];
    SlicesOfPrefix(s.history, s.baseAt, synced, j);
    SizeGrows(kept, synced - s.baseAt);
    FileLogParts(s, j);
    EncodeAllEmpty();
    NoRecords(s.base);
    NoRecords(kept);
  }

  lemma SlicesOfPrefix<X>(s: seq<X>, a: nat, n: nat, j: nat)
    requires a <= n <= j <= |s|
    ensures s[..j][a..] == s[a..j] && s[..j][a..n] == s[a..n] && s[a..j][..n - a] == s[a..n]
  {}

  lemma NoRecords(log: seq<Record>)
    requires LoggableAll(log)
    ensures Size(log) == 0 <==> log == []
  {
    hide Encode, EncodeAll;
    SizeGrows(log, 0);
    EncodeAllEmpty();
    assert log[..0] == [];
  }

  lemma RestartSolid(cfg: Config, s: State, c: Crash, j: nat, l: Loaded, flushed: nat, synced: nat)
    requires Solid(cfg, s) && CanCrash(s, c) && RecoveredTo(s, j, l, c.now) && cfg.startCap <= cfg.maxDiff
    requires l.validEnd <= c.cut && Kept(s, l.records) == j && Covers(s, j, l, flushed, synced)
    ensures Solid(cfg, Restart(cfg, s, l, Remains(s, c), flushed, synced, c.now))
  {
    hide Loggable, EncodeAll, Encode, FileHeader, AliveAt, Remains, NamedOk, RewriteOk, FinalOk, Storable, Size;
    NamedFile(cfg, s);
    NamedThere(s);
    RestartNamed(cfg, s, c, j, l, flushed, synced);
    AliveStorable(TablesAt(s, j), c.now);
    var s' := Restart(cfg, s, l, Remains(s, c), flushed, synced, c.now);
    assert StoredOk(s');
    assert RewriteOk(cfg, s') && FinalOk(s') by { IdleOk(cfg, s'); }
  }

  lemma IdleOk(cfg: Config, s: State)
    requires LoggableAll(s.history) && s.mode == Idle && s.child.None? && s.diff == [] && s.phase == Serving
    requires s.cap <= cfg.maxDiff
    ensures RewriteOk(cfg, s) && FinalOk(s)
  {}

  lemma RestartFaithful(cfg: Config, s: State, c: Crash, j: nat, l: Loaded, flushed: nat, synced: nat)
    requires Faithful(s) && CanCrash(s, c) && RecoveredTo(s, j, l, c.now)
    requires l.validEnd <= c.cut && Kept(s, l.records) == j
    ensures Faithful(Restart(cfg, s, l, Remains(s, c), flushed, synced, c.now))
  {
    hide Loggable, EncodeAll, Encode, FileHeader, AliveAt, Remains, Trail, Captures, CapturesPart, Size, LoggedIn,
      PlaceOf, TablesAt;
    PlaceFound(s, s.root, j);
    var m := PlaceOf(s, j);
    var n := m - s.rootAt;
    var bs, ms := s.before[s.rootAt..], s.past[s.rootAt..];
    var t := TablesAt(s, j);
    CapturesLater(s.base, s.root, s.time, c.now);
    TrailLater(s.root, bs, ms, s.tables, s.time, c.now);
    TrailPrefix(s.root, bs, ms, s.tables, c.now, n);
    TrailConsistent(s.root, bs, ms, s.tables, c.now, n);
    ShedsAllDead(t, c.now);
    TrailSheds(s.root, bs[..n], ms[..n], t, c.now, AliveAt(t, c.now));
    assert bs[..n] == s.before[..m][s.rootAt..] && ms[..n] == s.past[..m][s.rootAt..];
    assert s.history[..j][s.baseAt..] == s.history[s.baseAt..j];
  }

  lemma KeptIs(s: State, j: nat, l: Loaded, T: int)
    requires RecoveredTo(s, j, l, T)
    ensures Kept(s, l.records) == j
  {
    hide Loggable, EncodeAll, AliveAt;
  }

  /** What is left of the history after a crash. */
  ghost predicate Survives(s: State, s': State, c: Crash) {
    && s.synced <= |s'.history| && s'.history <= s.history && s'.past <= s.past && s'.before <= s.before
    && s'.synced >= s.synced
    && s'.tables == AliveAt(TablesAt(s, |s'.history|), c.now)
    && s'.time == c.now && !s'.dirty && s'.base == s.base && s'.root == s.root && s'.child.None?
  }

  lemma KillIs(cfg: Config, s: State, c: Crash)
    requires Enabled(cfg, s, Kill(c))
    ensures CanKill(s, c) && Reload(s, c).Recovered? && Reload(s, c).loaded.validEnd <= c.cut
    ensures Step(cfg, s, Kill(c))
         == Restart(cfg, s, Reload(s, c).loaded, Remains(s, c), s.files[s.named].flushed, s.synced, c.now)
  {
    hide Restart, Remains, Reload;
    ReloadWithin(s, c, Reload(s, c).loaded);
  }

  /** A dying process loses nothing, and its successor has flushed nothing. */
  lemma KillKeeps(cfg: Config, s: State, c: Crash)
    requires Inv(cfg, s) && Enabled(cfg, s, Kill(c)) && GoodReload(s, c.clock, c.now) && cfg.startCap <= cfg.maxDiff
    ensures var s' := Step(cfg, s, Kill(c));
            Inv(cfg, s') && Survives(s, s', c) && |s'.history| == |s.history| && s'.synced == s.synced
  {
    hide Solid, Faithful, RecoveredTo, GoodReload, Restart, Remains, Reload, AliveAt, Step, Enabled, Survives;
    KillIs(cfg, s, c);
    NamedFile(cfg, s);
    FlushedWithin(s);
    var j, l := CrashRecovers(cfg, s, c);
    KeptIs(s, j, l, c.now);
    Restarts(cfg, s, c, j, l, s.files[s.named].flushed, s.synced);
  }

  lemma ReloadWithin(s: State, c: Crash, l: Loaded)
    requires CanCrash(s, c) && Reload(s, c) == Recovered(l)
    ensures l.validEnd <= c.cut
  {
    hide LoadFrom, HeaderOk, Encode;
  }

  lemma Restarts(cfg: Config, s: State, c: Crash, j: nat, l: Loaded, flushed: nat, synced: nat)
    requires Inv(cfg, s) && CanCrash(s, c) && RecoveredTo(s, j, l, c.now) && s.synced <= j
    requires cfg.startCap <= cfg.maxDiff
    requires l.validEnd <= c.cut && Kept(s, l.records) == j && Covers(s, j, l, flushed, synced)
    ensures var s' := Restart(cfg, s, l, Remains(s, c), flushed, synced, c.now);
            Inv(cfg, s') && Survives(s, s', c) && |s'.history| == j && s'.synced == synced
  {
    hide Solid, Faithful, Remains, AliveAt, Size, Loggable;
    RestartSolid(cfg, s, c, j, l, flushed, synced);
    RestartFaithful(cfg, s, c, j, l, flushed, synced);
  }

  lemma InitOk(cfg: Config, inode: nat, created: nat, now: int)
    requires cfg.startCap <= cfg.maxDiff
    ensures Inv(cfg, Init(cfg, inode, created, now))
  {
    hide FileHeader, Trail, Captures;
    EncodeAllEmpty();
    EmptyStorable();
    EmptyCaptured(now);
    TrailNew(EMPTY, now);
    var h := FileHeader(created);
    assert h + [] + [] == h;
    var s := Init(cfg, inode, created, now);
    assert s.history[0..] == [] && s.before[0..] == [] && s.past[0..] == [];
  }

  lemma PowerLossRecovers(cfg: Config, s: State, c: Crash)
    requires Inv(cfg, s) && CanLosePower(s, c) && FILE_HEADER_SIZE <= c.cut && GoodReload(s, c.clock, c.now)
    requires cfg.startCap <= cfg.maxDiff
    ensures Reload(s, c).Recovered? && Reload(s, c).loaded.validEnd <= c.cut
    ensures var l := Reload(s, c).loaded;
            var s' := Restart(cfg, s, l, Remains(s, c), l.validEnd, |s.history|, c.now);
            && Inv(cfg, s') && Survives(s, s', c) && s'.synced == |s'.history|
            && (|s.files[s.named].bytes| <= c.cut ==> |s'.history| == |s.history|)
  {
    hide Solid, Faithful, RecoveredTo, GoodReload, Restart, Remains, Reload, AliveAt;
    var j, l := CrashRecovers(cfg, s, c);
    KeptIs(s, j, l, c.now);
    ReloadWithin(s, c, l);
    Restarts(cfg, s, c, j, l, l.validEnd, j);
    RestartCaps(cfg, s, l, Remains(s, c), j, c.now);
  }

  /** A power loss may take what was not flushed; what is left counts as flushed. */
  lemma PowerLossKeeps(cfg: Config, s: State, c: Crash, created: nat)
    requires Inv(cfg, s) && Enabled(cfg, s, PowerLoss(c, created)) && GoodReload(s, c.clock, c.now)
    requires cfg.startCap <= cfg.maxDiff
    ensures var s' := Step(cfg, s, PowerLoss(c, created));
            && Inv(cfg, s') && s'.synced == |s'.history|
            && (if c.cut == 0 then s.synced == 0 && s' == Init(cfg, s.named, created, c.now) else Survives(s, s', c))
            && (|s.files[s.named].bytes| <= c.cut ==> |s'.history| == |s.history|)
  {
    hide Solid, Faithful, GoodReload, Restart, Remains, Reload, AliveAt, Init, Survives;
    RefusedIff(cfg, s, c);
    if c.cut == 0 {
      NamedFile(cfg, s);
      FlushedWithin(s);
      InitOk(cfg, s.named, created, c.now);
      InitEmpty(cfg, s.named, created, c.now);
    } else {
      PowerLossRecovers(cfg, s, c);
    }
  }

  lemma InitEmpty(cfg: Config, inode: nat, created: nat, now: int)
    ensures Init(cfg, inode, created, now).history == [] && Init(cfg, inode, created, now).synced == 0
  {}

  lemma RestartCaps(cfg: Config, s: State, l: Loaded, remains: seq<byte>, j: nat, now: int)
    requires l.validEnd <= |remains| && j == Kept(s, l.records)
    ensures Restart(cfg, s, l, remains, l.validEnd, |s.history|, now) == Restart(cfg, s, l, remains, l.validEnd, j, now)
  {}

  // ----- Whole runs

  lemma StepKeeps(cfg: Config, s: State, e: Event)
    requires Inv(cfg, s) && Enabled(cfg, s, e) && Sound(s, e) && cfg.startCap <= cfg.maxDiff
    ensures Inv(cfg, Step(cfg, s, e))
  {
    hide Inv, Step, Enabled, GoodReload;
    match e {
      case Kill(c) => KillKeeps(cfg, s, c);
      case PowerLoss(c, created) => PowerLossKeeps(cfg, s, c, created);
      case _ => QuietKeeps(cfg, s, e);
    }
  }

  lemma QuietKeeps(cfg: Config, s: State, e: Event)
    requires Inv(cfg, s) && Enabled(cfg, s, e) && Sound(s, e) && !Crashes(e)
    ensures Inv(cfg, Step(cfg, s, e))
  {
    hide Solid, Faithful, Step, Enabled, Sound;
    StepSolid(cfg, s, e);
    StepFaithful(cfg, s, e);
  }

  lemma {:induction false} RunKeeps(cfg: Config, s: State, run: seq<Event>)
    requires Inv(cfg, s) && SoundRun(cfg, s, run) && cfg.startCap <= cfg.maxDiff
    ensures Possible(cfg, s, run) && Inv(cfg, Final(cfg, s, run))
    decreases |run|
  {
    hide Inv, Step, Enabled, Sound;
    if run != [] {
      StepKeeps(cfg, s, run[0]);
      RunKeeps(cfg, Step(cfg, s, run[0]), run[1..]);
    }
  }

  /** A state some sound run leads to from a fresh start. */
  ghost predicate Reachable(cfg: Config, s: State) {
    exists inode: nat, created: nat, now: int, run: seq<Event> ::
      && SoundRun(cfg, Init(cfg, inode, created, now), run) && Possible(cfg, Init(cfg, inode, created, now), run)
      && s == Final(cfg, Init(cfg, inode, created, now), run)
  }

  lemma ReachableKeeps(cfg: Config, s: State)
    requires Reachable(cfg, s) && cfg.startCap <= cfg.maxDiff
    ensures Inv(cfg, s)
  {
    hide Inv, Init, SoundRun, Final, Possible;
    var inode: nat, created: nat, now: int, run: seq<Event> :|
      && SoundRun(cfg, Init(cfg, inode, created, now), run) && Possible(cfg, Init(cfg, inode, created, now), run)
      && s == Final(cfg, Init(cfg, inode, created, now), run);
    InitOk(cfg, inode, created, now);
    RunKeeps(cfg, Init(cfg, inode, created, now), run);
  }
}
