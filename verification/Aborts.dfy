/** Rewrites that are given up: exactly when that happens, and that nothing of them is ever used. */
module Aborts {

  import opened Store
  import opened Codec
  import opened Loader
  import opened Aging
  import opened Rewrite
  import opened RewriteProofs

  /** The diff buffer holds exactly the bytes of the records appended since the fork. */
  ghost predicate DiffIsSinceFork(s: State) {
    && LoggableAll(s.history) && s.child.Some? && s.child.value.forkAt <= |s.history|
    && s.diff == EncodeAll(s.history[s.child.value.forkAt..])
  }

  /** In every reachable active state the diff buffer holds exactly the records since the fork, and the
      rewrite is given up exactly when the next one would take it past its configured maximum. */
  lemma AbortsExactlyOnOverflow(cfg: Config, s: State, r: Record, flushOk: bool)
    requires Solid(cfg, s) && s.mode == Active && Enabled(cfg, s, Mutate(r, flushOk)) && Apply(s.tables, r).ok
    ensures DiffIsSinceFork(s) && |s.diff| <= s.cap <= cfg.maxDiff
    ensures var s' := Step(cfg, s, Mutate(r, flushOk));
            s'.mode == Aborting <==> |s.diff| + |Encode(r)| > cfg.maxDiff
  {
    hide Encode, EncodeAll, Apply, EmitDiff, NamedOk, StoredOk, Storable, FinalOk;
    Stored(s);
    var s1 := Lived(s, Moment.Logged(r));
    AppendParts(cfg, s1, r, Encode(r), flushOk);
    DiffReads(cfg, s, s1, Encode(r));
    DiffGrows(cfg, s, Encode(r));
  }

  // ----- Until the next rewrite

  /** Since `s`, a rewrite was given up and no other has begun. */
  predicate GivenUp(s: State, f: State) {
    && f.named == s.named && f.base == s.base && f.baseAt == s.baseAt && f.created == s.created
    && f.phase == Serving && f.mode in {Aborting, Idle} && (f.mode == Idle ==> f.child.None?)
  }

  lemma GivenUpServes(cfg: Config, s: State, f: State, e: Event)
    requires GivenUp(s, f) && Enabled(cfg, f, e) && (e.Unlogged? || e.Clock? || e.Expiry? || e.Tick?)
    ensures GivenUp(s, Step(cfg, f, e))
  {
    hide Encode, Apply, Command, EmitKey, CanKill, CanLosePower, Reload, AfterKill, AfterPowerLoss;
  }

  lemma GivenUpMutates(cfg: Config, s: State, f: State, r: Record, flushOk: bool)
    requires GivenUp(s, f) && Enabled(cfg, f, Mutate(r, flushOk))
    ensures GivenUp(s, Step(cfg, f, Mutate(r, flushOk)))
  {
    hide Encode, Apply, EmitDiff, Append, Fits;
    var a := Apply(f.tables, r);
    if a.ok {
      AppendParts(cfg, Lived(f, Moment.Logged(r)), r, Encode(r), flushOk);
    }
  }

  /** Whatever the child did, and however it ended, reaping an aborted rewrite discards it. */
  lemma GivenUpReaped(s: State, f: State, ok: bool)
    requires GivenUp(s, f) && f.child.Some?
    ensures GivenUp(s, Reaped(f, ok)) && GivenUp(s, Cleanup(f))
  {}

  lemma GivenUpEnds(cfg: Config, s: State, f: State, e: Event)
    requires GivenUp(s, f) && Enabled(cfg, f, e) && !Crashes(e) && !e.Fork? && !e.Mutate?
    requires !(e.Unlogged? || e.Clock? || e.Expiry? || e.Tick?)
    ensures GivenUp(s, Step(cfg, f, e))
  {
    hide Encode, Apply, Command, CanKill, CanLosePower, Reload, AfterKill, AfterPowerLoss, EmitKey, Reaped, Cleanup;
    EndPhase(cfg, f, e);
    if e.ChildOpen? || e.ChildEmit? || e.ChildDone? || e.ChildDie? {
      ChildWorks(cfg, f, e);
    } else {
      assert e.Reap? || e.WaitError?;
      GivenUpReaped(s, f, e.Reap? && f.child.value.exit == Some(true));
    }
  }

  lemma {:induction false} GivenUpRun(cfg: Config, s: State, f: State, run: seq<Event>)
    requires GivenUp(s, f) && Possible(cfg, f, run) && forall e :: e in run ==> !e.Fork? && !Crashes(e)
    ensures GivenUp(s, Final(cfg, f, run))
    decreases |run|
  {
    hide Enabled, Step, GivenUp;
    if run != [] {
      var e := run[0];
      assert e in run;
      if e.Unlogged? || e.Clock? || e.Expiry? || e.Tick? {
        GivenUpServes(cfg, s, f, e);
      } else if e.Mutate? {
        GivenUpMutates(cfg, s, f, e.r, e.flushOk);
      } else {
        GivenUpEnds(cfg, s, f, e);
      }
      assert forall d :: d in run[1..] ==> d in run;
      GivenUpRun(cfg, s, Step(cfg, f, e), run[1..]);
    }
  }

  /** Once aborted, a rewrite is never finalized: along every run up to the next fork or crash, however the
      child ends, the AOF name keeps its file and the file its snapshot. */
  lemma AbortedNeverFinalized(cfg: Config, s: State, run: seq<Event>)
    requires Solid(cfg, s) && s.mode == Aborting && Possible(cfg, s, run)
    requires forall e :: e in run ==> !e.Fork? && !Crashes(e)
    ensures var f := Final(cfg, s, run);
            f.named == s.named && f.base == s.base && f.baseAt == s.baseAt && f.mode in {Aborting, Idle}
  {
    hide Possible, Final, NamedOk, StoredOk, FinalOk, ChildOk, EncodeAll;
    Stored(s);
    GivenUpRun(cfg, s, s, run);
  }

  // ----- Ever after

  /** File `i` is not under the AOF name and cannot get there: it is not the temporary file either, unless
      of an aborted rewrite. */
  predicate Barred(s: State, i: nat) {
    && i in s.files && s.named != i
    && (s.temp == Some(i) ==> s.mode == Aborting && s.phase == Serving)
  }

  lemma BarredMutates(cfg: Config, s: State, i: nat, r: Record, flushOk: bool)
    requires Barred(s, i) && Enabled(cfg, s, Mutate(r, flushOk))
    ensures Barred(Step(cfg, s, Mutate(r, flushOk)), i)
  {
    hide Encode, Apply, EmitDiff, Append, Fits;
    var a := Apply(s.tables, r);
    if a.ok {
      AppendParts(cfg, Lived(s, Moment.Logged(r)), r, Encode(r), flushOk);
    }
  }

  lemma BarredServes(cfg: Config, s: State, i: nat, e: Event)
    requires Barred(s, i) && Enabled(cfg, s, e)
    requires e.Unlogged? || e.Clock? || e.Expiry? || e.Tick? || e.Fork?
    ensures Barred(Step(cfg, s, e), i)
  {
    hide Encode, Apply, Command, EmitKey, CanKill, CanLosePower, Reload, AfterKill, AfterPowerLoss;
  }

  lemma BarredWorks(s: State, i: nat, s': State)
    requires Barred(s, i) && Works(s, s') && (s'.temp == s.temp || (s'.temp.Some? && s'.temp.value !in s.files))
    ensures Barred(s', i)
  {}

  lemma BarredSwitch(cfg: Config, s: State, i: nat, e: Event)
    requires Barred(s, i) && Enabled(cfg, s, e) && (e == FinalRename(true) || e == FinalSwap)
    ensures Barred(Step(cfg, s, e), i)
  {
    hide Encode, Apply, Command, EmitKey, CanKill, CanLosePower, Reload, AfterKill, AfterPowerLoss;
  }

  lemma BarredEnds(cfg: Config, s: State, i: nat, e: Event)
    requires Barred(s, i) && Enabled(cfg, s, e)
    requires e.Reap? || e.FinalOpen? || e.FinalWrite? || e.FinalFlush? || e.FinalReopen? || e.FinalRename?
          || e.FinalSwap?
    ensures Barred(Step(cfg, s, e), i)
  {
    hide Enabled, Step;
    if e == FinalRename(true) || e == FinalSwap {
      BarredSwitch(cfg, s, i, e);
    } else {
      EndPhase(cfg, s, e);
      EventEnds(cfg, s, e);
    }
  }

  /** The file of an aborted rewrite never becomes the log: not by this rewrite and not by any later one, in
      any run without a crash in which `waitpid` works. */
  lemma {:induction false} BarredRun(cfg: Config, s: State, i: nat, run: seq<Event>)
    requires Barred(s, i) && Possible(cfg, s, run) && forall e :: e in run ==> !e.WaitError? && !Crashes(e)
    ensures Barred(Final(cfg, s, run), i)
    decreases |run|
  {
    hide Enabled, Step, Barred;
    if run != [] {
      var e := run[0];
      assert e in run;
      if e.Mutate? {
        BarredMutates(cfg, s, i, e.r, e.flushOk);
      } else if e.Unlogged? || e.Clock? || e.Expiry? || e.Tick? || e.Fork? {
        BarredServes(cfg, s, i, e);
      } else if e.ChildOpen? || e.ChildEmit? || e.ChildDone? || e.ChildDie? {
        ChildWorks(cfg, s, e);
        BarredWorks(s, i, Step(cfg, s, e));
      } else {
        BarredEnds(cfg, s, i, e);
      }
      assert forall d :: d in run[1..] ==> d in run;
      BarredRun(cfg, Step(cfg, s, e), i, run[1..]);
    }
  }

  lemma AbortedFileNeverNamed(cfg: Config, s: State, i: nat, run: seq<Event>)
    requires Solid(cfg, s) && s.mode == Aborting && s.temp == Some(i) && Possible(cfg, s, run)
    requires forall e :: e in run ==> !e.WaitError? && !Crashes(e)
    ensures Final(cfg, s, run).named != i
  {
    hide Possible, Final, NamedOk, StoredOk, FinalOk, ChildOk, EncodeAll;
    Stored(s);
    BarredRun(cfg, s, i, run);
  }

  // ----- Every failure exit

  /** The child failed, or was aborted, or a sub-step of finalizing failed. */
  predicate Fails(s: State, e: Event) {
    match e
    case Reap => s.mode == Aborting || s.child.None? || s.child.value.exit != Some(true)
    case FinalOpen(ok) => !ok
    case FinalWrite(ok, _) => !ok
    case FinalFlush(ok) => !ok
    case FinalReopen(ok) => !ok
    case FinalRename(ok) => !ok
    case _ => false
  }

  /** Every failed rewrite leaves the server idle, with no child, no buffer and no temporary name, and the live
      file as it was, under its name and with the append descriptor on it. */
  lemma FailureDiscards(cfg: Config, s: State, e: Event)
    requires Solid(cfg, s) && Enabled(cfg, s, e) && Fails(s, e)
    ensures var s' := Step(cfg, s, e);
            && s'.mode == Idle && s'.child.None? && s'.diff == [] && s'.temp.None? && s'.phase == Serving
            && s'.named == s.named == s'.fd && s.named in s.files && s.named in s'.files
            && s'.files[s.named] == s.files[s.named]
            && s'.history == s.history && s'.tables == s.tables && s'.dirty == s.dirty
  {
    hide Encode, Enabled, Step, Solid, Discard;
    NamedApart(cfg, s);
    EndPhase(cfg, s, e);
    if e.FinalWrite? {
      FailedWrite(cfg, s, e.put);
      DiscardShape(WriteTemp(s, s.temp.value, s.diff[..e.put]));
    } else {
      FailedPlainly(cfg, s, e);
      DiscardShape(s);
    }
  }

  lemma DiscardShape(s: State)
    ensures Discard(s) == s.(temp := None, mode := Idle, child := None, diff := [], phase := Serving)
  {}

  lemma FailedWrite(cfg: Config, s: State, put: nat)
    requires Enabled(cfg, s, FinalWrite(false, put))
    ensures s.phase == Writing && s.temp.Some? && s.temp.value in s.files && put <= |s.diff|
    ensures Step(cfg, s, FinalWrite(false, put)) == Discard(WriteTemp(s, s.temp.value, s.diff[..put]))
  {
    hide Discard, WriteTemp;
  }

  lemma FailedPlainly(cfg: Config, s: State, e: Event)
    requires Enabled(cfg, s, e) && Fails(s, e) && !e.FinalWrite?
    ensures Step(cfg, s, e) == Discard(s) && s.phase != Swapping
  {
    hide Discard, Encode, CanKill, CanLosePower, Reload, AfterKill, AfterPowerLoss, Commanded;
  }

  lemma NamedApart(cfg: Config, s: State)
    requires Solid(cfg, s)
    ensures s.named in s.files && (s.phase != Swapping ==> s.fd == s.named)
    ensures s.temp.Some? ==> s.temp.value != s.named
  {
    hide StoredOk, RewriteOk, FinalOk, SyncedOk;
  }
}
