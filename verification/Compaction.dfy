/** What a rewrite is for, and exactly when it can be carried through. */
module Compaction {

  import opened Bytes
  import opened Store
  import opened Log
  import opened Codec
  import opened Loader
  import opened LogFile
  import opened Aging
  import opened Rewrite
  import opened RewriteProofs
  import opened Recovery
  import opened Durability

  /** Every entry still alive at `T` fits the record buffer. */
  ghost predicate AllFit(t: Tables, T: int) {
    forall k :: k in t.keyspace && !Dead(t, k, T) ==> Fits(SnapshotRecord(t, k))
  }

  /** The run leaves tables and clock to themselves and the process alive. */
  ghost predicate Undisturbed(run: seq<Event>) {
    forall e :: e in run ==> !e.Mutate? && !e.Unlogged? && !e.Clock? && !Crashes(e)
  }

  // ----- Putting runs together

  /** An undisturbed run from `s` to `f`. */
  ghost predicate GoesTo(cfg: Config, s: State, run: seq<Event>, f: State) {
    Possible(cfg, s, run) && Undisturbed(run) && Final(cfg, s, run) == f
  }

  lemma GoesNowhere(cfg: Config, s: State)
    ensures GoesTo(cfg, s, [], s)
  {}

  lemma GoesFirst(cfg: Config, s: State, e: Event, run: seq<Event>, f: State)
    requires Enabled(cfg, s, e) && Undisturbed([e]) && GoesTo(cfg, Step(cfg, s, e), run, f)
    ensures GoesTo(cfg, s, [e] + run, f)
  {
    hide Enabled, Step;
    assert ([e] + run)[1..] == run;
    assert forall d :: d in [e] + run ==> d in [e] || d in run;
  }

  lemma {:induction false} GoesOn(cfg: Config, s: State, a: seq<Event>, m: State, b: seq<Event>, f: State)
    requires GoesTo(cfg, s, a, m) && GoesTo(cfg, m, b, f)
    ensures GoesTo(cfg, s, a + b, f)
    decreases |a|
  {
    hide Enabled, Step;
    if a == [] {
      assert a + b == b;
    } else {
      assert forall d :: d in a[1..] ==> d in a;
      GoesOn(cfg, Step(cfg, s, a[0]), a[1..], m, b, f);
      assert a + b == [a[0]] + (a[1..] + b);
      assert a[0] in a;
      GoesFirst(cfg, s, a[0], a[1..] + b, f);
    }
  }

  // ----- The child's walk

  /** A child at work on its temporary file, with what is alive of the keys so far in it. */
  ghost predicate Working(s: State) {
    && s.mode == Active && s.phase == Serving && Writes(s)
    && var c := s.child.value;
       && c.pos <= |c.order| && CoversKeys(c.order, c.snapshot)
       && c.emitted == Snapshot(c.snapshot, c.order[..c.pos], Always(s.time))
  }

  /** Nothing but the rewrite moves. */
  predicate Steady(s: State, s': State) {
    && s'.tables == s.tables && s'.history == s.history && s'.temp == s.temp && s'.time == s.time && s'.past == s.past
    && s'.before == s.before
    && s.child.Some? && s'.child.Some?
    && s'.child.value == s.child.value.(pos := s'.child.value.pos, emitted := s'.child.value.emitted)
  }

  lemma SnapshotMore(t: Tables, order: seq<Key>, pos: nat, T: int)
    requires CoversKeys(order, t) && pos < |order|
    ensures var log := Snapshot(t, order[..pos], Always(T));
            Snapshot(t, order[..pos + 1], Always(T))
            == if Dead(t, order[pos], T) then log else log + [SnapshotRecord(t, order[pos])]
  {
    hide SnapshotRecord;
    assert order[..pos + 1][..pos] == order[..pos];
    assert Always(T)(pos) == T;
  }

  lemma EmitStep(cfg: Config, s: State)
    requires Solid(cfg, s) && Working(s) && AllFit(s.child.value.snapshot, s.time)
    requires s.child.value.pos < |s.child.value.order|
    ensures Enabled(cfg, s, ChildEmit(s.time))
    ensures var s' := Step(cfg, s, ChildEmit(s.time));
            && Solid(cfg, s') && Working(s') && Steady(s, s') && s'.child.value.pos == s.child.value.pos + 1
  {
    hide EncodeAll, Encode, FileHeader, NamedOk, StoredOk, FinalOk, Snapshot, Visits, Storable, SnapshotRecord, Fits,
      Dead;
    var c := s.child.value;
    Stored(s);
    EntryLoggable(c.snapshot, c.order[c.pos]);
    SnapshotMore(c.snapshot, c.order, c.pos, s.time);
    ChildEmitSolid(cfg, s, s.time);
  }

  /** The walk comes to its end, if everything alive fits. */
  lemma {:induction false} WalkEnds(cfg: Config, s: State) returns (run: seq<Event>, f: State)
    requires Solid(cfg, s) && Working(s) && AllFit(s.child.value.snapshot, s.time)
    ensures GoesTo(cfg, s, run, f)
    ensures Solid(cfg, f) && Working(f) && Steady(s, f) && f.child.value.pos == |s.child.value.order|
    decreases |s.child.value.order| - s.child.value.pos
  {
    hide Solid, Enabled, Step, Snapshot, AllFit, GoesTo;
    run, f := [], s;
    GoesNowhere(cfg, s);
    if s.child.value.pos < |s.child.value.order| {
      EmitStep(cfg, s);
      run, f := WalkEnds(cfg, Step(cfg, s, ChildEmit(s.time)));
      GoesFirst(cfg, s, ChildEmit(s.time), run, f);
      run := [ChildEmit(s.time)] + run;
    }
  }

  // ----- Finalizing

  /** All that a rewrite has ready when its child has succeeded. */
  predicate Ready(s: State) {
    s.child.Some? && s.child.value.created.Some? && s.temp.Some? && s.temp.value in s.files
  }

  /** The end of a rewrite: the new file is under the name, flushed, and the server idle. */
  predicate Completed(s: State, f: State)
    requires Ready(s)
  {
    var c := s.child.value;
    && f.tables == s.tables && f.history == s.history && f.mode == Idle && f.phase == Serving
    && f.past == s.past && f.before == s.before && f.time == s.time
    && f.named == s.temp.value && f.base == c.emitted && f.baseAt == c.forkAt && f.rootAt == c.bornAt
    && f.created == c.created.value
    && f.named in f.files && f.files[f.named].flushed == |f.files[f.named].bytes|
  }

  lemma RenameEnds(cfg: Config, s: State) returns (run: seq<Event>, f: State)
    requires Ready(s) && s.phase == Renaming && s.newFd == s.temp.value
    requires s.files[s.temp.value].flushed == |s.files[s.temp.value].bytes|
    ensures GoesTo(cfg, s, run, f) && Completed(s, f)
  {
    hide Encode, FileHeader, Apply, Start, GoesTo, CanKill, CanLosePower, Reload;
    var s1 := Step(cfg, s, FinalRename(true));
    f := Step(cfg, s1, FinalSwap);
    GoesNowhere(cfg, f);
    GoesFirst(cfg, s1, FinalSwap, [], f);
    GoesFirst(cfg, s, FinalRename(true), [FinalSwap] + [], f);
    run := [FinalRename(true)] + ([FinalSwap] + []);
  }

  lemma FlushEnds(cfg: Config, s: State) returns (run: seq<Event>, f: State)
    requires Ready(s) && s.phase == Flushing
    ensures GoesTo(cfg, s, run, f) && Completed(s, f)
  {
    hide Encode, FileHeader, Apply, Start, GoesTo, CanKill, CanLosePower, Reload;
    var s1 := Step(cfg, s, FinalFlush(true));
    var s2 := Step(cfg, s1, FinalReopen(true));
    run, f := RenameEnds(cfg, s2);
    GoesFirst(cfg, s1, FinalReopen(true), run, f);
    run := [FinalReopen(true)] + run;
    GoesFirst(cfg, s, FinalFlush(true), run, f);
    run := [FinalFlush(true)] + run;
  }

  lemma FinalizeEnds(cfg: Config, s: State) returns (run: seq<Event>, f: State)
    requires Ready(s) && s.phase == Opening
    ensures GoesTo(cfg, s, run, f) && Completed(s, f)
  {
    hide Encode, FileHeader, Apply, Start, GoesTo, CanKill, CanLosePower, Reload;
    var s1 := Step(cfg, s, FinalOpen(true));
    var s2 := Step(cfg, s1, FinalWrite(true, 0));
    run, f := FlushEnds(cfg, s2);
    GoesFirst(cfg, s1, FinalWrite(true, 0), run, f);
    run := [FinalWrite(true, 0)] + run;
    GoesFirst(cfg, s, FinalOpen(true), run, f);
    run := [FinalOpen(true)] + run;
  }

  /** From the end of the child's walk to the end of the rewrite. */
  lemma DoneEnds(cfg: Config, s: State) returns (run: seq<Event>, f: State)
    requires Solid(cfg, s) && Working(s) && s.child.value.pos == |s.child.value.order|
    ensures Ready(s) && GoesTo(cfg, s, run, f) && Completed(s, f)
  {
    hide Encode, FileHeader, Apply, Start, GoesTo, Solid, Snapshot, CanKill, CanLosePower, Reload;
    var s1 := Step(cfg, s, ChildDone);
    var s2 := Step(cfg, s1, Reap);
    run, f := FinalizeEnds(cfg, s2);
    GoesFirst(cfg, s1, Reap, run, f);
    run := [Reap] + run;
    GoesFirst(cfg, s, ChildDone, run, f);
    run := [ChildDone] + run;
  }

  // ----- A whole rewrite

  /** Fork and the opening of a temporary file. */
  lemma Begins(cfg: Config, s: State, order: seq<Key>, inode: nat, time: nat)
    requires Solid(cfg, s) && s.mode == Idle && s.phase == Serving && Visits(order, s.tables)
    requires if s.temp.Some? then inode == s.temp.value else inode !in s.files
    ensures Enabled(cfg, s, Fork(order))
    ensures var s1 := Step(cfg, s, Fork(order));
            && Enabled(cfg, s1, ChildOpen(inode, time))
            && var s2 := Step(cfg, s1, ChildOpen(inode, time));
               && Solid(cfg, s2) && Working(s2) && s2.tables == s.tables && s2.history == s.history && s2.time == s.time
               && s2.temp == Some(inode) && s2.past == s.past && s2.before == s.before
               && s2.child.value == Child(s.tables, |s.history|, |s.past|, order, 0, [], Some(time), None)
  {
    hide EncodeAll, Encode, FileHeader, Apply, Start, Solid, CanKill, CanLosePower, Reload;
    ForkSolid(cfg, s, order);
    var s1 := Step(cfg, s, Fork(order));
    ChildOpenSolid(cfg, s1, inode, time);
    NothingYet(s.tables, order[..0], s.time);
  }

  lemma NothingYet(t: Tables, order: seq<Key>, T: int)
    requires order == []
    ensures Snapshot(t, order, Always(T)) == []
  {}

  /** After the switch nothing but the snapshot is in the file. */
  lemma CompletedImage(cfg: Config, f: State)
    requires Solid(cfg, f) && f.baseAt == |f.history|
    ensures LoggableAll(f.base) && f.named in f.files && f.files[f.named].bytes == Image(f.created, f.base)
  {
    hide EncodeAll, Encode, FileHeader, RewriteOk, FinalOk, SyncedOk, Storable;
    assert f.history[f.baseAt..] == [];
    EncodeAllEmpty();
    assert FileHeader(f.created) + EncodeAll(f.base) + [] == FileHeader(f.created) + EncodeAll(f.base);
  }

  lemma {:induction false} GoesSolid(cfg: Config, s: State, run: seq<Event>)
    requires Solid(cfg, s) && Possible(cfg, s, run) && forall e :: e in run ==> !Crashes(e)
    ensures Solid(cfg, Final(cfg, s, run))
    decreases |run|
  {
    hide Solid, Enabled, Step;
    if run != [] {
      assert run[0] in run && forall d :: d in run[1..] ==> d in run;
      StepSolid(cfg, s, run[0]);
      GoesSolid(cfg, Step(cfg, s, run[0]), run[1..]);
    }
  }

  /** The file of a completed rewrite: a header and exactly one record for each entry alive at its time. */
  ghost predicate Compacted(s: State, f: State, order: seq<Key>, inode: nat, time: nat) {
    && CoversKeys(order, s.tables)
    && var log := Snapshot(s.tables, order, Always(s.time));
       && f.tables == s.tables && f.history == s.history && f.mode == Idle && f.phase == Serving
       && f.named == inode && inode in f.files && LoggableAll(log) && f.files[inode].bytes == Image(time, log)
       && f.files[inode].flushed == |f.files[inode].bytes| && |log| == |AliveAt(s.tables, s.time).keyspace|
       && f.past == s.past && f.before == s.before && f.rootAt == |f.past| && f.baseAt == |f.history|
  }

  lemma {:induction false} OneRecordEach(t: Tables, order: seq<Key>, T: int)
    requires Consistent(t) && CoversKeys(order, t) && NoRepeats(order)
    ensures |Snapshot(t, order, Always(T))| == |AliveIn(t, KeySet(order), T).keyspace|
  {
    if order == [] {
      assert AliveIn(t, {}, T).keyspace == map[];
    } else {
      var i := |order| - 1;
      OneRecordEach(t, order[..i], T);
      assert Always(T)(i) == T;
      KeySetSnoc(order, i);
      AliveMore(t, KeySet(order[..i]), order[i], T);
    }
  }

  lemma AliveMore(t: Tables, ks: set<Key>, k: Key, T: int)
    requires Consistent(t) && k in t.keyspace && k !in ks
    ensures |AliveIn(t, ks + {k}, T).keyspace| == |AliveIn(t, ks, T).keyspace| + if Dead(t, k, T) then 0 else 1
  {
    AliveGrows(t, ks, k, T);
    if !Dead(t, k, T) {
      OneMore(AliveIn(t, ks, T), SnapshotRecord(t, k));
    }
  }

  lemma OneMore(t: Tables, r: Record)
    requires r.key !in t.keyspace && r.op in {OpSet, OpSetex}
    ensures |Apply(t, r).tables.keyspace| == |t.keyspace| + 1
  {
    assert Apply(t, r).tables.keyspace.Keys == t.keyspace.Keys + {r.key};
  }

  lemma OneRecordForAll(t: Tables, order: seq<Key>, T: int)
    requires Consistent(t) && Visits(order, t)
    ensures |Snapshot(t, order, Always(T))| == |AliveAt(t, T).keyspace|
  {
    hide Snapshot;
    OneRecordEach(t, order, T);
    assert AliveIn(t, KeySet(order), T).keyspace == AliveAt(t, T).keyspace;
  }

  /** Compaction does what it is for. From every reachable idle state in which all that is alive fits, in
      whatever order the keys are visited, a rewrite can be carried through; the AOF name then means a
      flushed file with exactly one record for each living key, and the tables are as they were. */
  lemma RewriteCompacts(cfg: Config, s: State, order: seq<Key>, inode: nat, time: nat)
    returns (run: seq<Event>, f: State)
    requires Solid(cfg, s) && s.mode == Idle && s.phase == Serving && Visits(order, s.tables)
    requires AllFit(s.tables, s.time)
    requires if s.temp.Some? then inode == s.temp.value else inode !in s.files
    ensures GoesTo(cfg, s, run, f) && Compacted(s, f, order, inode, time)
  {
    hide EncodeAll, Encode, FileHeader, Solid, Step, Enabled, Snapshot, GoesTo, AllFit, Working, Image;
    Begins(cfg, s, order, inode, time);
    var s1 := Step(cfg, s, Fork(order));
    var s2 := Step(cfg, s1, ChildOpen(inode, time));
    var walk, s3 := WalkEnds(cfg, s2);
    var rest;
    rest, f := DoneEnds(cfg, s3);
    GoesOn(cfg, s2, walk, s3, rest, f);
    run := walk + rest;
    GoesFirst(cfg, s1, ChildOpen(inode, time), run, f);
    run := [ChildOpen(inode, time)] + run;
    GoesFirst(cfg, s, Fork(order), run, f);
    run := [Fork(order)] + run;
    WentSolid(cfg, s, run, f);
    CompletedImage(cfg, f);
    WalkedAll(s3);
    SolidTables(cfg, s);
    OneRecordForAll(s.tables, order, s.time);
  }

  lemma SolidTables(cfg: Config, s: State)
    requires Solid(cfg, s)
    ensures Consistent(s.tables)
  {
    hide NamedOk, RewriteOk, FinalOk;
  }

  lemma WentSolid(cfg: Config, s: State, run: seq<Event>, f: State)
    requires Solid(cfg, s) && GoesTo(cfg, s, run, f)
    ensures Solid(cfg, f)
  {
    hide Solid, Possible, Final;
    GoesSolid(cfg, s, run);
  }

  lemma WalkedAll(s: State)
    requires Working(s) && s.child.value.pos == |s.child.value.order|
    ensures var c := s.child.value;
            CoversKeys(c.order, c.snapshot) && c.emitted == Snapshot(c.snapshot, c.order, Always(s.time))
  {
    hide Snapshot;
    var c := s.child.value;
    assert c.order[..|c.order|] == c.order;
  }

  // ----- Values that do not fit

  /** Key `k` holds a living value whose record does not fit. */
  ghost predicate Unfit(t: Tables, k: Key, T: int) {
    k in t.keyspace && !Dead(t, k, T) && !Fits(SnapshotRecord(t, k))
  }

  /** The same entry in both tables. */
  predicate SameEntry(t: Tables, u: Tables, k: Key) {
    && k in t.keyspace && k in u.keyspace && t.keyspace[k] == u.keyspace[k]
    && (k in t.expires <==> k in u.expires) && (k in t.expires ==> t.expires[k] == u.expires[k])
  }

  /** No rewrite gets past `k`: not the one under way, whose child has yet to come to it, nor any later one. */
  ghost predicate Stuck(s: State, k: Key, T: int) {
    && s.phase == Serving && Unfit(s.tables, k, T) && s.time <= T
    && (s.child.Some? ==>
          var c := s.child.value;
          && SameEntry(s.tables, c.snapshot, k) && c.exit != Some(true) && c.pos <= |c.order| && k in c.order[c.pos..])
  }

  /** The run never touches `k`, and no clock in it passes `T`. */
  ghost predicate LeavesAlone(run: seq<Event>, k: Key, T: int) {
    forall e :: e in run ==> Spares(e, k, T)
  }

  predicate Spares(e: Event, k: Key, T: int) {
    match e
    case Mutate(r, _) => r.key != k
    case Unlogged(r) => r.key != k
    case Clock(now) => now <= T
    case Kill(_) => false
    case PowerLoss(_, _) => false
    case _ => true
  }

  lemma ApplyElsewhere(t: Tables, r: Record, k: Key)
    requires r.key != k && k in t.keyspace
    ensures SameEntry(t, Apply(t, r).tables, k)
  {}

  lemma UnfitSame(t: Tables, u: Tables, k: Key, T: int)
    requires Unfit(t, k, T) && SameEntry(t, u, k)
    ensures Unfit(u, k, T)
  {}

  lemma SameEntryOn(t: Tables, u: Tables, v: Tables, k: Key)
    requires SameEntry(t, u, k) && SameEntry(t, v, k)
    ensures SameEntry(u, v, k)
  {}

  lemma StuckMutates(cfg: Config, s: State, k: Key, T: int, r: Record, flushOk: bool)
    requires Stuck(s, k, T) && Enabled(cfg, s, Mutate(r, flushOk)) && r.key != k
    ensures var s' := Step(cfg, s, Mutate(r, flushOk)); Stuck(s', k, T) && s'.named == s.named
  {
    hide Encode, Apply, EmitDiff, Append, Fits, Unfit, SameEntry;
    var a := Apply(s.tables, r);
    StuckSpared(s, k, T, r);
    if a.ok {
      AppendParts(cfg, Lived(s, Moment.Logged(r)), r, Encode(r), flushOk);
    }
  }

  lemma StuckSpared(s: State, k: Key, T: int, r: Record)
    requires Stuck(s, k, T) && r.key != k
    ensures Unfit(Apply(s.tables, r).tables, k, T)
    ensures s.child.Some? ==> SameEntry(Apply(s.tables, r).tables, s.child.value.snapshot, k)
  {
    hide Apply, SameEntry, Fits;
    ApplyElsewhere(s.tables, r, k);
    UnfitSame(s.tables, Apply(s.tables, r).tables, k, T);
    if s.child.Some? {
      SameEntryOn(s.tables, Apply(s.tables, r).tables, s.child.value.snapshot, k);
    }
  }

  lemma StuckServes(cfg: Config, s: State, k: Key, T: int, e: Event)
    requires Stuck(s, k, T) && Enabled(cfg, s, e) && Spares(e, k, T)
    requires e.Unlogged? || e.Clock? || e.Expiry? || e.Tick? || e.Fork?
    ensures var s' := Step(cfg, s, e); Stuck(s', k, T) && s'.named == s.named
  {
    hide Encode, Apply, Command, EmitKey, CanKill, CanLosePower, Reload, AfterKill, AfterPowerLoss, Fits,
      SnapshotRecord;
    if e.Unlogged? {
      StuckSpared(s, k, T, e.r);
    } else if e.Expiry? {
      assert !Dead(s.tables, k, e.now);
      StillThere(s.tables, e.dead, k, T);
    } else if e.Fork? {
      assert e.order[0..] == e.order;
    }
  }

  lemma StillThere(t: Tables, dead: set<Key>, k: Key, T: int)
    requires Unfit(t, k, T) && k !in dead
    ensures Unfit(Without(t, dead), k, T) && SameEntry(t, Without(t, dead), k)
  {
    hide Fits;
  }

  lemma StuckEmits(s: State, k: Key, T: int, now: int)
    requires Stuck(s, k, T) && Writes(s) && now <= s.time && s.child.value.pos < |s.child.value.order|
    requires s.child.value.order[s.child.value.pos] in s.child.value.snapshot.keyspace
    requires IsInt64(SnapshotRecord(s.child.value.snapshot, s.child.value.order[s.child.value.pos]).expireAt)
    ensures var s' := EmitKey(s, s.child.value, s.temp.value, now); Stuck(s', k, T) && s'.named == s.named
  {
    hide Encode, Fits, SameEntry;
    var c := s.child.value;
    UnfitSame(s.tables, c.snapshot, k, T);
    if c.order[c.pos] != k {
      assert c.order[c.pos..] == [c.order[c.pos]] + c.order[c.pos + 1..];
    }
  }

  lemma StuckChild(cfg: Config, s: State, k: Key, T: int, e: Event)
    requires Stuck(s, k, T) && Enabled(cfg, s, e) && Spares(e, k, T)
    requires !(e.Mutate? || e.Unlogged? || e.Clock? || e.Expiry? || e.Tick? || e.Fork?)
    ensures var s' := Step(cfg, s, e); Stuck(s', k, T) && s'.named == s.named
  {
    hide Encode, Apply, Command, EmitKey, CanKill, CanLosePower, Reload, AfterKill, AfterPowerLoss, Fits,
      SnapshotRecord, Unfit,
      SameEntry;
    if e.ChildEmit? {
      StuckEmits(s, k, T, e.now);
    }
  }

  /** A living value whose record does not fit makes every rewrite fail: in every run that leaves its key
      alone, with any other commands, forks and outcomes, the AOF name keeps its file for as long as the
      value lives. */
  lemma {:induction false} UnfitValueBlocks(cfg: Config, s: State, k: Key, T: int, run: seq<Event>)
    requires Stuck(s, k, T) && Possible(cfg, s, run) && LeavesAlone(run, k, T)
    ensures Stuck(Final(cfg, s, run), k, T) && Final(cfg, s, run).named == s.named
    decreases |run|
  {
    hide Enabled, Step, Stuck, Spares;
    if run != [] {
      var e := run[0];
      assert e in run && Spares(e, k, T);
      SparedKind(e, k, T);
      if e.Mutate? {
        StuckMutates(cfg, s, k, T, e.r, e.flushOk);
      } else if e.Unlogged? || e.Clock? || e.Expiry? || e.Tick? || e.Fork? {
        StuckServes(cfg, s, k, T, e);
      } else {
        StuckChild(cfg, s, k, T, e);
      }
      assert forall d :: d in run[1..] ==> d in run;
      UnfitValueBlocks(cfg, Step(cfg, s, e), k, T, run[1..]);
    }
  }

  lemma SparedKind(e: Event, k: Key, T: int)
    requires Spares(e, k, T)
    ensures e.Mutate? ==> e.r.key != k
  {}

  // ----- Exactly when

  lemma {:induction false} SomeOrder(ks: set<Key>) returns (order: seq<Key>)
    ensures NoRepeats(order) && forall k :: k in order <==> k in ks
  {
    order := [];
    if ks != {} {
      var k :| k in ks;
      var rest := SomeOrder(ks - {k});
      order := rest + [k];
    }
  }

  lemma {:induction false} SomeInode(used: set<nat>) returns (i: nat)
    ensures forall j :: j in used ==> j < i
  {
    i := 0;
    if used != {} {
      var j :| j in used;
      var n := SomeInode(used - {j});
      i := if j < n then n else j + 1;
      assert forall l :: l in used ==> l == j || l in used - {j};
    }
  }

  /** Some undisturbed run puts a new file under the AOF name. */
  ghost predicate CanComplete(cfg: Config, s: State) {
    exists run, f :: GoesTo(cfg, s, run, f) && f.named != s.named
  }

  /** In every reachable idle state: a rewrite can complete if and only if every living entry fits the
      record buffer. */
  lemma CanCompleteIff(cfg: Config, s: State)
    requires Solid(cfg, s) && s.mode == Idle && s.phase == Serving
    ensures CanComplete(cfg, s) <==> AllFit(s.tables, s.time)
  {
    hide Solid, GoesTo, AllFit, Fits, Dead, SnapshotRecord;
    if AllFit(s.tables, s.time) {
      Completes(cfg, s);
    }
    if CanComplete(cfg, s) && !AllFit(s.tables, s.time) {
      var run, f :| GoesTo(cfg, s, run, f) && f.named != s.named;
      Fails(cfg, s, run, f);
    }
  }

  lemma Completes(cfg: Config, s: State)
    requires Solid(cfg, s) && s.mode == Idle && s.phase == Serving && AllFit(s.tables, s.time)
    ensures CanComplete(cfg, s)
  {
    hide GoesTo, AllFit, Snapshot, Image, NamedOk, RewriteOk, FinalOk, StoredOk;
    Stored(s);
    NamedThere(s);
    var order := SomeOrder(s.tables.keyspace.Keys);
    assert forall i :: 0 <= i < |order| ==> order[i] in order;
    var inode := SomeInode(s.files.Keys);
    if s.temp.Some? {
      inode := s.temp.value;
    }
    var run, f := RewriteCompacts(cfg, s, order, inode, 0);
  }

  lemma Fails(cfg: Config, s: State, run: seq<Event>, f: State)
    requires Solid(cfg, s) && s.mode == Idle && s.phase == Serving && !AllFit(s.tables, s.time)
    requires GoesTo(cfg, s, run, f)
    ensures f.named == s.named
  {
    hide Possible, Final, NamedOk, FinalOk, StoredOk, ChildOk, EncodeAll, Fits;
    Stored(s);
    var k :| k in s.tables.keyspace && !Dead(s.tables, k, s.time) && !Fits(SnapshotRecord(s.tables, k));
    assert Stuck(s, k, s.time);
    UnfitValueBlocks(cfg, s, k, s.time, run);
  }

  // ----- What a completed rewrite mends

  /** Whatever was lived before the fork, be it unlogged or harmful: once a rewrite is renamed into place, only
      the commands since its fork matter. If those are harmless, the named file shows the live tables again. */
  lemma RenameMends(cfg: Config, s: State, buf: seq<byte>, T: int)
    requires Inv(cfg, s) && Enabled(cfg, s, FinalRename(true)) && s.time <= T && |buf| == RECORD_MAX
    requires cfg.startCap <= cfg.maxDiff && s.child.Some? && HarmlessSince(s, s.child.value.bornAt, T)
    ensures var f := Step(cfg, s, FinalRename(true));
            AllHarmless(f, T) && f.tables == s.tables && f.named in f.files && ShowsLater(f, buf, T)
  {
    hide Inv, Start, AliveAt, Harmless, Enabled, Step, GoodReload;
    var f := Step(cfg, s, FinalRename(true));
    Renamed(cfg, s);
    StepKeeps(cfg, s, FinalRename(true));
    InvParts(cfg, f);
    LeadsLengths(f);
    SteadyAlways(f, T);
    LoadsNow(cfg, f, buf, Always(T), T);
  }

  /** Every command from number `n` on is harmless. */
  ghost predicate HarmlessSince(s: State, n: nat, T: int) {
    && n <= |s.past| == |s.before|
    && forall i :: n <= i < |s.past| ==> Harmless(s.before[i], s.past[i], T)
  }

  lemma Renamed(cfg: Config, s: State)
    requires Enabled(cfg, s, FinalRename(true))
    ensures var f := Step(cfg, s, FinalRename(true));
            && s.child.Some? && f.rootAt == s.child.value.bornAt && f.past == s.past && f.before == s.before
            && f.tables == s.tables && f.time == s.time
  {}

  lemma LeadsLengths(s: State)
    requires Leads(s, s.root, s.rootAt, s.baseAt)
    ensures s.baseAt <= |s.history|
  {
    hide Trail, LoggedIn;
  }

  /** From every reachable idle state in which all that is alive fits, with any unlogged commands and elapsed
      deadlines behind it, a rewrite can be carried through after which every later reload shows the live
      tables. */
  lemma RewriteMends(cfg: Config, s: State, order: seq<Key>, inode: nat, time: nat, buf: seq<byte>)
    returns (run: seq<Event>, f: State)
    requires Solid(cfg, s) && s.mode == Idle && s.phase == Serving && Visits(order, s.tables)
    requires AllFit(s.tables, s.time) && |buf| == RECORD_MAX
    requires if s.temp.Some? then inode == s.temp.value else inode !in s.files
    ensures GoesTo(cfg, s, run, f) && f.tables == s.tables && f.named in f.files
    ensures forall T :: s.time <= T ==> AllHarmless(f, T) && ShowsLater(f, buf, T)
  {
    hide Solid, GoesTo, AllFit, Snapshot, Image, Start, AliveAt, Visits;
    run, f := RewriteCompacts(cfg, s, order, inode, time);
    SolidTables(cfg, s);
    SolidLength(cfg, s);
    forall T | s.time <= T
      ensures AllHarmless(f, T) && ShowsLater(f, buf, T)
    {
      SnapshotLater(s.tables, order, s.time, T);
      StartOnImage(time, Snapshot(s.tables, order, Always(s.time)), buf, Always(T));
    }
  }

  lemma SnapshotLater(t: Tables, order: seq<Key>, now: int, T: int)
    requires Consistent(t) && Visits(order, t) && now <= T
    ensures var r := Replay(Snapshot(t, order, Always(now)), Always(T));
            r.ok && r.tables == AliveAt(t, T)
  {
    hide Snapshot, Replay, AliveAt;
    SnapshotRight(t, order, Always(now), T);
  }

  lemma SolidLength(cfg: Config, s: State)
    requires Solid(cfg, s)
    ensures |s.before| == |s.past|
  {
    hide NamedOk, RewriteOk, FinalOk;
  }

  /** The named file, loaded at `T`, gives what is alive of the tables. */
  ghost predicate ShowsLater(f: State, buf: seq<byte>, T: int)
    requires |buf| == RECORD_MAX && f.named in f.files
  {
    var up := Start(f.files[f.named].bytes, buf, Always(T));
    up.Recovered? && up.loaded.tables == AliveAt(f.tables, T) && up.loaded.stop == CleanEof
  }
}
