/** Logs as lists of records: replay with its skipping of elapsed records, the compacted snapshot,
    and when replay rebuilds the live tables. */
module Log {

  import opened Store

  /** Replay skips a record whose deadline has passed when it is reached. */
  predicate Elapsed(r: Record, now: int) {
    0 < r.expireAt < now
  }

  datatype Replayed = Replayed(tables: Tables, count: nat, ok: bool)

  /** Replay from empty tables; `clock(i)` is the wall clock when record `i` is reached. A record whose
      operation fails ends the replay. */
  function Replay(log: seq<Record>, clock: nat -> int): (r: Replayed)
    ensures Consistent(r.tables)
    ensures r.count <= |log|
    ensures r.ok ==> r.count == |log|
  {
    if log == [] then
      Replayed(EMPTY, 0, true)
    else
      var i := |log| - 1;
      var p := Replay(log[..i], clock);
      if !p.ok then p
      else if Elapsed(log[i], clock(i)) then Replayed(p.tables, i + 1, true)
      else
        var a := Apply(p.tables, log[i]);
        Replayed(a.tables, if a.ok then i + 1 else i, a.ok)
  }

  /** A clock that stands still. */
  function Always(T: int): (clock: nat -> int) {
    _ => T
  }

  /** Every record runs: the history as the server itself lived it. */
  function Live(log: seq<Record>): (r: Replayed) {
    Replay(log, Always(0))
  }

  ghost predicate NoneElapsed(log: seq<Record>, clock: nat -> int) {
    forall i :: 0 <= i < |log| ==> !Elapsed(log[i], clock(i))
  }

  /** No deadline in the log lies before `T`. */
  predicate Calm(log: seq<Record>, T: int) {
    forall i :: 0 <= i < |log| ==> !Elapsed(log[i], T)
  }

  lemma CalmNoneElapsed(log: seq<Record>, T: int, clock: nat -> int)
    requires Calm(log, T)
    requires forall i: nat :: clock(i) <= T
    ensures NoneElapsed(log, clock)
  {
    forall i | 0 <= i < |log|
      ensures !Elapsed(log[i], clock(i))
    {
      assert clock(i) <= T;
    }
  }

  /** With no record skipped, replay rebuilds the live history. */
  lemma {:induction false} ReplayIsLive(log: seq<Record>, clock: nat -> int)
    requires NoneElapsed(log, clock)
    ensures Replay(log, clock) == Live(log)
  {
    if log != [] {
      ReplayIsLive(log[..|log| - 1], clock);
    }
  }

  lemma ReplaySnoc(log: seq<Record>, r: Record, clock: nat -> int)
    requires Replay(log, clock).ok
    ensures var p := Replay(log, clock);
            var a := Apply(p.tables, r);
            Replay(log + [r], clock) ==
              if Elapsed(r, clock(|log|)) then Replayed(p.tables, |log| + 1, true)
              else Replayed(a.tables, if a.ok then |log| + 1 else |log|, a.ok)
  {
    assert (log + [r])[..|log|] == log;
  }

  /** No record of the live history is skipped. */
  lemma LiveStep(log: seq<Record>)
    requires log != []
    ensures var p, r := Live(log[..|log| - 1]), log[|log| - 1];
            var a := Apply(p.tables, r);
            Live(log) == if p.ok then Replayed(a.tables, if a.ok then |log| else |log| - 1, a.ok) else p
  {
    assert Always(0)(|log| - 1) == 0;
  }

  /** Replay is a fold: what follows depends only on the tables reached. */
  lemma {:induction false} LiveAppend(a: seq<Record>, b: seq<Record>, tail: seq<Record>)
    requires Live(a).ok && Live(b).ok && Live(a).tables == Live(b).tables
    ensures Live(a + tail).ok == Live(b + tail).ok
    ensures Live(a + tail).tables == Live(b + tail).tables
  {
    if tail == [] {
      assert a + tail == a && b + tail == b;
    } else {
      var i := |tail| - 1;
      LiveAppend(a, b, tail[..i]);
      assert (a + tail)[..|a| + i] == a + tail[..i];
      assert (b + tail)[..|b| + i] == b + tail[..i];
    }
  }

  lemma {:induction false} LivePrefix(log: seq<Record>, n: nat)
    requires n <= |log| && Live(log).ok
    ensures Live(log[..n]).ok
    decreases |log|
  {
    if n < |log| {
      var i := |log| - 1;
      LivePrefix(log[..i], n);
      assert log[..i][..n] == log[..n];
    } else {
      assert log[..n] == log;
    }
  }

  // ----- Exactly when every crash point reloads to the tables of its moment

  /** Records as the command handlers write them: a deadline is logged exactly by SETEX and EXPIRE. */
  predicate HandlerRecord(r: Record) {
    match r.op
    case OpSetex => 0 < r.expireAt
    case OpExpire => 0 < r.expireAt && r.value == []
    case OpSet => r.expireAt == 0
    case _ => r.expireAt == 0 && r.value == []
  }

  lemma {:induction false} DeadlinesFromLog(log: seq<Record>, T: int)
    requires Calm(log, T)
    ensures forall k :: k in Live(log).tables.expires ==> T <= Live(log).tables.expires[k]
  {
    if log != [] {
      var i := |log| - 1;
      var p := Live(log[..i]);
      DeadlinesFromLog(log[..i], T);
      LiveStep(log);
      assert !Elapsed(log[i], T);
    }
  }

  lemma {:induction false} FirstElapsed(log: seq<Record>, T: int) returns (n: nat)
    requires !Calm(log, T)
    ensures n < |log| && Calm(log[..n], T) && Elapsed(log[n], T)
  {
    var i := |log| - 1;
    if Calm(log[..i], T) {
      n := i;
    } else {
      n := FirstElapsed(log[..i], T);
      assert log[..i][..n] == log[..n];
    }
  }

  /** A reload at time `T` rebuilds the live tables at every possible crash point of the history if
      and only if no deadline ever logged has passed. */
  lemma ReplayExactIff(log: seq<Record>, T: int)
    requires Live(log).ok
    requires forall r :: r in log ==> HandlerRecord(r)
    ensures Calm(log, T) <==> forall n :: 0 <= n <= |log| ==> Replay(log[..n], Always(T)) == Live(log[..n])
  {
    var clock := Always(T);
    if Calm(log, T) {
      forall n | 0 <= n <= |log|
        ensures Replay(log[..n], clock) == Live(log[..n])
      {
        CalmNoneElapsed(log[..n], T, clock);
        ReplayIsLive(log[..n], clock);
      }
    } else {
      var n := FirstElapsed(log, T);
      assert Replay(log[..n + 1], clock) != Live(log[..n + 1]) by {
        assert log[..n + 1][..n] == log[..n];
        CalmNoneElapsed(log[..n], T, clock);
        ReplayIsLive(log[..n], clock);
        LivePrefix(log, n);
        LivePrefix(log, n + 1);
        DeadlinesFromLog(log[..n], T);
        assert log[n] in log;
        assert log[n].key in Live(log[..n + 1]).tables.expires;
      }
    }
  }

  // ----- How far an elapsed deadline reaches

  /** No record of `k` is skipped. */
  ghost predicate Unspoilt(log: seq<Record>, clock: nat -> int, k: Key) {
    forall i :: 0 <= i < |log| && log[i].key == k ==> !Elapsed(log[i], clock(i))
  }

  predicate AgreeOn(a: Tables, b: Tables, k: Key) {
    && (k in a.keyspace <==> k in b.keyspace)
    && (k in a.keyspace ==> a.keyspace[k] == b.keyspace[k])
    && (k in a.expires <==> k in b.expires)
    && (k in a.expires ==> a.expires[k] == b.expires[k])
  }

  lemma ApplyAgrees(a: Tables, b: Tables, r: Record, k: Key)
    requires AgreeOn(a, b, k)
    ensures r.key == k ==> Apply(a, r).ok == Apply(b, r).ok && AgreeOn(Apply(a, r).tables, Apply(b, r).tables, k)
    ensures r.key != k ==> AgreeOn(Apply(a, r).tables, a, k) && AgreeOn(Apply(b, r).tables, b, k)
  {}

  /** An elapsed deadline hurts only its own key: as far as a replay at any time gets, every other key
      has exactly its live value and deadline. */
  lemma {:induction false} UnspoiltKeysAgree(log: seq<Record>, clock: nat -> int, k: Key)
    requires Live(log).ok && Replay(log, clock).ok && Unspoilt(log, clock, k)
    ensures AgreeOn(Replay(log, clock).tables, Live(log).tables, k)
  {
    hide Apply, AgreeOn;
    if log == [] {
      EmptyAgrees(k);
    } else {
      var i := |log| - 1;
      LiveStep(log);
      UnspoiltKeysAgree(log[..i], clock, k);
      var a, b := Replay(log[..i], clock).tables, Live(log[..i]).tables;
      ApplyAgrees(a, b, log[i], k);
      AgreeTransitive(Apply(a, log[i]).tables, a, b, Apply(b, log[i]).tables, k);
    }
  }

  lemma EmptyAgrees(k: Key)
    ensures AgreeOn(EMPTY, EMPTY, k)
  {}

  lemma AgreeTransitive(a': Tables, a: Tables, b: Tables, b': Tables, k: Key)
    requires AgreeOn(a, b, k)
    ensures AgreeOn(b', b, k) ==> AgreeOn(a, b', k)
    ensures AgreeOn(a', a, k) && AgreeOn(b', b, k) ==> AgreeOn(a', b', k)
  {}

  /** A replay that stops early stops at a record of a key that had an elapsed record before. */
  lemma {:induction false} StopsOnlyAtSpoiltKey(log: seq<Record>, clock: nat -> int)
    requires Live(log).ok && !Replay(log, clock).ok
    ensures var i := Replay(log, clock).count;
            i < |log| && !Unspoilt(log[..i], clock, log[i].key)
  {
    hide Apply, AgreeOn;
    var i := |log| - 1;
    LiveStep(log);
    var p := Replay(log[..i], clock);
    if p.ok {
      var r := log[i];
      if Unspoilt(log[..i], clock, r.key) {
        UnspoiltKeysAgree(log[..i], clock, r.key);
        ApplyAgrees(p.tables, Live(log[..i]).tables, r, r.key);
      }
    } else {
      StopsOnlyAtSpoiltKey(log[..i], clock);
      assert log[..i][..p.count] == log[..p.count];
    }
  }

  // ----- Two ways an elapsed deadline spoils a reload

  /** SETEX k; DEL k; SET j reloaded after the deadline stops at the DEL and loses the SET. */
  lemma ElapsedSetexStopsReplay(k: Key, j: Key, v: Value, d: int, T: int)
    requires 0 < d < T
    ensures var log := [Record(OpSetex, k, v, d), Record(OpDel, k, [], 0), Record(OpSet, j, v, 0)];
            && Live(log).ok && j in Live(log).tables.keyspace
            && Replay(log, Always(T)) == Replayed(EMPTY, 1, false)
  {
    var a, b, c := Record(OpSetex, k, v, d), Record(OpDel, k, [], 0), Record(OpSet, j, v, 0);
    var clock := Always(T);
    assert [a, b, c][..2] == [a, b] && [a, b][..1] == [a] && [a][..0] == [];
    assert Replay([], clock) == Replayed(EMPTY, 0, true);
    assert Replay([a], clock) == Replayed(EMPTY, 1, true);
    assert EMPTY.keyspace - {k} == map[] && EMPTY.expires - {k} == map[];
    assert Replay([a, b], clock) == Replayed(EMPTY, 1, false);
    LiveStep([a]);
    LiveStep([a, b]);
    LiveStep([a, b, c]);
  }

  /** SET k; EXPIRE k reloaded after the deadline brings the key back without one. */
  lemma ElapsedExpireRevivesKey(k: Key, v: Value, d: int, T: int)
    requires 0 < d < T
    ensures var log := [Record(OpSet, k, v, 0), Record(OpExpire, k, [], d)];
            && Live(log).ok && Dead(Live(log).tables, k, T)
            && Replay(log, Always(T)) == Replayed(Tables(map[k := v], map[]), 2, true)
  {
    var a, b := Record(OpSet, k, v, 0), Record(OpExpire, k, [], d);
    var clock := Always(T);
    assert [a, b][..1] == [a] && [a][..0] == [];
    assert Replay([], clock) == Replayed(EMPTY, 0, true);
    assert Replay([a], clock) == Replayed(Tables(map[k := v], map[]), 1, true);
    LiveStep([a]);
    LiveStep([a, b]);
  }

  // ----- The compacted snapshot

  /** What the rewrite child writes for a key. */
  function SnapshotRecord(t: Tables, k: Key): (r: Record)
    requires k in t.keyspace
    ensures Consistent(t) ==> HandlerRecord(r)
  {
    if k in t.expires then Record(OpSetex, k, t.keyspace[k], t.expires[k])
    else Record(OpSet, k, t.keyspace[k], 0)
  }

  predicate CoversKeys(order: seq<Key>, t: Tables) {
    forall i :: 0 <= i < |order| ==> order[i] in t.keyspace
  }

  ghost predicate NoRepeats(order: seq<Key>) {
    forall i, j :: 0 <= i < j < |order| ==> order[i] != order[j]
  }

  /** `order` visits every key exactly once. */
  ghost predicate Visits(order: seq<Key>, t: Tables) {
    && CoversKeys(order, t)
    && NoRepeats(order)
    && forall k :: k in t.keyspace ==> k in order
  }

  /** The records written while walking the keys in `order`; `walk(i)` is the clock at key `i`. */
  function Snapshot(t: Tables, order: seq<Key>, walk: nat -> int): (log: seq<Record>)
    requires CoversKeys(order, t)
  {
    if order == [] then []
    else
      var i := |order| - 1;
      var log := Snapshot(t, order[..i], walk);
      if Dead(t, order[i], walk(i)) then log else log + [SnapshotRecord(t, order[i])]
  }

  /** The part of the tables with keys in `ks` that is still alive at `T`. */
  function AliveIn(t: Tables, ks: set<Key>, T: int): (r: Tables) {
    Tables(
      map k | k in t.keyspace && k in ks && !Dead(t, k, T) :: t.keyspace[k],
      map k | k in t.expires && k in ks && !Dead(t, k, T) :: t.expires[k])
  }

  /** One more key: its record adds exactly what of it is still alive. */
  lemma AliveGrows(t: Tables, ks: set<Key>, k: Key, T: int)
    requires Consistent(t) && k in t.keyspace && k !in ks
    ensures var before, after := AliveIn(t, ks, T), AliveIn(t, ks + {k}, T);
            if Dead(t, k, T) then after == before
            else Apply(before, SnapshotRecord(t, k)) == Applied(after, true)
  {
    var before, after := AliveIn(t, ks, T), AliveIn(t, ks + {k}, T);
    if Dead(t, k, T) {
      assert after.keyspace == before.keyspace;
      assert after.expires == before.expires;
    } else {
      assert after.keyspace == before.keyspace[k := t.keyspace[k]];
      assert after.expires == if k in t.expires then before.expires[k := t.expires[k]] else before.expires;
    }
  }

  function KeySet(order: seq<Key>): (ks: set<Key>) {
    set k | k in order
  }

  lemma KeySetSnoc(order: seq<Key>, i: nat)
    requires i + 1 == |order| && NoRepeats(order)
    ensures KeySet(order) == KeySet(order[..i]) + {order[i]}
    ensures order[i] !in KeySet(order[..i])
  {
    assert order == order[..i] + [order[i]];
  }

  lemma {:induction false} SnapshotPrefix(t: Tables, order: seq<Key>, walk: nat -> int, T: int)
    requires Consistent(t) && CoversKeys(order, t) && NoRepeats(order)
    requires forall i: nat :: walk(i) <= T
    ensures var r := Replay(Snapshot(t, order, walk), Always(T));
            r.ok && r.tables == AliveIn(t, KeySet(order), T)
  {
    if order != [] {
      var i := |order| - 1;
      var log := Snapshot(t, order[..i], walk);
      SnapshotPrefix(t, order[..i], walk, T);
      ReplaySnoc(log, SnapshotRecord(t, order[i]), Always(T));
      assert walk(i) <= T;
      assert Always(T)(|log|) == T;
      KeySetSnoc(order, i);
      AliveGrows(t, KeySet(order[..i]), order[i], T);
    }
  }

  /** A compacted log is right at every later time: replayed alone at `T` it yields exactly the keys,
      values and deadlines of the forked tables still alive at `T`, whatever the iteration order and
      whatever the clock read during the walk. */
  lemma SnapshotRight(t: Tables, order: seq<Key>, walk: nat -> int, T: int)
    requires Consistent(t) && Visits(order, t)
    requires forall i: nat :: walk(i) <= T
    ensures Replay(Snapshot(t, order, walk), Always(T)).ok
    ensures Replay(Snapshot(t, order, walk), Always(T)).tables == AliveAt(t, T)
  {
    SnapshotPrefix(t, order, walk, T);
    assert AliveIn(t, KeySet(order), T) == AliveAt(t, T);
  }
}
