/** Reloading when deadlines have passed: lived histories with unlogged expiry in them, and exactly when a
    reload shows what the running server would have shown. */
module Aging {

  import opened Store
  import opened Log

  // ----- Expiry between records

  /** `u` is `t` after some keys past their deadline at `T` were dropped. */
  predicate Sheds(t: Tables, u: Tables, T: int) {
    && Consistent(t) && u.keyspace.Keys <= t.keyspace.Keys
    && u == Without(t, t.keyspace.Keys - u.keyspace.Keys)
    && forall k :: k in t.keyspace && k !in u.keyspace ==> Dead(t, k, T)
  }

  lemma ShedsNothing(t: Tables, T: int)
    requires Consistent(t)
    ensures Sheds(t, t, T)
  {
    assert t.keyspace - {} == t.keyspace && t.expires - {} == t.expires;
    assert t.keyspace.Keys - t.keyspace.Keys == {};
  }

  lemma ShedsLater(t: Tables, u: Tables, T: int, T': int)
    requires Sheds(t, u, T) && T <= T'
    ensures Sheds(t, u, T')
  {}

  lemma ShedsDead(t: Tables, dead: set<Key>, T: int)
    requires Consistent(t) && forall k :: k in dead ==> Dead(t, k, T)
    ensures Sheds(t, Without(t, dead), T)
  {
    var u := Without(t, dead);
    var gone := t.keyspace.Keys - u.keyspace.Keys;
    assert gone == dead;
  }

  lemma ShedsTwice(t: Tables, u: Tables, v: Tables, T: int)
    requires Sheds(t, u, T) && Sheds(u, v, T)
    ensures Sheds(t, v, T)
  {
    var w := Without(t, t.keyspace.Keys - v.keyspace.Keys);
    assert w.keyspace == v.keyspace;
    assert w.expires == v.expires;
  }

  /** Nobody can tell. */
  lemma ShedsInvisible(t: Tables, u: Tables, T: int)
    requires Sheds(t, u, T)
    ensures Consistent(u) && AliveAt(u, T) == AliveAt(t, T)
  {
    assert AliveAt(u, T).keyspace == AliveAt(t, T).keyspace;
    assert AliveAt(u, T).expires == AliveAt(t, T).expires;
  }

  lemma ShedsAllDead(t: Tables, T: int)
    requires Consistent(t)
    ensures Sheds(t, AliveAt(t, T), T)
  {
    var u := AliveAt(t, T);
    var w := Without(t, t.keyspace.Keys - u.keyspace.Keys);
    assert u.keyspace == w.keyspace;
    assert u.expires == w.expires;
  }

  // ----- One record

  /** A record that a reload at `T` repeats as it was lived, given the tables it was lived on. One that
      replay skips must concern a key that no reader sees at `T` anyway; one that replay runs must not
      depend on an entry that replay has lost. */
  predicate Repeatable(t: Tables, r: Record, T: int) {
    if Elapsed(r, T) then r.key !in t.keyspace || Dead(t, r.key, T)
    else r.op == OpSetex || !Dead(t, r.key, T)
  }

  /** What replay at `T` makes of one record. */
  function Replayed1(t: Tables, r: Record, T: int): (a: Applied) {
    if Elapsed(r, T) then Applied(t, true) else Apply(t, r)
  }

  lemma AgreeEverywhere(a: Tables, b: Tables)
    requires forall k :: AgreeOn(a, b, k)
    ensures a == b
  {
    forall k
      ensures k in a.keyspace <==> k in b.keyspace
      ensures k in a.expires <==> k in b.expires
    {
      assert AgreeOn(a, b, k);
    }
    assert a.keyspace == b.keyspace by {
      forall k | k in a.keyspace
        ensures a.keyspace[k] == b.keyspace[k]
      {
        assert AgreeOn(a, b, k);
      }
    }
    assert a.expires == b.expires by {
      forall k | k in a.expires
        ensures a.expires[k] == b.expires[k]
      {
        assert AgreeOn(a, b, k);
      }
    }
  }

  /** A skipped record costs its key, if a reader could still see it. */
  lemma SkippedExactly(t: Tables, r: Record, T: int)
    requires Consistent(t) && HandlerRecord(r) && Apply(t, r).ok && Elapsed(r, T)
    ensures AliveAt(t, T) == AliveAt(Apply(t, r).tables, T) <==> r.key !in t.keyspace || Dead(t, r.key, T)
  {
    hide AliveAt;
    var a, b := AliveAt(t, T), AliveAt(Apply(t, r).tables, T);
    if r.key !in t.keyspace || Dead(t, r.key, T) {
      forall k
        ensures AgreeOn(a, b, k)
      {
        SkippedOn(t, r, T, k);
      }
      AgreeEverywhere(a, b);
    } else {
      assert r.key in a.keyspace && r.key !in b.keyspace;
    }
  }

  lemma SkippedOn(t: Tables, r: Record, T: int, k: Key)
    requires Consistent(t) && HandlerRecord(r) && Apply(t, r).ok && Elapsed(r, T)
    requires r.key !in t.keyspace || Dead(t, r.key, T)
    ensures AgreeOn(AliveAt(t, T), AliveAt(Apply(t, r).tables, T), k)
  {
    hide AliveAt;
  }

  lemma SetExactly(t: Tables, k: Key, v: Value, T: int)
    requires Consistent(t)
    ensures Set(AliveAt(t, T), k, v).tables == AliveAt(Set(t, k, v).tables, T) <==> !Dead(t, k, T)
  {
    hide AliveAt;
    var a, b := Set(AliveAt(t, T), k, v).tables, AliveAt(Set(t, k, v).tables, T);
    if Dead(t, k, T) {
      assert k in a.keyspace && k !in b.keyspace;
    } else {
      forall j
        ensures AgreeOn(a, b, j)
      {
        SetOn(t, k, v, T, j);
      }
      AgreeEverywhere(a, b);
    }
  }

  lemma SetOn(t: Tables, k: Key, v: Value, T: int, j: Key)
    requires Consistent(t) && !Dead(t, k, T)
    ensures AgreeOn(Set(AliveAt(t, T), k, v).tables, AliveAt(Set(t, k, v).tables, T), j)
  {
    hide AliveAt;
  }

  lemma SetexAlways(t: Tables, k: Key, v: Value, d: int, T: int)
    requires Consistent(t) && 0 < d && T <= d
    ensures Setex(AliveAt(t, T), k, v, d).tables == AliveAt(Setex(t, k, v, d).tables, T)
  {
    hide AliveAt;
    var a, b := Setex(AliveAt(t, T), k, v, d).tables, AliveAt(Setex(t, k, v, d).tables, T);
    forall j
      ensures AgreeOn(a, b, j)
    {
      SetexOn(t, k, v, d, T, j);
    }
    AgreeEverywhere(a, b);
  }

  lemma SetexOn(t: Tables, k: Key, v: Value, d: int, T: int, j: Key)
    requires Consistent(t) && 0 < d && T <= d
    ensures AgreeOn(Setex(AliveAt(t, T), k, v, d).tables, AliveAt(Setex(t, k, v, d).tables, T), j)
  {
    hide AliveAt;
  }

  /** DEL, EXPIRE and PERSIST fail on an entry that replay has lost, and agree otherwise. */
  lemma DelExactly(t: Tables, k: Key, T: int)
    requires Consistent(t) && Del(t, k).ok
    ensures Del(AliveAt(t, T), k) == Applied(AliveAt(Del(t, k).tables, T), true) <==> !Dead(t, k, T)
  {
    hide AliveAt;
    var a, b := Del(AliveAt(t, T), k), AliveAt(Del(t, k).tables, T);
    assert a.tables.keyspace == b.keyspace;
    assert a.tables.expires == b.expires;
  }

  lemma ExpireExactly(t: Tables, k: Key, d: int, T: int)
    requires Consistent(t) && Expire(t, k, d).ok && T <= d
    ensures Expire(AliveAt(t, T), k, d) == Applied(AliveAt(Expire(t, k, d).tables, T), true) <==> !Dead(t, k, T)
  {
    hide AliveAt;
    var a, b := Expire(AliveAt(t, T), k, d), AliveAt(Expire(t, k, d).tables, T);
    if !Dead(t, k, T) {
      forall j
        ensures AgreeOn(a.tables, b, j)
      {
        ExpireOn(t, k, d, T, j);
      }
      AgreeEverywhere(a.tables, b);
    }
  }

  lemma ExpireOn(t: Tables, k: Key, d: int, T: int, j: Key)
    requires Consistent(t) && Expire(t, k, d).ok && T <= d && !Dead(t, k, T)
    ensures AgreeOn(Expire(AliveAt(t, T), k, d).tables, AliveAt(Expire(t, k, d).tables, T), j)
  {
    hide AliveAt;
  }

  lemma PersistExactly(t: Tables, k: Key, T: int)
    requires Consistent(t) && Persist(t, k).ok
    ensures Persist(AliveAt(t, T), k) == Applied(AliveAt(Persist(t, k).tables, T), true) <==> !Dead(t, k, T)
  {
    hide AliveAt;
    var a, b := Persist(AliveAt(t, T), k), AliveAt(Persist(t, k).tables, T);
    if !Dead(t, k, T) {
      assert a.tables.keyspace == b.keyspace;
      assert a.tables.expires == b.expires;
    }
  }

  lemma RepeatableExactly(t: Tables, r: Record, T: int)
    requires Consistent(t) && HandlerRecord(r) && Apply(t, r).ok
    ensures Replayed1(AliveAt(t, T), r, T) == Applied(AliveAt(Apply(t, r).tables, T), true) <==> Repeatable(t, r, T)
  {
    hide AliveAt, Dead, Set, Setex, Del, Expire, Persist;
    if Elapsed(r, T) {
      SkippedExactly(t, r, T);
    } else if r.op == OpSet {
      SetExactly(t, r.key, r.value, T);
      SetSucceeds(t, AliveAt(t, T), r);
    } else if r.op == OpSetex {
      SetexAlways(t, r.key, r.value, r.expireAt, T);
      SetSucceeds(t, AliveAt(t, T), r);
    } else if r.op == OpDel {
      DelExactly(t, r.key, T);
    } else if r.op == OpExpire {
      ExpireExactly(t, r.key, r.expireAt, T);
    } else {
      PersistExactly(t, r.key, T);
    }
  }

  lemma SetSucceeds(t: Tables, u: Tables, r: Record)
    requires r.op in {OpSet, OpSetex}
    ensures Apply(t, r).ok && Apply(u, r).ok
  {}

  // ----- Lived histories

  /** A command that succeeded: logged, or applied without a record because none would fit. */
  datatype Moment = Logged(r: Record) | Silent(r: Record)

  /** What such a moment may be if a reload at `T` is to show the tables after it. */
  ghost predicate Harmless(t: Tables, m: Moment, T: int) {
    match m
    case Logged(r) => Repeatable(t, r, T)
    case Silent(r) => AliveAt(Apply(t, r).tables, T) == AliveAt(t, T)
  }

  function LoggedIn(ms: seq<Moment>): (log: seq<Record>) {
    if ms == [] then []
    else
      var n := |ms| - 1;
      LoggedIn(ms[..n]) + if ms[n].Logged? then [ms[n].r] else []
  }

  lemma LoggedInMore(ms: seq<Moment>, m: Moment)
    ensures LoggedIn(ms + [m]) == LoggedIn(ms) + if m.Logged? then [m.r] else []
  {
    assert (ms + [m])[..|ms|] == ms;
  }

  lemma LoggedInNext(ms: seq<Moment>, i: nat)
    requires i < |ms|
    ensures LoggedIn(ms[..i + 1]) == LoggedIn(ms[..i]) + if ms[i].Logged? then [ms[i].r] else []
  {
    assert ms[..i + 1] == ms[..i] + [ms[i]];
    LoggedInMore(ms[..i], ms[i]);
  }

  /** Where the `k`-th logged moment is, or the end. */
  function Place(ms: seq<Moment>, k: nat): (i: nat)
    ensures i <= |ms|
  {
    if ms == [] then 0
    else
      var n := |ms| - 1;
      var before := |LoggedIn(ms[..n])|;
      if k < before then Place(ms[..n], k) else if k == before && ms[n].Logged? then n else |ms|
  }

  lemma {:induction false} PlaceSplits(ms: seq<Moment>, k: nat)
    requires k <= |LoggedIn(ms)|
    ensures LoggedIn(ms[..Place(ms, k)]) == LoggedIn(ms)[..k]
    ensures k == |LoggedIn(ms)| ==> Place(ms, k) == |ms|
  {
    if ms != [] {
      var n := |ms| - 1;
      var i := Place(ms, k);
      if k < |LoggedIn(ms[..n])| {
        PlaceSplits(ms[..n], k);
        assert ms[..n][..i] == ms[..i];
      } else {
        assert ms[..|ms|] == ms;
      }
    }
  }

  /** The tables just before moment `i`, or the last ones. */
  function At(before: seq<Tables>, last: Tables, i: nat): (t: Tables) {
    if i < |before| then before[i] else last
  }

  /** The moments were lived one after the other from `t` to `last`, each on the tables before it, with
      nothing but expiry in between. */
  ghost predicate Trail(t: Tables, before: seq<Tables>, moments: seq<Moment>, last: Tables, T: int) {
    && |before| == |moments|
    && Sheds(t, At(before, last, 0), T)
    && forall i :: 0 <= i < |moments| ==> Link(before, moments, last, T, i)
  }

  ghost predicate Link(before: seq<Tables>, moments: seq<Moment>, last: Tables, T: int, i: nat)
    requires i < |before| == |moments|
  {
    var r := moments[i].r;
    && Consistent(before[i]) && HandlerRecord(r) && Apply(before[i], r).ok
    && Sheds(Apply(before[i], r).tables, At(before, last, i + 1), T)
  }

  lemma TrailNew(t: Tables, T: int)
    requires Consistent(t)
    ensures Trail(t, [], [], t, T)
  {
    ShedsNothing(t, T);
  }

  lemma TrailLater(t: Tables, before: seq<Tables>, moments: seq<Moment>, last: Tables, T: int, T': int)
    requires Trail(t, before, moments, last, T) && T <= T'
    ensures Trail(t, before, moments, last, T')
  {
    hide Sheds, Apply;
    ShedsLater(t, At(before, last, 0), T, T');
    forall i | 0 <= i < |moments|
      ensures Link(before, moments, last, T', i)
    {
      assert Link(before, moments, last, T, i);
      ShedsLater(Apply(before[i], moments[i].r).tables, At(before, last, i + 1), T, T');
    }
  }

  /** Expiry at the end. */
  lemma TrailSheds(t: Tables, before: seq<Tables>, moments: seq<Moment>, last: Tables, T: int, last': Tables)
    requires Trail(t, before, moments, last, T) && Sheds(last, last', T)
    ensures Trail(t, before, moments, last', T)
  {
    hide Sheds, Apply;
    if before == [] {
      ShedsTwice(t, last, last', T);
    }
    forall i | 0 <= i < |moments|
      ensures Link(before, moments, last', T, i)
    {
      assert Link(before, moments, last, T, i);
      if i + 1 == |before| {
        ShedsTwice(Apply(before[i], moments[i].r).tables, last, last', T);
      }
    }
  }

  /** One more moment. */
  lemma TrailGrows(t: Tables, before: seq<Tables>, moments: seq<Moment>, last: Tables, T: int, m: Moment)
    requires Trail(t, before, moments, last, T) && Consistent(last) && HandlerRecord(m.r) && Apply(last, m.r).ok
    ensures Trail(t, before + [last], moments + [m], Apply(last, m.r).tables, T)
  {
    hide Sheds, Apply;
    var bs, rs, u := before + [last], moments + [m], Apply(last, m.r).tables;
    assert At(bs, u, 0) == At(before, last, 0);
    forall i | 0 <= i < |rs|
      ensures Link(bs, rs, u, T, i)
    {
      if i < |moments| {
        assert Link(before, moments, last, T, i);
        assert At(bs, u, i + 1) == At(before, last, i + 1);
      } else {
        ApplyConsistent(last, m.r);
        ShedsNothing(u, T);
      }
    }
  }

  lemma ApplyConsistent(t: Tables, r: Record)
    requires Consistent(t)
    ensures Consistent(Apply(t, r).tables)
  {}

  /** The first `j` moments of a trail. */
  lemma TrailPrefix(t: Tables, before: seq<Tables>, moments: seq<Moment>, last: Tables, T: int, j: nat)
    requires Trail(t, before, moments, last, T) && j <= |moments|
    ensures Trail(t, before[..j], moments[..j], At(before, last, j), T)
  {
    hide Sheds, Apply;
    var bs, rs, u := before[..j], moments[..j], At(before, last, j);
    assert At(bs, u, 0) == At(before, last, 0);
    forall i | 0 <= i < j
      ensures Link(bs, rs, u, T, i)
    {
      assert Link(before, moments, last, T, i);
      assert At(bs, u, i + 1) == At(before, last, i + 1);
    }
  }

  lemma TrailConsistent(t: Tables, before: seq<Tables>, moments: seq<Moment>, last: Tables, T: int, j: nat)
    requires Trail(t, before, moments, last, T) && j <= |moments|
    ensures Consistent(At(before, last, j))
  {
    hide Sheds, Apply;
    if j == 0 {
      ShedsInvisible(t, At(before, last, 0), T);
    } else {
      assert Link(before, moments, last, T, j - 1);
      ShedsInvisible(Apply(before[j - 1], moments[j - 1].r).tables, At(before, last, j), T);
    }
  }

  // ----- Reloading a snapshot and what followed it

  /** Replaying `log` at `T` gives exactly what of `t` is alive then. */
  ghost predicate Shows(log: seq<Record>, t: Tables, T: int) {
    Replay(log, Always(T)) == Replayed(AliveAt(t, T), |log|, true)
  }

  /** It does so at every time from `T` on. */
  ghost predicate Captures(log: seq<Record>, t: Tables, T: int) {
    forall T' :: T <= T' ==> Shows(log, t, T')
  }

  /** The same for the keys of `ks` alone. */
  ghost predicate ShowsPart(log: seq<Record>, t: Tables, ks: set<Key>, T: int) {
    Replay(log, Always(T)) == Replayed(AliveIn(t, ks, T), |log|, true)
  }

  ghost predicate CapturesPart(log: seq<Record>, t: Tables, ks: set<Key>, T: int) {
    forall T' :: T <= T' ==> ShowsPart(log, t, ks, T')
  }

  lemma NothingCaptured(t: Tables, T: int)
    ensures CapturesPart([], t, {}, T)
  {
    forall T' | T <= T'
      ensures ShowsPart([], t, {}, T')
    {
      assert AliveIn(t, {}, T').keyspace == map[] && AliveIn(t, {}, T').expires == map[];
    }
  }

  lemma EmptyCaptured(T: int)
    ensures Captures([], EMPTY, T)
  {
    forall T' | T <= T'
      ensures Shows([], EMPTY, T')
    {
      assert AliveAt(EMPTY, T').keyspace == map[] && AliveAt(EMPTY, T').expires == map[];
    }
  }

  /** The child's next key: skipped if dead, else its record. */
  lemma CapturesMore(log: seq<Record>, t: Tables, ks: set<Key>, k: Key, now: int, T: int)
    requires Consistent(t) && CapturesPart(log, t, ks, T) && k in t.keyspace && k !in ks && now <= T
    ensures CapturesPart(if Dead(t, k, now) then log else log + [SnapshotRecord(t, k)], t, ks + {k}, T)
  {
    hide Apply, Replay;
    var log' := if Dead(t, k, now) then log else log + [SnapshotRecord(t, k)];
    forall T' | T <= T'
      ensures ShowsPart(log', t, ks + {k}, T')
    {
      assert ShowsPart(log, t, ks, T');
      AliveGrows(t, ks, k, T');
      ReplaySnoc(log, SnapshotRecord(t, k), Always(T'));
    }
  }

  lemma CapturesWhole(log: seq<Record>, t: Tables, ks: set<Key>, T: int)
    requires Consistent(t) && CapturesPart(log, t, ks, T) && t.keyspace.Keys <= ks
    ensures Captures(log, t, T)
  {
    hide Replay;
    forall T' | T <= T'
      ensures Shows(log, t, T')
    {
      assert ShowsPart(log, t, ks, T');
      assert AliveIn(t, ks, T').keyspace == AliveAt(t, T').keyspace;
      assert AliveIn(t, ks, T').expires == AliveAt(t, T').expires;
    }
  }

  lemma CapturesLater(log: seq<Record>, t: Tables, T: int, T': int)
    requires Captures(log, t, T) && T <= T'
    ensures Captures(log, t, T')
  {
    hide Shows;
  }

  lemma CapturesPartLater(log: seq<Record>, t: Tables, ks: set<Key>, T: int, T': int)
    requires CapturesPart(log, t, ks, T) && T <= T'
    ensures CapturesPart(log, t, ks, T')
  {
    hide ShowsPart;
  }

  /** As long as the moments are harmless, the snapshot and the records of the first `j` of them show the
      tables before moment `j`. */
  lemma {:induction false} ShowsUpTo(
    log: seq<Record>, t: Tables, before: seq<Tables>, moments: seq<Moment>, last: Tables, T: int, j: nat)
    requires Captures(log, t, T) && Trail(t, before, moments, last, T) && j <= |moments|
    requires forall i :: 0 <= i < j ==> Harmless(before[i], moments[i], T)
    ensures Shows(log + LoggedIn(moments[..j]), At(before, last, j), T)
  {
    hide Replay, Apply, Sheds, Harmless, LoggedIn;
    if j == 0 {
      NoneLogged(moments);
      assert log + [] == log;
      assert Shows(log, t, T);
      ShedsInvisible(t, At(before, last, 0), T);
    } else {
      var i := j - 1;
      ShowsUpTo(log, t, before, moments, last, T, i);
      ShowsNext(log, t, before, moments, last, T, i);
    }
  }

  lemma NoneLogged(ms: seq<Moment>)
    ensures LoggedIn(ms[..0]) == []
  {}

  /** From one moment to the next: exactly the harmless ones keep the reload right. */
  lemma ShowsNext(
    log: seq<Record>, t: Tables, before: seq<Tables>, moments: seq<Moment>, last: Tables, T: int, i: nat)
    requires Trail(t, before, moments, last, T) && i < |moments|
    requires Shows(log + LoggedIn(moments[..i]), before[i], T)
    ensures Shows(log + LoggedIn(moments[..i + 1]), At(before, last, i + 1), T) <==> Harmless(before[i], moments[i], T)
  {
    hide Replay, Apply, Sheds, Repeatable, LoggedIn, AliveAt;
    var m := moments[i];
    var u := Apply(before[i], m.r).tables;
    assert Link(before, moments, last, T, i);
    LoggedInNext(moments, i);
    ShedsInvisible(u, At(before, last, i + 1), T);
    if m.Logged? {
      assert log + LoggedIn(moments[..i + 1]) == log + LoggedIn(moments[..i]) + [m.r];
      ReplaySnoc(log + LoggedIn(moments[..i]), m.r, Always(T));
      RepeatableExactly(before[i], m.r, T);
    } else {
      assert LoggedIn(moments[..i + 1]) == LoggedIn(moments[..i]);
    }
  }

  /** A reload at `T` shows, at every crash point since the snapshot, exactly what the running server would
      have shown at `T`, if and only if every logged command since then is repeatable and every command
      that went unlogged is invisible at `T`. */
  lemma ReloadExactIff(
    log: seq<Record>, t: Tables, before: seq<Tables>, moments: seq<Moment>, last: Tables, T: int)
    requires Captures(log, t, T) && Trail(t, before, moments, last, T)
    ensures (forall j :: 0 <= j <= |moments| ==> Shows(log + LoggedIn(moments[..j]), At(before, last, j), T))
       <==> (forall i :: 0 <= i < |moments| ==> Harmless(before[i], moments[i], T))
  {
    hide Shows, Sheds, Harmless, Captures, LoggedIn;
    if forall i :: 0 <= i < |moments| ==> Harmless(before[i], moments[i], T) {
      forall j | 0 <= j <= |moments|
        ensures Shows(log + LoggedIn(moments[..j]), At(before, last, j), T)
      {
        ShowsUpTo(log, t, before, moments, last, T, j);
      }
    }
    if forall j :: 0 <= j <= |moments| ==> Shows(log + LoggedIn(moments[..j]), At(before, last, j), T) {
      forall i | 0 <= i < |moments|
        ensures Harmless(before[i], moments[i], T)
      {
        assert Shows(log + LoggedIn(moments[..i]), At(before, last, i), T);
        assert Shows(log + LoggedIn(moments[..i + 1]), At(before, last, i + 1), T);
        ShowsNext(log, t, before, moments, last, T, i);
      }
    }
  }

  // ----- How far a harmful moment reaches

  /** No moment of key `k` is harmful. */
  ghost predicate Untroubled(before: seq<Tables>, moments: seq<Moment>, T: int, k: Key) {
    && |before| == |moments|
    && forall i :: 0 <= i < |moments| && moments[i].r.key == k ==> Harmless(before[i], moments[i], T)
  }

  lemma AliveElsewhere(t: Tables, r: Record, k: Key, T: int)
    requires r.key != k
    ensures AgreeOn(AliveAt(Apply(t, r).tables, T), AliveAt(t, T), k)
  {
    hide Apply, AliveAt, AgreeOn;
    AgreeSelf(t, k);
    ApplyAgrees(t, t, r, k);
    AliveAgrees(Apply(t, r).tables, t, k, T);
  }

  lemma AliveAgrees(t: Tables, u: Tables, k: Key, T: int)
    requires AgreeOn(t, u, k)
    ensures AgreeOn(AliveAt(t, T), AliveAt(u, T), k)
  {
    hide AliveAt;
  }

  lemma AgreeJoins(a: Tables, b: Tables, c: Tables, k: Key)
    requires AgreeOn(a, b, k)
    ensures AgreeOn(b, c, k) || AgreeOn(c, b, k) ==> AgreeOn(a, c, k)
  {}

  /** One moment, seen from one key: `u` is what replay has made of `k` so far. */
  lemma MomentOn(t: Tables, u: Tables, m: Moment, k: Key, T: int)
    requires Consistent(t) && HandlerRecord(m.r) && Apply(t, m.r).ok && AgreeOn(u, AliveAt(t, T), k)
    requires m.r.key == k ==> Harmless(t, m, T)
    ensures var a := if m.Logged? then Replayed1(u, m.r, T) else Applied(u, true);
            && (m.r.key == k ==> a.ok)
            && AgreeOn(a.tables, AliveAt(Apply(t, m.r).tables, T), k)
  {
    hide AliveAt, Apply, AgreeOn, Repeatable;
    var r, v := m.r, AliveAt(t, T);
    var w := AliveAt(Apply(t, r).tables, T);
    if r.key == k {
      RepeatableExactly(t, r, T);
      ApplyAgrees(u, v, r, k);
    } else {
      AliveElsewhere(t, r, k, T);
      AgreeJoins(u, v, w, k);
      ApplyAgrees(u, u, r, k) by { AgreeSelf(u, k); }
      AgreeJoins(Apply(u, r).tables, u, w, k);
    }
  }

  lemma AgreeSelf(a: Tables, k: Key)
    ensures AgreeOn(a, a, k)
  {}

  /** A harmful moment hurts only its own key: as far as a reload at `T` gets, every key without one shows
      exactly what the running server would have shown of it. */
  lemma {:induction false} UntroubledKeysShow(
    log: seq<Record>, t: Tables, before: seq<Tables>, moments: seq<Moment>, last: Tables, T: int, k: Key)
    requires Captures(log, t, T) && Trail(t, before, moments, last, T) && Untroubled(before, moments, T, k)
    requires Replay(log + LoggedIn(moments), Always(T)).ok
    ensures AgreeOn(Replay(log + LoggedIn(moments), Always(T)).tables, AliveAt(last, T), k)
    decreases |moments|
  {
    hide Replay, Apply, Sheds, Harmless, LoggedIn, AliveAt, AgreeOn, Elapsed;
    if moments == [] {
      NoneLogged(moments);
      assert log + [] == log && moments[..0] == moments;
      assert Shows(log, t, T);
      ShedsInvisible(t, last, T);
      AgreeSelf(AliveAt(last, T), k);
    } else {
      var n := |moments| - 1;
      var m := moments[n];
      assert moments == moments[..n] + [m];
      LoggedInMore(moments[..n], m);
      TrailPrefix(t, before, moments, last, T, n);
      assert Link(before, moments, last, T, n);
      ShedsInvisible(Apply(before[n], m.r).tables, last, T);
      var front := log + LoggedIn(moments[..n]);
      ReloadFront(log, moments, n, T);
      UntroubledKeysShow(log, t, before[..n], moments[..n], before[n], T, k);
      MomentOn(before[n], Replay(front, Always(T)).tables, m, k, T);
      if m.Logged? {
        assert log + LoggedIn(moments) == front + [m.r];
        ReplaySnoc(front, m.r, Always(T));
      } else {
        assert log + LoggedIn(moments) == front;
      }
    }
  }

  lemma ReloadFront(log: seq<Record>, moments: seq<Moment>, n: nat, T: int)
    requires n + 1 == |moments| && Replay(log + LoggedIn(moments), Always(T)).ok
    ensures Replay(log + LoggedIn(moments[..n]), Always(T)).ok
  {
    hide Apply, Elapsed;
    var front := log + LoggedIn(moments[..n]);
    if moments[n].Logged? {
      assert (log + LoggedIn(moments))[..|front|] == front;
    } else {
      assert log + LoggedIn(moments) == front;
    }
  }

  /** A reload that stops early stops at a key that had a harmful moment, then or before. */
  lemma {:induction false} StopsOnlyAtTroubledKey(
    log: seq<Record>, t: Tables, before: seq<Tables>, moments: seq<Moment>, last: Tables, T: int) returns (n: nat)
    requires Captures(log, t, T) && Trail(t, before, moments, last, T)
    requires !Replay(log + LoggedIn(moments), Always(T)).ok
    ensures n < |moments| && moments[n].Logged?
    ensures Replay(log + LoggedIn(moments), Always(T)).count == |log + LoggedIn(moments[..n])|
    ensures !Untroubled(before[..n + 1], moments[..n + 1], T, moments[n].r.key)
    decreases |moments|
  {
    hide Apply, Sheds, Harmless, AliveAt, AgreeOn, Replay, Captures, Trail, LoggedIn;
    SomeMoment(log, t, moments, T);
    n := |moments| - 1;
    TrailPrefix(t, before, moments, last, T, n);
    if Replay(log + LoggedIn(moments[..n]), Always(T)).ok {
      LastStops(log, t, before, moments, last, T, n);
    } else {
      StopsBefore(log, moments, n, T);
      var l := n;
      TrailLength(t, before, moments, last, T);
      n := StopsOnlyAtTroubledKey(log, t, before[..l], moments[..l], before[l], T);
      assert moments[..l][..n] == moments[..n] && moments[..l][..n + 1] == moments[..n + 1];
      assert before[..l][..n + 1] == before[..n + 1];
    }
  }

  lemma TrailLength(t: Tables, before: seq<Tables>, moments: seq<Moment>, last: Tables, T: int)
    requires Trail(t, before, moments, last, T)
    ensures |before| == |moments|
  {}

  lemma SomeMoment(log: seq<Record>, t: Tables, moments: seq<Moment>, T: int)
    requires Captures(log, t, T) && !Replay(log + LoggedIn(moments), Always(T)).ok
    ensures moments != []
  {
    hide Replay;
    assert Shows(log, t, T);
    assert log + [] == log;
  }

  /** If the front of the log replays, what follows decides. */
  lemma StopsBefore(log: seq<Record>, moments: seq<Moment>, n: nat, T: int)
    requires n + 1 == |moments| && !Replay(log + LoggedIn(moments[..n]), Always(T)).ok
    ensures Replay(log + LoggedIn(moments), Always(T)) == Replay(log + LoggedIn(moments[..n]), Always(T))
  {
    hide Apply, Elapsed;
    var front := log + LoggedIn(moments[..n]);
    if moments[n].Logged? {
      assert (log + LoggedIn(moments))[..|front|] == front;
    } else {
      assert log + LoggedIn(moments) == front;
    }
  }

  lemma LastStops(
    log: seq<Record>, t: Tables, before: seq<Tables>, moments: seq<Moment>, last: Tables, T: int, n: nat)
    requires Captures(log, t, T) && Trail(t, before, moments, last, T) && n + 1 == |moments|
    requires Replay(log + LoggedIn(moments[..n]), Always(T)).ok && !Replay(log + LoggedIn(moments), Always(T)).ok
    ensures moments[n].Logged? && |before| == |moments|
    ensures Replay(log + LoggedIn(moments), Always(T)).count == |log + LoggedIn(moments[..n])|
    ensures !Untroubled(before[..n + 1], moments[..n + 1], T, moments[n].r.key)
  {
    hide Apply, Sheds, Harmless, AliveAt, AgreeOn, Replay, Captures, LoggedIn, Elapsed;
    var m, front := moments[n], log + LoggedIn(moments[..n]);
    assert moments == moments[..n] + [m] && moments[..n + 1] == moments && before[..n + 1] == before;
    LoggedInMore(moments[..n], m);
    assert m.Silent? ==> log + LoggedIn(moments) == front;
    assert log + LoggedIn(moments) == front + [m.r];
    ReplaySnoc(front, m.r, Always(T));
    if Untroubled(before, moments, T, m.r.key) {
      TrailPrefix(t, before, moments, last, T, n);
      UntroubledPrefix(before, moments, T, m.r.key, n);
      UntroubledKeysShow(log, t, before[..n], moments[..n], before[n], T, m.r.key);
      assert Link(before, moments, last, T, n);
      MomentOn(before[n], Replay(front, Always(T)).tables, m, m.r.key, T);
    }
  }

  lemma UntroubledPrefix(before: seq<Tables>, moments: seq<Moment>, T: int, k: Key, n: nat)
    requires Untroubled(before, moments, T, k) && n <= |moments|
    ensures Untroubled(before[..n], moments[..n], T, k)
  {
    hide Harmless;
  }
}
