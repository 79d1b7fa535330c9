/** The two tables as a timed map: lazy and active expiry are invisible to reads, and to exactly which
    writes. */
module Expiry {

  import opened Store
  import opened Log

  /** `db_expire_clean`: a key found dead leaves both tables. */
  function Clean(t: Tables, k: Key, now: int): (r: Tables) {
    if Dead(t, k, now) then Without(t, {k}) else t
  }

  /** What `db_get` answers. */
  function GetAnswer(t: Tables, k: Key, now: int): (v: Option<Value>) {
    var c := Clean(t, k, now);
    if k in c.keyspace then Some(c.keyspace[k]) else None
  }

  /** What `db_get_ttl` answers: -2 for no key, -1 for no deadline, else whole seconds left. */
  function TtlAnswer(t: Tables, k: Key, now: int): (s: int) {
    var c := Clean(t, k, now);
    if k !in c.keyspace then -2 else if k !in c.expires then -1 else (c.expires[k] - now) / 1000
  }

  /** Reads see exactly the timed map: a live key's value, and the two codes never mistaken for a time. */
  lemma ReadsAreTimedMap(t: Tables, k: Key, now: int)
    requires Consistent(t)
    ensures var a := AliveAt(t, now);
            && GetAnswer(t, k, now) == (if k in a.keyspace then Some(a.keyspace[k]) else None)
            && (TtlAnswer(t, k, now) == -2 <==> k !in a.keyspace)
            && (TtlAnswer(t, k, now) == -1 <==> k in a.keyspace && k !in a.expires)
            && (TtlAnswer(t, k, now) >= 0 <==> k in a.expires)
            && (k in a.expires ==> var s := TtlAnswer(t, k, now); 1000 * s <= a.expires[k] - now < 1000 * (s + 1))
  {}

  // ----- Runs

  datatype Event =
    | Get(k: Key, at: int)
    | Ttl(k: Key, at: int)
    | Write(r: Record, at: int)
    | Sweep(sample: set<Key>, at: int)

  datatype Answer = Value(v: Option<Store.Value>) | Seconds(s: int) | Done(ok: bool)

  /** A sweep removes the dead keys among those it happens to look at. */
  function Swept(t: Tables, sample: set<Key>, now: int): (r: Tables) {
    Without(t, set k | k in sample && Dead(t, k, now))
  }

  function After(t: Tables, e: Event): (r: Tables) {
    match e
    case Get(k, now) => Clean(t, k, now)
    case Ttl(k, now) => Clean(t, k, now)
    case Write(r, _) => Apply(t, r).tables
    case Sweep(sample, now) => Swept(t, sample, now)
  }

  /** The reply to an event that has one. */
  function Reply(t: Tables, e: Event): (a: Answer)
    requires !e.Sweep?
  {
    match e
    case Get(k, now) => Value(GetAnswer(t, k, now))
    case Ttl(k, now) => Seconds(TtlAnswer(t, k, now))
    case Write(r, _) => Done(Apply(t, r).ok)
  }

  function Replies(t: Tables, es: seq<Event>): (rs: seq<Answer>)
    decreases |es|
  {
    if es == [] then []
    else if es[0].Sweep? then Replies(After(t, es[0]), es[1..])
    else [Reply(t, es[0])] + Replies(After(t, es[0]), es[1..])
  }

  /** The same run with no sweeping at all. */
  function Unswept(es: seq<Event>): (fs: seq<Event>) {
    if es == [] then []
    else if es[0].Sweep? then Unswept(es[1..])
    else [es[0]] + Unswept(es[1..])
  }

  predicate Timed(now: int, es: seq<Event>)
    decreases |es|
  {
    es != [] ==> now <= es[0].at && Timed(es[0].at, es[1..])
  }

  /** A write that a dead key's lingering entry cannot disturb. */
  predicate SafeWrite(t: Tables, r: Record, now: int) {
    HandlerRecord(r) && (!Dead(t, r.key, now) || r.op == OpSetex)
  }

  predicate SafeWrites(t: Tables, es: seq<Event>)
    decreases |es|
  {
    es != [] ==>
      && (es[0].Write? ==> SafeWrite(t, es[0].r, es[0].at))
      && SafeWrites(After(t, es[0]), es[1..])
  }

  /** Equal as far as anyone can see from `now` on. */
  predicate Alike(t: Tables, u: Tables, now: int) {
    Consistent(t) && Consistent(u) && AliveAt(t, now) == AliveAt(u, now)
  }

  predicate AlikeOn(t: Tables, u: Tables, now: int, k: Key) {
    && (k in t.keyspace && !Dead(t, k, now) <==> k in u.keyspace && !Dead(u, k, now))
    && (k in t.keyspace && !Dead(t, k, now) ==>
          && t.keyspace[k] == u.keyspace[k]
          && (k in t.expires <==> k in u.expires)
          && (k in t.expires ==> t.expires[k] == u.expires[k]))
  }

  lemma AlikePointwise(t: Tables, u: Tables, now: int)
    requires Consistent(t) && Consistent(u)
    ensures Alike(t, u, now) <==> forall k :: AlikeOn(t, u, now, k)
  {
    var a, b := AliveAt(t, now), AliveAt(u, now);
    if Alike(t, u, now) {
      forall k
        ensures AlikeOn(t, u, now, k)
      {
        assert k in a.keyspace <==> k in b.keyspace;
        assert k in a.expires <==> k in b.expires;
      }
    }
    if forall k :: AlikeOn(t, u, now, k) {
      forall k
        ensures k in a.keyspace <==> k in b.keyspace
        ensures k in a.keyspace ==> a.keyspace[k] == b.keyspace[k]
        ensures k in a.expires <==> k in b.expires
        ensures k in a.expires ==> a.expires[k] == b.expires[k]
      {
        assert AlikeOn(t, u, now, k);
      }
      assert a.keyspace == b.keyspace && a.expires == b.expires;
    }
  }

  /** What is alike now stays alike as time passes. */
  lemma AlikeLater(t: Tables, u: Tables, now: int, later: int)
    requires Alike(t, u, now) && now <= later
    ensures Alike(t, u, later)
  {
    AlikePointwise(t, u, now);
    forall k
      ensures AlikeOn(t, u, later, k)
    {
      assert AlikeOn(t, u, now, k);
    }
    AlikePointwise(t, u, later);
  }

  lemma RemovingDeadIsAlike(t: Tables, ks: set<Key>, now: int)
    requires Consistent(t) && forall k :: k in ks ==> Dead(t, k, now)
    ensures Alike(t, Without(t, ks), now)
  {
    forall k
      ensures AlikeOn(t, Without(t, ks), now, k)
    {}
    AlikePointwise(t, Without(t, ks), now);
  }

  lemma WriteAlikeOn(t: Tables, u: Tables, r: Record, now: int, k: Key)
    requires AlikeOn(t, u, now, k) && Consistent(t) && Consistent(u)
    requires k == r.key ==> SafeWrite(t, r, now) && SafeWrite(u, r, now)
    ensures AlikeOn(Apply(t, r).tables, Apply(u, r).tables, now, k)
    ensures k == r.key ==> Apply(t, r).ok == Apply(u, r).ok
  {
    if k != r.key {
      ApplyElsewhere(t, r, k);
      ApplyElsewhere(u, r, k);
    }
  }

  lemma ApplyElsewhere(t: Tables, r: Record, k: Key)
    requires k != r.key
    ensures AgreeOn(Apply(t, r).tables, t, k)
  {}

  /** A safe write acts alike on alike tables. */
  lemma WriteAlike(t: Tables, u: Tables, r: Record, now: int)
    requires Alike(t, u, now) && SafeWrite(t, r, now) && SafeWrite(u, r, now)
    ensures Apply(t, r).ok == Apply(u, r).ok
    ensures Alike(Apply(t, r).tables, Apply(u, r).tables, now)
  {
    hide Apply, AlikeOn, AliveAt;
    AlikePointwise(t, u, now);
    WriteAlikeOn(t, u, r, now, r.key);
    forall k
      ensures AlikeOn(Apply(t, r).tables, Apply(u, r).tables, now, k)
    {
      WriteAlikeOn(t, u, r, now, k);
    }
    AlikePointwise(Apply(t, r).tables, Apply(u, r).tables, now);
  }

  /** `u` still has every dead entry that `t` has, as the unswept run does. */
  ghost predicate Lingers(t: Tables, u: Tables, now: int) {
    forall k :: Dead(t, k, now) ==> Dead(u, k, now)
  }

  lemma SafeInBoth(t: Tables, u: Tables, r: Record, now: int)
    requires Lingers(t, u, now) && SafeWrite(u, r, now)
    ensures SafeWrite(t, r, now)
  {}

  lemma LingersLater(t: Tables, u: Tables, now: int, later: int)
    requires Alike(t, u, now) && Lingers(t, u, now) && now <= later
    ensures Lingers(t, u, later)
  {
    AlikePointwise(t, u, now);
    forall k | Dead(t, k, later)
      ensures Dead(u, k, later)
    {
      assert AlikeOn(t, u, now, k);
    }
  }

  lemma WriteLingersOn(t: Tables, u: Tables, r: Record, now: int, k: Key)
    requires AlikeOn(t, u, now, k) && (Dead(t, k, now) ==> Dead(u, k, now)) && Consistent(t) && Consistent(u)
    requires k == r.key ==> SafeWrite(u, r, now)
    ensures Dead(Apply(t, r).tables, k, now) ==> Dead(Apply(u, r).tables, k, now)
  {}

  lemma WriteLingers(t: Tables, u: Tables, r: Record, now: int)
    requires Alike(t, u, now) && Lingers(t, u, now) && SafeWrite(u, r, now)
    ensures Lingers(Apply(t, r).tables, Apply(u, r).tables, now)
  {
    hide Apply, AlikeOn, AliveAt;
    AlikePointwise(t, u, now);
    forall k
      ensures Dead(Apply(t, r).tables, k, now) ==> Dead(Apply(u, r).tables, k, now)
    {
      WriteLingersOn(t, u, r, now, k);
    }
  }

  lemma CleanIsAlike(t: Tables, k: Key, now: int)
    requires Consistent(t)
    ensures Alike(t, Clean(t, k, now), now)
  {
    RemovingDeadIsAlike(t, if Dead(t, k, now) then {k} else {}, now);
  }

  lemma CleanLingers(t: Tables, u: Tables, k: Key, now: int)
    requires Lingers(t, u, now)
    ensures Lingers(Clean(t, k, now), Clean(u, k, now), now)
  {
    forall j | Dead(Clean(t, k, now), j, now)
      ensures Dead(Clean(u, k, now), j, now)
    {
      assert Dead(t, j, now) && j != k;
    }
  }

  /** Reading changes nothing visible, on either side. */
  lemma CleanAlike(t: Tables, u: Tables, k: Key, now: int)
    requires Alike(t, u, now) && Lingers(t, u, now)
    ensures Alike(Clean(t, k, now), Clean(u, k, now), now) && Lingers(Clean(t, k, now), Clean(u, k, now), now)
    ensures GetAnswer(t, k, now) == GetAnswer(u, k, now) && TtlAnswer(t, k, now) == TtlAnswer(u, k, now)
  {
    hide Clean, GetAnswer, TtlAnswer, Lingers, AliveAt;
    CleanIsAlike(t, k, now);
    CleanIsAlike(u, k, now);
    CleanLingers(t, u, k, now);
    ReadsAreTimedMap(t, k, now);
    ReadsAreTimedMap(u, k, now);
  }

  lemma SweptAlike(t: Tables, u: Tables, sample: set<Key>, now: int)
    requires Alike(t, u, now) && Lingers(t, u, now)
    ensures Alike(Swept(t, sample, now), u, now) && Lingers(Swept(t, sample, now), u, now)
  {
    RemovingDeadIsAlike(t, (set k | k in sample && Dead(t, k, now)), now);
  }

  /** The replies of a run do not depend on its sweeps: for any run with nondecreasing times, any number of
      sweeps of any samples anywhere in it, and writes that touch no key past its deadline (SETEX may),
      every reply is the one the run without sweeps gives. */
  lemma {:induction false} SweepsAreInvisible(t: Tables, u: Tables, now: int, es: seq<Event>)
    requires Alike(t, u, now) && Lingers(t, u, now) && Timed(now, es) && SafeWrites(u, Unswept(es))
    ensures Replies(t, es) == Replies(u, Unswept(es))
    decreases |es|
  {
    hide Alike, Lingers, Apply, Clean, Swept, GetAnswer, TtlAnswer, SafeWrite;
    if es != [] {
      var e, rest := es[0], es[1..];
      AlikeLater(t, u, now, e.at);
      LingersLater(t, u, now, e.at);
      match e {
        case Get(k, at) => CleanAlike(t, u, k, at);
        case Ttl(k, at) => CleanAlike(t, u, k, at);
        case Write(r, at) =>
          assert Unswept(es)[0] == e;
          SafeInBoth(t, u, r, at);
          WriteAlike(t, u, r, at);
          WriteLingers(t, u, r, at);
        case Sweep(sample, at) => SweptAlike(t, u, sample, at);
      }
      if e.Sweep? {
        SweepsAreInvisible(After(t, e), u, e.at, rest);
      } else {
        assert Unswept(es)[1..] == Unswept(rest);
        SweepsAreInvisible(After(t, e), After(u, e), e.at, rest);
      }
    }
  }

  /** The two runs may start from the same tables. */
  lemma RepliesIgnoreSweeps(t: Tables, now: int, es: seq<Event>)
    requires Consistent(t) && Timed(now, es) && SafeWrites(t, Unswept(es))
    ensures Replies(t, es) == Replies(t, Unswept(es))
  {
    SweepsAreInvisible(t, t, now, es);
  }

  /** Exactly which writes notice that a dead key was swept: all but SETEX. SET keeps the old deadline, so
      its new value is dead at once unless the key was swept; DEL, EXPIRE and PERSIST succeed only on the
      lingering entry. */
  lemma WriteNoticesSweepIff(t: Tables, r: Record, now: int)
    requires Consistent(t) && HandlerRecord(r) && Dead(t, r.key, now)
    requires 0 < r.expireAt ==> now <= r.expireAt
    ensures var a, b := Apply(t, r), Apply(Clean(t, r.key, now), r);
            a.ok == b.ok && Alike(a.tables, b.tables, now) <==> r.op == OpSetex
  {
    var u := Clean(t, r.key, now);
    var a, b := Apply(t, r), Apply(u, r);
    RemovingDeadIsAlike(t, {r.key}, now);
    AlikePointwise(t, u, now);
    if r.op == OpSetex {
      forall k
        ensures AlikeOn(a.tables, b.tables, now, k)
      {
        assert AlikeOn(t, u, now, k);
      }
      AlikePointwise(a.tables, b.tables, now);
    } else if r.op == OpSet {
      AlikePointwise(a.tables, b.tables, now);
      assert !AlikeOn(a.tables, b.tables, now, r.key);
    }
  }
}
