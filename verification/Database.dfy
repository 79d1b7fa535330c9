/** `db_t`: the operations of src/db.c over two hash tables, and active expiry. */
module Database {

  import opened Numbers
  import opened Store
  import opened HashTable
  import opened Expiry

  class Db {
    const keyspace: Table<Value>
    const expires: Table<int>

    ghost predicate Apart()
      reads this, keyspace, expires
    {
      keyspace.Repr() !! expires.Repr() && this !in keyspace.Repr() && this !in expires.Repr()
    }

    ghost predicate Valid()
      reads this, keyspace, keyspace.table, keyspace.members, expires, expires.table, expires.members
    {
      && keyspace.Valid() && keyspace.Loaded() && expires.Valid() && expires.Loaded()
      && Apart() && Consistent(Contents())
    }

    ghost function Contents(): (t: Tables)
      reads this, keyspace, expires
    {
      Tables(keyspace.model, expires.model)
    }

    ghost function Repr(): (r: set<object>)
      reads this, keyspace, expires
    {
      keyspace.Repr() + expires.Repr()
    }

    /** `db_create` */
    constructor (hash: Key -> nat)
      ensures Valid() && Contents() == EMPTY && fresh(Repr())
    {
      hide Table.Valid;
      keyspace := new Table<Value>(hash);
      expires := new Table<int>(hash);
    }

    /** `db_set` */
    method Set(k: Key, v: Value)
      requires Valid()
      modifies Repr()
      ensures Valid() && Contents() == Store.Set(old(Contents()), k, v).tables && fresh(Repr() - old(Repr()))
    {
      hide Table.Valid;
      keyspace.Put(k, v);
    }

    /** `db_del` */
    method Del(k: Key) returns (ok: bool, ghost i: nat, ghost j: nat)
      requires Valid()
      modifies Repr()
      ensures Valid() && Repr() <= old(Repr())
      ensures ok == Store.Del(old(Contents()), k).ok && Contents() == Store.Del(old(Contents()), k).tables
      ensures expires.table == old(expires.table) && expires.size == old(expires.size)
      ensures k in old(expires.model) ==>
        && i < |old(expires.chains)| && j < |old(expires.chains)[i]| && old(expires.chains)[i][j].key == k
        && expires.chains == old(expires.chains)[i := old(expires.chains)[i][..j] + old(expires.chains)[i][j + 1..]]
    {
      hide Table.Valid;
      expires.SizeIsChains();
      ghost var had;
      had, i, j := expires.Delete(k);
      ghost var i', j';
      ok, i', j' := keyspace.Delete(k);
    }

    /** `db_setex` */
    method Setex(k: Key, v: Value, expireAt: int)
      requires Valid()
      modifies Repr()
      ensures Valid() && Contents() == Store.Setex(old(Contents()), k, v, expireAt).tables
      ensures fresh(Repr() - old(Repr()))
    {
      hide Table.Valid;
      keyspace.Put(k, v);
      if expireAt > 0 {
        expires.Put(k, expireAt);
      }
    }

    /** `db_key_expire` */
    method KeyExpire(k: Key, expireAt: int) returns (ok: bool)
      requires Valid()
      modifies Repr()
      ensures Valid() && fresh(Repr() - old(Repr()))
      ensures Applied(Contents(), ok) == Store.Expire(old(Contents()), k, expireAt)
    {
      hide Table.Valid;
      var v := keyspace.Get(k);
      if expireAt <= 0 || v == None {
        return false;
      }
      expires.Put(k, expireAt);
      ok := true;
    }

    /** `db_persist` */
    method Persist(k: Key) returns (ok: bool)
      requires Valid()
      modifies Repr()
      ensures Valid() && Repr() <= old(Repr())
      ensures Applied(Contents(), ok) == Store.Persist(old(Contents()), k)
    {
      hide Table.Valid;
      ghost var i, j;
      ok, i, j := expires.Delete(k);
    }

    /** `db_expire_clean` */
    method ExpireClean(k: Key, now: int) returns (cleaned: bool, ghost i: nat, ghost j: nat)
      requires Valid()
      modifies Repr()
      ensures Valid() && Repr() <= old(Repr())
      ensures cleaned == Dead(old(Contents()), k, now) && Contents() == Clean(old(Contents()), k, now)
      ensures expires.table == old(expires.table) && expires.size == old(expires.size)
      ensures !cleaned ==> expires.chains == old(expires.chains)
      ensures cleaned ==>
        && i < |old(expires.chains)| && j < |old(expires.chains)[i]| && old(expires.chains)[i][j].key == k
        && expires.chains == old(expires.chains)[i := old(expires.chains)[i][..j] + old(expires.chains)[i][j + 1..]]
    {
      hide Table.Valid;
      i, j := 0, 0;
      var deadline := expires.Get(k);
      if deadline.Some? && now > deadline.value {
        var ok;
        ok, i, j := Del(k);
        return true, i, j;
      }
      cleaned := false;
    }

    /** `db_get`: answers from the timed map, and drops the key if it was dead. */
    method Get(k: Key, now: int) returns (v: Option<Value>)
      requires Valid()
      modifies Repr()
      ensures Valid() && Repr() <= old(Repr())
      ensures v == GetAnswer(old(Contents()), k, now) && Contents() == Clean(old(Contents()), k, now)
    {
      hide Table.Valid;
      ghost var i, j;
      var cleaned;
      cleaned, i, j := ExpireClean(k, now);
      if cleaned {
        return None;
      }
      v := keyspace.Get(k);
    }

    /** `db_get_ttl` */
    method GetTtl(k: Key, now: int) returns (seconds: int)
      requires Valid()
      modifies Repr()
      ensures Valid() && Repr() <= old(Repr())
      ensures seconds == TtlAnswer(old(Contents()), k, now) && Contents() == Clean(old(Contents()), k, now)
    {
      hide Table.Valid;
      ghost var i, j;
      var cleaned;
      cleaned, i, j := ExpireClean(k, now);
      var v := keyspace.Get(k);
      if v == None {
        return -2;
      }
      var deadline := expires.Get(k);
      if deadline == None {
        return -1;
      }
      seconds := (deadline.value - now) / 1000;
    }

    /** The keys of one bucket of the deadline table. */
    ghost function BucketKeys(idx: nat): (ks: set<Key>)
      reads this, expires
      requires idx < |expires.chains|
    {
      KeysOf(expires.chains[idx])
    }

    /** One turn of the chain loop: `next` was saved before the entry may go. */
    method SweepEntry(idx: nat, e: Node<int>, now: int, ghost p: nat)
      returns (cleaned: bool, next: Node?<int>)
      requires Valid() && idx < |expires.chains| && p < |expires.chains[idx]| && e == expires.chains[idx][p]
      modifies Repr()
      ensures Valid() && Repr() <= old(Repr())
      ensures cleaned == Dead(old(Contents()), e.key, now) && Contents() == Clean(old(Contents()), e.key, now)
      ensures expires.table == old(expires.table) && expires.size == old(expires.size)
      ensures next == Nth(old(expires.chains)[idx], p + 1)
      ensures |expires.chains| == |old(expires.chains)|
      ensures expires.chains[idx] == if cleaned then Cut(old(expires.chains)[idx], p) else old(expires.chains)[idx]
    {
      hide Table.Valid, Consistent;
      ghost var cs: seq<seq<Node<int>>> := expires.chains;
      expires.SizeIsChains();
      expires.Pointers(idx);
      next := e.next;
      forall i: nat, j: nat | i < |cs| && j < |cs[i]| && cs[i][j].key == e.key
        ensures i == idx && j == p
      {
        expires.OnePosition(i, j, idx, p);
      }
      ghost var i, j;
      cleaned, i, j := ExpireClean(e.key, now);
    }

    lemma HeadOf(idx: nat)
      requires Valid() && idx < |expires.chains|
      ensures |expires.chains| == expires.table.Length && expires.table[idx] == Nth(expires.chains[idx], 0)
    {
      hide Table.Valid, Consistent;
      expires.SizeIsChains();
      expires.Pointers(idx);
    }

    /** Midway through chain `c`: the first `q` entries are done, those in `kept` stayed. */
    ghost predicate Midway(idx: nat, c: seq<Node<int>>, q: nat, kept: seq<Node<int>>, t: Tables, now: int, n: nat)
      reads this, keyspace, expires
    {
      && idx < |expires.chains| && q <= |c| && expires.chains[idx] == kept + c[q..]
      && Contents() == Swept(t, KeysOf(c[..q]), now)
      && n == |DeadAmong(t, KeysOf(c[..q]), now)|
    }

    method SweepNext(idx: nat, e: Node<int>, now: int, sofar: nat, ghost c: seq<Node<int>>, ghost q: nat,
                     ghost kept: seq<Node<int>>, ghost t: Tables)
      returns (next: Node?<int>, n: nat, ghost kept': seq<Node<int>>)
      requires Valid() && Midway(idx, c, q, kept, t, now, sofar) && q < |c| && e == c[q]
      modifies Repr()
      ensures Valid() && Repr() <= old(Repr()) && |expires.chains| == |old(expires.chains)|
      ensures Midway(idx, c, q + 1, kept', t, now, n) && next == Nth(c, q + 1)
    {
      hide Db.Valid, Consistent, Swept, DeadAmong, Clean, Dead, KeysOf, Cut;
      WalkStep(kept, c, q);
      SweptMore(t, KeysOf(c[..q]), e.key, now);
      KeysOfMore(c, q);
      var gone;
      gone, next := SweepEntry(idx, e, now, |kept|);
      n := if gone then sofar + 1 else sofar;
      kept' := if gone then kept else kept + [e];
    }

    lemma MidwayStart(idx: nat, now: int)
      requires idx < |expires.chains|
      ensures Midway(idx, expires.chains[idx], 0, [], Contents(), now, 0)
    {
      hide Swept, DeadAmong;
      SweptNothing(Contents(), now);
      assert expires.chains[idx][..0] == [];
      KeysOfNone();
    }

    /** The chain loop of `db_active_sweep`: exactly the dead keys of the bucket go. */
    method SweepBucket(idx: nat, now: int) returns (cleaned: nat)
      requires Valid() && idx < |expires.chains|
      modifies Repr()
      ensures Valid() && Repr() <= old(Repr()) && |expires.chains| == |old(expires.chains)|
      ensures Contents() == Swept(old(Contents()), old(BucketKeys(idx)), now)
      ensures cleaned == |DeadAmong(old(Contents()), old(BucketKeys(idx)), now)|
    {
      hide Db.Valid, Db.Midway, Swept, DeadAmong, KeysOf;
      HeadOf(idx);
      var e := expires.table[idx];
      cleaned := 0;
      ghost var c, q: nat, kept, t := expires.chains[idx], 0, [], Contents();
      MidwayStart(idx, now);
      while e != null
        invariant Valid() && Repr() <= old(Repr()) && |expires.chains| == |old(expires.chains)|
        invariant q <= |c| && e == Nth(c, q) && Midway(idx, c, q, kept, t, now, cleaned)
        decreases |c| - q
      {
        e, cleaned, kept := SweepNext(idx, e, now, cleaned, c, q, kept, t);
        q := q + 1;
      }
      MidwayEnd(idx, c, kept, t, now, cleaned);
    }

    lemma MidwayEnd(idx: nat, c: seq<Node<int>>, kept: seq<Node<int>>, t: Tables, now: int, n: nat)
      requires Midway(idx, c, |c|, kept, t, now, n)
      ensures Contents() == Swept(t, KeysOf(c), now) && n == |DeadAmong(t, KeysOf(c), now)|
    {
      hide Swept, DeadAmong, KeysOf;
      assert c[..|c|] == c;
    }

    /** The keys with a deadline that live in the sampled buckets. */
    ghost function Sampled(picks: seq<nat>): (ks: set<Key>)
      reads this, expires
      requires 0 < |expires.chains|
    {
      InBuckets(expires.model, expires.hash, |expires.chains|, picks)
    }

    lemma BucketsNonempty()
      requires Valid()
      ensures 0 < |expires.chains| == expires.size == expires.table.Length
      ensures expires.used == |expires.model|
    {
      hide Consistent, Stands, Linked;
    }

    lemma SomeBucketInUse()
      requires Valid() && 0 < expires.used
      ensures exists idx: nat :: idx < expires.table.Length && expires.table[idx] != null
    {
      hide Consistent, Slot;
      ghost var k :| k in expires.model;
      ghost var n :| n in expires.members && n.key == k;
      var idx := Slot(expires.hash, n.key, |expires.chains|);
      assert n in expires.chains[idx];
      assert Linked(expires.table[idx], expires.chains[idx]);
    }

    lemma BucketIsSample(idx: nat)
      requires Valid() && idx < |expires.chains|
      ensures BucketKeys(idx) == InBuckets(expires.model, expires.hash, |expires.chains|, [idx])
    {
      hide Consistent, Arranged, Stands, Linked, InBuckets, KeysOf;
      ChainKeys(expires.chains, expires.members, expires.model, expires.hash, idx);
    }

    /** The sampling loop: any buckets in use, repeats allowed. */
    method PickBuckets(count: nat) returns (picks: seq<nat>)
      requires Valid() && 0 < expires.used
      ensures |picks| == count
      ensures forall i :: 0 <= i < count ==> picks[i] < expires.table.Length && expires.table[picks[i]] != null
    {
      hide Db.Valid;
      picks := [];
      SomeBucketInUse();
      while |picks| < count
        invariant |picks| <= count
        invariant forall i :: 0 <= i < |picks| ==> picks[i] < expires.table.Length && expires.table[picks[i]] != null
        decreases count - |picks|
      {
        var idx: nat :| idx < expires.table.Length && expires.table[idx] != null;
        picks := picks + [idx];
      }
    }

    /** `db_active_sweep`: exactly the dead keys of the sampled buckets go, and they are counted once each. */
    method ActiveSweep(sampleSize: nat, now: int) returns (cleaned: nat, ghost picks: seq<nat>)
      requires Valid()
      modifies Repr()
      ensures Valid() && Repr() <= old(Repr())
      ensures |picks| == Min(sampleSize, old(expires.used))
      ensures forall i :: 0 <= i < |picks| ==>
                picks[i] < old(expires.table.Length) && old(expires.table[picks[i]]) != null
      ensures 0 < |old(expires.chains)|
      ensures Contents() == Swept(old(Contents()), old(Sampled(picks)), now)
      ensures cleaned == |DeadAmong(old(Contents()), old(Sampled(picks)), now)|
    {
      hide Db.Valid, Swept, DeadAmong, Slot;
      BucketsNonempty();
      SweptNothing(Contents(), now);
      if expires.used == 0 {
        assert old(Sampled([])) == {};
        return 0, [];
      }
      var chosen := PickBuckets(Min(sampleSize, expires.used));
      picks := chosen;
      cleaned := 0;
      ghost var t, size := Contents(), |expires.chains|;
      assert InBuckets(t.expires, expires.hash, size, picks[..0]) == {};
      for i := 0 to |chosen|
        invariant Valid() && Repr() <= old(Repr()) && |expires.chains| == size
        invariant Contents() == Swept(t, InBuckets(t.expires, expires.hash, size, picks[..i]), now)
        invariant cleaned == |DeadAmong(t, InBuckets(t.expires, expires.hash, size, picks[..i]), now)|
      {
        BucketIsSample(chosen[i]);
        SweptBucket(t, expires.hash, size, picks, i, now);
        var n := SweepBucket(chosen[i], now);
        cleaned := cleaned + n;
      }
      assert picks[..|picks|] == picks;
    }

    /** Every bucket in use holds a key. */
    lemma InUseHoldsKey(idx: nat)
      requires Valid() && idx < expires.table.Length && expires.table[idx] != null
      ensures idx < |expires.chains| && InBuckets(expires.model, expires.hash, |expires.chains|, [idx]) != {}
    {
      hide Db.Valid, InBuckets, KeysOf;
      BucketsNonempty();
      HeadOf(idx);
      BucketIsSample(idx);
      HeadKey(expires.chains[idx]);
    }

    /** One round of active expiry, added to the rounds before it: as many buckets in use as asked for, or as
        there are deadlines; what it finds is exactly the number of dead keys in them. */
    method SweepRound(keysPerRound: nat, now: int, ghost t: Tables, ghost before: set<Key>)
      returns (expired: nat, ghost sample: set<Key>, ghost picks: seq<nat>)
      requires Valid() && Contents() == Swept(t, before, now)
      modifies Repr()
      ensures Valid() && Repr() <= old(Repr())
      ensures |picks| == Min(keysPerRound, old(expires.used)) && 0 < |old(expires.chains)|
      ensures forall i :: 0 <= i < |picks| ==>
                picks[i] < old(expires.table.Length) && old(expires.table[picks[i]]) != null
      ensures expired == |DeadAmong(old(Contents()), old(Sampled(picks)), now)|
      ensures sample == before + old(Sampled(picks)) && Contents() == Swept(t, sample, now)
      ensures |expires.model| == |old(expires.model)| - expired && |keyspace.model| == |old(keyspace.model)| - expired
      ensures 0 < keysPerRound && AllPassed(old(expires.model), now) && old(expires.model) != map[] ==> 0 < expired
    {
      hide Db.Valid, Swept, DeadAmong, Slot, InBuckets, Consistent, AllPassed;
      ConsistentNow();
      BucketsNonempty();
      forall idx: nat | idx < expires.table.Length && expires.table[idx] != null
        ensures InBuckets(expires.model, expires.hash, |expires.chains|, [idx]) != {}
      {
        InUseHoldsKey(idx);
      }
      expired, picks := ActiveSweep(keysPerRound, now);
      ghost var more := old(Sampled(picks));
      SweptTwice(t, before, more, now);
      SweptSizes(old(Contents()), more, now);
      sample := before + more;
      if 0 < |picks| && AllPassed(old(expires.model), now) {
        SampleHasDead(old(Contents()), expires.hash, |old(expires.chains)|, picks, now);
      }
    }

    /** What the loop needs of a round. */
    method NextRound(keysPerRound: nat, now: int, ghost t: Tables, ghost before: set<Key>)
      returns (expired: nat, ghost sample: set<Key>)
      requires Valid() && Contents() == Swept(t, before, now)
      modifies Repr()
      ensures Valid() && Repr() <= old(Repr()) && Contents() == Swept(t, sample, now)
      ensures |expires.model| == |old(expires.model)| - expired && |keyspace.model| == |old(keyspace.model)| - expired
      ensures 0 < keysPerRound && AllPassed(old(expires.model), now) && old(expires.model) != map[] ==> 0 < expired
    {
      hide Db.Valid, Swept, DeadAmong, Slot, InBuckets, AllPassed;
      ghost var picks;
      expired, sample, picks := SweepRound(keysPerRound, now, t, before);
    }

    /** The loop of `active_expire_cron`. */
    method ExpireRounds(start: int, budget: nat, keysPerRound: nat, percent: nat, now: int)
      returns (ghost found: seq<nat>, ghost sample: set<Key>, ghost ended: int)
      requires Valid() && 0 < keysPerRound && 0 < percent
      modifies Repr()
      ensures Valid() && Repr() <= old(Repr()) && Contents() == Swept(old(Contents()), sample, now)
      ensures 0 < |found| <==> 0 < budget
      ensures |found| <= |old(expires.model)| + 1
      ensures |keyspace.model| == |old(keyspace.model)| - Total(found)
      ensures |expires.model| == |old(expires.model)| - Total(found)
      ensures found != [] ==> Fruitful(found[..|found| - 1], keysPerRound, percent)
      ensures found != [] ==> BelowThreshold(found[|found| - 1], keysPerRound, percent) || ended - start >= budget
      ensures 0 < budget && AllPassed(old(expires.model), now) && old(expires.model) != map[] ==>
                0 < found[0] <= Total(found)
    {
      hide Db.Valid, Db.Repr, Swept, BelowThreshold, AllPassed, Total, Fruitful;
      found, sample, ended := [], {}, start;
      SweptNothing(Contents(), now);
      TotalOfNone();
      NoneFruitful(keysPerRound, percent);
      var current := start;
      ghost var t := Contents();
      while current - start < budget
        invariant Valid() && Repr() <= old(Repr()) && Contents() == Swept(t, sample, now)
        invariant |found| + |expires.model| <= |t.expires|
        invariant |expires.model| == |t.expires| - Total(found) && |keyspace.model| == |t.keyspace| - Total(found)
        invariant Fruitful(found, keysPerRound, percent)
        invariant found == [] ==> current == start && expires.model == t.expires
        invariant found != [] ==> 0 < budget
        invariant found != [] && AllPassed(t.expires, now) && t.expires != map[] ==> 0 < found[0] <= Total(found)
        decreases |expires.model|
      {
        var expired;
        expired, sample := NextRound(keysPerRound, now, t, sample);
        TotalMore(found, expired);
        FruitfulMore(found, expired, keysPerRound, percent);
        found := found + [expired];
        FruitfulRound(expired, keysPerRound, percent);
        if BelowThreshold(expired, keysPerRound, percent) {
          break;
        }
        current := *;
      }
      ended := current;
      if found != [] {
        FruitfulFront(found, keysPerRound, percent);
      }
    }

    /** `active_expire_cron`: rounds go on while a round is fruitful and the clock allows. They end within
        the number of deadlines even if the clock stands still. `found` is what each round found, `ended`
        the clock at the end. Above 250 ticks a second there is no time for even one round. */
    method ActiveExpireCron(enabled: bool, start: int, hz: nat, keysPerRound: nat, percent: nat, now: int)
      returns (ghost found: seq<nat>, ghost sample: set<Key>, ghost ended: int)
      requires Valid() && 0 < hz && 0 < keysPerRound && 0 < percent
      modifies Repr()
      ensures Valid() && Repr() <= old(Repr())
      ensures Contents() == Swept(old(Contents()), sample, now)
      ensures 0 < |found| <==> enabled && hz <= 250
      ensures |found| <= |old(expires.model)| + 1
      ensures |keyspace.model| == |old(keyspace.model)| - Total(found)
      ensures |expires.model| == |old(expires.model)| - Total(found)
      ensures forall i :: 0 <= i < |found| - 1 ==> found[i] * 100 / keysPerRound >= percent
      ensures 0 < |found| ==>
                found[|found| - 1] * 100 / keysPerRound < percent || ended - start >= 1000 / hz / 4
      ensures enabled && hz <= 250 && AllPassed(old(expires.model), now) && old(expires.model) != map[] ==>
                0 < found[0] && |expires.model| < |old(expires.model)|
    {
      hide Db.Valid, Db.Repr, Swept, BelowThreshold, Budget, AllPassed, Total, Fruitful;
      found, sample, ended := [], {}, start;
      SweptNothing(Contents(), now);
      TotalOfNone();
      BudgetPositive(hz);
      RoundsMeasured(found, keysPerRound, percent, hz);
      if enabled {
        found, sample, ended := ExpireRounds(start, Budget(hz), keysPerRound, percent, now);
        RoundsMeasured(found, keysPerRound, percent, hz);
      }
    }

    /** The child's walk over the iterator meets every key of the keyspace exactly once. */
    lemma IterationVisits()
      requires Valid()
      ensures Log.Visits(KeyOrder(keyspace.chains), Contents())
    {
      hide Linked, Consistent, Arranged, Stands, KeyOrder;
      OrderVisits(keyspace.chains, keyspace.members, keyspace.model, keyspace.hash);
      assert Contents().keyspace == keyspace.model;
    }

    lemma ConsistentNow()
      requires Valid()
      ensures Consistent(Contents())
    {}
  }

  /** The keys in the order the iterator hands out their entries. */
  ghost function KeyOrder(cs: seq<seq<Node<Value>>>): (ks: seq<Key>)
    ensures |ks| == |Flat(cs)| && forall i :: 0 <= i < |ks| ==> ks[i] == Flat(cs)[i].key
  {
    seq(|Flat(cs)|, i requires 0 <= i < |Flat(cs)| => Flat(cs)[i].key)
  }

  lemma OrderVisits(cs: seq<seq<Node<Value>>>, members: set<Node<Value>>, m: map<Key, Value>, hash: Key -> nat)
    requires Arranged(cs, members, hash) && Stands(members, m)
    ensures var ks := KeyOrder(cs);
            && (forall i :: 0 <= i < |ks| ==> ks[i] in m)
            && (forall i, j :: 0 <= i < j < |ks| ==> ks[i] != ks[j])
            && (forall k :: k in m ==> k in ks)
  {
    hide Arranged;
    FlatIsMembers(cs, members, hash);
    var ks := KeyOrder(cs);
    var ns: seq<Node<Value>> := Flat(cs);
    forall i | 0 <= i < |ks|
      ensures ks[i] in m
    {
      assert ns[i] in ns && ns[i] in members && ks[i] == ns[i].key;
    }
    forall i, j | 0 <= i < j < |ks|
      ensures ks[i] != ks[j]
    {
      assert ns[i] in ns && ns[j] in ns && ks[i] == ns[i].key && ks[j] == ns[j].key;
      assert ns[i] in members && ns[j] in members && ns[i] != ns[j];
    }
    forall k | k in m
      ensures k in ks
    {
      var n :| n in members && n.key == k;
      var i :| 0 <= i < |ns| && ns[i] == n;
      assert ks[i] == k;
    }
  }

  function Cut<T>(s: seq<T>, j: nat): (r: seq<T>)
    requires j < |s|
  {
    s[..j] + s[j + 1..]
  }

  lemma WalkStep<T>(kept: seq<T>, c: seq<T>, q: nat)
    requires q < |c|
    ensures (kept + c[q..])[|kept|] == c[q]
    ensures Cut(kept + c[q..], |kept|) == kept + c[q + 1..]
    ensures kept + c[q..] == kept + [c[q]] + c[q + 1..]
    ensures q + 1 < |c| ==> (kept + c[q..])[|kept| + 1] == c[q + 1]
  {}

  /** A quarter of one tick, in milliseconds. */
  function Budget(hz: nat): (ms: nat)
    requires 0 < hz
  {
    1000 / hz / 4
  }

  /** More than 250 ticks a second leave no time at all. */
  lemma BudgetPositive(hz: nat)
    requires 0 < hz
    ensures 0 < Budget(hz) <==> hz <= 250
  {
    if hz <= 250 {
      QuotientAtLeast(1000, hz, 4);
    } else {
      QuotientBelow(1000, hz, 4);
    }
  }

  lemma QuotientAtLeast(a: nat, b: nat, q: nat)
    requires 0 < b && q * b <= a
    ensures a / b >= q
  {
    if a / b < q {
      MulGap(a / b, q, b);
    }
  }

  lemma QuotientBelow(a: nat, b: nat, q: nat)
    requires 0 < b && a < q * b
    ensures a / b < q
  {
    if q <= a / b {
      if q < a / b {
        MulGap(q, a / b, b);
      }
    }
  }

  function Total(ns: seq<nat>): (n: nat) {
    if ns == [] then 0 else Total(ns[..|ns| - 1]) + ns[|ns| - 1]
  }

  lemma TotalOfNone()
    ensures Total([]) == 0
  {}

  lemma TotalMore(ns: seq<nat>, n: nat)
    ensures Total(ns + [n]) == Total(ns) + n
  {
    assert (ns + [n])[..|ns|] == ns;
  }

  /** The tests of the loop in the terms of the source. */
  lemma RoundsMeasured(found: seq<nat>, keysPerRound: nat, percent: nat, hz: nat)
    requires 0 < keysPerRound && 0 < hz
    ensures Budget(hz) == 1000 / hz / 4
    ensures found != [] && Fruitful(found[..|found| - 1], keysPerRound, percent) ==>
              forall i :: 0 <= i < |found| - 1 ==> found[i] * 100 / keysPerRound >= percent
    ensures forall i :: 0 <= i < |found| ==>
              (BelowThreshold(found[i], keysPerRound, percent) <==> found[i] * 100 / keysPerRound < percent)
  {
    if found != [] && Fruitful(found[..|found| - 1], keysPerRound, percent) {
      forall i | 0 <= i < |found| - 1
        ensures found[i] * 100 / keysPerRound >= percent
      {
        assert !BelowThreshold(found[..|found| - 1][i], keysPerRound, percent);
      }
    }
  }

  /** Every deadline has passed. */
  predicate AllPassed(m: map<Key, int>, now: int) {
    forall k :: k in m ==> now > m[k]
  }

  lemma SampleHasDead(t: Tables, hash: Key -> nat, size: nat, picks: seq<nat>, now: int)
    requires 0 < size && picks != [] && InBuckets(t.expires, hash, size, [picks[0]]) != {} && AllPassed(t.expires, now)
    ensures 0 < |DeadAmong(t, InBuckets(t.expires, hash, size, picks), now)|
  {
    hide Slot;
    var k :| k in InBuckets(t.expires, hash, size, [picks[0]]);
    assert k in DeadAmong(t, InBuckets(t.expires, hash, size, picks), now);
  }

  lemma HeadKey(c: seq<Node<int>>)
    requires c != []
    ensures KeysOf(c) != {}
  {
    assert c[0] in c && c[0].key in KeysOf(c);
  }

  predicate BelowThreshold(expired: nat, keysPerRound: nat, percent: nat)
    requires 0 < keysPerRound
  {
    expired * 100 / keysPerRound < percent
  }

  /** Every round found enough for another. */
  predicate Fruitful(found: seq<nat>, keysPerRound: nat, percent: nat)
    requires 0 < keysPerRound
  {
    forall i :: 0 <= i < |found| ==> !BelowThreshold(found[i], keysPerRound, percent)
  }

  lemma NoneFruitful(keysPerRound: nat, percent: nat)
    requires 0 < keysPerRound
    ensures Fruitful([], keysPerRound, percent)
  {}

  lemma FruitfulMore(found: seq<nat>, expired: nat, keysPerRound: nat, percent: nat)
    requires 0 < keysPerRound && Fruitful(found, keysPerRound, percent)
    ensures (found + [expired])[..|found|] == found
    ensures !BelowThreshold(expired, keysPerRound, percent) ==> Fruitful(found + [expired], keysPerRound, percent)
  {
    hide BelowThreshold;
  }

  lemma FruitfulFront(found: seq<nat>, keysPerRound: nat, percent: nat)
    requires 0 < keysPerRound && found != []
    ensures Fruitful(found, keysPerRound, percent) ==> Fruitful(found[..|found| - 1], keysPerRound, percent)
  {
    hide BelowThreshold;
  }

  lemma FruitfulRound(expired: nat, keysPerRound: nat, percent: nat)
    requires 0 < keysPerRound && 0 < percent
    ensures BelowThreshold(expired, keysPerRound, percent) || 0 < expired
  {}

  ghost function KeysOf(c: seq<Node<int>>): (ks: set<Key>) {
    set n | n in c :: n.key
  }

  lemma KeysOfNone()
    ensures KeysOf([]) == {}
  {}

  lemma KeysOfMore(c: seq<Node<int>>, q: nat)
    requires q < |c|
    ensures KeysOf(c[..q + 1]) == KeysOf(c[..q]) + {c[q].key}
  {
    assert c[..q + 1] == c[..q] + [c[q]];
  }

  /** The keys of a sample that a sweep at `now` removes. */
  ghost function DeadAmong(t: Tables, ks: set<Key>, now: int): (d: set<Key>)
    ensures Swept(t, ks, now) == Without(t, d)
  {
    set k | k in ks && Dead(t, k, now)
  }

  lemma SweptNothing(t: Tables, now: int)
    ensures Swept(t, {}, now) == t && DeadAmong(t, {}, now) == {}
  {
    assert Swept(t, {}, now).keyspace == t.keyspace && Swept(t, {}, now).expires == t.expires;
  }

  /** Sweeping one more key is cleaning it afterwards. */
  lemma SweptMore(t: Tables, ks: set<Key>, k: Key, now: int)
    ensures Clean(Swept(t, ks, now), k, now) == Swept(t, ks + {k}, now)
    ensures |DeadAmong(t, ks + {k}, now)|
         == |DeadAmong(t, ks, now)| + if Dead(Swept(t, ks, now), k, now) then 1 else 0
  {
    var d, d' := DeadAmong(t, ks, now), DeadAmong(t, ks + {k}, now);
    if Dead(t, k, now) && k !in d {
      assert d' == d + {k};
    } else {
      assert d' == d;
    }
    var s, s' := Clean(Swept(t, ks, now), k, now), Swept(t, ks + {k}, now);
    assert s.keyspace == s'.keyspace && s.expires == s'.expires;
  }

  /** The keys of `m` whose bucket is among `picks`. */
  ghost function InBuckets<V>(m: map<Key, V>, hash: Key -> nat, size: nat, picks: seq<nat>): (ks: set<Key>)
    requires 0 < size
  {
    set k | k in m && Slot(hash, k, size) in picks
  }

  lemma ChainKeys(cs: seq<seq<Node<int>>>, members: set<Node<int>>, m: map<Key, int>, hash: Key -> nat, idx: nat)
    requires Arranged(cs, members, hash) && Stands(members, m) && idx < |cs|
    ensures KeysOf(cs[idx]) == InBuckets(m, hash, |cs|, [idx])
  {
    hide Slot;
    forall k | k in InBuckets(m, hash, |cs|, [idx])
      ensures k in KeysOf(cs[idx])
    {
      var n :| n in members && n.key == k;
      assert n in cs[idx];
    }
  }

  /** A second sweep at the same time only extends the sample. */
  lemma SweptTwice(t: Tables, a: set<Key>, b: set<Key>, now: int)
    ensures Swept(Swept(t, a, now), b, now) == Swept(t, a + b, now)
    ensures |DeadAmong(t, a + b, now)| == |DeadAmong(t, a, now)| + |DeadAmong(Swept(t, a, now), b, now)|
  {
    var s := Swept(t, a, now);
    assert DeadAmong(t, a + b, now) == DeadAmong(t, a, now) + DeadAmong(s, b, now);
    var u, v := Swept(s, b, now), Swept(t, a + b, now);
    assert u.keyspace == v.keyspace && u.expires == v.expires;
  }

  /** Keys a sweep has already removed do not matter to the next one. */
  lemma SweptBucket(t: Tables, hash: Key -> nat, size: nat, picks: seq<nat>, i: nat, now: int)
    requires 0 < size && i < |picks|
    ensures var a, b := InBuckets(t.expires, hash, size, picks[..i]), InBuckets(t.expires, hash, size, picks[..i + 1]);
            var s := Swept(t, a, now);
            var c := InBuckets(s.expires, hash, size, [picks[i]]);
            && Swept(s, c, now) == Swept(t, b, now)
            && |DeadAmong(t, b, now)| == |DeadAmong(t, a, now)| + |DeadAmong(s, c, now)|
  {
    hide Slot;
    var a, b := InBuckets(t.expires, hash, size, picks[..i]), InBuckets(t.expires, hash, size, picks[..i + 1]);
    var s := Swept(t, a, now);
    var c := InBuckets(s.expires, hash, size, [picks[i]]);
    SweptTwice(t, a, c, now);
    assert picks[..i + 1] == picks[..i] + [picks[i]];
    assert DeadAmong(t, a + c, now) == DeadAmong(t, b, now);
  }

  /** What a sweep removes is exactly the drop in size of both tables. */
  lemma SweptSizes(t: Tables, ks: set<Key>, now: int)
    requires Consistent(t)
    ensures var s, n := Swept(t, ks, now), |DeadAmong(t, ks, now)|;
            && |s.keyspace| == |t.keyspace| - n && |s.expires| == |t.expires| - n
            && Consistent(s) && forall k :: k in t.keyspace && k !in s.keyspace ==> Dead(t, k, now)
  {
    var s, d := Swept(t, ks, now), DeadAmong(t, ks, now);
    assert s.keyspace.Keys == t.keyspace.Keys - d && s.expires.Keys == t.expires.Keys - d;
    assert d <= t.keyspace.Keys && d <= t.expires.Keys;
  }
}
