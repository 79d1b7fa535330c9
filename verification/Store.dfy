/** The two tables of src/db.c as values: what each database operation does to them. */
module Store {

  import opened Bytes

  type Key = seq<byte>
  type Value = seq<byte>

  datatype Option<+T> = None | Some(value: T)

  /** `keyspace` holds the values, `expires` the wall-clock deadlines in milliseconds. */
  datatype Tables = Tables(keyspace: map<Key, Value>, expires: map<Key, int>)

  const EMPTY: Tables := Tables(map[], map[])

  /** What every operation keeps: a deadline belongs to an existing key and is positive. */
  predicate Consistent(t: Tables) {
    t.expires.Keys <= t.keyspace.Keys && forall k :: k in t.expires ==> 0 < t.expires[k]
  }

  /** New tables and whether the operation returned EXIT_SUCCESS. */
  datatype Applied = Applied(tables: Tables, ok: bool)

  /** `db_set`: an existing deadline stays. */
  function Set(t: Tables, k: Key, v: Value): (a: Applied) {
    Applied(t.(keyspace := t.keyspace[k := v]), true)
  }

  /** `db_setex` */
  function Setex(t: Tables, k: Key, v: Value, expireAt: int): (a: Applied) {
    Applied(Tables(t.keyspace[k := v], if expireAt > 0 then t.expires[k := expireAt] else t.expires), true)
  }

  /** `db_del`: the deadline goes first, the result tells whether the key had a value. */
  function Del(t: Tables, k: Key): (a: Applied) {
    Applied(Tables(t.keyspace - {k}, t.expires - {k}), k in t.keyspace)
  }

  /** `db_key_expire` */
  function Expire(t: Tables, k: Key, expireAt: int): (a: Applied) {
    if expireAt <= 0 || k !in t.keyspace then Applied(t, false)
    else Applied(t.(expires := t.expires[k := expireAt]), true)
  }

  /** `db_persist` */
  function Persist(t: Tables, k: Key): (a: Applied) {
    Applied(t.(expires := t.expires - {k}), k in t.expires)
  }

  /** A deadline has passed: `now_ms > *expire_at`. */
  predicate Dead(t: Tables, k: Key, now: int) {
    k in t.expires && now > t.expires[k]
  }

  /** The part of the tables still alive at `now`. */
  function AliveAt(t: Tables, now: int): (a: Tables)
    ensures forall k :: k in a.keyspace <==> k in t.keyspace && !Dead(t, k, now)
    ensures forall k :: k in a.keyspace ==> a.keyspace[k] == t.keyspace[k]
    ensures forall k :: k in a.expires <==> k in t.expires && !Dead(t, k, now)
    ensures forall k :: k in a.expires ==> a.expires[k] == t.expires[k]
  {
    Tables(
      map k | k in t.keyspace && !Dead(t, k, now) :: t.keyspace[k],
      map k | k in t.expires && !Dead(t, k, now) :: t.expires[k])
  }

  /** Both tables without the keys of `ks`. */
  function Without(t: Tables, ks: set<Key>): (r: Tables) {
    Tables(t.keyspace - ks, t.expires - ks)
  }

  // ----- Log records

  datatype Op = OpSet | OpDel | OpSetex | OpExpire | OpPersist

  /** One mutation as it is logged. */
  datatype Record = Record(op: Op, key: Key, value: Value, expireAt: int)

  /** The operation a command handler runs and replay repeats. */
  function Apply(t: Tables, r: Record): (a: Applied)
    ensures Consistent(t) ==> Consistent(a.tables)
    ensures Consistent(t) && !a.ok ==> a.tables == t
  {
    match r.op
    case OpSet => Set(t, r.key, r.value)
    case OpDel => Del(t, r.key)
    case OpSetex => Setex(t, r.key, r.value, r.expireAt)
    case OpExpire => Expire(t, r.key, r.expireAt)
    case OpPersist => Persist(t, r.key)
  }
}
