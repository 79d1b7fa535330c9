/** The chained hash table of src/ht.c: linked nodes, power-of-two masking, doubling, iteration. */
module HashTable {

  import opened Store
  import opened Numbers

  // ----- Masking

  /** Bitwise and of two naturals. */
  function BitAnd(a: nat, b: nat): (c: nat)
    ensures c <= b
  {
    if b == 0 then 0 else 2 * BitAnd(a / 2, b / 2) + (a % 2) * (b % 2)
  }

  ghost predicate IsPow2(n: nat) {
    exists k: nat :: n == Pow2(k)
  }

  lemma HalveMod(h: nat, m: nat)
    requires 0 < m
    ensures h % (2 * m) == 2 * ((h / 2) % m) + h % 2
  {
    var q, r := (h / 2) / m, (h / 2) % m;
    assert h == 2 * (q * m + r) + h % 2 == q * (2 * m) + (2 * r + h % 2);
    DivUnique(h, 2 * m, q, 2 * r + h % 2);
  }

  /** `hash & sizemask` is `hash % size` when the size is a power of two. */
  lemma {:induction false} MaskIsModulo(h: nat, k: nat)
    ensures BitAnd(h, Pow2(k) - 1) == h % Pow2(k)
  {
    hide BitAnd;
    if k == 0 {
      AndNothing(h);
    } else {
      var m := Pow2(k - 1);
      MaskIsModulo(h / 2, k - 1);
      AndHalves(h, m);
      HalveMod(h, m);
    }
  }

  lemma AndNothing(h: nat)
    ensures BitAnd(h, 0) == 0 == h % 1
  {}

  lemma AndHalves(h: nat, m: nat)
    requires 0 < m
    ensures BitAnd(h, 2 * m - 1) == 2 * BitAnd(h / 2, m - 1) + h % 2
  {
    assert (2 * m - 1) / 2 == m - 1 && (2 * m - 1) % 2 == 1;
  }

  // ----- Nodes and chains

  class Node<V> {
    const key: Key
    var val: V
    var next: Node?<V>

    constructor (key: Key, val: V, next: Node?<V>)
      ensures this.key == key && this.val == val && this.next == next
    {
      this.key, this.val, this.next := key, val, next;
    }
  }

  ghost function Nth<V>(c: seq<Node<V>>, j: nat): (n: Node?<V>) {
    if j < |c| then c[j] else null
  }

  ghost function NodesOf<V>(c: seq<Node<V>>): (ns: set<Node<V>>) {
    set n | n in c
  }

  lemma NodesOfNone<V>()
    ensures NodesOf<V>([]) == {}
  {}

  lemma NextIsNew<V>(c: seq<Node<V>>, j: nat)
    requires Distinct(c) && j < |c|
    ensures c[j] !in NodesOf(c[..j]) && NodesOf(c[..j + 1]) == NodesOf(c[..j]) + {c[j]} && c[j] in c
    ensures forall l :: j < l < |c| ==> c[l] != c[j]
  {
    assert c[..j + 1] == c[..j] + [c[j]];
  }

  /** Following `next` from `head` visits exactly the nodes of `c`. */
  ghost predicate Linked<V>(head: Node?<V>, c: seq<Node<V>>)
    reads c`next
  {
    head == Nth(c, 0) && forall j :: 0 <= j < |c| ==> c[j].next == Nth(c, j + 1)
  }

  ghost predicate Distinct<V>(c: seq<Node<V>>) {
    forall i, j :: 0 <= i < j < |c| ==> c[i] != c[j]
  }

  function Slot(hash: Key -> nat, k: Key, size: nat): (i: nat)
    requires 0 < size
    ensures i < size
  {
    BitAnd(hash(k), size - 1)
  }

  /** The chains hold exactly the nodes of `members`, each once and in the bucket its hash selects. */
  ghost predicate Arranged<V>(cs: seq<seq<Node<V>>>, members: set<Node<V>>, hash: Key -> nat) {
    && 0 < |cs|
    && (forall n :: n in members ==> n in cs[Slot(hash, n.key, |cs|)])
    && (forall i, n :: 0 <= i < |cs| && n in cs[i] ==> n in members && Slot(hash, n.key, |cs|) == i)
    && (forall i :: 0 <= i < |cs| ==> Distinct(cs[i]))
  }

  /** The nodes stand for the map `m`: one node a key, holding its value. */
  ghost predicate Stands<V>(members: set<Node<V>>, m: map<Key, V>)
    reads members`val
  {
    && (forall n :: n in members ==> n.key in m && m[n.key] == n.val)
    && (forall k :: k in m ==> exists n :: n in members && n.key == k)
    && (forall n, o :: n in members && o in members && n.key == o.key ==> n == o)
  }

  class Table<V> {
    const hash: Key -> nat
    var table: array<Node?<V>>
    var size: nat
    var sizemask: nat
    var used: nat
    ghost var chains: seq<seq<Node<V>>>
    ghost var members: set<Node<V>>
    ghost var model: map<Key, V>

    ghost function Repr(): (r: set<object>)
      reads this
    {
      {this, table} + members
    }

    ghost predicate Shape()
      reads this, table, members
    {
      && table.Length == size == |chains| && sizemask == size - 1 && IsPow2(size)
      && Arranged(chains, members, hash)
      && forall i :: 0 <= i < size ==> Linked(table[i], chains[i])
    }

    /** The table refines `model`: every entry in its bucket, no duplicates, the count right. */
    ghost predicate Valid()
      reads this, table, members
    {
      Shape() && Stands(members, model) && used == |model|
    }

    /** Load at most 3/4, as between operations. */
    ghost predicate Loaded()
      reads this
    {
      4 * used <= 3 * size
    }

    constructor (hash: Key -> nat)
      ensures Valid() && Loaded() && model == map[] && this.hash == hash
      ensures fresh(Repr())
    {
      this.hash := hash;
      table := new Node?<V>[4](_ => null);
      size, sizemask, used := 4, 3, 0;
      chains := [[], [], [], []];
      members := {};
      model := map[];
      new;
      hide Arranged, Stands, IsPow2;
      EmptyTable<V>(hash);
    }

    /** `ht_find` */
    method Find(key: Key) returns (entry: Node?<V>, ghost i: nat, ghost j: nat)
      requires Valid()
      ensures entry == null <==> key !in model
      ensures entry != null ==> entry in members && entry.key == key && entry.val == model[key]
      ensures entry != null ==> i == Slot(hash, key, size) < |chains| && j < |chains[i]| && chains[i][j] == entry
    {
      hide Arranged, Stands, Slot, IsPow2;
      var index := Slot(hash, key, size);
      i, j := index, 0;
      entry := table[index];
      ghost var c := chains[index];
      while entry != null
        invariant j <= |c| && entry == Nth(c, j)
        invariant forall l :: 0 <= l < j ==> c[l].key != key
        decreases |c| - j
      {
        InChain(chains, members, model, hash, index, j);
        if entry.key == key {
          return;
        }
        entry := entry.next;
        j := j + 1;
      }
      AbsentFromChain(chains, members, model, hash, key);
    }

    /** The two halves of `ht_upsert` for a new key: a node in front of its chain. */
    method Insert(key: Key, val: V)
      requires Valid() && key !in model
      modifies this, table
      ensures Valid() && model == old(model)[key := val] && used == old(used) + 1
      ensures size == old(size) && table == old(table) && fresh(members - old(members))
      ensures 0 < size == |old(chains)| == |chains|
      ensures var i := Slot(hash, key, size);
              && chains[i] != [] && chains[i][0].key == key && chains[i][0].val == val
              && chains == old(chains)[i := [chains[i][0]] + old(chains)[i]]
    {
      hide Arranged, Stands, Slot, IsPow2;
      SizeDoubles();
      var index := Slot(hash, key, size);
      var node := new Node(key, val, table[index]);
      AddStands(members, model, node);
      AddSize(model, key, val);
      PushArranged(chains, members, hash, node, index);
      NotInChains(chains, members, hash, node);
      PushLinked(table[index], chains[index], node);
      table[index] := node;
      used := used + 1;
      chains := chains[index := [node] + chains[index]];
      members := members + {node};
      model := model[key := val];
    }

    /** A new value for the node that holds the key. */
    method Overwrite(entry: Node<V>, val: V)
      requires Valid() && entry in members
      modifies this`model, entry`val
      ensures Valid() && model == old(model)[entry.key := val]
    {
      hide Arranged, IsPow2;
      entry.val := val;
      model := model[entry.key := val];
      assert model.Keys == old(model).Keys;
    }

    /** The pointer half of unlinking position `j` of chain `index`: only that chain changes. */
    method PointPast(index: nat, ghost j: nat, prev: Node?<V>, entry: Node<V>, ghost d: seq<Node<V>>)
      requires Shape() && index < size && j < |chains[index]| && chains[index][j] == entry
      requires prev == if j == 0 then null else chains[index][j - 1]
      requires d == chains[index][..j] + chains[index][j + 1..]
      modifies table, members`next
      ensures Linked(table[index], d)
      ensures forall i :: 0 <= i < size && i != index ==> Linked(table[i], chains[i])
    {
      hide Arranged, Slot, IsPow2;
      ghost var c := chains[index];
      ChainsApart(chains, members, hash, index);
      ChainMembers(chains, members, hash, index);
      if prev == null {
        table[index] := entry.next;
      } else {
        prev.next := entry.next;
      }
      CutLinked(table[index], c, d, j);
    }

    /** Unlinks the node at position `j` of chain `index`; `prev` is the one before it, if any. */
    method Unlink(index: nat, ghost j: nat, prev: Node?<V>, entry: Node<V>)
      requires Valid() && index < size && j < |chains[index]| && chains[index][j] == entry
      requires prev == if j == 0 then null else chains[index][j - 1]
      modifies this`used, this`chains, this`members, this`model, table, members`next
      ensures Valid() && model == old(model) - {entry.key} && used == old(used) - 1
      ensures members == old(members) - {entry}
      ensures chains == old(chains)[index := old(chains[index][..j] + chains[index][j + 1..])]
    {
      hide Arranged, Stands, Slot, IsPow2, Linked;
      ghost var d := chains[index][..j] + chains[index][j + 1..];
      InChain(chains, members, model, hash, index, j);
      DropStands(members, model, entry);
      CutArranged(chains, members, hash, index, j);
      PointPast(index, j, prev, entry, d);
      used := used - 1;
      chains := chains[index := d];
      members := members - {entry};
      model := model - {entry.key};
    }

    /** The walk of `ht_del`: the node of the key, and the one before it. */
    method Locate(key: Key) returns (prev: Node?<V>, entry: Node?<V>, ghost j: nat)
      requires Valid()
      ensures entry == null <==> key !in model
      ensures entry != null ==>
        var i := Slot(hash, key, size);
        && i < |chains| && j < |chains[i]| && chains[i][j] == entry && entry.key == key
        && prev == if j == 0 then null else chains[i][j - 1]
    {
      hide Arranged, Stands, Slot, IsPow2;
      var index := Slot(hash, key, size);
      prev := null;
      entry := table[index];
      j := 0;
      ghost var c := chains[index];
      while entry != null
        invariant j <= |c| && entry == Nth(c, j)
        invariant prev == if j == 0 then null else c[j - 1]
        invariant forall l :: 0 <= l < j ==> c[l].key != key
        decreases |c| - j
      {
        if entry.key == key {
          InChain(chains, members, model, hash, index, j);
          return;
        }
        prev := entry;
        entry := entry.next;
        j := j + 1;
      }
      AbsentFromChain(chains, members, model, hash, key);
    }

    /** `ht_del` */
    method Delete(key: Key) returns (ok: bool, ghost i: nat, ghost j: nat)
      requires Valid()
      modifies this`used, this`chains, this`members, this`model, table, members`next
      ensures Valid() && ok == (key in old(model)) && model == old(model) - {key}
      ensures used == if ok then old(used) - 1 else old(used)
      ensures members <= old(members)
      ensures !ok ==> chains == old(chains)
      ensures ok ==> i < size && j < |old(chains[i])| && old(chains[i][j]).key == key
      ensures ok ==> chains == old(chains)[i := old(chains[i])[..j] + old(chains[i])[j + 1..]]
    {
      hide Table.Valid, Slot;
      SizeIsChains();
      SizeDoubles();
      var index := Slot(hash, key, size);
      i := index;
      var prev, entry;
      prev, entry, j := Locate(key);
      ok := entry != null;
      if ok {
        Unlink(index, j, prev, entry);
      } else {
        assert model - {key} == model;
      }
    }

    /** One turn of the rehash loop: the node goes in front of its new chain. */
    method MoveEntry(entry: Node<V>, target: array<Node?<V>>, ghost cs: seq<seq<Node<V>>>, ghost done: set<Node<V>>)
      returns (next: Node?<V>, ghost cs': seq<seq<Node<V>>>)
      requires target.Length == |cs| && Arranged(cs, done, hash) && entry !in done
      requires forall b :: 0 <= b < |cs| ==> Linked(target[b], cs[b])
      modifies target, entry`next
      ensures next == old(entry.next)
      ensures |cs'| == |cs| && Arranged(cs', done + {entry}, hash)
      ensures forall b :: 0 <= b < |cs| ==> Linked(target[b], cs'[b])
    {
      hide Arranged, Slot;
      ArrangedNonempty(cs, done, hash);
      var b := Slot(hash, entry.key, target.Length);
      PushArranged(cs, done, hash, entry, b);
      NotInChains(cs, done, hash, entry);
      next := entry.next;
      entry.next := target[b];
      PushLinked(target[b], cs[b], entry);
      target[b] := entry;
      cs' := cs[b := [entry] + cs[b]];
    }

    /** The inner rehash loop: chain `i` empties into the new buckets. */
    method MoveChain(i: nat, target: array<Node?<V>>, ghost cs: seq<seq<Node<V>>>, ghost done: set<Node<V>>)
      returns (ghost cs': seq<seq<Node<V>>>, ghost done': set<Node<V>>)
      requires table.Length == |chains| && i < |chains| && Linked(table[i], chains[i]) && Distinct(chains[i])
      requires target != table && target.Length == |cs| && Arranged(cs, done, hash)
      requires forall n :: n in chains[i] ==> n !in done
      requires forall b :: 0 <= b < |cs| ==> Linked(target[b], cs[b])
      modifies target, chains[i]`next
      ensures |cs'| == |cs| && Arranged(cs', done', hash)
      ensures done' == done + NodesOf(chains[i])
      ensures forall b :: 0 <= b < |cs| ==> Linked(target[b], cs'[b])
    {
      hide Arranged, NodesOf, Distinct;
      cs', done' := cs, done;
      ghost var c := chains[i];
      NodesOfNone<V>();
      assert c[..0] == [];
      ghost var j := 0;
      var entry := table[i];
      while entry != null
        invariant j <= |c| && entry == Nth(c, j)
        invariant forall l :: j <= l < |c| ==> c[l].next == Nth(c, l + 1)
        invariant done' == done + NodesOf(c[..j])
        invariant |cs'| == |cs| && Arranged(cs', done', hash)
        invariant forall b :: 0 <= b < |cs| ==> Linked(target[b], cs'[b])
        decreases |c| - j
      {
        NextIsNew(c, j);
        entry, cs' := MoveEntry(entry, target, cs', done');
        done' := done' + {c[j]};
        j := j + 1;
      }
      assert c[..j] == c;
    }

    /** Emptying chain `i` leaves the later ones as they are. */
    method MoveBucket(i: nat, target: array<Node?<V>>, ghost cs: seq<seq<Node<V>>>, ghost done: set<Node<V>>)
      returns (ghost cs': seq<seq<Node<V>>>, ghost done': set<Node<V>>)
      requires table.Length == |chains| && i < |chains| && Distinct(chains[i])
      requires forall l :: i <= l < |chains| ==> Linked(table[l], chains[l])
      requires forall l :: 0 <= l < |chains| && l != i ==> forall n :: n in chains[l] ==> n !in chains[i]
      requires target != table && target.Length == |cs| && Arranged(cs, done, hash)
      requires forall n :: n in chains[i] ==> n !in done
      requires forall b :: 0 <= b < |cs| ==> Linked(target[b], cs[b])
      modifies target, chains[i]`next
      ensures |cs'| == |cs| && Arranged(cs', done', hash)
      ensures done' == done + NodesOf(chains[i])
      ensures forall b :: 0 <= b < |cs| ==> Linked(target[b], cs'[b])
      ensures forall l :: i < l < |chains| ==> Linked(table[l], chains[l])
    {
      hide Arranged;
      cs', done' := MoveChain(i, target, cs, done);
      forall l | i < l < |chains|
        ensures Linked(table[l], chains[l])
      {
        assert old(Linked(table[l], chains[l]));
        forall j | 0 <= j < |chains[l]|
          ensures chains[l][j].next == Nth(chains[l], j + 1)
        {
          assert chains[l][j] in chains[l];
          assert chains[l][j] !in chains[i];
        }
      }
    }

    /** The outer rehash loop over the old buckets. */
    method Rehash(target: array<Node?<V>>) returns (ghost cs: seq<seq<Node<V>>>)
      requires Shape() && target != table && 0 < target.Length
      requires forall b :: 0 <= b < target.Length ==> target[b] == null
      modifies target, members`next
      ensures |cs| == target.Length && Arranged(cs, members, hash)
      ensures forall b :: 0 <= b < |cs| ==> Linked(target[b], cs[b])
    {
      hide Arranged, Linked, IsPow2;
      cs := seq(target.Length, _ => []);
      ghost var done: set<Node<V>> := {};
      ArrangedNonempty(chains, members, hash);
      EmptyBuckets(cs, hash, target);
      for i := 0 to size
        invariant target.Length == |cs| && Arranged(cs, done, hash)
        invariant forall b :: 0 <= b < |cs| ==> Linked(target[b], cs[b])
        invariant forall l :: i <= l < size ==> Linked(table[l], chains[l])
        invariant done == Earlier(members, hash, size, i)
      {
        ChainsApart(chains, members, hash, i);
        ChainMembers(chains, members, hash, i);
        EarlierStep(chains, members, hash, i);
        cs, done := MoveBucket(i, target, cs, done);
      }
      assert Earlier(members, hash, size, size) == members;
    }

    /** `ht_resize`: every node is rehashed into a fresh table; the map stays. */
    method Resize(newSize: nat)
      requires Valid() && IsPow2(newSize)
      modifies this`table, this`size, this`sizemask, this`chains, members`next
      ensures Valid() && size == newSize && fresh(table)
    {
      hide Arranged, Stands, Linked;
      Pow2Positive(newSize);
      var target := new Node?<V>[newSize](_ => null);
      ghost var cs := Rehash(target);
      table := target;
      size := newSize;
      sizemask := newSize - 1;
      chains := cs;
    }

    /** `ht_set_str` and `ht_set_i64`: insert or overwrite, doubling when the load passes 3/4. */
    method Put(key: Key, val: V)
      requires Valid() && Loaded()
      modifies this, table, members
      ensures Valid() && Loaded() && model == old(model)[key := val]
      ensures size == if key !in old(model) && 4 * (|old(model)| + 1) > 3 * old(size) then 2 * old(size) else old(size)
      ensures fresh(Repr() - old(Repr()))
    {
      hide Shape, Stands;
      ghost var i, j;
      var entry;
      entry, i, j := Find(key);
      if entry != null {
        Overwrite(entry, val);
        SameSize(old(model), key, val);
        return;
      }
      Insert(key, val);
      if 4 * used > 3 * size {
        SizeDoubles();
        Resize(2 * size);
      }
    }

    /** The pointers of chain `i`. */
    lemma Pointers(i: nat)
      requires Valid() && i < size
      ensures size == |chains| == table.Length && Linked(table[i], chains[i])
    {}

    lemma OnePosition(i: nat, j: nat, a: nat, b: nat)
      requires Valid() && i < |chains| && j < |chains[i]| && a < |chains| && b < |chains[a]|
      requires chains[i][j].key == chains[a][b].key
      ensures i == a && j == b
    {
      hide Arranged, Stands;
      OnePlace(chains, members, model, hash, i, j, a, b);
    }

    lemma SizeIsChains()
      requires Valid()
      ensures size == |chains| == table.Length
    {}

    lemma SizeDoubles()
      requires Valid()
      ensures IsPow2(2 * size) && 0 < size
    {
      hide Arranged, Stands, Linked;
      var k: nat :| size == Pow2(k);
      assert 2 * size == Pow2(k + 1);
    }

    /** `ht_get_str`, `ht_get_i64` */
    method Get(key: Key) returns (v: Option<V>)
      requires Valid()
      ensures v == if key in model then Some(model[key]) else None
    {
      ghost var i, j;
      var entry;
      entry, i, j := Find(key);
      v := if entry == null then None else Some(entry.val);
    }

    /** The bucket of every key, by mask or by remainder. */
    lemma BucketIsRemainder(key: Key)
      requires Valid()
      ensures 0 < size && Slot(hash, key, size) == hash(key) % size
    {
      hide Arranged, Stands, Linked, BitAnd;
      var k: nat :| size == Pow2(k);
      MaskIsModulo(hash(key), k);
    }
  }

  lemma AbsentFromChain<V>(cs: seq<seq<Node<V>>>, members: set<Node<V>>, m: map<Key, V>, hash: Key -> nat, key: Key)
    requires Arranged(cs, members, hash) && Stands(members, m)
    requires forall l :: 0 <= l < |cs[Slot(hash, key, |cs|)]| ==> cs[Slot(hash, key, |cs|)][l].key != key
    ensures key !in m
  {}

  lemma InChain<V>(cs: seq<seq<Node<V>>>, members: set<Node<V>>, m: map<Key, V>, hash: Key -> nat, i: nat, j: nat)
    requires Arranged(cs, members, hash) && Stands(members, m) && i < |cs| && j < |cs[i]|
    ensures cs[i][j] in members && cs[i][j].key in m && m[cs[i][j].key] == cs[i][j].val
    ensures Slot(hash, cs[i][j].key, |cs|) == i
  {
    assert cs[i][j] in cs[i];
  }

  lemma EmptyTable<V>(hash: Key -> nat)
    ensures Arranged<V>([[], [], [], []], {}, hash) && Stands<V>({}, map[]) && IsPow2(4)
  {
    assert Pow2(2) == 4;
  }

  // ----- Adding and removing one node

  lemma PushArranged<V>(cs: seq<seq<Node<V>>>, members: set<Node<V>>, hash: Key -> nat, n: Node<V>, i: nat)
    requires Arranged(cs, members, hash) && n !in members && i == Slot(hash, n.key, |cs|)
    ensures Arranged(cs[i := [n] + cs[i]], members + {n}, hash)
  {
    var c, cs' := cs[i], cs[i := [n] + cs[i]];
    assert n !in c;
    assert forall o :: o in [n] + c <==> o == n || o in c;
    assert Distinct([n] + c);
  }

  lemma NotInChains<V>(cs: seq<seq<Node<V>>>, members: set<Node<V>>, hash: Key -> nat, n: Node<V>)
    requires Arranged(cs, members, hash) && n !in members
    ensures forall i :: 0 <= i < |cs| ==> n !in cs[i]
  {}

  lemma PushLinked<V>(head: Node?<V>, c: seq<Node<V>>, n: Node<V>)
    requires Linked(head, c) && n !in c && n.next == head
    ensures Linked(n, [n] + c)
  {}

  lemma AddSize<V>(m: map<Key, V>, k: Key, v: V)
    requires k !in m
    ensures |m[k := v]| == |m| + 1
  {
    assert m[k := v].Keys == m.Keys + {k};
  }

  lemma AddStands<V>(members: set<Node<V>>, m: map<Key, V>, n: Node<V>)
    requires Stands(members, m) && n.key !in m
    ensures n !in members
    ensures Stands(members + {n}, m[n.key := n.val])
  {
    var m', all := m[n.key := n.val], members + {n};
    assert n in all && m'[n.key] == n.val;
    forall k | k in m
      ensures exists o :: o in all && o.key == k
    {
      var o :| o in members && o.key == k;
      assert o in all;
    }
  }

  lemma CutArranged<V>(cs: seq<seq<Node<V>>>, members: set<Node<V>>, hash: Key -> nat, i: nat, j: nat)
    requires Arranged(cs, members, hash) && i < |cs| && j < |cs[i]|
    ensures Arranged(cs[i := cs[i][..j] + cs[i][j + 1..]], members - {cs[i][j]}, hash)
  {
    var c, n := cs[i], cs[i][j];
    var d := c[..j] + c[j + 1..];
    assert n in c && Slot(hash, n.key, |cs|) == i;
    CutChain(c, j);
    var cs' := cs[i := d];
    forall o | o in members - {n}
      ensures o in cs'[Slot(hash, o.key, |cs'|)]
    {
      assert o in cs[Slot(hash, o.key, |cs|)];
    }
    forall l, o | 0 <= l < |cs'| && o in cs'[l]
      ensures o in members - {n} && Slot(hash, o.key, |cs'|) == l
    {
      assert o in cs[l];
    }
  }

  lemma CutChain<V>(c: seq<Node<V>>, j: nat)
    requires Distinct(c) && j < |c|
    ensures var d := c[..j] + c[j + 1..];
            Distinct(d) && forall o :: o in d <==> o in c && o != c[j]
  {
    var d := c[..j] + c[j + 1..];
    forall o
      ensures o in d <==> o in c && o != c[j]
    {
      if o in c && o != c[j] {
        var l :| 0 <= l < |c| && c[l] == o;
        assert d[if l < j then l else l - 1] == o;
      }
      if o in d {
        var l :| 0 <= l < |d| && d[l] == o;
        assert c[if l < j then l else l + 1] == o;
      }
    }
  }

  /** No node of one chain is in another. */
  lemma ChainsApart<V>(cs: seq<seq<Node<V>>>, members: set<Node<V>>, hash: Key -> nat, i: nat)
    requires Arranged(cs, members, hash) && i < |cs|
    ensures Distinct(cs[i])
    ensures forall l :: 0 <= l < |cs| && l != i ==> forall n :: n in cs[l] ==> n !in cs[i]
  {
    forall l, n | 0 <= l < |cs| && l != i && n in cs[l]
      ensures n !in cs[i]
    {
      assert Slot(hash, n.key, |cs|) == l;
    }
  }

  /** The nodes whose bucket in a table of `size` buckets comes before bucket `i`. */
  ghost function Earlier<V>(members: set<Node<V>>, hash: Key -> nat, size: nat, i: nat): (r: set<Node<V>>)
    requires 0 < size
  {
    set n | n in members && Slot(hash, n.key, size) < i
  }

  lemma EarlierStep<V>(cs: seq<seq<Node<V>>>, members: set<Node<V>>, hash: Key -> nat, i: nat)
    requires Arranged(cs, members, hash) && i < |cs|
    ensures forall n :: n in cs[i] ==> n !in Earlier(members, hash, |cs|, i)
    ensures Earlier(members, hash, |cs|, i + 1) == Earlier(members, hash, |cs|, i) + NodesOf(cs[i])
  {}

  lemma EmptyBuckets<V>(cs: seq<seq<Node<V>>>, hash: Key -> nat, target: array<Node?<V>>)
    requires 0 < |cs| == target.Length
    requires forall i :: 0 <= i < |cs| ==> cs[i] == [] && target[i] == null
    ensures Arranged<V>(cs, {}, hash)
    ensures forall i :: 0 <= i < |cs| ==> Linked(target[i], cs[i])
  {}

  lemma SameSize<V>(m: map<Key, V>, k: Key, v: V)
    requires k in m
    ensures |m[k := v]| == |m|
  {
    assert m[k := v].Keys == m.Keys;
  }

  lemma Pow2Positive(n: nat)
    requires IsPow2(n)
    ensures 0 < n
  {}

  lemma ArrangedNonempty<V>(cs: seq<seq<Node<V>>>, members: set<Node<V>>, hash: Key -> nat)
    requires Arranged(cs, members, hash)
    ensures 0 < |cs|
  {}

  lemma ChainMembers<V>(cs: seq<seq<Node<V>>>, members: set<Node<V>>, hash: Key -> nat, i: nat)
    requires Arranged(cs, members, hash) && i < |cs|
    ensures forall n :: n in cs[i] ==> n in members
  {}

  /** The chain without position `j`, once the node before it points past it. */
  lemma CutLinked<V>(head: Node?<V>, c: seq<Node<V>>, d: seq<Node<V>>, j: nat)
    requires j < |c| && d == c[..j] + c[j + 1..]
    requires forall l :: 0 <= l < |c| && l != j - 1 ==> c[l].next == Nth(c, l + 1)
    requires if j == 0 then head == Nth(c, 1) else head == c[0] && c[j - 1].next == Nth(c, j + 1)
    ensures Linked(head, d)
  {}

  lemma DropStands<V>(members: set<Node<V>>, m: map<Key, V>, n: Node<V>)
    requires Stands(members, m) && n in members
    ensures Stands(members - {n}, m - {n.key})
    ensures |m - {n.key}| == |m| - 1
  {
    assert (m - {n.key}).Keys == m.Keys - {n.key};
    forall k | k in m - {n.key}
      ensures exists o :: o in members - {n} && o.key == k
    {
      var o :| o in members && o.key == k;
      assert o in members - {n};
    }
  }

  /** A key has one place. */
  lemma OnePlace<V>(
    cs: seq<seq<Node<V>>>, members: set<Node<V>>, m: map<Key, V>, hash: Key -> nat, i: nat, j: nat, a: nat, b: nat)
    requires Arranged(cs, members, hash) && Stands(members, m)
    requires i < |cs| && j < |cs[i]| && a < |cs| && b < |cs[a]| && cs[i][j].key == cs[a][b].key
    ensures i == a && j == b
  {
    assert cs[i][j] in cs[i] && cs[a][b] in cs[a];
    assert cs[i][j] == cs[a][b];
  }

  // ----- Iteration

  /** All nodes in visiting order: bucket by bucket, along each chain. */
  ghost function Flat<V>(cs: seq<seq<Node<V>>>): (s: seq<Node<V>>) {
    if cs == [] then [] else Flat(cs[..|cs| - 1]) + cs[|cs| - 1]
  }

  lemma FlatNothing<V>(cs: seq<seq<Node<V>>>)
    requires cs == []
    ensures Flat(cs) == []
  {}

  lemma {:induction false} FlatAt<V>(cs: seq<seq<Node<V>>>, i: nat)
    requires i < |cs|
    ensures |Flat(cs[..i])| + |cs[i]| == |Flat(cs[..i + 1])| <= |Flat(cs)|
    ensures forall j :: 0 <= j < |cs[i]| ==> Flat(cs)[|Flat(cs[..i])| + j] == cs[i][j]
    decreases |cs|
  {
    var last := |cs| - 1;
    assert cs[..i + 1][..i] == cs[..i];
    if i < last {
      FlatAt(cs[..last], i);
      assert cs[..last][..i] == cs[..i] && cs[..last][..i + 1] == cs[..i + 1];
    } else {
      assert cs[..i + 1] == cs;
    }
  }

  lemma {:induction false} FlatElements<V>(cs: seq<seq<Node<V>>>, n: Node<V>)
    ensures n in Flat(cs) <==> exists i :: 0 <= i < |cs| && n in cs[i]
  {
    if cs != [] {
      var last := |cs| - 1;
      FlatElements(cs[..last], n);
      if n in Flat(cs) && n !in cs[last] {
        var i :| 0 <= i < last && n in cs[..last][i];
        assert n in cs[i];
      }
      if i :| 0 <= i < |cs| && n in cs[i] {
        assert i < last ==> n in cs[..last][i];
      }
    }
  }

  lemma {:induction false} FlatDistinct<V>(cs: seq<seq<Node<V>>>)
    requires forall i :: 0 <= i < |cs| ==> Distinct(cs[i])
    requires forall i, l, n :: 0 <= i < l < |cs| && n in cs[i] ==> n !in cs[l]
    ensures Distinct(Flat(cs))
  {
    if cs != [] {
      var last := |cs| - 1;
      FlatDistinct(cs[..last]);
      forall n | n in Flat(cs[..last])
        ensures n !in cs[last]
      {
        FlatElements(cs[..last], n);
      }
      DistinctConcat(Flat(cs[..last]), cs[last]);
    }
  }

  lemma DistinctConcat<V>(a: seq<Node<V>>, b: seq<Node<V>>)
    requires Distinct(a) && Distinct(b) && forall n :: n in a ==> n !in b
    ensures Distinct(a + b)
  {
    forall i, j | 0 <= i < j < |a + b|
      ensures (a + b)[i] != (a + b)[j]
    {
      if i < |a| <= j {
        assert (a + b)[i] in a && (a + b)[j] in b;
      }
    }
  }

  lemma {:induction false} FlatWithin<V>(cs: seq<seq<Node<V>>>, members: set<Node<V>>)
    requires forall i, j :: 0 <= i < |cs| && 0 <= j < |cs[i]| ==> cs[i][j] in members
    ensures forall i :: 0 <= i < |Flat(cs)| ==> Flat(cs)[i] in members
  {
    if cs != [] {
      FlatWithin(cs[..|cs| - 1], members);
    }
  }

  /** The visiting order contains every node of the table exactly once. */
  lemma FlatIsMembers<V>(cs: seq<seq<Node<V>>>, members: set<Node<V>>, hash: Key -> nat)
    requires Arranged(cs, members, hash)
    ensures Distinct(Flat(cs)) && forall n :: n in Flat(cs) <==> n in members
    ensures forall i :: 0 <= i < |Flat(cs)| ==> Flat(cs)[i] in members
  {
    hide Slot;
    forall i, l, n | 0 <= i < l < |cs| && n in cs[i]
      ensures n !in cs[l]
    {
      assert Slot(hash, n.key, |cs|) == i;
    }
    FlatDistinct(cs);
    FlatWithin(cs, members) by {
      forall i, j | 0 <= i < |cs| && 0 <= j < |cs[i]|
        ensures cs[i][j] in members
      {
        assert cs[i][j] in cs[i];
      }
    }
    forall n
      ensures n in Flat(cs) <==> n in members
    {
      FlatElements(cs, n);
    }
  }

  class Cursor<V> {
    const ht: Table<V>
    var index: int
    var entry: Node?<V>
    var nextEntry: Node?<V>
    /** How many nodes have been handed out, and the position of `entry` in its chain */
    ghost var yielded: nat
    ghost var at: nat

    ghost predicate Valid()
      reads this, ht, ht.table, ht.members
    {
      && ht.Valid() && -1 <= index
      && (entry != null ==>
            && 0 <= index < |ht.chains| && at < |ht.chains[index]| && entry == ht.chains[index][at]
            && nextEntry == Nth(ht.chains[index], at + 1)
            && yielded == |Flat(ht.chains[..index])| + at + 1)
      && (entry == null ==>
            yielded == |Flat(ht.chains[..if index < |ht.chains| then index + 1 else |ht.chains|])|)
    }

    /** `ht_iter_create` */
    constructor (ht: Table<V>)
      requires ht.Valid()
      ensures Valid() && this.ht == ht && yielded == 0
    {
      this.ht := ht;
      index := -1;
      entry, nextEntry := null, null;
      yielded, at := 0, 0;
      new;
      hide Table.Valid, Flat;
      FlatNothing(ht.chains[..0]);
    }

    /** The next candidate, as the loop body of `ht_iter_next` finds it. */
    method Advance() returns (end: bool)
      requires Valid()
      modifies this`index, this`entry, this`at
      ensures index == if old(entry) == null then old(index) + 1 else old(index)
      ensures end <==> old(entry) == null && index >= |ht.chains|
      ensures end ==> entry == null && yielded == |Flat(ht.chains)|
      ensures end || entry == null ==> Valid()
      ensures !end ==> 0 <= index < |ht.chains| && entry == Nth(ht.chains[index], at)
      ensures !end ==> at <= |ht.chains[index]| && yielded == |Flat(ht.chains[..index])| + at
    {
      hide Table.Valid, Flat;
      ht.SizeIsChains();
      if entry == null {
        index := index + 1;
        if index >= ht.size {
          assert ht.chains[..|ht.chains|] == ht.chains;
          return true;
        }
        at := 0;
        entry := ht.table[index];
        ht.Pointers(index);
      } else {
        entry := nextEntry;
        at := at + 1;
      }
      end := false;
      FlatAt(ht.chains, index);
    }

    /** The entry found is handed out, its successor saved. */
    method HandOut()
      requires ht.Valid() && entry != null && 0 <= index < |ht.chains| && at < |ht.chains[index]|
      requires entry == ht.chains[index][at] && yielded == |Flat(ht.chains[..index])| + at
      modifies this`nextEntry, this`yielded
      ensures Valid() && yielded == old(yielded) + 1 <= |Flat(ht.chains)| && entry == Flat(ht.chains)[old(yielded)]
    {
      hide Table.Valid, Flat;
      FlatAt(ht.chains, index);
      ht.SizeIsChains();
      ht.Pointers(index);
      nextEntry := entry.next;
      yielded := yielded + 1;
    }

    /** `ht_iter_next`: on an unchanged table the calls hand out the visiting order one by one, and then
        only null. */
    method Next() returns (e: Node?<V>)
      requires Valid()
      modifies this
      ensures Valid()
      ensures var order := Flat(ht.chains);
              if old(yielded) < |order| then e == order[old(yielded)] && yielded == old(yielded) + 1
              else e == null && yielded == old(yielded) == |order|
    {
      hide Table.Valid, Flat;
      while true
        invariant Valid() && yielded == old(yielded)
        decreases if index < |ht.chains| then |ht.chains| - index else 0, entry != null
      {
        var end := Advance();
        if end {
          return null;
        }
        if entry != null {
          HandOut();
          return entry;
        }
      }
    }
  }
}
