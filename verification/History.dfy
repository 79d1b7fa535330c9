/** What the tables hold, told from the log alone: the last writes, whatever the operations do inside. */
module History {

  import opened Store
  import opened Log
  import opened Expiry

  // ----- The last write of a key

  /** Record `i` gives `k` its value: a SET or SETEX with no other and no DEL after it. */
  ghost predicate GivesValue(log: seq<Record>, i: nat, k: Key) {
    && i < |log| && log[i].key == k && log[i].op in {OpSet, OpSetex}
    && forall j :: i < j < |log| && log[j].key == k ==> log[j].op !in {OpSet, OpSetex, OpDel}
  }

  /** A record that sets a deadline: a SETEX or EXPIRE with a positive one. */
  predicate Dates(r: Record) {
    r.op in {OpSetex, OpExpire} && 0 < r.expireAt
  }

  /** Record `i` gives `k` its deadline: no other does after it, and no DEL or PERSIST takes it away. */
  ghost predicate GivesDeadline(log: seq<Record>, i: nat, k: Key) {
    && i < |log| && log[i].key == k && Dates(log[i])
    && forall j :: i < j < |log| && log[j].key == k ==> !Dates(log[j]) && log[j].op !in {OpDel, OpPersist}
  }

  /** Key `k` is in the tables exactly as the last writes of it say. */
  ghost predicate ToldByLog(log: seq<Record>, t: Tables, k: Key) {
    && (k in t.keyspace <==> exists i: nat :: GivesValue(log, i, k))
    && (forall i: nat :: GivesValue(log, i, k) ==> k in t.keyspace && t.keyspace[k] == log[i].value)
    && (k in t.expires <==> exists i: nat :: GivesDeadline(log, i, k))
    && (forall i: nat :: GivesDeadline(log, i, k) ==> k in t.expires && t.expires[k] == log[i].expireAt)
  }

  /** A record that does not touch what gave the key its value leaves that in place. */
  lemma ValueStays(log: seq<Record>, r: Record, i: nat, k: Key)
    requires r.key != k || r.op !in {OpSet, OpSetex, OpDel}
    ensures GivesValue(log + [r], i, k) <==> GivesValue(log, i, k)
  {
    if GivesValue(log, i, k) {
      var more := log + [r];
      assert forall j :: i < j < |more| && more[j].key == k ==> more[j].op !in {OpSet, OpSetex, OpDel};
    }
    if GivesValue(log + [r], i, k) {
      assert i < |log|;
      assert forall j :: i < j < |log| ==> (log + [r])[j] == log[j];
    }
  }

  lemma ValueGoes(log: seq<Record>, r: Record, i: nat, k: Key)
    requires r.key == k && r.op in {OpSet, OpSetex, OpDel}
    ensures GivesValue(log + [r], i, k) <==> i == |log| && r.op != OpDel
  {
    var more := log + [r];
    if i < |log| {
      assert more[|log|] == r;
    }
  }

  lemma DeadlineStays(log: seq<Record>, r: Record, i: nat, k: Key)
    requires r.key != k || (!Dates(r) && r.op !in {OpDel, OpPersist})
    ensures GivesDeadline(log + [r], i, k) <==> GivesDeadline(log, i, k)
  {
    var more := log + [r];
    if GivesDeadline(log, i, k) {
      assert forall j :: i < j < |more| && more[j].key == k ==> !Dates(more[j]) && more[j].op !in {OpDel, OpPersist};
    }
    if GivesDeadline(more, i, k) {
      assert i < |log|;
      assert forall j :: i < j < |log| ==> more[j] == log[j];
    }
  }

  lemma DeadlineGoes(log: seq<Record>, r: Record, i: nat, k: Key)
    requires r.key == k && (Dates(r) || r.op in {OpDel, OpPersist})
    ensures GivesDeadline(log + [r], i, k) <==> i == |log| && Dates(r)
  {
    var more := log + [r];
    if i < |log| {
      assert more[|log|] == r;
    }
  }

  lemma ValueTold(log: seq<Record>, t: Tables, r: Record, k: Key)
    requires ToldByLog(log, t, k) && Apply(t, r).ok
    ensures var u := Apply(t, r).tables;
            && (k in u.keyspace <==> exists i: nat :: GivesValue(log + [r], i, k))
            && (forall i: nat :: GivesValue(log + [r], i, k) ==>
                  k in u.keyspace && u.keyspace[k] == (log + [r])[i].value)
  {
    hide GivesValue, GivesDeadline;
    var more := log + [r];
    forall i: nat
      ensures if r.key == k && r.op in {OpSet, OpSetex, OpDel}
              then GivesValue(more, i, k) <==> i == |log| && r.op != OpDel
              else GivesValue(more, i, k) <==> GivesValue(log, i, k)
      ensures GivesValue(log, i, k) ==> i < |log| && more[i] == log[i]
    {
      if r.key == k && r.op in {OpSet, OpSetex, OpDel} {
        ValueGoes(log, r, i, k);
      } else {
        ValueStays(log, r, i, k);
      }
      ValueWithin(log, i, k);
    }
    if r.key == k && r.op in {OpSet, OpSetex, OpDel} {
      ValueGoes(log, r, |log|, k);
    }
  }

  lemma ValueWithin(log: seq<Record>, i: nat, k: Key)
    ensures GivesValue(log, i, k) ==> i < |log|
    ensures GivesDeadline(log, i, k) ==> i < |log|
  {}

  lemma DeadlineTold(log: seq<Record>, t: Tables, r: Record, k: Key)
    requires ToldByLog(log, t, k) && Apply(t, r).ok
    ensures var u := Apply(t, r).tables;
            && (k in u.expires <==> exists i: nat :: GivesDeadline(log + [r], i, k))
            && (forall i: nat :: GivesDeadline(log + [r], i, k) ==>
                  k in u.expires && u.expires[k] == (log + [r])[i].expireAt)
  {
    hide GivesValue, GivesDeadline;
    var more := log + [r];
    forall i: nat
      ensures if r.key == k && (Dates(r) || r.op in {OpDel, OpPersist})
              then GivesDeadline(more, i, k) <==> i == |log| && Dates(r)
              else GivesDeadline(more, i, k) <==> GivesDeadline(log, i, k)
      ensures GivesDeadline(log, i, k) ==> i < |log| && more[i] == log[i]
    {
      if r.key == k && (Dates(r) || r.op in {OpDel, OpPersist}) {
        DeadlineGoes(log, r, i, k);
      } else {
        DeadlineStays(log, r, i, k);
      }
      ValueWithin(log, i, k);
    }
    if r.key == k && (Dates(r) || r.op in {OpDel, OpPersist}) {
      DeadlineGoes(log, r, |log|, k);
    }
  }

  lemma NothingTold(k: Key)
    ensures ToldByLog([], EMPTY, k)
  {}

  /** After any history that was lived, a key has a value if and only if a SET or SETEX of it comes after its
      last DEL, and then that of the last one; it has a deadline if and only if a SETEX or EXPIRE comes after
      its last DEL or PERSIST, and then that of the last one. */
  lemma {:induction false} LastWritesCount(log: seq<Record>, k: Key)
    requires Live(log).ok
    ensures ToldByLog(log, Live(log).tables, k)
  {
    hide Replay, Apply, ToldByLog;
    if log == [] {
      NothingTold(k);
      NothingLived();
    } else {
      var n := |log| - 1;
      LiveStep(log);
      LastWritesCount(log[..n], k);
      assert log == log[..n] + [log[n]];
      StepTold(log[..n], Live(log[..n]).tables, log[n], k);
    }
  }

  lemma NothingLived()
    ensures Live([]) == Replayed(EMPTY, 0, true)
  {}

  lemma StepTold(log: seq<Record>, t: Tables, r: Record, k: Key)
    requires ToldByLog(log, t, k) && Apply(t, r).ok
    ensures ToldByLog(log + [r], Apply(t, r).tables, k)
  {
    hide GivesValue, GivesDeadline, Apply;
    ValueTold(log, t, r, k);
    DeadlineTold(log, t, r, k);
  }

  /** And the reply says so: SET and SETEX always succeed, DEL if the key has a value, EXPIRE if it has one and
      the deadline is positive, PERSIST if it has a deadline; a command that fails changes nothing. */
  lemma SucceedsIff(log: seq<Record>, r: Record)
    requires Live(log).ok
    ensures Live(log + [r]).ok <==>
            (match r.op
             case OpSet => true
             case OpSetex => true
             case OpDel => exists i: nat :: GivesValue(log, i, r.key)
             case OpExpire => 0 < r.expireAt && exists i: nat :: GivesValue(log, i, r.key)
             case OpPersist => exists i: nat :: GivesDeadline(log, i, r.key))
    ensures !Live(log + [r]).ok ==> Live(log + [r]).tables == Live(log).tables
  {
    hide Replay, GivesValue, GivesDeadline;
    LastWritesCount(log, r.key);
    assert (log + [r])[..|log|] == log;
    LiveStep(log + [r]);
    LiveConsistent(log);
  }

  lemma LiveConsistent(log: seq<Record>)
    ensures Consistent(Live(log).tables)
  {}

  // ----- What a client sees after a command

  /** Commands on one key do not show on another. */
  lemma OthersUnchanged(t: Tables, r: Record, k: Key, now: int)
    requires r.key != k
    ensures GetAnswer(Apply(t, r).tables, k, now) == GetAnswer(t, k, now)
    ensures TtlAnswer(Apply(t, r).tables, k, now) == TtlAnswer(t, k, now)
  {}

  /** After a successful command on a key that was not past its deadline, GET and TTL answer what it said. */
  lemma CommandSeen(t: Tables, r: Record, now: int)
    requires Consistent(t) && Apply(t, r).ok && !Dead(t, r.key, now) && (0 < r.expireAt ==> now <= r.expireAt)
    ensures var u, k := Apply(t, r).tables, r.key;
            match r.op
            case OpSet =>
              && GetAnswer(u, k, now) == Some(r.value)
              && TtlAnswer(u, k, now) == (if GetAnswer(t, k, now) == None then -1 else TtlAnswer(t, k, now))
            case OpSetex =>
              && GetAnswer(u, k, now) == Some(r.value)
              && (0 < r.expireAt ==> TtlAnswer(u, k, now) == (r.expireAt - now) / 1000)
            case OpDel => GetAnswer(t, k, now) != None && GetAnswer(u, k, now) == None && TtlAnswer(u, k, now) == -2
            case OpExpire =>
              && GetAnswer(t, k, now) != None && GetAnswer(u, k, now) == GetAnswer(t, k, now)
              && TtlAnswer(u, k, now) == (r.expireAt - now) / 1000
            case OpPersist =>
              && TtlAnswer(t, k, now) >= 0 && GetAnswer(u, k, now) == GetAnswer(t, k, now)
              && TtlAnswer(u, k, now) == -1
  {}

  /** The last instant of a deadline is part of it. */
  lemma DeadlineIncluded(t: Tables, k: Key, now: int)
    requires Consistent(t)
    ensures GetAnswer(t, k, now) != None <==> k in t.keyspace && (k in t.expires ==> now <= t.expires[k])
  {}
}
