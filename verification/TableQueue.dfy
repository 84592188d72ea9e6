/**
  Serialising DML on a table: a map of FIFO queues of transaction ids, one mutex and one
  condition variable for all tables. The functions are the critical sections; the class runs
  them on the shared map, with the loops of iterable_queue.
 */
module TableQueue {
  type Queues = map<nat, seq<nat>>

  datatype Outcome = Outcome(queues: Queues, go: bool)

  function IndexOf(q: seq<nat>, txn: nat): (i: nat)
    ensures i <= |q| && (i < |q| ==> q[i] == txn) && txn !in q[..i]
    ensures i == |q| <==> txn !in q
  {
    if q == [] then 0 else if q[0] == txn then 0 else 1 + IndexOf(q[1..], txn)
  }

  /** The queue without the first occurrence of a transaction. */
  function Without(q: seq<nat>, txn: nat): (r: seq<nat>) {
    var i := IndexOf(q, txn);
    if i < |q| then q[..i] + q[i + 1..] else q
  }

  /** Entry into synchTableAccess: go on as the first or the same transaction, or join the queue. */
  function Enter(qs: Queues, oid: nat, txn: nat): (r: Outcome)
    requires oid in qs ==> qs[oid] != []
  {
    if oid !in qs then Outcome(qs[oid := [txn]], true)
    else if qs[oid][0] == txn then Outcome(qs, true)
    else Outcome(qs[oid := qs[oid] + [txn]], false)
  }

  /** After a wake-up: go on at the head of the queue, or when no longer in it. */
  predicate Recheck(qs: Queues, oid: nat, txn: nat)
    requires oid in qs && qs[oid] != []
  {
    qs[oid][0] == txn || txn !in qs[oid]
  }

  /** releaseTableAccess: the head leaves, an empty queue is erased; `go` tells of the notification. */
  function Leave(qs: Queues, oid: nat, txn: nat): (r: Outcome)
    requires oid in qs ==> qs[oid] != []
  {
    if oid == 0 || oid !in qs then Outcome(qs, false)
    else if qs[oid][0] != txn then Outcome(qs, true)
    else if |qs[oid]| == 1 then Outcome(qs - {oid}, true)
    else Outcome(qs[oid := qs[oid][1..]], true)
  }

  /** forceReleaseTableAccess: out of the queue, wherever in it. */
  function Force(qs: Queues, oid: nat, txn: nat): (r: Outcome) {
    if oid == 0 || oid !in qs then Outcome(qs, false) else Outcome(qs[oid := Without(qs[oid], txn)], true)
  }

  // What each section does to its own table, and that it leaves the others alone.

  function Listed(qs: Queues, oid: nat): (q: seq<nat>) {
    if oid in qs then qs[oid] else []
  }

  ghost predicate OthersStay(qs: Queues, qs': Queues, oid: nat) {
    forall o :: o != oid ==> (o in qs <==> o in qs') && (o in qs ==> qs'[o] == qs[o])
  }

  /**
    Entering: whoever heads the table goes on and nobody else; a transaction that does not head it
    joins at the end, once more if it is waiting already.
   */
  lemma EnterLaw(qs: Queues, oid: nat, txn: nat)
    requires oid in qs ==> qs[oid] != []
    ensures var r, q := Enter(qs, oid, txn), Listed(qs, oid);
      var q' := Listed(r.queues, oid);
      && OthersStay(qs, r.queues, oid) && q <= q' && q' != [] && (r.go <==> q'[0] == txn)
      && multiset(q')[txn] == multiset(q)[txn] + (if q != [] && q[0] == txn then 0 else 1)
      && (forall t :: t != txn ==> multiset(q')[t] == multiset(q)[t])
  {
    var q := Listed(qs, oid);
    assert multiset(q + [txn]) == multiset(q) + multiset{txn};
  }

  /** Those of a queue that are not `txn`, in order. */
  function Except(q: seq<nat>, txn: nat): (r: seq<nat>) {
    if q == [] then [] else (if q[0] == txn then [] else [q[0]]) + Except(q[1..], txn)
  }

  lemma {:induction false} ExceptJoins(a: seq<nat>, b: seq<nat>, txn: nat)
    ensures Except(a + b, txn) == Except(a, txn) + Except(b, txn)
  {
    if a == [] {
      assert a + b == b;
    } else {
      assert (a + b)[1..] == a[1..] + b;
      ExceptJoins(a[1..], b, txn);
    }
  }

  lemma WithoutLaw(q: seq<nat>, txn: nat)
    ensures multiset(Without(q, txn)) == multiset(q) - multiset{txn}
    ensures Except(Without(q, txn), txn) == Except(q, txn)
  {
    hide Except;
    var i := IndexOf(q, txn);
    if i < |q| {
      assert q == q[..i] + ([txn] + q[i + 1..]);
      OneOut(q[..i], txn, q[i + 1..]);
    } else {
      assert multiset(q)[txn] == 0;
    }
  }

  lemma OneOut(a: seq<nat>, txn: nat, b: seq<nat>)
    ensures multiset(a + b) == multiset(a + ([txn] + b)) - multiset{txn}
    ensures Except(a + b, txn) == Except(a + ([txn] + b), txn)
  {
    hide Except;
    assert multiset(a + ([txn] + b)) == multiset(a) + multiset{txn} + multiset(b);
    ExceptJoins(a, b, txn);
    ExceptJoins(a, [txn] + b, txn);
    ExceptHead(txn, b);
  }

  lemma ExceptHead(txn: nat, b: seq<nat>)
    ensures Except([txn] + b, txn) == Except(b, txn)
  {
    assert ([txn] + b)[1..] == b;
  }

  /**
    A forced release takes the transaction out once, wherever it stands, and keeps the order of the
    others. It never erases the table: of the last one listed, an empty queue stays behind.
   */
  lemma ForceLaw(qs: Queues, oid: nat, txn: nat)
    requires oid != 0 && oid in qs
    ensures var r := Force(qs, oid, txn);
      && r.go && OthersStay(qs, r.queues, oid) && oid in r.queues
      && multiset(r.queues[oid]) == multiset(qs[oid]) - multiset{txn}
      && Except(r.queues[oid], txn) == Except(qs[oid], txn)
      && (r.queues[oid] == [] <==> qs[oid] == [] || qs[oid] == [txn])
  {
    WithoutLaw(qs[oid], txn);
    assert |multiset(qs[oid])| == |qs[oid]|;
    if |qs[oid]| == 1 { assert qs[oid] == [qs[oid][0]]; }
  }

  /** A release takes its own place at the head and nothing else; only an empty queue is erased. */
  lemma LeaveLaw(qs: Queues, oid: nat, txn: nat)
    requires oid in qs ==> qs[oid] != []
    ensures var r, q := Leave(qs, oid, txn), Listed(qs, oid);
      && OthersStay(qs, r.queues, oid) && (r.go <==> oid != 0 && q != [])
      && q == (if oid != 0 && q != [] && q[0] == txn then [txn] else []) + Listed(r.queues, oid)
      && (oid in r.queues <==> Listed(r.queues, oid) != [])
  {
  }

  /** iterable_queue: a queue that can be searched and erased from. */
  class IterableQueue {
    var c: seq<nat>

    constructor (items: seq<nat>)
      ensures c == items
    {
      c := items;
    }

    method Find(t: nat) returns (it: nat)
      ensures it == IndexOf(c, t)
    {
      it := 0;
      while it < |c|
        invariant 0 <= it <= |c|
        invariant IndexOf(c, t) == it + IndexOf(c[it..], t)
      {
        if c[it] == t {
          break;
        }
        assert c[it..][1..] == c[it + 1..];
        it := it + 1;
      }
    }

    method Erase(t: nat)
      modifies this
      ensures c == Without(old(c), t)
    {
      var it := Find(t);
      if it < |c| {
        c := c[..it] + c[it + 1..];
      }
    }
  }

  /** The static members of PackageHandler; every method is one critical section. */
  class TableAccess {
    var tableOidMap: Queues

    method Synch(oid: nat, txn: nat) returns (working: bool)
      requires oid in tableOidMap ==> tableOidMap[oid] != []
      modifies this
      ensures Outcome(tableOidMap, working) == Enter(old(tableOidMap), oid, txn)
    {
      if oid in tableOidMap {
        if txn == tableOidMap[oid][0] {
          return true;
        }
        tableOidMap := tableOidMap[oid := tableOidMap[oid] + [txn]];
        working := false;
      } else {
        tableOidMap := tableOidMap[oid := [txn]];
        working := true;
      }
    }

    method Woken(oid: nat, txn: nat) returns (working: bool)
      requires oid in tableOidMap && tableOidMap[oid] != []
      ensures working == Recheck(tableOidMap, oid, txn)
    {
      if tableOidMap[oid][0] == txn {
        return true;
      }
      var queue := new IterableQueue(tableOidMap[oid]);
      var it := queue.Find(txn);
      working := it == |queue.c|;
    }

    method Release(oid: nat, txn: nat) returns (notified: bool)
      requires oid in tableOidMap ==> tableOidMap[oid] != []
      modifies this
      ensures Outcome(tableOidMap, notified) == Leave(old(tableOidMap), oid, txn)
    {
      if oid == 0 || oid !in tableOidMap {
        return false;
      }
      if tableOidMap[oid][0] == txn {
        var queue := tableOidMap[oid][1..];
        if queue == [] {
          tableOidMap := tableOidMap - {oid};
        } else {
          tableOidMap := tableOidMap[oid := queue];
        }
      }
      notified := true;
    }

    method ForceRelease(oid: nat, txn: nat) returns (notified: bool)
      modifies this
      ensures Outcome(tableOidMap, notified) == Force(old(tableOidMap), oid, txn)
    {
      if oid == 0 || oid !in tableOidMap {
        return false;
      }
      var queue := new IterableQueue(tableOidMap[oid]);
      queue.Erase(txn);
      tableOidMap := tableOidMap[oid := queue.c];
      notified := true;
    }
  }
}
