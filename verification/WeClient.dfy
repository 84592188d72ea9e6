/**
  The client side of the write-engine servers: one connection for each PM, whose answers come back
  in the order the PM was asked, and one reply queue for each unique id. Who was asked what, and
  what came back, is a log of events.
 */
module WeClient {
  import opened Wrappers

  /** The two messages of a bulk rollback, that of a transaction rollback, the two of a batch rollback. */
  datatype Phase = Undo | CleanUp | Blocks | Batch | Meta

  /** What was asked of a PM for the lock with number `lock`. */
  datatype Request = Request(lock: nat, phase: Phase, pm: nat)

  datatype Event =
    | Told(to: Request)
    | Heard(rc: nat, from: Request)
    | HeardNothing
    | Discarded(from: Request)   // an answer that came while no reply queue was registered
    | StateChanged
    | ReleaseCalled
    | TxnUndone(txnRc: int)
    | BatchUndone
    | SessionCleared
    | ReadOnlySet

  /** The PM's oldest unanswered request. */
  function Oldest(owed: seq<Request>, pm: nat): (q: Option<Request>) {
    if owed == [] then None
    else if owed[0].pm == pm then Some(owed[0])
    else Oldest(owed[1..], pm)
  }

  lemma {:induction false} OldestIn(owed: seq<Request>, pm: nat)
    ensures Oldest(owed, pm).Some? ==> Oldest(owed, pm).value in owed && Oldest(owed, pm).value.pm == pm
  {
    if owed != [] && owed[0].pm != pm {
      OldestIn(owed[1..], pm);
    }
  }

  lemma {:induction false} OwesNothing(owed: seq<Request>, pm: nat)
    requires forall q :: q in owed ==> q.pm != pm
    ensures Oldest(owed, pm).None?
  {
    if owed != [] {
      assert owed[0] in owed;
      OwesNothing(owed[1..], pm);
    }
  }

  /** What is owed once a PM's oldest request is answered. */
  function Settle(owed: seq<Request>, pm: nat): (rest: seq<Request>) {
    if owed == [] then []
    else if owed[0].pm == pm then owed[1..]
    else [owed[0]] + Settle(owed[1..], pm)
  }

  lemma {:induction false} SettleKeeps(owed: seq<Request>, pm: nat, q: Request)
    requires q in Settle(owed, pm)
    ensures q in owed
  {
    assert owed == [owed[0]] + owed[1..];
    if owed[0].pm != pm && q != owed[0] {
      SettleKeeps(owed[1..], pm, q);
    }
  }

  function OwedAfter(owed: seq<Request>, e: Event): (rest: seq<Request>) {
    match e
    case Told(q) => owed + [q]
    case Heard(_, q) => Settle(owed, q.pm)
    case Discarded(q) => Settle(owed, q.pm)
    case _ => owed
  }

  function Owed(owed: seq<Request>, log: seq<Event>): (rest: seq<Request>)
    decreases |log|
  {
    if log == [] then owed else Owed(OwedAfter(owed, log[0]), log[1..])
  }

  predicate Possible(owed: seq<Request>, e: Event) {
    (e.Heard? || e.Discarded?) ==> Oldest(owed, e.from.pm) == Some(e.from)
  }

  /** Every answer in the log is that to its PM's oldest unanswered request. */
  predicate Plausible(owed: seq<Request>, log: seq<Event>)
    decreases |log|
  {
    log == [] || (Possible(owed, log[0]) && Plausible(OwedAfter(owed, log[0]), log[1..]))
  }

  lemma {:induction false} OwedJoins(owed: seq<Request>, a: seq<Event>, b: seq<Event>)
    ensures Owed(owed, a + b) == Owed(Owed(owed, a), b)
    ensures Plausible(owed, a + b) <==> Plausible(owed, a) && Plausible(Owed(owed, a), b)
    decreases |a|
  {
    if a == [] {
      assert a + b == b;
    } else {
      assert (a + b)[1..] == a[1..] + b;
      OwedJoins(OwedAfter(owed, a[0]), a[1..], b);
    }
  }

  /** Answers of a PM that owes nothing before `rest` leave what stands before `rest` alone. */
  lemma {:induction false} SettleBehind(base: seq<Request>, rest: seq<Request>, pm: nat)
    requires Oldest(base, pm).None?
    ensures Settle(base + rest, pm) == base + Settle(rest, pm) && Oldest(base + rest, pm) == Oldest(rest, pm)
  {
    if base == [] {
      assert base + rest == rest;
      assert base + Settle(rest, pm) == Settle(rest, pm);
    } else {
      assert (base + rest)[1..] == base[1..] + rest;
      SettleBehind(base[1..], rest, pm);
    }
  }

  lemma {:induction false} OldestAhead(base: seq<Request>, rest: seq<Request>, pm: nat)
    requires Oldest(base, pm).Some?
    ensures Oldest(base + rest, pm) == Oldest(base, pm)
  {
    if base[0].pm != pm {
      assert (base + rest)[1..] == base[1..] + rest;
      OldestAhead(base[1..], rest, pm);
    }
  }
}
