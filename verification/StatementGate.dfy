/**
  The gate on running statements: a counter with an upper limit (0 for none) and a condition
  variable signalled one thread at a time. Newcomers may overtake a thread that has been
  notified but has not run yet, and threads may wake up without a notification.
 */
module StatementGate {
  type Tid = nat

  /** Threads holding a slot, notified but still waiting, and waiting without a notification. */
  datatype Gate = Gate(limit: nat, count: nat, waiting: nat, holders: set<Tid>, notified: set<Tid>, asleep: set<Tid>)

  datatype Step = Enter(t: Tid) | Wake(t: Tid) | Leave(t: Tid, signalled: set<Tid>)

  /** The test of the wait loop. */
  predicate Full(limit: nat, count: nat) {
    limit > 0 && count >= limit
  }

  predicate Enabled(g: Gate, step: Step) {
    match step
    case Enter(t) => t !in g.holders + g.notified + g.asleep
    case Wake(t) => t in g.notified + g.asleep
    case Leave(t, signalled) =>
      // notify_one reaches one sleeping thread, if there is any.
      t in g.holders && signalled <= g.asleep && |signalled| == if g.asleep == {} then 0 else 1
  }

  function Apply(g: Gate, step: Step): (g': Gate)
    requires Enabled(g, step)
  {
    match step
    case Enter(t) =>
      if Full(g.limit, g.count) then g.(waiting := g.waiting + 1, asleep := g.asleep + {t})
      else g.(count := g.count + 1, holders := g.holders + {t})
    case Wake(t) =>
      if Full(g.limit, g.count) then g.(notified := g.notified - {t}, asleep := g.asleep + {t})
      else
        g.(count := g.count + 1, waiting := if g.waiting > 0 then g.waiting - 1 else 0,
           holders := g.holders + {t}, notified := g.notified - {t}, asleep := g.asleep - {t})
    case Leave(t, signalled) =>
      var g' := g.(holders := g.holders - {t});
      if g.count == 0 then g'
      else g'.(count := g.count - 1, notified := g.notified + signalled, asleep := g.asleep - signalled)
  }

  /**
    The counters count what they are named after, the limit holds, and while a thread sleeps
    there are at least as many notified threads as free slots.
   */
  predicate Inv(g: Gate) {
    && g.holders !! g.notified !! g.asleep
    && g.count == |g.holders|
    && g.waiting == |g.notified| + |g.asleep|
    && (g.limit > 0 ==> g.count <= g.limit)
    && (g.limit == 0 ==> g.notified + g.asleep == {})
    && (g.asleep != {} ==> g.count + |g.notified| >= g.limit)
  }

  lemma Grows(s: set<Tid>, t: Tid)
    requires t !in s
    ensures |s + {t}| == |s| + 1
  {
  }

  lemma Shrinks(s: set<Tid>, t: Tid)
    ensures |s - {t}| == if t in s then |s| - 1 else |s|
  {
    if t in s {
      assert s == (s - {t}) + {t};
    } else {
      assert s - {t} == s;
    }
  }

  lemma EnterKeeps(g: Gate, t: Tid)
    requires Inv(g) && Enabled(g, Enter(t))
    ensures Inv(Apply(g, Enter(t)))
  {
    Grows(g.holders, t);
    Grows(g.asleep, t);
  }

  lemma SleepsAgain(g: Gate, t: Tid)
    requires Inv(g) && Enabled(g, Wake(t)) && Full(g.limit, g.count)
    ensures Inv(Apply(g, Wake(t)))
  {
    Shrinks(g.notified, t);
    if t in g.notified {
      Grows(g.asleep, t);
    } else {
      assert g.asleep + {t} == g.asleep;
    }
  }

  lemma GoesIn(g: Gate, t: Tid)
    requires Inv(g) && Enabled(g, Wake(t)) && !Full(g.limit, g.count)
    ensures Inv(Apply(g, Wake(t)))
  {
    Shrinks(g.notified, t);
    Shrinks(g.asleep, t);
    Grows(g.holders, t);
  }

  lemma WakeKeeps(g: Gate, t: Tid)
    requires Inv(g) && Enabled(g, Wake(t))
    ensures Inv(Apply(g, Wake(t)))
  {
    hide Inv, Apply;
    if Full(g.limit, g.count) {
      SleepsAgain(g, t);
    } else {
      GoesIn(g, t);
    }
  }

  lemma LeaveKeeps(g: Gate, t: Tid, signalled: set<Tid>)
    requires Inv(g) && Enabled(g, Leave(t, signalled))
    ensures Inv(Apply(g, Leave(t, signalled)))
    ensures g.count > 0
  {
    Shrinks(g.holders, t);
    if g.asleep != {} {
      var w :| w in signalled;
      Shrinks(signalled, w);
      assert signalled == {w};
      Shrinks(g.asleep, w);
      Grows(g.notified, w);
    } else {
      assert signalled == {};
    }
  }

  lemma StepKeeps(g: Gate, step: Step)
    requires Inv(g) && Enabled(g, step)
    ensures Inv(Apply(g, step)) && Apply(g, step).limit == g.limit
  {
    hide Inv;
    match step
    case Enter(t) => EnterKeeps(g, t);
    case Wake(t) => WakeKeeps(g, t);
    case Leave(t, signalled) => LeaveKeeps(g, t, signalled);
  }

  function Start(limit: nat): Gate {
    Gate(limit, 0, 0, {}, {}, {})
  }

  /** The states of a run, each step enabled where it is taken. */
  predicate Run(gs: seq<Gate>, steps: seq<Step>) {
    && |gs| == |steps| + 1
    && gs[0] == Start(gs[0].limit)
    && forall i :: 0 <= i < |steps| ==> Enabled(gs[i], steps[i]) && gs[i + 1] == Apply(gs[i], steps[i])
  }

  /**
    In every interleaving: the count is the number of threads holding a slot and stays within a
    positive limit, the waiting count is the number of blocked threads, and a free slot never
    goes unannounced to the sleepers.
   */
  lemma {:induction false} RunKeeps(gs: seq<Gate>, steps: seq<Step>, i: nat)
    requires Run(gs, steps) && i < |gs|
    ensures Inv(gs[i]) && gs[i].limit == gs[0].limit
  {
    if i > 0 {
      hide Inv, Enabled, Apply;
      RunKeeps(gs, steps, i - 1);
      assert gs[i - 1 + 1] == Apply(gs[i - 1], steps[i - 1]);
      StepKeeps(gs[i - 1], steps[i - 1]);
    }
  }

  /** A slot is free and a thread is blocked: then some blocked thread has been notified. */
  lemma NoSlotForgotten(gs: seq<Gate>, steps: seq<Step>, i: nat)
    requires Run(gs, steps) && i < |gs|
    requires !Full(gs[i].limit, gs[i].count) && gs[i].notified + gs[i].asleep != {}
    ensures gs[i].notified != {}
  {
    RunKeeps(gs, steps, i);
  }

  lemma SomeoneWaits(g: Gate, t: Tid)
    requires Inv(g) && Enabled(g, Wake(t))
    ensures g.waiting > 0
  {
    Shrinks(g.notified, t);
    Shrinks(g.asleep, t);
  }

  /** The counter object; each method is one critical section of incr or decr. */
  class ActiveStatementCounter {
    var fStatementCount: nat
    var fStatementsWaiting: nat
    const upperLimit: nat

    constructor (limit: nat)
      ensures fStatementCount == 0 && fStatementsWaiting == 0 && upperLimit == limit
    {
      fStatementCount, fStatementsWaiting, upperLimit := 0, 0, limit;
    }

    ghost predicate Shows(g: Gate)
      reads this
    {
      g.limit == upperLimit && g.count == fStatementCount && g.waiting == fStatementsWaiting
    }

    /** incr up to the first wait; a thread already counted passes straight through. */
    method Incr(counted: bool, t: Tid, ghost g: Gate) returns (counted': bool, blocked: bool)
      requires Shows(g) && (!counted ==> Enabled(g, Enter(t)))
      modifies this
      ensures counted'
      ensures counted ==> !blocked && Shows(g)
      ensures !counted ==> Shows(Apply(g, Enter(t))) && (blocked <==> t in Apply(g, Enter(t)).asleep)
    {
      counted', blocked := true, false;
      if counted {
        return;
      }
      if upperLimit > 0 && fStatementCount >= upperLimit {
        fStatementsWaiting := fStatementsWaiting + 1;
        blocked := true;
      } else {
        fStatementCount := fStatementCount + 1;
      }
    }

    /** Back from a wait: the loop test again. */
    method Woken(t: Tid, ghost g: Gate) returns (blocked: bool)
      requires Shows(g) && Inv(g) && Enabled(g, Wake(t))
      modifies this
      ensures Shows(Apply(g, Wake(t))) && (blocked <==> t in Apply(g, Wake(t)).asleep)
    {
      SomeoneWaits(g, t);
      hide Inv;
      fStatementsWaiting := fStatementsWaiting - 1;
      blocked := fStatementCount >= upperLimit && upperLimit > 0;
      if blocked {
        fStatementsWaiting := fStatementsWaiting + 1;
      } else {
        fStatementCount := fStatementCount + 1;
      }
    }

    method Decr(counted: bool, t: Tid, ghost g: Gate, ghost signalled: set<Tid>)
        returns (counted': bool, notifies: bool)
      requires Shows(g) && Inv(g) && (counted ==> Enabled(g, Leave(t, signalled)))
      modifies this
      ensures !counted' && notifies == counted
      ensures if counted then Shows(Apply(g, Leave(t, signalled))) else Shows(g)
    {
      counted', notifies := false, false;
      if !counted {
        return;
      }
      LeaveKeeps(g, t, signalled);
      if fStatementCount == 0 {
        return;
      }
      fStatementCount := fStatementCount - 1;
      notifies := true;
    }
  }
}
