/**
  Runs of the table-access protocol. A handler is named by its table and transaction: handlers
  on one table at the same time have different transaction ids, and table ids are not 0.
 */
module TableProtocol {
  import opened Wrappers
  import opened TableQueue

  datatype Handler = Handler(oid: nat, txn: nat)

  /** Failed: the transaction could not be started. Dangling: waits on a queue that was erased. */
  datatype Phase = Waiting(notified: bool) | Working | Failed | Dangling

  datatype State = State(queues: Queues, phase: map<Handler, Phase>, forced: set<Handler>,
                         arrived: seq<Handler>, admitted: seq<Handler>, clean: bool)

  datatype Step =
    | Arrive(h: Handler)
    | Refuse(h: Handler)
    | Wake(h: Handler)
    | Release(h: Handler)
    | ForceOut(h: Handler)

  const INIT := State(map[], map[], {}, [], [], true)

  /** The queue can be looked at: the code reads its front before it asks whether it is empty. */
  predicate Fronted(s: State, oid: nat) {
    oid in s.queues && s.queues[oid] != []
  }

  predicate Enabled(s: State, step: Step) {
    match step
    case Arrive(h) => h !in s.phase && h.oid != 0 && (h.oid in s.queues ==> Fronted(s, h.oid))
    case Refuse(h) => h !in s.phase
    case Wake(h) => h in s.phase && s.phase[h].Waiting? && Fronted(s, h.oid)
    case Release(h) =>
      h in s.phase && (s.phase[h].Working? || s.phase[h].Failed?) && (h.oid in s.queues ==> Fronted(s, h.oid))
    case ForceOut(h) => h in s.phase && Fronted(s, h.oid) && Without(s.queues[h.oid], h.txn) != []
  }

  /** notify_all wakes the waiters of every table. */
  function NotifyAll(phase: map<Handler, Phase>): (r: map<Handler, Phase>) {
    map h | h in phase :: if phase[h].Waiting? then Waiting(true) else phase[h]
  }

  /** Whoever still waits on a queue that is no longer in the map holds a dead reference. */
  function Strand(phase: map<Handler, Phase>, oid: nat): (r: map<Handler, Phase>) {
    map h | h in phase :: if h.oid == oid && phase[h].Waiting? then Dangling else phase[h]
  }

  function Apply(s: State, step: Step): (s': State)
    requires Enabled(s, step)
  {
    match step
    case Arrive(h) =>
      var r := Enter(s.queues, h.oid, h.txn);
      s.(queues := r.queues, phase := s.phase[h := if r.go then Working else Waiting(false)],
         forced := s.forced - {h}, arrived := s.arrived + [h],
         admitted := if r.go then s.admitted + [h] else s.admitted)
    case Refuse(h) => s.(phase := s.phase[h := Failed], forced := s.forced - {h})
    case Wake(h) =>
      if Recheck(s.queues, h.oid, h.txn)
      then s.(phase := s.phase[h := Working], admitted := s.admitted + [h])
      else s.(phase := s.phase[h := Waiting(false)])
    case Release(h) =>
      var r := Leave(s.queues, h.oid, h.txn);
      var others := s.phase - {h};
      var told := if r.go then NotifyAll(others) else others;
      s.(queues := r.queues, forced := s.forced - {h},
         phase := if h.oid in s.queues && h.oid !in r.queues then Strand(told, h.oid) else told)
    case ForceOut(h) =>
      var r := Force(s.queues, h.oid, h.txn);
      s.(queues := r.queues, forced := s.forced + {h}, clean := false,
         phase := if r.go then NotifyAll(s.phase) else s.phase)
  }

  /**
    A queue lists live handlers that were not forced out; only its head may work, and a head that
    waits is notified.
   */
  predicate QueueOk(s: State, oid: nat)
    requires oid in s.queues
  {
    var q := s.queues[oid];
    && oid != 0 && q != [] && Distinct(q)
    && (forall i :: 0 <= i < |q| ==> Placed(s, Handler(oid, q[i]), i))
  }

  predicate Placed(s: State, h: Handler, i: nat) {
    && h in s.phase && h !in s.forced
    && (if i == 0 then s.phase[h].Working? || s.phase[h] == Waiting(true) else s.phase[h].Waiting?)
  }

  /** Whoever works or waits without having been forced out is in the queue of the table. */
  predicate HandlerOk(s: State, h: Handler)
    requires h in s.phase
  {
    h in s.forced || s.phase[h].Failed?
    || (!s.phase[h].Dangling? && h.oid in s.queues && h.txn in s.queues[h.oid])
  }

  /** The transactions of one table in a log. */
  function On(log: seq<Handler>, oid: nat): (ts: seq<nat>) {
    if log == [] then []
    else
      var front := On(log[..|log| - 1], oid);
      var last := log[|log| - 1];
      if last.oid == oid then front + [last.txn] else front
  }

  /** The part of a queue that is still to be admitted. */
  function Pending(s: State, oid: nat): (ts: seq<nat>)
  {
    if oid !in s.queues || s.queues[oid] == [] then []
    else
      var head := Handler(oid, s.queues[oid][0]);
      if head in s.phase && s.phase[head].Working? then s.queues[oid][1..] else s.queues[oid]
  }

  /** First come, first served: what was admitted, then what is pending, is what arrived. */
  predicate InOrder(s: State, oid: nat) {
    On(s.arrived, oid) == On(s.admitted, oid) + Pending(s, oid)
  }

  ghost predicate QueuesOk(s: State) {
    forall oid :: oid in s.queues ==> QueueOk(s, oid)
  }

  ghost predicate HandlersOk(s: State) {
    forall h :: h in s.phase ==> HandlerOk(s, h)
  }

  ghost predicate OrderOk(s: State) {
    s.clean ==> s.forced == {} && forall oid :: InOrder(s, oid)
  }

  ghost predicate Inv(s: State) {
    QueuesOk(s) && HandlersOk(s) && OrderOk(s)
  }

  lemma OnAppends(log: seq<Handler>, h: Handler, oid: nat)
    ensures On(log + [h], oid) == if h.oid == oid then On(log, oid) + [h.txn] else On(log, oid)
  {
    assert (log + [h])[..|log|] == log;
  }

  /** A handler that is not live, or was forced out, is in no queue: an arrival never meets its own transaction. */
  lemma NotListed(s: State, h: Handler)
    requires QueuesOk(s) && h.oid in s.queues && (h !in s.phase || h in s.forced || s.phase[h].Failed?)
    ensures h.txn !in s.queues[h.oid]
  {
    var q := s.queues[h.oid];
    assert QueueOk(s, h.oid);
    forall i | 0 <= i < |q| ensures q[i] != h.txn {
      assert Placed(s, Handler(h.oid, q[i]), i);
    }
  }

  // Arrival: the newcomer opens a queue and works, or waits behind everybody else.

  lemma ArriveQueues(s: State, h: Handler)
    requires Inv(s) && Enabled(s, Arrive(h))
    ensures QueuesOk(Apply(s, Arrive(h)))
    ensures h.oid in s.queues ==> Apply(s, Arrive(h)).queues == s.queues[h.oid := s.queues[h.oid] + [h.txn]]
  {
    var s' := Apply(s, Arrive(h));
    if h.oid in s.queues {
      NotListed(s, h);
    }
    forall oid | oid in s'.queues ensures QueueOk(s', oid) {
      if oid in s.queues {
        assert QueueOk(s, oid);
        forall i | 0 <= i < |s'.queues[oid]| ensures Placed(s', Handler(oid, s'.queues[oid][i]), i) {
          if i < |s.queues[oid]| {
            assert Placed(s, Handler(oid, s.queues[oid][i]), i);
          }
        }
      }
    }
  }

  lemma ArriveKeeps(s: State, h: Handler)
    requires Inv(s) && Enabled(s, Arrive(h))
    ensures Inv(Apply(s, Arrive(h)))
  {
    hide QueueOk, On;
    var s' := Apply(s, Arrive(h));
    ArriveQueues(s, h);
    forall g | g in s'.phase ensures HandlerOk(s', g) {
      if g != h {
        assert HandlerOk(s, g);
      }
    }
    if s'.clean {
      forall oid ensures InOrder(s', oid) {
        assert InOrder(s, oid);
        OnAppends(s.arrived, h, oid);
        OnAppends(s.admitted, h, oid);
      }
    }
  }

  lemma RefuseKeeps(s: State, h: Handler)
    requires Inv(s) && Enabled(s, Refuse(h))
    ensures Inv(Apply(s, Refuse(h)))
  {
    hide On;
    var s' := Apply(s, Refuse(h));
    forall oid | oid in s'.queues ensures QueueOk(s', oid) {
      assert QueueOk(s, oid);
      forall i | 0 <= i < |s.queues[oid]| ensures Placed(s', Handler(oid, s.queues[oid][i]), i) {
        assert Placed(s, Handler(oid, s.queues[oid][i]), i);
      }
    }
    forall g | g in s'.phase ensures HandlerOk(s', g) {
      if g != h {
        assert HandlerOk(s, g);
      }
    }
    if s'.clean {
      forall oid ensures InOrder(s', oid) {
        assert InOrder(s, oid);
      }
    }
  }

  // Wake-up: only the head of a queue, or a handler that was forced out, goes on.

  lemma WakeQueues(s: State, h: Handler)
    requires Inv(s) && Enabled(s, Wake(h))
    ensures QueuesOk(Apply(s, Wake(h)))
  {
    var s' := Apply(s, Wake(h));
    forall oid | oid in s'.queues ensures QueueOk(s', oid) {
      assert QueueOk(s, oid);
      forall i | 0 <= i < |s.queues[oid]| ensures Placed(s', Handler(oid, s.queues[oid][i]), i) {
        assert Placed(s, Handler(oid, s.queues[oid][i]), i);
      }
    }
  }

  lemma WakeOrder(s: State, h: Handler)
    requires Inv(s) && Enabled(s, Wake(h))
    ensures OrderOk(Apply(s, Wake(h)))
  {
    hide InOrder, QueueOk;
    var s' := Apply(s, Wake(h));
    if s'.clean {
      assert HandlerOk(s, h);
      forall oid ensures InOrder(s', oid) {
        assert InOrder(s, oid);
        WakeInOrder(s, h, oid);
      }
    }
  }

  lemma WakeInOrder(s: State, h: Handler, oid: nat)
    requires Enabled(s, Wake(h)) && HandlerOk(s, h) && InOrder(s, oid) && Apply(s, Wake(h)).clean
    requires s.forced == {} && (oid in s.queues ==> QueueOk(s, oid))
    ensures InOrder(Apply(s, Wake(h)), oid)
  {
    hide On;
    var s' := Apply(s, Wake(h));
    OnAppends(s.admitted, h, oid);
    if oid == h.oid && s.queues[oid][0] == h.txn {
      var q := s.queues[oid];
      assert Pending(s, oid) == q && Pending(s', oid) == q[1..];
      assert [q[0]] + q[1..] == q;
    } else if oid in s.queues {
      SameHead(s, s', h, oid);
    }
  }

  lemma SameHead(s: State, s': State, h: Handler, oid: nat)
    requires oid in s.queues && QueueOk(s, oid) && s'.queues == s.queues
    requires oid != h.oid || s.queues[oid][0] != h.txn
    requires forall g :: g in s.phase && g != h ==> g in s'.phase && s'.phase[g] == s.phase[g]
    ensures Pending(s', oid) == Pending(s, oid)
  {
    assert Placed(s, Handler(oid, s.queues[oid][0]), 0);
  }

  lemma WakeKeeps(s: State, h: Handler)
    requires Inv(s) && Enabled(s, Wake(h))
    ensures Inv(Apply(s, Wake(h)))
  {
    hide QueueOk, OrderOk;
    var s' := Apply(s, Wake(h));
    WakeQueues(s, h);
    WakeOrder(s, h);
    forall g | g in s'.phase ensures HandlerOk(s', g) {
      assert HandlerOk(s, g);
    }
  }

  // Release: the head leaves its queue; anybody else leaves the queues alone.

  /** Who works and was not forced out is at the head of the queue. */
  lemma WorkingIsHead(s: State, h: Handler)
    requires Inv(s) && h in s.phase && s.phase[h].Working? && h !in s.forced
    ensures h.oid in s.queues && s.queues[h.oid] != [] && s.queues[h.oid][0] == h.txn
  {
    assert HandlerOk(s, h);
    assert QueueOk(s, h.oid);
    var q := s.queues[h.oid];
    var i := IndexOf(q, h.txn);
    assert Placed(s, Handler(h.oid, q[i]), i);
  }

  lemma ReleaseHead(s: State, h: Handler)
    requires Inv(s) && Enabled(s, Release(h))
    ensures h.oid in s.queues ==>
      if s.phase[h].Working? && h !in s.forced then s.queues[h.oid][0] == h.txn else h.txn !in s.queues[h.oid]
  {
    if h.oid in s.queues {
      if s.phase[h].Working? && h !in s.forced {
        WorkingIsHead(s, h);
      } else {
        NotListed(s, h);
      }
    }
  }

  lemma ReleaseQueues(s: State, h: Handler)
    requires Inv(s) && Enabled(s, Release(h))
    ensures QueuesOk(Apply(s, Release(h)))
  {
    var s' := Apply(s, Release(h));
    ReleaseHead(s, h);
    forall oid | oid in s'.queues ensures QueueOk(s', oid) {
      assert QueueOk(s, oid);
      var q, q' := s.queues[oid], s'.queues[oid];
      var d := |q| - |q'|;
      forall i | 0 <= i < |q'| ensures Placed(s', Handler(oid, q'[i]), i) {
        assert q'[i] == q[i + d];
        assert Placed(s, Handler(oid, q[i + d]), i + d);
      }
    }
  }

  lemma ReleaseHandlers(s: State, h: Handler)
    requires Inv(s) && Enabled(s, Release(h))
    ensures HandlersOk(Apply(s, Release(h)))
  {
    var s' := Apply(s, Release(h));
    ReleaseHead(s, h);
    forall g | g in s'.phase ensures HandlerOk(s', g) {
      assert HandlerOk(s, g);
      if g.oid == h.oid && g.oid in s.queues {
        assert QueueOk(s, g.oid);
      }
    }
  }

  lemma ReleaseOrder(s: State, h: Handler)
    requires Inv(s) && Enabled(s, Release(h))
    ensures OrderOk(Apply(s, Release(h)))
  {
    hide On;
    var s' := Apply(s, Release(h));
    ReleaseHead(s, h);
    if s'.clean {
      forall oid ensures InOrder(s', oid) {
        assert InOrder(s, oid);
        if oid in s.queues {
          ReleasePending(s, h, oid);
        }
      }
    }
  }

  lemma ReleasePending(s: State, h: Handler, oid: nat)
    requires Inv(s) && Enabled(s, Release(h)) && oid in s.queues && s.forced == {}
    ensures Pending(Apply(s, Release(h)), oid) == Pending(s, oid)
  {
    ReleaseHead(s, h);
    assert QueueOk(s, oid);
    var q := s.queues[oid];
    assert Placed(s, Handler(oid, q[0]), 0);
    if |q| > 1 {
      assert Placed(s, Handler(oid, q[1]), 1);
    }
  }

  lemma ReleaseKeeps(s: State, h: Handler)
    requires Inv(s) && Enabled(s, Release(h))
    ensures Inv(Apply(s, Release(h)))
  {
    hide QueuesOk, HandlersOk, OrderOk;
    ReleaseQueues(s, h);
    ReleaseHandlers(s, h);
    ReleaseOrder(s, h);
  }

  // Forced release: one handler is taken out of its queue, wherever it stands.

  /** Who was not forced out keeps a place, or moves up to an earlier one. */
  lemma ForceMoves(s: State, h: Handler, g: Handler, i: nat, j: nat)
    requires Enabled(s, ForceOut(h)) && h.oid != 0 && Placed(s, g, j) && i <= j && g != h
    ensures Placed(Apply(s, ForceOut(h)), g, i)
  {
  }

  lemma ForceOtherQueue(s: State, h: Handler, oid: nat)
    requires Enabled(s, ForceOut(h)) && h.oid != 0 && oid != h.oid && oid in s.queues && QueueOk(s, oid)
    ensures oid in Apply(s, ForceOut(h)).queues && QueueOk(Apply(s, ForceOut(h)), oid)
  {
    hide Placed;
    var q, s' := s.queues[oid], Apply(s, ForceOut(h));
    forall i | 0 <= i < |q| ensures Placed(s', Handler(oid, q[i]), i) {
      assert Placed(s, Handler(oid, q[i]), i);
      ForceMoves(s, h, Handler(oid, q[i]), i, i);
    }
  }

  lemma ForceOwnQueue(s: State, h: Handler)
    requires Enabled(s, ForceOut(h)) && h.oid in s.queues && QueueOk(s, h.oid)
    ensures h.oid in Apply(s, ForceOut(h)).queues && QueueOk(Apply(s, ForceOut(h)), h.oid)
  {
    hide Placed;
    var q, s' := s.queues[h.oid], Apply(s, ForceOut(h));
    var q', k := s'.queues[h.oid], IndexOf(q, h.txn);
    forall i | 0 <= i < |q'| ensures Placed(s', Handler(h.oid, q'[i]), i) {
      var j := if k < |q| && i >= k then i + 1 else i;
      assert q'[i] == q[j] && Placed(s, Handler(h.oid, q[j]), j);
      ForceMoves(s, h, Handler(h.oid, q[j]), i, j);
    }
  }

  lemma ForceQueues(s: State, h: Handler)
    requires Inv(s) && Enabled(s, ForceOut(h))
    ensures QueuesOk(Apply(s, ForceOut(h)))
  {
    assert QueueOk(s, h.oid);
    hide QueueOk;
    var s' := Apply(s, ForceOut(h));
    forall oid | oid in s'.queues ensures QueueOk(s', oid) {
      assert QueueOk(s, oid);
      if oid == h.oid {
        ForceOwnQueue(s, h);
      } else {
        ForceOtherQueue(s, h, oid);
      }
    }
  }

  lemma ForceKeeps(s: State, h: Handler)
    requires Inv(s) && Enabled(s, ForceOut(h))
    ensures Inv(Apply(s, ForceOut(h)))
  {
    hide QueueOk;
    var s' := Apply(s, ForceOut(h));
    ForceQueues(s, h);
    forall g | g in s'.phase ensures HandlerOk(s', g) {
      assert HandlerOk(s, g);
      if g.oid == h.oid && g != h && g.oid in s.queues && g.txn in s.queues[g.oid] {
        StaysListed(s.queues[g.oid], h.txn, g.txn);
      }
    }
  }

  lemma StaysListed(q: seq<nat>, gone: nat, txn: nat)
    requires txn in q && txn != gone
    ensures txn in Without(q, gone)
  {
    var i := IndexOf(q, gone);
    if i < |q| {
      assert q == q[..i] + [gone] + q[i + 1..];
    }
  }

  // Whole runs.

  /** The state a run leads to, if every step of it is enabled. */
  function Exec(steps: seq<Step>): (r: Option<State>) {
    if steps == [] then Some(INIT)
    else
      var before, last := Exec(steps[..|steps| - 1]), steps[|steps| - 1];
      if before.Some? && Enabled(before.value, last) then Some(Apply(before.value, last)) else None
  }

  predicate Unforced(steps: seq<Step>) {
    forall i :: 0 <= i < |steps| ==> !steps[i].ForceOut?
  }

  lemma StepKeeps(s: State, step: Step)
    requires Inv(s) && Enabled(s, step)
    ensures Inv(Apply(s, step)) && Apply(s, step).clean == (s.clean && !step.ForceOut?)
  {
    hide Inv;
    match step
    case Arrive(h) => ArriveKeeps(s, h);
    case Refuse(h) => RefuseKeeps(s, h);
    case Wake(h) => WakeKeeps(s, h);
    case Release(h) => ReleaseKeeps(s, h);
    case ForceOut(h) => ForceKeeps(s, h);
  }

  lemma {:induction false} RunKeeps(steps: seq<Step>, s: State)
    requires Exec(steps) == Some(s)
    ensures Inv(s) && s.clean == Unforced(steps)
  {
    if steps != [] {
      hide Inv, Apply, Enabled;
      var front, last := steps[..|steps| - 1], steps[|steps| - 1];
      var before := Exec(front).value;
      RunKeeps(front, before);
      StepKeeps(before, last);
      assert Unforced(steps) <==> Unforced(front) && !last.ForceOut?;
    }
  }

  /** In every run at most one handler that was not forced out works on a table, the head of its queue. */
  lemma Exclusion(steps: seq<Step>, s: State, a: Handler, b: Handler)
    requires Exec(steps) == Some(s) && a.oid == b.oid
    requires a in s.phase && s.phase[a].Working? && a !in s.forced
    requires b in s.phase && s.phase[b].Working? && b !in s.forced
    ensures a == b && a.oid in s.queues && s.queues[a.oid] != [] && s.queues[a.oid][0] == a.txn
  {
    RunKeeps(steps, s);
    WorkingIsHead(s, a);
    WorkingIsHead(s, b);
  }

  /** In every run each queue in the map has a head, which works or has been notified since it became head. */
  lemma NoLostWakeup(steps: seq<Step>, s: State, oid: nat)
    requires Exec(steps) == Some(s) && oid in s.queues
    ensures s.queues[oid] != []
    ensures var head := Handler(oid, s.queues[oid][0]);
      head in s.phase && (s.phase[head].Working? || s.phase[head] == Waiting(true))
  {
    RunKeeps(steps, s);
    assert QueueOk(s, oid);
    assert Placed(s, Handler(oid, s.queues[oid][0]), 0);
  }

  /** The wake-up of a waiting head lets it go on: a table with waiters is never stuck. */
  lemma HeadGoesOn(steps: seq<Step>, s: State, oid: nat)
    requires Exec(steps) == Some(s) && Fronted(s, oid)
    ensures var head := Handler(oid, s.queues[oid][0]);
      head in s.phase && (s.phase[head].Waiting? ==>
        Enabled(s, Wake(head)) && Apply(s, Wake(head)).phase[head] == Working)
  {
    NoLostWakeup(steps, s, oid);
  }

  /** Without forced release, transactions are admitted to a table in the order they arrived. */
  lemma FirstComeFirstServed(steps: seq<Step>, s: State, oid: nat)
    requires Exec(steps) == Some(s) && Unforced(steps)
    ensures On(s.arrived, oid) == On(s.admitted, oid) + Pending(s, oid)
  {
    RunKeeps(steps, s);
    assert InOrder(s, oid);
  }

  /** Without forced release, no waiter ever holds a reference to an erased queue. */
  lemma ReferencesStayAlive(steps: seq<Step>, s: State, h: Handler)
    requires Exec(steps) == Some(s) && Unforced(steps) && h in s.phase && !s.phase[h].Failed?
    ensures !s.phase[h].Dangling? && h.oid in s.queues && h.txn in s.queues[h.oid]
  {
    RunKeeps(steps, s);
    assert HandlerOk(s, h);
  }

  /**
    Exactly when a release leaves a waiter with a reference to an erased queue: the waiter was
    forced out and has not looked yet, and the one who leaves is the last in the queue.
   */
  lemma DanglesIff(steps: seq<Step>, s: State, h: Handler, g: Handler)
    requires Exec(steps) == Some(s) && Enabled(s, Release(h)) && g in s.phase && s.phase[g].Waiting?
    ensures var s' := Apply(s, Release(h));
      g in s'.phase && s'.phase[g].Dangling? <==>
      g in s.forced && g.oid == h.oid && g.oid in s.queues && s.queues[g.oid] == [h.txn]
  {
    hide Exec;
    RunKeeps(steps, s);
    assert HandlerOk(s, g);
    if h.oid in s.queues {
      assert QueueOk(s, h.oid);
    }
  }

  /** Such a run: one works, another waits, is forced out, and the first leaves before the other wakes up. */
  lemma DanglingRun(oid: nat, first: nat, second: nat) returns (steps: seq<Step>, s: State)
    requires oid != 0 && first != second
    ensures Exec(steps) == Some(s) && Handler(oid, second) in s.phase && s.phase[Handler(oid, second)].Dangling?
  {
    var a, b := Handler(oid, first), Handler(oid, second);
    var s1 := Apply(INIT, Arrive(a));
    var s2 := Apply(s1, Arrive(b));
    assert s2.queues[oid] == [first, second];
    assert IndexOf([first, second], second) == 1 by { assert [first, second][1..] == [second]; }
    assert Without([first, second], second) == [first];
    var s3 := Apply(s2, ForceOut(b));
    s := Apply(s3, Release(a));
    steps := [];
    ExecStep(steps, INIT, Arrive(a));
    steps := steps + [Arrive(a)];
    ExecStep(steps, s1, Arrive(b));
    steps := steps + [Arrive(b)];
    ExecStep(steps, s2, ForceOut(b));
    steps := steps + [ForceOut(b)];
    ExecStep(steps, s3, Release(a));
    steps := steps + [Release(a)];
  }

  lemma ExecStep(steps: seq<Step>, s: State, step: Step)
    requires Exec(steps) == Some(s) && Enabled(s, step)
    ensures Exec(steps + [step]) == Some(Apply(s, step))
  {
    hide Apply, Enabled;
    assert (steps + [step])[..|steps|] == steps;
  }

  /** A release, whoever calls it, takes nobody else's place. */
  lemma ReleaseTakesOwnPlaceOnly(steps: seq<Step>, s: State, h: Handler, g: Handler)
    requires Exec(steps) == Some(s) && Enabled(s, Release(h)) && g != h
    requires g.oid in s.queues && g.txn in s.queues[g.oid]
    ensures var qs := Apply(s, Release(h)).queues; g.oid in qs && g.txn in qs[g.oid]
  {
    hide Exec;
    var q := s.queues[g.oid];
    assert q == [q[0]] + q[1..];
  }

  /** A run of wake-ups. */
  predicate Wakes(s: State, hs: seq<Handler>, s': State)
    decreases |hs|
  {
    if hs == [] then s == s' else Enabled(s, Wake(hs[0])) && Wakes(Apply(s, Wake(hs[0])), hs[1..], s')
  }

  /**
    Forced release gives exclusion up: when others remain in the queue, the wake-ups it causes
    always lead to two handlers at work on the table.
   */
  lemma ForceBreaksExclusion(s: State, h: Handler) returns (a: Handler, wakes: seq<Handler>, s': State)
    requires Inv(s) && Enabled(s, ForceOut(h)) && h !in s.forced && !s.phase[h].Failed?
    ensures a != h && a.oid == h.oid && Wakes(Apply(s, ForceOut(h)), wakes, s')
    ensures a in s'.phase && h in s'.phase && s'.phase[a].Working? && s'.phase[h].Working?
  {
    var s1 := Apply(s, ForceOut(h));
    ForceKeeps(s, h);
    assert HandlerOk(s, h) && QueueOk(s, h.oid) && QueueOk(s1, h.oid);
    a := Handler(h.oid, s1.queues[h.oid][0]);
    assert Placed(s1, a, 0);
    NotListed(s1, h);
    var s2 := if s1.phase[a].Waiting? then Apply(s1, Wake(a)) else s1;
    s' := if s2.phase[h].Waiting? then Apply(s2, Wake(h)) else s2;
    var second := if s2.phase[h].Waiting? then [h] else [];
    assert Wakes(s2, second, s');
    wakes := if s1.phase[a].Waiting? then [a] + second else second;
    assert ([a] + second)[1..] == second;
  }

  /** A waiter that wakes goes on exactly at the head of its queue or when it is no longer in it; else it waits anew. */
  lemma WakeLaw(s: State, h: Handler)
    requires Enabled(s, Wake(h))
    ensures var s', q := Apply(s, Wake(h)), s.queues[h.oid];
      && s'.phase[h] == (if h.txn == q[0] || h.txn !in q then Working else Waiting(false))
      && s'.queues == s.queues && s'.arrived == s.arrived && s'.forced == s.forced
      && s'.admitted == s.admitted + (if s'.phase[h].Working? then [h] else [])
      && forall g :: g != h ==> (g in s.phase <==> g in s'.phase) && (g in s.phase ==> s'.phase[g] == s.phase[g])
  {
  }
}
