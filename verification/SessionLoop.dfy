/**
  The session threads of the execution manager and the statement gate they share. A session is
  the control flow of the request loop around the slot: every message of the front end, every
  outcome of a query and every exception is an event.
 */
module SessionLoop {
  import G = StatementGate

  /**
    Top: the request loop. NewPlan: the label a plan is read at. Entering: in incr. Build: making
    the job list. Tables: serving table requests. Bands: projecting one table. Finish: after the
    last table. Caught: in an exception handler. Done: the thread has returned.
   */
  datatype Pc = Top | NewPlan | Entering | Build | Tables | Bands | Finish | Caught | Done

  datatype Session = Session(pc: Pc, counted: bool, tryTuples: bool, usingTuples: bool)

  datatype Event =
    | Closed               // the connection was closed
    | NotAPlan             // too short, a statistics request or an unknown flag: answered and closed
    | TupleFlag            // a plan follows, tuples wanted
    | PlanBytes            // a plan
    | Planned              // the plan is unpacked and logged: take a slot
    | JobListBuilt
    | JobListFailed
    | PlanAgain            // a self-join or table-mode request: a new plan without leaving the loop
    | QueryDone            // no more tables
    | Answered             // swallow flag, statistics, or the end flag: next request
    | TableWanted
    | BandSent
    | LastBand
    | ClientAborted        // writing failed because the client cancelled: clean up and return
    | Finished
    | HandlerDone
    | Thrown               // an exception leaves the current statement

  datatype Action = Nothing | Incr | Decr

  datatype Move = Stuck | Move(next: Session, action: Action)

  /** One step of the control flow, and what it does at the gate. */
  function Flow(s: Session, e: Event): (m: Move) {
    match (s.pc, e)
    case (Top, Closed) => Move(s.(pc := Done), Nothing)
    case (Top, NotAPlan) => Move(s.(pc := Done), Nothing)
    case (Top, TupleFlag) => Move(s.(pc := NewPlan, tryTuples := true, usingTuples := false), Nothing)
    case (Top, PlanBytes) => Move(s.(pc := NewPlan, tryTuples := false, usingTuples := false), Nothing)
    case (NewPlan, Planned) => Move(s.(pc := Entering), Incr)
    case (Build, JobListBuilt) => Move(s.(pc := Tables, usingTuples := s.tryTuples), Nothing)
    case (Build, JobListFailed) =>
      if s.tryTuples then Move(s.(pc := Top), Decr) else Move(s.(pc := Caught, usingTuples := false), Nothing)
    case (Tables, Closed) => Move(s.(pc := Finish), Nothing)
    case (Tables, QueryDone) => Move(s.(pc := Finish), Nothing)
    case (Tables, PlanAgain) => Move(s.(pc := NewPlan), Decr)
    case (Tables, Answered) => Move(s, Nothing)
    case (Tables, TableWanted) => Move(s.(pc := Bands), Nothing)
    case (Bands, BandSent) => Move(s, Nothing)
    case (Bands, LastBand) => Move(s.(pc := Tables), if s.usingTuples then Nothing else Decr)
    case (Bands, ClientAborted) => Move(s.(pc := Done), Decr)
    case (Finish, Finished) => Move(s.(pc := Top), Decr)
    case (Caught, HandlerDone) => Move(s.(pc := Done), Decr)
    case (_, Thrown) => if s.pc in {Entering, Caught, Done} then Stuck else Move(s.(pc := Caught), Nothing)
    case _ => Stuck
  }

  /** No slot at the top of the loop, at a new plan or after the end; a slot while a tuple query runs. */
  predicate FlowOk(s: Session) {
    && (s.pc in {Top, NewPlan, Done} ==> !s.counted)
    && (s.pc in {Entering, Build} ==> s.counted)
    && (s.pc in {Tables, Bands, Finish} && s.usingTuples ==> s.counted)
  }

  /** The flag after a move: incr sets it before it waits, decr clears it. */
  function Flag(s: Session, a: Action): bool {
    match a case Nothing => s.counted case Incr => true case Decr => false
  }

  /** On every path of the loop: the flag is where it should be, and incr never meets a set flag. */
  lemma FlowKeeps(s: Session, e: Event)
    requires FlowOk(s) && Flow(s, e).Move?
    ensures var m := Flow(s, e); FlowOk(m.next.(counted := Flag(s, m.action)))
    ensures Flow(s, e).action == Incr ==> !s.counted
    ensures var m := Flow(s, e);
      s.pc != Entering && m.next.counted == s.counted && (m.next.pc == Entering <==> m.action == Incr)
  {
  }

  // All sessions together with the gate.

  datatype System = System(gate: G.Gate, sessions: map<G.Tid, Session>)

  datatype Step =
    | Spawn(t: G.Tid)
    | Act(t: G.Tid, e: Event, signalled: set<G.Tid>)
    | Woken(t: G.Tid)

  const FRESH := Session(Top, false, false, false)

  predicate Enabled(y: System, step: Step) {
    match step
    case Spawn(t) => t !in y.sessions
    case Act(t, e, signalled) =>
      t in y.sessions && Flow(y.sessions[t], e).Move? &&
      var s, a := y.sessions[t], Flow(y.sessions[t], e).action;
      && (a == Incr && !s.counted ==> G.Enabled(y.gate, G.Enter(t)))
      && (a == Decr && s.counted ==> G.Enabled(y.gate, G.Leave(t, signalled)))
    case Woken(t) => t in y.sessions && G.Enabled(y.gate, G.Wake(t))
  }

  /** Where incr leaves the thread: blocked in the wait, or past it. */
  function Entered(g: G.Gate, t: G.Tid): Pc {
    if t in g.holders then Build else Entering
  }

  function Apply(y: System, step: Step): (y': System)
    requires Enabled(y, step)
  {
    match step
    case Spawn(t) => y.(sessions := y.sessions[t := FRESH])
    case Woken(t) =>
      var g := G.Apply(y.gate, G.Wake(t));
      System(g, y.sessions[t := y.sessions[t].(pc := Entered(g, t))])
    case Act(t, e, signalled) =>
      var s := y.sessions[t];
      var Move(next, a) := Flow(s, e);
      if a == Nothing then y.(sessions := y.sessions[t := next])
      else if a == Decr then
        var g := if s.counted then G.Apply(y.gate, G.Leave(t, signalled)) else y.gate;
        System(g, y.sessions[t := next.(counted := false)])
      else if s.counted then y.(sessions := y.sessions[t := next.(pc := Build)])
      else
        var g := G.Apply(y.gate, G.Enter(t));
        System(g, y.sessions[t := next.(pc := Entered(g, t), counted := true)])
  }

  /** The threads at the gate are those whose flag is set: past it, or waiting in incr. */
  predicate Linked(y: System, t: G.Tid) {
    if t !in y.sessions then t !in y.gate.holders + y.gate.notified + y.gate.asleep
    else
      var s := y.sessions[t];
      && FlowOk(s)
      && (t in y.gate.holders <==> s.counted && s.pc != Entering)
      && (t in y.gate.notified + y.gate.asleep <==> s.pc == Entering)
  }

  ghost predicate Inv(y: System) {
    G.Inv(y.gate) && forall t :: Linked(y, t)
  }

  lemma ActKeeps(y: System, t: G.Tid, e: Event, signalled: set<G.Tid>)
    requires Inv(y) && Enabled(y, Act(t, e, signalled))
    ensures Inv(Apply(y, Act(t, e, signalled)))
  {
    hide G.Inv, Flow, FlowOk;
    var y' := Apply(y, Act(t, e, signalled));
    var s := y.sessions[t];
    assert Linked(y, t);
    FlowKeeps(s, e);
    if Flow(s, e).action == Incr { EnteredOk(s, e); }
    if Flow(s, e).action == Incr {
      G.StepKeeps(y.gate, G.Enter(t));
    } else if Flow(s, e).action == Decr && s.counted {
      G.StepKeeps(y.gate, G.Leave(t, signalled));
      GateApart(y.gate);
    }
    forall u ensures Linked(y', u) {
      assert Linked(y, u);
    }
  }

  /** Past incr, a session that took a slot is where it should be. */
  lemma EnteredOk(s: Session, e: Event)
    requires FlowOk(s) && Flow(s, e).Move? && Flow(s, e).action == Incr
    ensures FlowOk(Flow(s, e).next.(pc := Build, counted := true))
    ensures FlowOk(Flow(s, e).next.(pc := Entering, counted := true))
  {
  }

  lemma GateApart(g: G.Gate)
    requires G.Inv(g)
    ensures g.holders !! g.notified && g.holders !! g.asleep
  {
  }

  /** The gate's bookkeeping never stands in the way: every move of the control flow can be taken. */
  lemma EveryMoveEnabled(y: System, t: G.Tid, e: Event) returns (signalled: set<G.Tid>)
    requires Inv(y) && t in y.sessions && Flow(y.sessions[t], e).Move?
    ensures Enabled(y, Act(t, e, signalled))
  {
    assert Linked(y, t);
    signalled := {};
    if y.gate.asleep != {} {
      var w :| w in y.gate.asleep;
      signalled := {w};
    }
  }

  lemma WokenKeeps(y: System, t: G.Tid)
    requires Inv(y) && Enabled(y, Woken(t))
    ensures Inv(Apply(y, Woken(t)))
  {
    hide G.Inv;
    var y' := Apply(y, Woken(t));
    assert Linked(y, t);
    G.StepKeeps(y.gate, G.Wake(t));
    GateApart(y.gate);
    forall u ensures Linked(y', u) {
      assert Linked(y, u);
    }
  }

  lemma StepKeeps(y: System, step: Step)
    requires Inv(y) && Enabled(y, step)
    ensures Inv(Apply(y, step))
  {
    match step
    case Spawn(t) =>
      forall u ensures Linked(Apply(y, step), u) {
        assert Linked(y, u);
      }
    case Act(t, e, signalled) => ActKeeps(y, t, e, signalled);
    case Woken(t) => WokenKeeps(y, t);
  }

  predicate Run(ys: seq<System>, steps: seq<Step>) {
    && |ys| == |steps| + 1
    && ys[0] == System(G.Start(ys[0].gate.limit), map[])
    && forall i :: 0 <= i < |steps| ==> Enabled(ys[i], steps[i]) && ys[i + 1] == Apply(ys[i], steps[i])
  }

  lemma {:induction false} RunKeeps(ys: seq<System>, steps: seq<Step>, i: nat)
    requires Run(ys, steps) && i < |ys|
    ensures Inv(ys[i])
  {
    if i > 0 {
      hide Inv, Enabled, Apply;
      RunKeeps(ys, steps, i - 1);
      assert ys[i - 1 + 1] == Apply(ys[i - 1], steps[i - 1]);
      StepKeeps(ys[i - 1], steps[i - 1]);
    }
  }

  /** In every run of every number of sessions: no slot is held at the loop top, at a new plan, or after the end. */
  lemma NoSlotBetweenStatements(ys: seq<System>, steps: seq<Step>, i: nat, t: G.Tid)
    requires Run(ys, steps) && i < |ys| && t in ys[i].sessions && ys[i].sessions[t].pc in {Top, NewPlan, Done}
    ensures t !in ys[i].gate.holders + ys[i].gate.notified + ys[i].gate.asleep
  {
    RunKeeps(ys, steps, i);
    assert Linked(ys[i], t);
  }

  lemma InvLinks(y: System, t: G.Tid)
    requires Inv(y)
    ensures Linked(y, t)
  {
  }

  /** incr always finds the flag clear: no thread ever takes a second slot. */
  lemma NeverTwoSlots(ys: seq<System>, steps: seq<Step>, i: nat, t: G.Tid, e: Event)
    requires Run(ys, steps) && i < |ys| && t in ys[i].sessions
    requires Flow(ys[i].sessions[t], e).Move? && Flow(ys[i].sessions[t], e).action == Incr
    ensures !ys[i].sessions[t].counted && t !in ys[i].gate.holders
  {
    hide Inv, Apply, Enabled;
    RunKeeps(ys, steps, i);
    InvLinks(ys[i], t);
    FlowKeeps(ys[i].sessions[t], e);
  }

  /** When all sessions have ended, the shared counters are back at zero. */
  lemma AllSlotsReturned(ys: seq<System>, steps: seq<Step>, i: nat)
    requires Run(ys, steps) && i < |ys|
    requires forall t :: t in ys[i].sessions ==> ys[i].sessions[t].pc == Done
    ensures ys[i].gate.count == 0 && ys[i].gate.waiting == 0
  {
    RunKeeps(ys, steps, i);
    var g := ys[i].gate;
    forall t ensures t !in g.holders + g.notified + g.asleep {
      assert Linked(ys[i], t);
    }
    assert g.holders == {} && g.notified == {} && g.asleep == {};
  }

  // Where the slot is, said of the messages and outcomes a session has seen.

  /** The events of one session among some steps. */
  function Seen(steps: seq<Step>, t: G.Tid): (es: seq<Event>) {
    if steps == [] then []
    else
      var step := steps[|steps| - 1];
      var es := Seen(steps[..|steps| - 1], t);
      if step.Act? && step.t == t then es + [step.e] else es
  }

  /** The front end last asked for tuples, not for tables. */
  predicate TuplesAsked(es: seq<Event>) {
    && es != []
    && (es[|es| - 1].TupleFlag? || (!es[|es| - 1].PlanBytes? && TuplesAsked(es[..|es| - 1])))
  }

  /** The event ends a statement; the last band of a table does so unless tuples were asked for. */
  predicate EndsStatement(e: Event, tuples: bool) {
    || e.PlanAgain? || e.Finished? || e.ClientAborted? || e.HandlerDone?
    || (e.JobListFailed? && tuples) || (e.LastBand? && !tuples)
  }

  /** A plan was accepted, and nothing has ended its statement since. */
  predicate InStatement(es: seq<Event>) {
    && es != []
    && var e, before := es[|es| - 1], es[..|es| - 1];
       e.Planned? || (!EndsStatement(e, TuplesAsked(before)) && InStatement(before))
  }

  /** Nothing is in hand: the session has just begun, a statement has finished, or a tuple job list failed. */
  predicate Idle(es: seq<Event>) {
    || es == [] || es[|es| - 1].Finished?
    || (es[|es| - 1].JobListFailed? && TuplesAsked(es[..|es| - 1]))
  }

  /** Where a session stands is told by what it saw last. */
  predicate Stands(pc: Pc, es: seq<Event>) {
    if Idle(es) then pc == Top
    else
      var e, before := es[|es| - 1], es[..|es| - 1];
      match e
      case Closed => pc == if Idle(before) then Done else Finish
      case NotAPlan | ClientAborted | HandlerDone => pc == Done
      case TupleFlag | PlanBytes | PlanAgain => pc == NewPlan
      case Planned => pc == Entering || pc == Build
      case JobListBuilt | Answered | LastBand => pc == Tables
      case JobListFailed | Thrown => pc == Caught
      case QueryDone => pc == Finish
      case TableWanted | BandSent => pc == Bands
      case Finished => pc == Top
  }

  predicate Traced(s: Session, es: seq<Event>) {
    && Stands(s.pc, es)
    && s.tryTuples == TuplesAsked(es) && s.counted == InStatement(es)
    && (s.pc in {Tables, Bands, Finish} ==> s.usingTuples == s.tryTuples)
  }

  lemma FlowTraced(s: Session, e: Event, es: seq<Event>)
    requires FlowOk(s) && Flow(s, e).Move? && Traced(s, es)
    ensures var m := Flow(s, e); Traced(m.next.(counted := Flag(s, m.action)), es + [e])
  {
    hide TuplesAsked, InStatement;
    OneMore(es, e);
  }

  /** Which events a session can meet where it stands. */
  lemma MeetsIff(s: Session, e: Event)
    ensures Flow(s, e).Move? <==>
      match e
      case Closed => s.pc in {Top, Tables}
      case NotAPlan | TupleFlag | PlanBytes => s.pc == Top
      case Planned => s.pc == NewPlan
      case JobListBuilt | JobListFailed => s.pc == Build
      case PlanAgain | QueryDone | Answered | TableWanted => s.pc == Tables
      case BandSent | LastBand | ClientAborted => s.pc == Bands
      case Finished => s.pc == Finish
      case HandlerDone => s.pc == Caught
      case Thrown => s.pc !in {Entering, Caught, Done}
  {
  }

  lemma OneMore(es: seq<Event>, e: Event)
    ensures (es + [e])[..|es|] == es
    ensures TuplesAsked(es + [e]) == (e.TupleFlag? || (!e.PlanBytes? && TuplesAsked(es)))
    ensures InStatement(es + [e]) == (e.Planned? || (!EndsStatement(e, TuplesAsked(es)) && InStatement(es)))
  {
    assert (es + [e])[..|es|] == es;
  }

  ghost predicate AllTraced(y: System, steps: seq<Step>) {
    forall t :: t in y.sessions ==> Traced(y.sessions[t], Seen(steps, t))
  }

  lemma SeenGrows(steps: seq<Step>, step: Step, t: G.Tid)
    ensures Seen(steps + [step], t) == if step.Act? && step.t == t then Seen(steps, t) + [step.e] else Seen(steps, t)
  {
    assert (steps + [step])[..|steps|] == steps;
  }

  /** A thread that has not been started has seen nothing. */
  ghost predicate Fresh(y: System, steps: seq<Step>) {
    forall t :: t !in y.sessions ==> Seen(steps, t) == []
  }

  lemma StepTraced(y: System, steps: seq<Step>, step: Step)
    requires Inv(y) && Enabled(y, step) && AllTraced(y, steps) && Fresh(y, steps)
    ensures AllTraced(Apply(y, step), steps + [step]) && Fresh(Apply(y, step), steps + [step])
  {
    hide Flow, G.Inv, Traced, FlowOk, Seen;
    var y' := Apply(y, step);
    forall t | t in y'.sessions ensures Traced(y'.sessions[t], Seen(steps + [step], t)) {
      SeenGrows(steps, step, t);
      assert Linked(y, t);
      ThreadTraced(y, step, t, Seen(steps, t));
    }
    forall t | t !in y'.sessions ensures Seen(steps + [step], t) == [] {
      SeenGrows(steps, step, t);
    }
  }

  lemma ThreadTraced(y: System, step: Step, t: G.Tid, es: seq<Event>)
    requires Enabled(y, step) && Linked(y, t) && t in Apply(y, step).sessions
    requires if t in y.sessions then Traced(y.sessions[t], es) else es == []
    ensures Traced(Apply(y, step).sessions[t], if step.Act? && step.t == t then es + [step.e] else es)
  {
    hide Flow, FlowOk, TuplesAsked, InStatement, Stands;
    match step
    case Spawn(u) => if u == t { FreshTraced(); }
    case Woken(u) => if u == t { WaitsThere(y.sessions[t].pc, es); }
    case Act(u, e, signalled) =>
      if u == t {
        FlowKeeps(y.sessions[t], e);
        FlowTraced(y.sessions[t], e, es);
        if Flow(y.sessions[t], e).action == Incr { WaitsThere(Entering, es + [e]); }
      }
  }

  /** Waiting in incr and being past it are one place. */
  lemma WaitsThere(pc: Pc, es: seq<Event>)
    requires pc == Entering && Stands(pc, es)
    ensures Stands(Build, es)
  {
  }

  lemma FreshTraced()
    ensures Traced(FRESH, [])
  {
  }

  lemma {:induction false} RunTraced(ys: seq<System>, steps: seq<Step>, i: nat)
    requires Run(ys, steps) && i < |ys|
    ensures AllTraced(ys[i], steps[..i]) && Fresh(ys[i], steps[..i])
  {
    hide Inv, Enabled, Apply, AllTraced, Fresh, Run;
    RunBegins(ys, steps);
    if i > 0 {
      RunTraced(ys, steps, i - 1);
      RunKeeps(ys, steps, i - 1);
      RunStep(ys, steps, i - 1);
      StepTraced(ys[i - 1], steps[..i - 1], steps[i - 1]);
    }
  }

  lemma RunStep(ys: seq<System>, steps: seq<Step>, i: nat)
    requires Run(ys, steps) && i < |steps|
    ensures Enabled(ys[i], steps[i]) && ys[i + 1] == Apply(ys[i], steps[i])
    ensures steps[..i + 1] == steps[..i] + [steps[i]]
  {
    hide Enabled, Apply;
  }

  lemma RunBegins(ys: seq<System>, steps: seq<Step>)
    requires Run(ys, steps)
    ensures |ys| == |steps| + 1 && AllTraced(ys[0], steps[..0]) && Fresh(ys[0], steps[..0])
  {
    hide Enabled, Apply;
  }

  /**
    In every run: a session is at the gate, with a slot or waiting for one, exactly while a plan it
    accepted is in hand. In table mode the last band of a table ends that, whatever it serves
    afterwards; a tuple query goes on to its end.
   */
  lemma AtGateIff(ys: seq<System>, steps: seq<Step>, i: nat, t: G.Tid)
    requires Run(ys, steps) && i < |ys| && t in ys[i].sessions
    ensures var g := ys[i].gate;
      && (t in g.holders + g.notified + g.asleep <==> InStatement(Seen(steps[..i], t)))
      && (t in g.holders <==> InStatement(Seen(steps[..i], t)) && ys[i].sessions[t].pc != Entering)
  {
    hide Enabled, Apply, Seen, InStatement;
    RunKeeps(ys, steps, i);
    RunTraced(ys, steps, i);
    InvLinks(ys[i], t);
    if ys[i].sessions[t].pc == Entering { WaitsCounted(ys[i].sessions[t]); }
  }

  /** In every run, a session stands where what it saw last put it. */
  lemma StandsThere(ys: seq<System>, steps: seq<Step>, i: nat, t: G.Tid)
    requires Run(ys, steps) && i < |ys| && t in ys[i].sessions
    ensures Stands(ys[i].sessions[t].pc, Seen(steps[..i], t))
  {
    hide Enabled, Apply, Seen, InStatement, Stands;
    RunTraced(ys, steps, i);
  }

  lemma WaitsCounted(s: Session)
    requires FlowOk(s) && s.pc == Entering
    ensures s.counted
  {
  }

  /** None of some steps is that session's acceptance of a plan. */
  predicate NoPlan(steps: seq<Step>, t: G.Tid) {
    forall step :: step in steps ==> !(step.Act? && step.t == t && step.e.Planned?)
  }

  lemma {:induction false} StaysOut(steps: seq<Step>, i: nat, t: G.Tid)
    requires i <= |steps| && NoPlan(steps[i..], t) && !InStatement(Seen(steps[..i], t))
    ensures !InStatement(Seen(steps, t))
    decreases |steps|
  {
    hide Seen, InStatement, TuplesAsked;
    if i == |steps| {
      assert steps[..i] == steps;
    } else {
      var front, step := steps[..|steps| - 1], steps[|steps| - 1];
      assert front[..i] == steps[..i] && steps == front + [step];
      assert forall s :: s in front[i..] ==> s in steps[i..];
      StaysOut(front, i, t);
      assert step in steps[i..];
      SeenGrows(front, step, t);
      if step.Act? && step.t == t { OneMore(Seen(front, t), step.e); }
    }
  }

  /** A table-mode session has its slot back from the last band of a table until it accepts its next plan. */
  lemma NoSlotAfterLastBand(ys: seq<System>, steps: seq<Step>, i: nat, j: nat, t: G.Tid)
    requires Run(ys, steps) && i < j <= |steps|
    requires steps[i].Act? && steps[i].t == t && steps[i].e.LastBand? && !TuplesAsked(Seen(steps[..i], t))
    requires NoPlan(steps[i + 1..j], t) && t in ys[j].sessions
    ensures t !in ys[j].gate.holders + ys[j].gate.notified + ys[j].gate.asleep
  {
    hide Enabled, Apply, Seen, InStatement, TuplesAsked, Run;
    RunBegins(ys, steps);
    assert steps[..i + 1] == steps[..i] + [steps[i]];
    SeenGrows(steps[..i], steps[i], t);
    OneMore(Seen(steps[..i], t), steps[i].e);
    assert steps[..j][..i + 1] == steps[..i + 1] && steps[..j][i + 1..] == steps[i + 1..j];
    StaysOut(steps[..j], i + 1, t);
    AtGateIff(ys, steps, j, t);
  }

  /** None of some steps ends a tuple query of that session, or asks for tables instead. */
  predicate KeepsTuples(steps: seq<Step>, t: G.Tid) {
    forall step :: step in steps && step.Act? && step.t == t ==> !EndsStatement(step.e, true) && !step.e.PlanBytes?
  }

  lemma {:induction false} StaysIn(steps: seq<Step>, i: nat, t: G.Tid)
    requires i <= |steps| && KeepsTuples(steps[i..], t)
    requires TuplesAsked(Seen(steps[..i], t)) && InStatement(Seen(steps[..i], t))
    ensures TuplesAsked(Seen(steps, t)) && InStatement(Seen(steps, t))
    decreases |steps|
  {
    hide Seen, InStatement, TuplesAsked;
    if i == |steps| {
      assert steps[..i] == steps;
    } else {
      var front, step := steps[..|steps| - 1], steps[|steps| - 1];
      assert front[..i] == steps[..i] && steps == front + [step];
      assert forall s :: s in front[i..] ==> s in steps[i..];
      StaysIn(front, i, t);
      assert step in steps[i..];
      SeenGrows(front, step, t);
      if step.Act? && step.t == t { OneMore(Seen(front, t), step.e); }
    }
  }

  /** A tuple session stays at the gate from its plan to the end of its statement, however many tables it serves. */
  lemma TuplesKeepSlot(ys: seq<System>, steps: seq<Step>, i: nat, j: nat, t: G.Tid)
    requires Run(ys, steps) && i < j <= |steps|
    requires steps[i].Act? && steps[i].t == t && steps[i].e.Planned? && TuplesAsked(Seen(steps[..i], t))
    requires KeepsTuples(steps[i + 1..j], t) && t in ys[j].sessions
    ensures t in ys[j].gate.holders + ys[j].gate.notified + ys[j].gate.asleep
    ensures ys[j].sessions[t].pc != Entering ==> t in ys[j].gate.holders
  {
    hide Enabled, Apply, Seen, InStatement, TuplesAsked, Run;
    RunBegins(ys, steps);
    assert steps[..i + 1] == steps[..i] + [steps[i]];
    SeenGrows(steps[..i], steps[i], t);
    OneMore(Seen(steps[..i], t), steps[i].e);
    assert steps[..j][..i + 1] == steps[..i + 1] && steps[..j][i + 1..] == steps[i + 1..j];
    StaysIn(steps[..j], i + 1, t);
    AtGateIff(ys, steps, j, t);
  }
}
