/**
  Batch insert: packages are spread over the PMs, each PM working on one batch at a time. Replies
  come back in any order, may carry an error, may be lost, and a read may throw.
 */
module BatchInsert {
  import opened Wrappers
  import opened Replies

  type Pkg = nat
  type Msg = Reply<nat>   // an answer comes from a PM
  type Hwm = nat

  /** One read after the end message; `Late` is what a batch left behind. */
  datatype EndReply = Late(reply: Msg) | End(rc: nat, pm: nat, hwms: seq<Hwm>)

  const RANGE_WARNING := 13

  /**
    `free` is the flag per PM, `added` every package handed over, `sent` the batches written so far,
    `flight` the PMs that owe the answer to a batch, `ends` those that owe the answer to the end
    message, `hwmCalls` the bulk high-water-mark updates requested.
   */
  datatype Proc = Proc(pms: seq<nat>, autocommit: bool, free: map<nat, bool>, queue: seq<Pkg>, error: nat,
                       hwmArgs: seq<seq<Hwm>>, added: seq<Pkg>, sent: seq<(nat, Pkg)>, flight: multiset<nat>,
                       ends: multiset<nat>, hwmCalls: seq<seq<Hwm>>)

  /** How a call ends: it still waits for a message, an exception leaves it, or it returns. */
  datatype Outcome = Waiting | Threw(proc: Proc) | Done(proc: Proc)

  /** Whether the batch loader could pick a PM, and whether the write to it went through. */
  datatype Try = Works | ChoiceFails | WriteThrows

  function Start(pms: seq<nat>, autocommit: bool): (p: Proc) {
    Proc(pms, autocommit, map pm | pm in pms :: true, [], 0, [], [], [], multiset{}, multiset{}, [])
  }

  predicate IsFree(p: Proc, pm: nat) {
    pm in p.free && p.free[pm]
  }

  function AddPkg(p: Proc, pkg: Pkg): (p': Proc) {
    p.(queue := p.queue + [pkg], added := p.added + [pkg])
  }

  /** The oldest package goes to a PM. */
  function Write(p: Proc, pm: nat): (p': Proc)
    requires p.queue != []
  {
    p.(queue := p.queue[1..], sent := p.sent + [(pm, p.queue[0])],
       flight := p.flight + multiset{pm}, free := p.free[pm := false])
  }

  function Answered(p: Proc, rc: nat, pm: nat): (p': Proc) {
    p.(free := p.free[pm := true], flight := p.flight - multiset{pm}, error := if rc != 0 then rc else p.error)
  }

  /** The package is off the queue before it is written. */
  function TryWrite(p: Proc, pm: nat, how: Try): (o: Outcome)
    requires p.queue != []
  {
    if how.WriteThrows? then Threw(p.(queue := p.queue[1..])) else Done(Write(p, pm))
  }

  function SendFirst(p: Proc, choice: nat, how: Try): (o: Outcome)
    requires p.queue != []
  {
    if how.ChoiceFails? || choice == 0 then Done(p.(error := 1)) else TryWrite(p, choice, how)
  }

  /** Reading until the wanted PM answers, an error answer, or an empty message. */
  function Drain(p: Proc, pm: nat, msgs: seq<Msg>): (o: Outcome)
    decreases |msgs|
  {
    if msgs == [] then Waiting
    else
      match msgs[0]
      case Lost => Done(p.(error := NETWORK_ERROR))
      case Thrown => Threw(p)
      case Ack(rc, from) =>
        if rc != 0 || from == pm then Done(Answered(p, rc, from))
        else Drain(Answered(p, rc, from), pm, msgs[1..])
  }

  /**
    sendNextBatch; `choice` is the PM the batch loader picked, unless it failed. The package is off
    the queue before the wait.
   */
  function SendNext(p: Proc, choice: nat, how: Try, msgs: seq<Msg>): (o: Outcome)
    requires p.queue != []
  {
    if how.ChoiceFails? then Done(p.(error := 1))
    else if IsFree(p, choice) then TryWrite(p, choice, how)
    else
      DrainFrame(p, choice, msgs);
      match Drain(p, choice, msgs)
      case Waiting => Waiting
      case Threw(q) => Threw(q.(queue := p.queue[1..]))
      case Done(q) => TryWrite(q, choice, how)
  }

  function Busy(pms: seq<nat>, free: map<nat, bool>): (n: nat)
    ensures n <= |pms|
  {
    if pms == [] then 0
    else (if pms[|pms| - 1] in free && free[pms[|pms| - 1]] then 0 else 1) + Busy(pms[..|pms| - 1], free)
  }

  /** Reading until `n` answers came; empty messages only set the error, an exception ends the loop. */
  function Receive(p: Proc, n: nat, msgs: seq<Msg>): (o: Outcome)
    decreases |msgs|
  {
    if n == 0 then Done(p)
    else if msgs == [] then Waiting
    else
      match msgs[0]
      case Lost => Receive(p.(error := 1), n, msgs[1..])
      case Thrown => Done(p.(error := NETWORK_ERROR))
      case Ack(rc, from) => Receive(Answered(p, rc, from), n - 1, msgs[1..])
  }

  function ReceiveOutstanding(p: Proc, msgs: seq<Msg>): (o: Outcome) {
    Receive(p, Busy(p.pms, p.free), msgs)
  }

  /** The end message to every PM; a failing write only sets the error. */
  function SendLast(p: Proc, failed: bool): (p': Proc) {
    if failed then p.(error := 1) else p.(ends := p.ends + multiset(p.pms))
  }

  function Collected(p: Proc, hwms: seq<Hwm>): (p': Proc) {
    if p.autocommit then p else p.(hwmArgs := p.hwmArgs + [hwms])
  }

  function Ended(p: Proc, rc: nat, pm: nat, hwms: seq<Hwm>): (p': Proc) {
    Collected(p, hwms).(ends := p.ends - multiset{pm}, error := if rc != 0 then rc else p.error)
  }

  /**
    Reading `n` messages after the end message. The answer to a batch carries no high-water marks:
    with autocommit off taking it apart throws and ends the loop.
   */
  function Collect(p: Proc, n: nat, msgs: seq<EndReply>): (o: Outcome)
    decreases |msgs|
  {
    if n == 0 then Done(p)
    else if msgs == [] then Waiting
    else
      match msgs[0]
      case End(rc, pm, hwms) => Collect(Ended(p, rc, pm, hwms), n - 1, msgs[1..])
      case Late(Lost) => Collect(Collected(p, []).(error := NETWORK_ERROR), n - 1, msgs[1..])
      case Late(Thrown) => Done(p.(error := 1))
      case Late(Ack(rc, pm)) =>
        if p.autocommit then
          Collect(p.(flight := p.flight - multiset{pm}, error := if rc != 0 then rc else p.error), n - 1, msgs[1..])
        else Done(p.(flight := p.flight - multiset{pm}, error := 1))
  }

  function SetHwm(p: Proc, brmRc: nat): (p': Proc)
    requires |p.pms| <= |p.hwmArgs|
  {
    var all := Flatten(p.hwmArgs[..|p.pms|]);
    if |all| == 0 then p
    else p.(hwmCalls := p.hwmCalls + [all], error := if brmRc != 0 then brmRc else p.error)
  }

  function ReceiveAll(p: Proc, msgs: seq<EndReply>, brmRc: nat): (o: Outcome) {
    var o := Collect(p, |p.pms|, msgs);
    if o.Done? && !o.proc.autocommit && |o.proc.hwmArgs| == |o.proc.pms| then
      Done(SetHwm(o.proc, brmRc))
    else o
  }

  lemma {:induction false} DrainFrame(p: Proc, pm: nat, msgs: seq<Msg>)
    ensures var o := Drain(p, pm, msgs);
      !o.Waiting? ==> o.proc == p.(free := o.proc.free, flight := o.proc.flight, error := o.proc.error)
    decreases |msgs|
  {
    if msgs != [] && msgs[0].Ack? && msgs[0].rc == 0 && msgs[0].from != pm {
      DrainFrame(Answered(p, msgs[0].rc, msgs[0].from), pm, msgs[1..]);
    }
  }

  /** Every answer in the list comes from a PM that owes one when its turn comes. */
  predicate Plausible(owed: multiset<nat>, msgs: seq<Msg>)
    decreases |msgs|
  {
    msgs == [] ||
    if msgs[0].Ack? then msgs[0].from in owed && Plausible(owed - multiset{msgs[0].from}, msgs[1..])
    else Plausible(owed, msgs[1..])
  }

  /** A flag is false exactly at the PMs that owe the answer to one batch; nobody owes two. */
  ghost predicate FlagsTrue(p: Proc) {
    && (forall pm :: pm in p.pms ==> pm in p.free)
    && (forall pm :: p.flight[pm] == if pm in p.pms && !p.free[pm] then 1 else 0)
  }

  lemma AnsweredKeeps(p: Proc, rc: nat, pm: nat)
    requires FlagsTrue(p) && pm in p.flight
    ensures FlagsTrue(Answered(p, rc, pm)) && pm in p.pms && !p.free[pm]
  {
    var p' := Answered(p, rc, pm);
    assert p.flight[pm] == 1;
    forall q ensures p'.flight[q] == if q in p'.pms && !p'.free[q] then 1 else 0 {
      assert p.flight[q] == if q in p.pms && !p.free[q] then 1 else 0;
    }
  }

  lemma WriteKeeps(p: Proc, pm: nat)
    requires FlagsTrue(p) && pm in p.pms && p.queue != []
    ensures FlagsTrue(Write(p, pm)) <==> p.free[pm]
    ensures !p.free[pm] ==> Write(p, pm).flight[pm] == 2
  {
    var p' := Write(p, pm);
    assert p.flight[pm] == if p.free[pm] then 0 else 1;
    assert p'.flight[pm] == p.flight[pm] + 1;
    if p.free[pm] {
      forall q ensures p'.flight[q] == if q in p'.pms && !p'.free[q] then 1 else 0 {
        assert p.flight[q] == if q in p.pms && !p.free[q] then 1 else 0;
      }
    }
  }

  /** Message number `k` ends the wait for a PM: all before are answers of 0 from others. */
  predicate StopsAt(pm: nat, msgs: seq<Msg>, k: int) {
    && 0 <= k < |msgs| && (forall j :: 0 <= j < k ==> Fine(msgs[j]) && msgs[j].from != pm)
    && !(Fine(msgs[k]) && msgs[k].from != pm)
  }

  /** It is that PM's own answer. */
  predicate OwnAt(pm: nat, msgs: seq<Msg>, k: int) {
    StopsAt(pm, msgs, k) && msgs[k].Ack? && msgs[k].from == pm
  }

  lemma StopsLater(pm: nat, msgs: seq<Msg>, k: int)
    requires msgs != [] && Fine(msgs[0]) && msgs[0].from != pm
    ensures StopsAt(pm, msgs, k + 1) <==> StopsAt(pm, msgs[1..], k)
    ensures OwnAt(pm, msgs, k + 1) <==> OwnAt(pm, msgs[1..], k)
    ensures !StopsAt(pm, msgs, 0)
  {
    if StopsAt(pm, msgs, k + 1) {
      assert forall j :: 0 <= j < k ==> msgs[1..][j] == msgs[j + 1];
    }
    if StopsAt(pm, msgs[1..], k) {
      forall j | 0 <= j < k + 1 ensures Fine(msgs[j]) && msgs[j].from != pm {
        if j > 0 { assert msgs[j] == msgs[1..][j - 1]; }
      }
    }
  }

  /** The wanted PM is free after the wait exactly when its own answer ended the loop. */
  lemma {:induction false} DrainFrees(p: Proc, pm: nat, msgs: seq<Msg>)
    requires !IsFree(p, pm)
    ensures var o := Drain(p, pm, msgs); o.Done? ==> (IsFree(o.proc, pm) <==> exists k :: OwnAt(pm, msgs, k))
    decreases |msgs|
  {
    if msgs == [] {
    } else if Fine(msgs[0]) && msgs[0].from != pm {
      DrainFrees(Answered(p, 0, msgs[0].from), pm, msgs[1..]);
      forall k ensures OwnAt(pm, msgs, k) <==> OwnAt(pm, msgs[1..], k - 1) { StopsLater(pm, msgs, k - 1); }
      if k :| OwnAt(pm, msgs[1..], k) { assert OwnAt(pm, msgs, k + 1); }
    } else {
      assert OwnAt(pm, msgs, 0) <==> msgs[0].Ack? && msgs[0].from == pm;
    }
  }

  /** Draining keeps the flags true. */
  lemma {:induction false} DrainKeeps(p: Proc, pm: nat, msgs: seq<Msg>)
    requires FlagsTrue(p) && Plausible(p.flight, msgs)
    ensures var o := Drain(p, pm, msgs); o.Done? ==> FlagsTrue(o.proc)
    decreases |msgs|
  {
    hide FlagsTrue;
    if msgs != [] {
      if msgs[0].Ack? {
        AnsweredKeeps(p, msgs[0].rc, msgs[0].from);
        if msgs[0].rc == 0 && msgs[0].from != pm {
          DrainKeeps(Answered(p, 0, msgs[0].from), pm, msgs[1..]);
        }
      } else {
        ErrorKeepsFlags(p, NETWORK_ERROR);
      }
    }
  }

  /** The PM can take a batch, or the wait for it will end on its own answer. */
  ghost predicate Served(p: Proc, pm: nat, msgs: seq<Msg>) {
    IsFree(p, pm) || exists k :: OwnAt(pm, msgs, k)
  }

  /**
    sendNextBatch keeps one batch per busy PM exactly when the PM was free or its own answer ends
    the wait. After an empty message, or an error answer of another PM, the batch still goes out,
    to a PM that then owes two answers.
   */
  lemma SendNextKeeps(p: Proc, pm: nat, how: Try, msgs: seq<Msg>)
    requires !how.ChoiceFails? && FlagsTrue(p) && pm in p.pms && p.queue != [] && Plausible(p.flight, msgs)
    ensures var o := SendNext(p, pm, how, msgs);
      && (o.Done? ==> (FlagsTrue(o.proc) <==> Served(p, pm, msgs)))
      && (o.Done? && !FlagsTrue(o.proc) ==> o.proc.flight[pm] == 2)
  {
    hide Drain, Plausible, FlagsTrue, OwnAt;
    FlagKnown(p, pm);
    if IsFree(p, pm) {
      WriteKeeps(p, pm);
    } else {
      DrainFrame(p, pm, msgs);
      DrainKeeps(p, pm, msgs);
      DrainFrees(p, pm, msgs);
      if Drain(p, pm, msgs).Done? {
        FlagKnown(Drain(p, pm, msgs).proc, pm);
        WriteKeeps(Drain(p, pm, msgs).proc, pm);
      }
    }
  }

  lemma FlagKnown(p: Proc, pm: nat)
    requires FlagsTrue(p) && pm in p.pms
    ensures pm in p.free
  {
  }

  lemma {:induction false} BusyAnswered(pms: seq<nat>, free: map<nat, bool>, pm: nat)
    requires Distinct(pms)
    ensures Busy(pms, free[pm := true]) == Busy(pms, free) - if pm in pms && !(pm in free && free[pm]) then 1 else 0
  {
    if pms != [] {
      var front := pms[..|pms| - 1];
      BusyAnswered(front, free, pm);
      assert pms == front + [pms[|pms| - 1]];
      if pms[|pms| - 1] == pm {
        assert pm !in front;
      }
    }
  }

  lemma {:induction false} NoneBusy(pms: seq<nat>, free: map<nat, bool>, pm: nat)
    requires Busy(pms, free) == 0 && pm in pms
    ensures pm in free && free[pm]
  {
    var front := pms[..|pms| - 1];
    assert pms == front + [pms[|pms| - 1]];
    if pm in front {
      NoneBusy(front, free, pm);
    }
  }

  /** The error left by a wait is that of the message that ended it. */
  lemma {:induction false} DrainError(p: Proc, pm: nat, msgs: seq<Msg>, k: nat)
    requires StopsAt(pm, msgs, k)
    ensures var o := Drain(p, pm, msgs);
      && (o.Threw? <==> msgs[k].Thrown?) && !o.Waiting?
      && (o.Done? ==> o.proc.error == match msgs[k]
                                      case Ack(rc, _) => if rc != 0 then rc else p.error
                                      case _ => NETWORK_ERROR)
    decreases |msgs|
  {
    if k > 0 {
      StopsLater(pm, msgs, k - 1);
      DrainError(Answered(p, 0, msgs[0].from), pm, msgs[1..], k - 1);
    }
  }

  /** Receiving leaves no error exactly when there was none and each message read was an answer of 0. */
  lemma {:induction false} ReceiveError(p: Proc, n: nat, msgs: seq<Msg>)
    ensures var o := Receive(p, n, msgs);
      o.Done? ==> (o.proc.error == 0 <==> p.error == 0 && n <= |msgs| && forall i :: 0 <= i < n ==> Fine(msgs[i]))
    decreases |msgs|
  {
    if n != 0 && msgs != [] {
      assert msgs == [msgs[0]] + msgs[1..];
      match msgs[0]
      case Lost => ReceiveError(p.(error := 1), n, msgs[1..]); assert !Fine(msgs[0]);
      case Thrown => assert !Fine(msgs[0]);
      case Ack(rc, from) => ReceiveError(Answered(p, rc, from), n - 1, msgs[1..]);
    }
  }

  predicate NoThrow(msgs: seq<Msg>) {
    Thrown !in msgs
  }

  function Acks(msgs: seq<Msg>): (n: nat) {
    if msgs == [] then 0 else (if msgs[0].Ack? then 1 else 0) + Acks(msgs[1..])
  }

  /** The wait for a busy PM needs no more answers than there are busy PMs. */
  lemma {:induction false} DrainEnds(p: Proc, pm: nat, msgs: seq<Msg>)
    requires FlagsTrue(p) && Distinct(p.pms) && pm in p.pms && !p.free[pm] && Plausible(p.flight, msgs)
    requires Busy(p.pms, p.free) <= Acks(msgs)
    ensures !Drain(p, pm, msgs).Waiting?
    decreases |msgs|
  {
    if msgs == [] {
      NoneBusy(p.pms, p.free, pm);
    } else if msgs[0].Ack? {
      AnsweredKeeps(p, msgs[0].rc, msgs[0].from);
      BusyAnswered(p.pms, p.free, msgs[0].from);
      if msgs[0].rc == 0 && msgs[0].from != pm {
        DrainEnds(Answered(p, msgs[0].rc, msgs[0].from), pm, msgs[1..]);
      }
    }
  }

  lemma {:induction false} ReceiveFrame(p: Proc, n: nat, msgs: seq<Msg>)
    ensures var o := Receive(p, n, msgs);
      o.Done? ==> o.proc == p.(free := o.proc.free, flight := o.proc.flight, error := o.proc.error)
    decreases |msgs|
  {
    if n != 0 && msgs != [] {
      if msgs[0].Lost? {
        ReceiveFrame(p.(error := 1), n, msgs[1..]);
      } else if msgs[0].Ack? {
        ReceiveFrame(Answered(p, msgs[0].rc, msgs[0].from), n - 1, msgs[1..]);
      }
    }
  }

  lemma ReceiveHead(p: Proc, n: nat, msgs: seq<Msg>)
    ensures n == 0 ==> Receive(p, n, msgs) == Done(p)
    ensures n > 0 && msgs != [] && msgs[0].Lost? ==> Receive(p, n, msgs) == Receive(p.(error := 1), n, msgs[1..])
    ensures n > 0 && msgs != [] && msgs[0].Ack? ==>
      Receive(p, n, msgs) == Receive(Answered(p, msgs[0].rc, msgs[0].from), n - 1, msgs[1..])
  {
  }

  lemma MessagesHead(owed: multiset<nat>, msgs: seq<Msg>)
    ensures Acks(msgs) == if msgs == [] then 0 else (if msgs[0].Ack? then 1 else 0) + Acks(msgs[1..])
    ensures msgs != [] && msgs[0].Ack? && Plausible(owed, msgs) ==>
      msgs[0].from in owed && Plausible(owed - multiset{msgs[0].from}, msgs[1..])
    ensures msgs != [] && !msgs[0].Ack? && Plausible(owed, msgs) ==> Plausible(owed, msgs[1..])
  {
  }

  lemma NoneOwed(p: Proc)
    requires FlagsTrue(p) && Busy(p.pms, p.free) == 0
    ensures p.flight == multiset{}
  {
    forall pm ensures p.flight[pm] == 0 {
      if pm in p.pms { NoneBusy(p.pms, p.free, pm); }
    }
  }

  lemma ErrorKeepsFlags(p: Proc, error: nat)
    requires FlagsTrue(p)
    ensures FlagsTrue(p.(error := error))
  {
    forall pm ensures p.(error := error).flight[pm] == if pm in p.pms && !p.free[pm] then 1 else 0 {}
  }

  /** Receiving as many answers as there are busy PMs leaves no batch unanswered. */
  lemma {:induction false} ReceiveEmpties(p: Proc, msgs: seq<Msg>)
    requires FlagsTrue(p) && Distinct(p.pms) && Plausible(p.flight, msgs) && NoThrow(msgs)
    requires Busy(p.pms, p.free) <= Acks(msgs)
    ensures var o := ReceiveOutstanding(p, msgs);
      o.Done? && FlagsTrue(o.proc) && o.proc.flight == multiset{}
    decreases |msgs|
  {
    hide Busy, FlagsTrue, Acks, Plausible, Receive;
    ReceiveHead(p, Busy(p.pms, p.free), msgs);
    MessagesHead(p.flight, msgs);
    if Busy(p.pms, p.free) == 0 {
      NoneOwed(p);
    } else if msgs[0].Ack? {
      AnsweredKeeps(p, msgs[0].rc, msgs[0].from);
      BusyAnswered(p.pms, p.free, msgs[0].from);
      ReceiveEmpties(Answered(p, msgs[0].rc, msgs[0].from), msgs[1..]);
    } else {
      ErrorKeepsFlags(p, 1);
      ReceiveEmpties(p.(error := 1), msgs[1..]);
    }
  }

  predicate Goes(p: Proc) {
    p.error == 0 || p.error == RANGE_WARNING
  }

  /** A package as it arrives: what it holds, the PM chosen for it, what is read while sending it. */
  datatype Batch = Batch(pkg: Pkg, pm: nat, how: Try, msgs: seq<Msg>)

  function Feed(p: Proc, b: Batch): (o: Outcome) {
    SendNext(AddPkg(p, b.pkg), b.pm, b.how, b.msgs)
  }

  /** The packages of one statement, fed until one meets an error that ends the batch. */
  function Run(p: Proc, bs: seq<Batch>): (o: Outcome)
    decreases |bs|
  {
    if bs == [] || !Goes(p) then Done(p)
    else
      var o := Feed(p, bs[0]);
      if o.Done? then Run(o.proc, bs[1..]) else o
  }

  function Packages(sent: seq<(nat, Pkg)>): (s: seq<Pkg>)
    ensures |s| == |sent|
  {
    seq(|sent|, i requires 0 <= i < |sent| => sent[i].1)
  }

  /** What was sent, then what is still queued, is what was added, in order. */
  predicate Conserved(p: Proc) {
    Packages(p.sent) + p.queue == p.added
  }

  lemma WriteConserves(p: Proc, pm: nat)
    requires Conserved(p) && p.queue != []
    ensures Conserved(Write(p, pm))
  {
    var p' := Write(p, pm);
    assert Packages(p'.sent) == Packages(p.sent) + [p.queue[0]];
    assert [p.queue[0]] + p.queue[1..] == p.queue;
  }

  /** The oldest package that was not sent is neither sent nor queued; the others are, in order. */
  predicate OneLost(p: Proc) {
    |p.sent| < |p.added| && Packages(p.sent) + [p.added[|p.sent|]] + p.queue == p.added
  }

  lemma AddConserves(p: Proc, pkg: Pkg)
    requires Conserved(p)
    ensures Conserved(AddPkg(p, pkg))
  {
    assert Packages(p.sent) + (p.queue + [pkg]) == p.added + [pkg];
  }

  lemma InHandIsLost(q: Proc, r: Proc)
    requires Conserved(q) && q.queue != [] && r.sent == q.sent && r.added == q.added && r.queue == q.queue[1..]
    ensures OneLost(r)
  {
    assert [q.queue[0]] + q.queue[1..] == q.queue;
    assert q.added[|q.sent|] == q.queue[0];
    Regroup(Packages(q.sent), [q.queue[0]], q.queue[1..]);
  }

  lemma FeedConserves(p: Proc, b: Batch)
    requires Conserved(p)
    ensures Feed(p, b).Done? ==> Conserved(Feed(p, b).proc)
    ensures Feed(p, b).Threw? ==> OneLost(Feed(p, b).proc)
  {
    hide Drain, OneLost;
    var q := AddPkg(p, b.pkg);
    AddConserves(p, b.pkg);
    DrainFrame(q, b.pm, b.msgs);
    if Feed(p, b).Threw? {
      InHandIsLost(q, Feed(p, b).proc);
    } else if !b.how.ChoiceFails? {
      if IsFree(q, b.pm) {
        WriteConserves(q, b.pm);
      } else if Drain(q, b.pm, b.msgs).Done? {
        WriteConserves(Drain(q, b.pm, b.msgs).proc, b.pm);
      }
    }
  }

  /**
    Whatever is read, no package is doubled or reordered, and none is lost while the calls return;
    when an exception leaves a call, exactly the package it had in hand is lost.
   */
  lemma {:induction false} RunConserves(p: Proc, bs: seq<Batch>)
    requires Conserved(p)
    ensures Run(p, bs).Done? ==> Conserved(Run(p, bs).proc)
    ensures Run(p, bs).Threw? ==> OneLost(Run(p, bs).proc)
    decreases |bs|
  {
    hide Feed, Conserved, OneLost;
    if bs != [] && Goes(p) {
      FeedConserves(p, bs[0]);
      if Feed(p, bs[0]).Done? {
        RunConserves(Feed(p, bs[0]).proc, bs[1..]);
      }
    }
  }

  /** Up to the first error: each call picks a PM of the list, and all it reads are answers of 0 that are owed. */
  predicate Faultless(p: Proc, bs: seq<Batch>)
    decreases |bs|
  {
    bs == [] ||
    var b := bs[0];
    && b.how.Works? && b.pm in p.pms && Plausible(p.flight, b.msgs) && (forall m :: m in b.msgs ==> Fine(m))
    && (Feed(p, b).Done? ==> Faultless(Feed(p, b).proc, bs[1..]))
  }

  lemma FeedFrame(p: Proc, b: Batch)
    requires Feed(p, b).Done?
    ensures !b.how.ChoiceFails? ==> |Feed(p, b).proc.queue| == |p.queue|
    ensures SameSettings(p, Feed(p, b).proc)
  {
    DrainFrame(AddPkg(p, b.pkg), b.pm, b.msgs);
  }

  predicate SameSettings(p: Proc, q: Proc) {
    && q.pms == p.pms && q.ends == p.ends && q.hwmArgs == p.hwmArgs && q.autocommit == p.autocommit
    && q.hwmCalls == p.hwmCalls
  }

  /** Among answers of 0 only, a wait ends on the wanted PM's own and leaves the error as it was. */
  lemma {:induction false} FineDrain(p: Proc, pm: nat, msgs: seq<Msg>)
    requires forall m :: m in msgs ==> Fine(m)
    ensures var o := Drain(p, pm, msgs);
      && !o.Threw?
      && (o.Done? ==> o.proc.error == p.error && exists k :: OwnAt(pm, msgs, k))
    decreases |msgs|
  {
    if msgs != [] {
      assert msgs[0] in msgs;
      if msgs[0].from == pm {
        assert OwnAt(pm, msgs, 0);
      } else {
        FineDrain(Answered(p, 0, msgs[0].from), pm, msgs[1..]);
        if k :| OwnAt(pm, msgs[1..], k) {
          StopsLater(pm, msgs, k);
          assert OwnAt(pm, msgs, k + 1);
        }
      }
    }
  }

  lemma AddKeepsFlags(p: Proc, pkg: Pkg)
    requires FlagsTrue(p)
    ensures FlagsTrue(AddPkg(p, pkg))
  {
    var q := AddPkg(p, pkg);
    forall pm ensures q.flight[pm] == if pm in q.pms && !q.free[pm] then 1 else 0 {
      assert p.flight[pm] == if pm in p.pms && !p.free[pm] then 1 else 0;
    }
  }

  lemma FeedKeeps(p: Proc, b: Batch)
    requires FlagsTrue(p) && b.how.Works? && b.pm in p.pms && Plausible(p.flight, b.msgs)
    requires forall m :: m in b.msgs ==> Fine(m)
    ensures var o := Feed(p, b); !o.Threw? && (o.Done? ==> FlagsTrue(o.proc) && o.proc.error == p.error)
  {
    hide FlagsTrue, Plausible, Drain, OwnAt;
    var q := AddPkg(p, b.pkg);
    AddKeepsFlags(p, b.pkg);
    SendNextKeeps(q, b.pm, b.how, b.msgs);
    FineDrain(q, b.pm, b.msgs);
  }

  /** In every run up to the first error or empty reply, the flags stay true, no package waits and nothing throws. */
  lemma {:induction false} RunKeeps(p: Proc, bs: seq<Batch>)
    requires FlagsTrue(p) && Goes(p) && p.queue == [] && Faultless(p, bs)
    ensures var o := Run(p, bs);
      && !o.Threw?
      && (o.Done? ==> FlagsTrue(o.proc) && o.proc.queue == [] && o.proc.error == p.error && SameSettings(p, o.proc))
    decreases |bs|
  {
    hide FlagsTrue, Feed, Plausible;
    if bs != [] {
      FeedKeeps(p, bs[0]);
      if Feed(p, bs[0]).Done? {
        FeedFrame(p, bs[0]);
        RunKeeps(Feed(p, bs[0]).proc, bs[1..]);
      }
    }
  }

  /** Each call that has to wait gets as many answers as there are busy PMs. */
  predicate Supplied(p: Proc, bs: seq<Batch>)
    decreases |bs|
  {
    bs == [] ||
    var b := bs[0];
    (IsFree(p, b.pm) || Busy(p.pms, p.free) <= |b.msgs|) && (Feed(p, b).Done? ==> Supplied(Feed(p, b).proc, bs[1..]))
  }

  lemma {:induction false} FineAcks(msgs: seq<Msg>)
    requires forall m :: m in msgs ==> Fine(m)
    ensures Acks(msgs) == |msgs|
  {
    if msgs != [] {
      assert msgs[0] in msgs;
      FineAcks(msgs[1..]);
    }
  }

  /** Such a run does not get stuck. */
  lemma {:induction false} RunProceeds(p: Proc, bs: seq<Batch>)
    requires FlagsTrue(p) && Goes(p) && p.queue == [] && Distinct(p.pms) && Faultless(p, bs) && Supplied(p, bs)
    ensures Run(p, bs).Done?
    decreases |bs|
  {
    hide FlagsTrue, Plausible, Drain, Busy, Acks;
    if bs != [] {
      var b, q := bs[0], AddPkg(p, bs[0].pkg);
      AddKeepsFlags(p, b.pkg);
      FeedKeeps(p, b);
      FineAcks(b.msgs);
      FlagKnown(p, b.pm);
      if !IsFree(q, b.pm) { DrainEnds(q, b.pm, b.msgs); }
      FeedFrame(p, b);
      RunProceeds(Feed(p, b).proc, bs[1..]);
    }
  }

  lemma RunStep(p: Proc, b: Batch, rest: seq<Batch>)
    ensures Run(p, []) == Done(p)
    ensures Goes(p) && Feed(p, b).Done? ==> Run(p, [b] + rest) == Run(Feed(p, b).proc, rest)
  {
    assert ([b] + rest)[1..] == rest;
  }

  /** Two packages for two free PMs. */
  lemma TwoSent()
    ensures var o := Run(Start([1, 2], true), [Batch(5, 1, Works, []), Batch(6, 2, Works, [])]);
      && o.Done? && FlagsTrue(o.proc) && o.proc.error == 0 && o.proc.pms == [1, 2]
      && o.proc.free == map[1 := false, 2 := false] && o.proc.flight == multiset{1, 2}
  {
    hide FlagsTrue, Run;
    var p, a, b := Start([1, 2], true), Batch(5, 1, Works, []), Batch(6, 2, Works, []);
    StartHolds([1, 2], true);
    var q := Write(AddPkg(p, 5), 1);
    var r := Write(AddPkg(q, 6), 2);
    assert Feed(p, a) == Done(q) && Feed(q, b) == Done(r);
    FeedKeeps(p, a);
    FeedKeeps(q, b);
    RunStep(p, a, [b]);
    RunStep(q, b, []);
    RunStep(r, b, []);
    assert [a] + [b] == [a, b] && [b] + [] == [b];
  }

  /**
    Two busy PMs, and the other one reports an error: the third package goes to a PM that is still
    working on the first.
   */
  lemma ErrorReplyDoublesBatch()
    ensures var two := Run(Start([1, 2], true), [Batch(5, 1, Works, []), Batch(6, 2, Works, [])]);
      && two.Done? && FlagsTrue(two.proc) && Goes(two.proc) && Plausible(two.proc.flight, [Ack(3, 2)])
      && var three := Feed(two.proc, Batch(7, 1, Works, [Ack(3, 2)]));
         three.Done? && three.proc.flight[1] == 2
  {
    hide FlagsTrue, Run;
    TwoSent();
    var r := Run(Start([1, 2], true), [Batch(5, 1, Works, []), Batch(6, 2, Works, [])]).proc;
    AddKeepsFlags(r, 7);
    SendNextKeeps(AddPkg(r, 7), 1, Works, [Ack(3, 2)]);
    forall k ensures !OwnAt(1, [Ack(3, 2)], k) {
      assert StopsAt(1, [Ack(3, 2)], 0);
    }
  }

  /** What may be read after the end message; a PM answers its batches first. */
  predicate PlausibleEnd(flight: multiset<nat>, ends: multiset<nat>, msgs: seq<EndReply>)
    decreases |msgs|
  {
    msgs == [] ||
    match msgs[0]
    case End(_, pm, _) => pm in ends && pm !in flight && PlausibleEnd(flight, ends - multiset{pm}, msgs[1..])
    case Late(Ack(_, pm)) => pm in flight && PlausibleEnd(flight - multiset{pm}, ends, msgs[1..])
    case Late(_) => PlausibleEnd(flight, ends, msgs[1..])
  }

  predicate AllArrive(msgs: seq<EndReply>) {
    forall m :: m in msgs ==> m.End? || m.reply.Ack?
  }

  predicate AllEnd(msgs: seq<EndReply>) {
    forall m :: m in msgs ==> m.End?
  }

  function Froms(msgs: seq<EndReply>): (pms: seq<nat>)
    requires AllEnd(msgs)
  {
    if msgs == [] then [] else [msgs[0].pm] + Froms(msgs[1..])
  }

  function Lists(msgs: seq<EndReply>): (lists: seq<seq<Hwm>>)
    requires AllEnd(msgs)
  {
    if msgs == [] then [] else [msgs[0].hwms] + Lists(msgs[1..])
  }

  /** With no batch unanswered, every answer is one to the end message. */
  lemma {:induction false} OnlyEnds(ends: multiset<nat>, msgs: seq<EndReply>)
    requires PlausibleEnd(multiset{}, ends, msgs) && AllArrive(msgs)
    ensures AllEnd(msgs)
    decreases |msgs|
  {
    if msgs != [] {
      assert msgs[0] in msgs;
      OnlyEnds(ends - multiset{msgs[0].pm}, msgs[1..]);
      assert msgs == [msgs[0]] + msgs[1..];
    }
  }

  lemma CollectStep(p: Proc, m: EndReply, tail: seq<EndReply>, n: nat)
    requires m.End?
    ensures Collect(p, n + 1, [m] + tail) == Collect(Ended(p, m.rc, m.pm, m.hwms), n, tail)
    ensures Collect(p, 0, tail) == Done(p)
  {
    assert ([m] + tail)[1..] == tail;
  }

  function AllEnded(p: Proc, msgs: seq<EndReply>): (p': Proc)
    requires AllEnd(msgs)
    decreases |msgs|
  {
    if msgs == [] then p else AllEnded(Ended(p, msgs[0].rc, msgs[0].pm, msgs[0].hwms), msgs[1..])
  }

  lemma {:induction false} CollectFolds(p: Proc, msgs: seq<EndReply>, rest: seq<EndReply>)
    requires AllEnd(msgs)
    ensures Collect(p, |msgs|, msgs + rest) == Done(AllEnded(p, msgs))
    decreases |msgs|
  {
    hide Collect;
    if msgs != [] {
      CollectFolds(Ended(p, msgs[0].rc, msgs[0].pm, msgs[0].hwms), msgs[1..], rest);
      CollectStep(p, msgs[0], msgs[1..] + rest, |msgs| - 1);
      assert msgs + rest == [msgs[0]] + (msgs[1..] + rest);
    } else {
      CollectStep(p, End(0, 0, []), msgs + rest, 0);
    }
  }

  lemma {:induction false} EndedFrame(p: Proc, msgs: seq<EndReply>)
    requires AllEnd(msgs)
    ensures var q := AllEnded(p, msgs);
      q == p.(ends := q.ends, error := q.error, hwmArgs := q.hwmArgs)
    decreases |msgs|
  {
    if msgs != [] {
      EndedFrame(Ended(p, msgs[0].rc, msgs[0].pm, msgs[0].hwms), msgs[1..]);
    }
  }

  lemma {:induction false} EndedOwes(p: Proc, msgs: seq<EndReply>)
    requires AllEnd(msgs) && PlausibleEnd(p.flight, p.ends, msgs)
    ensures multiset(Froms(msgs)) + AllEnded(p, msgs).ends == p.ends
    decreases |msgs|
  {
    if msgs != [] {
      var m := msgs[0];
      EndedOwes(Ended(p, m.rc, m.pm, m.hwms), msgs[1..]);
      assert multiset(Froms(msgs)) == multiset{m.pm} + multiset(Froms(msgs[1..]));
      PutBack(p.ends, m.pm, multiset(Froms(msgs[1..])), AllEnded(p, msgs).ends);
    }
  }

  lemma PutBack(all: multiset<nat>, x: nat, a: multiset<nat>, b: multiset<nat>)
    requires x in all && a + b == all - multiset{x}
    ensures multiset{x} + a + b == all
  {
    assert multiset{x} + (a + b) == all;
  }

  lemma {:induction false} EndedLists(p: Proc, msgs: seq<EndReply>)
    requires AllEnd(msgs) && !p.autocommit
    ensures AllEnded(p, msgs).hwmArgs == p.hwmArgs + Lists(msgs)
    decreases |msgs|
  {
    hide AllEnded, Lists;
    EndedHead(p, msgs);
    if msgs == [] {
      assert p.hwmArgs + [] == p.hwmArgs;
    } else {
      var m := msgs[0];
      EndedLists(Ended(p, m.rc, m.pm, m.hwms), msgs[1..]);
      Regroup(p.hwmArgs, [m.hwms], Lists(msgs[1..]));
    }
  }

  lemma EndedHead(p: Proc, msgs: seq<EndReply>)
    requires AllEnd(msgs)
    ensures msgs == [] ==> AllEnded(p, msgs) == p && Lists(msgs) == []
    ensures msgs != [] ==>
      var m := msgs[0];
      && AllEnded(p, msgs) == AllEnded(Ended(p, m.rc, m.pm, m.hwms), msgs[1..])
      && Lists(msgs) == [m.hwms] + Lists(msgs[1..])
  {
  }

  lemma {:induction false} ListsLength(msgs: seq<EndReply>)
    requires AllEnd(msgs)
    ensures |Lists(msgs)| == |msgs| == |Froms(msgs)|
  {
    if msgs != [] { ListsLength(msgs[1..]); }
  }

  /**
    The end phase with no batch unanswered: receiveAllMsg reads one answer of every PM and nothing
    else, and with autocommit off asks for one update, the lists of the PMs in the order they came.
   */
  lemma EndPhase(p: Proc, msgs: seq<EndReply>, rest: seq<EndReply>, brmRc: nat)
    requires p.flight == multiset{} && p.ends == multiset(p.pms) && p.hwmArgs == []
    requires |msgs| == |p.pms| && PlausibleEnd(p.flight, p.ends, msgs) && AllArrive(msgs)
    ensures var o := ReceiveAll(p, msgs + rest, brmRc);
      && o.Done? && o.proc.ends == multiset{} && AllEnd(msgs) && multiset(Froms(msgs)) == multiset(p.pms)
      && o.proc.hwmCalls == p.hwmCalls +
           if p.autocommit || Flatten(Lists(msgs)) == [] then [] else [Flatten(Lists(msgs))]
  {
    hide Collect, AllEnded, Froms, Lists, PlausibleEnd, Flatten;
    OnlyEnds(p.ends, msgs);
    CollectFolds(p, msgs, rest);
    EndedFrame(p, msgs);
    EndedOwes(p, msgs);
    ListsLength(msgs);
    var q := AllEnded(p, msgs);
    assert |multiset(Froms(msgs))| == |multiset(p.pms)|;
    assert |q.ends| == 0;
    if !p.autocommit {
      EndedLists(p, msgs);
      assert [] + Lists(msgs) == Lists(msgs);
      assert q.hwmArgs[..|q.pms|] == Lists(msgs);
    }
  }

  /** How a statement must end: `acks` are the answers still owed, `msgs` what is read after the end message. */
  ghost predicate EndsWell(p: Proc, acks: seq<Msg>, msgs: seq<EndReply>, brmRc: nat) {
    var o := ReceiveOutstanding(p, acks);
    && o.Done? && o.proc.flight == multiset{}
    && var e := ReceiveAll(SendLast(o.proc, false), msgs, brmRc);
       && e.Done? && e.proc.ends == multiset{} && AllEnd(msgs) && multiset(Froms(msgs)) == multiset(p.pms)
       && e.proc.hwmCalls == if p.autocommit || Flatten(Lists(msgs)) == [] then [] else [Flatten(Lists(msgs))]
  }

  /** Messages for the end of a statement: answers that are owed, none lost. */
  ghost predicate Arrives(p: Proc, acks: seq<Msg>, msgs: seq<EndReply>) {
    && Plausible(p.flight, acks) && NoThrow(acks) && Busy(p.pms, p.free) <= Acks(acks)
    && |msgs| == |p.pms| && PlausibleEnd(multiset{}, multiset(p.pms), msgs) && AllArrive(msgs)
  }

  lemma StatementEnds(p: Proc, acks: seq<Msg>, msgs: seq<EndReply>, brmRc: nat)
    requires FlagsTrue(p) && Distinct(p.pms) && p.ends == multiset{} && p.hwmArgs == [] && p.hwmCalls == []
    requires Arrives(p, acks, msgs)
    ensures EndsWell(p, acks, msgs, brmRc)
  {
    hide Receive, Plausible, PlausibleEnd, ReceiveAll, Froms, Lists, Flatten, Busy, Acks;
    hide AllArrive, AllEnd, Distinct, FlagsTrue, NoThrow;
    ReceiveEmpties(p, acks);
    ReceiveFrame(p, Busy(p.pms, p.free), acks);
    var e := SendLast(ReceiveOutstanding(p, acks).proc, false);
    assert multiset{} + multiset(p.pms) == multiset(p.pms);
    assert msgs + [] == msgs;
    EndPhase(e, msgs, [], brmRc);
  }

  /**
    A whole statement of many packages. After a faultless run from the start, `p`, every package
    added was sent, in order, the end message meets no unanswered batch, one end answer of every PM
    is read, and the update asked for is the concatenation of their lists.
   */
  lemma CleanStatement(pms: seq<nat>, autocommit: bool, bs: seq<Batch>, p: Proc, acks: seq<Msg>,
                       msgs: seq<EndReply>, brmRc: nat)
    requires Distinct(pms) && Faultless(Start(pms, autocommit), bs) && Run(Start(pms, autocommit), bs) == Done(p)
    requires Arrives(p, acks, msgs)
    ensures FlagsTrue(p) && Packages(p.sent) == p.added && p.error == 0 && p.pms == pms
    ensures EndsWell(p, acks, msgs, brmRc)
  {
    hide Run, Faultless, Arrives, EndsWell, FlagsTrue;
    StartHolds(pms, autocommit);
    RunKeeps(Start(pms, autocommit), bs);
    RunConserves(Start(pms, autocommit), bs);
    assert Packages(p.sent) + [] == Packages(p.sent);
    StatementEnds(p, acks, msgs, brmRc);
  }

  /** The same for a statement of one package, also when no PM could be chosen for it or the write throws. */
  lemma SingleStatement(pms: seq<nat>, autocommit: bool, pkg: Pkg, pm: nat, how: Try, acks: seq<Msg>,
                        msgs: seq<EndReply>, brmRc: nat)
    requires Distinct(pms) && (pm == 0 || pm in pms)
    ensures var o := SendFirst(AddPkg(Start(pms, autocommit), pkg), pm, how);
      && (o.Threw? ==> OneLost(o.proc))
      && (o.Done? ==> FlagsTrue(o.proc) && Conserved(o.proc))
      && (o.Done? && Arrives(o.proc, acks, msgs) ==> EndsWell(o.proc, acks, msgs, brmRc))
  {
    hide Arrives, EndsWell, OneLost;
    StartHolds(pms, autocommit);
    var q := AddPkg(Start(pms, autocommit), pkg);
    var o := SendFirst(q, pm, how);
    assert Conserved(q) && FlagsTrue(q);
    WriteConserves(q, pm);
    if o.Threw? {
      InHandIsLost(q, o.proc);
    } else {
      if how.Works? && pm != 0 {
        WriteKeeps(q, pm);
      } else {
        ErrorKeepsFlags(q, 1);
      }
      if Arrives(o.proc, acks, msgs) {
        StatementEnds(o.proc, acks, msgs, brmRc);
      }
    }
  }

  lemma StartHolds(pms: seq<nat>, autocommit: bool)
    ensures FlagsTrue(Start(pms, autocommit)) && Conserved(Start(pms, autocommit))
  {
    assert Packages([]) == [];
  }

  lemma {:induction false} EndsPlausible(ends: multiset<nat>, msgs: seq<EndReply>)
    requires AllEnd(msgs) && multiset(Froms(msgs)) <= ends
    ensures PlausibleEnd(multiset{}, ends, msgs)
    decreases |msgs|
  {
    if msgs != [] {
      var m := msgs[0];
      assert multiset(Froms(msgs)) == multiset{m.pm} + multiset(Froms(msgs[1..]));
      assert multiset(Froms(msgs))[m.pm] >= 1;
      EndsPlausible(ends - multiset{m.pm}, msgs[1..]);
    }
  }

  function EndsOf(pms: seq<nat>): (msgs: seq<EndReply>)
    ensures |msgs| == |pms| && AllEnd(msgs) && Froms(msgs) == pms
  {
    if pms == [] then [] else [End(0, pms[0], [])] + EndsOf(pms[1..])
  }

  function LatesOf(pms: seq<nat>): (msgs: seq<EndReply>)
    ensures |msgs| == |pms|
  {
    if pms == [] then [] else [Late(Ack(0, pms[0]))] + LatesOf(pms[1..])
  }

  lemma {:induction false} AllLate(pms: seq<nat>)
    ensures AllArrive(LatesOf(pms))
  {
    if pms != [] { AllLate(pms[1..]); }
  }

  lemma {:induction false} Listing(m: multiset<nat>) returns (s: seq<nat>)
    ensures multiset(s) == m && |s| == |m|
    decreases |m|
  {
    if m == multiset{} {
      s := [];
    } else {
      var x :| x in m;
      var t := Listing(m - multiset{x});
      s := [x] + t;
    }
  }

  /** Without what `x` and then the others took. */
  lemma TakenOff(m: multiset<nat>, s: seq<nat>)
    requires s != []
    ensures m - multiset{s[0]} - multiset(s[1..]) == m - multiset(s)
    ensures multiset(s) <= m ==> s[0] in m && multiset(s[1..]) <= m - multiset{s[0]}
  {
    assert s == [s[0]] + s[1..];
    assert multiset(s) == multiset{s[0]} + multiset(s[1..]);
    if multiset(s) <= m {
      assert multiset(s)[s[0]] >= 1;
    }
  }

  lemma LatesHead(fs: seq<nat>, tail: seq<EndReply>)
    ensures fs == [] ==> LatesOf(fs) + tail == tail
    ensures fs != [] ==> LatesOf(fs) + tail == [Late(Ack(0, fs[0]))] + (LatesOf(fs[1..]) + tail)
  {
  }

  lemma LateStep(p: Proc, pm: nat, tail: seq<EndReply>, n: nat)
    ensures p.autocommit ==>
      Collect(p, n + 1, [Late(Ack(0, pm))] + tail) == Collect(p.(flight := p.flight - multiset{pm}), n, tail)
    ensures pm in p.flight && PlausibleEnd(p.flight - multiset{pm}, p.ends, tail) ==>
      PlausibleEnd(p.flight, p.ends, [Late(Ack(0, pm))] + tail)
  {
    assert ([Late(Ack(0, pm))] + tail)[1..] == tail;
  }

  /** Late answers may come first; with autocommit on, they are counted as if they were end answers. */
  lemma {:induction false} LatesRead(p: Proc, fs: seq<nat>, tail: seq<EndReply>, n: nat)
    requires multiset(fs) <= p.flight
    ensures var q := p.(flight := p.flight - multiset(fs));
      && (p.autocommit ==> Collect(p, |fs| + n, LatesOf(fs) + tail) == Collect(q, n, tail))
      && (PlausibleEnd(q.flight, p.ends, tail) ==> PlausibleEnd(p.flight, p.ends, LatesOf(fs) + tail))
    decreases |fs|
  {
    hide Collect, PlausibleEnd, LatesOf;
    LatesHead(fs, tail);
    if fs == [] {
      assert p.flight - multiset(fs) == p.flight;
    } else {
      TakenOff(p.flight, fs);
      LatesRead(p.(flight := p.flight - multiset{fs[0]}), fs[1..], tail, n);
      LateStep(p, fs[0], LatesOf(fs[1..]) + tail, |fs| - 1 + n);
    }
  }

  /**
    Conversely, while a batch is unanswered its answer may be read in place of an end answer, and
    then receiveAllMsg returns with an end answer still to come.
   */
  lemma LateAnswerSpoils(p: Proc, brmRc: nat) returns (msgs: seq<EndReply>)
    requires p.flight != multiset{} && p.pms != [] && p.ends == multiset(p.pms)
    ensures AllArrive(msgs) && |msgs| == |p.pms| && PlausibleEnd(p.flight, p.ends, msgs)
    ensures var o := ReceiveAll(p, msgs, brmRc); o.Done? && o.proc.ends != multiset{}
  {
    hide Collect, AllEnded, Froms, PlausibleEnd, ReceiveAll, EndsOf, LatesOf;
    var n := |p.pms|;
    var all := Listing(p.flight);
    var k := if |all| < n then |all| else n;
    var fs, front := all[..k], p.pms[..n - k];
    var tail := EndsOf(front);
    msgs := LatesOf(fs) + tail;
    AllLate(fs);
    assert multiset(fs) <= p.flight by { assert all == fs + all[k..]; }
    assert p.ends == multiset(front) + multiset(p.pms[n - k..]) by { assert p.pms == front + p.pms[n - k..]; }
    if |all| < n {
      assert fs == all;
      assert p.flight - multiset(fs) == multiset{};
    } else {
      assert front == [];
    }
    TailPlausible(p.flight - multiset(fs), p.ends, front);
    LatesRead(p, fs, tail, n - k);
    TooFewEnds(p, fs, front);
    ReceiveAllOwes(p, msgs, brmRc);
  }

  lemma TailPlausible(flight: multiset<nat>, ends: multiset<nat>, front: seq<nat>)
    requires multiset(front) <= ends && (front == [] || flight == multiset{})
    ensures PlausibleEnd(flight, ends, EndsOf(front))
  {
    if front != [] {
      EndsPlausible(ends, EndsOf(front));
    }
  }

  /** Some late answers and then fewer end answers than there are PMs. */
  lemma TooFewEnds(p: Proc, fs: seq<nat>, front: seq<nat>)
    requires fs != [] && |fs| + |front| == |p.pms| && p.ends == multiset(p.pms) && multiset(front) <= p.ends
    requires multiset(fs) <= p.flight && PlausibleEnd(p.flight - multiset(fs), p.ends, EndsOf(front))
    ensures var o := Collect(p, |p.pms|, LatesOf(fs) + EndsOf(front)); o.Done? && o.proc.ends != multiset{}
  {
    hide Collect, AllEnded, Froms, PlausibleEnd, EndsOf, LatesOf;
    var tail := EndsOf(front);
    if p.autocommit {
      var q := p.(flight := p.flight - multiset(fs));
      LatesRead(p, fs, tail, |front|);
      CollectFolds(q, tail, []);
      assert tail + [] == tail;
      EndedOwes(q, tail);
      assert |multiset(front)| == |front| && |p.ends| == |p.pms|;
    } else {
      FirstLateThrows(p, fs, tail, |p.pms|);
    }
  }

  lemma FirstLateThrows(p: Proc, fs: seq<nat>, tail: seq<EndReply>, n: nat)
    requires fs != [] && n > 0 && !p.autocommit && p.ends != multiset{}
    ensures var o := Collect(p, n, LatesOf(fs) + tail); o.Done? && o.proc.ends != multiset{}
  {
  }

  lemma ReceiveAllOwes(p: Proc, msgs: seq<EndReply>, brmRc: nat)
    ensures var c, o := Collect(p, |p.pms|, msgs), ReceiveAll(p, msgs, brmRc);
      c.Done? ==> o.Done? && o.proc.ends == c.proc.ends
  {
  }
}
