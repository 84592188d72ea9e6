/**
  What the errors of a batch insert mean for its end: how many answers are still unread when the
  end message goes out, and when the end phase is sure to read one end answer of every PM.
 */
module BatchEnd {
  import opened Wrappers
  import opened Replies
  import opened BatchInsert

  /** Answers owed beyond one for each PM whose flag is false. */
  function Excess(p: Proc): (n: int) {
    |p.flight| - Busy(p.pms, p.free)
  }

  /** Only PMs of the list owe answers. */
  ghost predicate Listed(p: Proc) {
    Distinct(p.pms) && forall pm :: pm in p.flight ==> pm in p.pms
  }

  lemma {:induction false} BusyWritten(pms: seq<nat>, free: map<nat, bool>, pm: nat)
    requires Distinct(pms)
    ensures Busy(pms, free[pm := false]) == Busy(pms, free) + if pm in pms && pm in free && free[pm] then 1 else 0
  {
    if pms != [] {
      var front := pms[..|pms| - 1];
      BusyWritten(front, free, pm);
      assert pms == front + [pms[|pms| - 1]];
      if pms[|pms| - 1] == pm {
        assert pm !in front;
      }
    }
  }

  /** A batch for a PM whose flag is false is one more than the flags tell. */
  lemma WriteExcess(p: Proc, pm: nat)
    requires Listed(p) && pm in p.pms && p.queue != []
    ensures Listed(Write(p, pm)) && Excess(Write(p, pm)) == Excess(p) + if IsFree(p, pm) then 0 else 1
  {
    hide Busy;
    BusyWritten(p.pms, p.free, pm);
    assert |p.flight + multiset{pm}| == |p.flight| + 1;
  }

  /** An answer of a PM whose flag is true is one the flags did not tell of. */
  lemma AnsweredExcess(p: Proc, rc: nat, pm: nat)
    requires Listed(p) && pm in p.flight
    ensures var q := Answered(p, rc, pm);
      Listed(q) && Excess(q) == Excess(p) - if IsFree(p, pm) then 1 else 0
  {
    hide Busy;
    BusyAnswered(p.pms, p.free, pm);
    assert |p.flight - multiset{pm}| == |p.flight| - 1;
  }

  /** How many answers a wait reads from PMs whose flag is true. */
  function CaughtUp(p: Proc, pm: nat, msgs: seq<Msg>): (n: nat)
    decreases |msgs|
  {
    if msgs == [] || !msgs[0].Ack? then 0
    else
      (if IsFree(p, msgs[0].from) then 1 else 0)
      + if Fine(msgs[0]) && msgs[0].from != pm then CaughtUp(Answered(p, 0, msgs[0].from), pm, msgs[1..]) else 0
  }

  lemma ErrorExcess(p: Proc, error: nat)
    requires Listed(p)
    ensures Listed(p.(error := error)) && Excess(p.(error := error)) == Excess(p)
  {
  }

  lemma {:induction false} DrainExcess(p: Proc, pm: nat, msgs: seq<Msg>)
    requires Listed(p) && Plausible(p.flight, msgs)
    ensures var o := Drain(p, pm, msgs);
      o.Done? ==> Listed(o.proc) && Excess(o.proc) == Excess(p) - CaughtUp(p, pm, msgs)
    decreases |msgs|
  {
    hide Listed, Excess;
    if msgs != [] {
      if msgs[0].Ack? {
        AnsweredExcess(p, msgs[0].rc, msgs[0].from);
        if Fine(msgs[0]) && msgs[0].from != pm {
          DrainExcess(Answered(p, 0, msgs[0].from), pm, msgs[1..]);
        }
      } else {
        ErrorExcess(p, NETWORK_ERROR);
      }
    }
  }

  /** The call writes a batch to a PM whose flag is still false. */
  ghost predicate Doubles(p: Proc, b: Batch) {
    !b.how.ChoiceFails? && !Served(p, b.pm, b.msgs)
  }

  /** By how much the call changes the number of answers owed beyond those the flags tell of. */
  ghost function CallAdds(p: Proc, b: Batch): (n: int) {
    (if Doubles(p, b) then 1 else 0)
    - if b.how.ChoiceFails? || IsFree(p, b.pm) then 0 else CaughtUp(p, b.pm, b.msgs)
  }

  lemma AddExcess(p: Proc, pkg: Pkg)
    requires Listed(p)
    ensures Listed(AddPkg(p, pkg)) && Excess(AddPkg(p, pkg)) == Excess(p)
  {
  }

  lemma {:induction false} CaughtUpSame(p: Proc, q: Proc, pm: nat, msgs: seq<Msg>)
    requires p.free == q.free
    ensures CaughtUp(p, pm, msgs) == CaughtUp(q, pm, msgs)
    decreases |msgs|
  {
    if msgs != [] && Fine(msgs[0]) && msgs[0].from != pm {
      CaughtUpSame(Answered(p, 0, msgs[0].from), Answered(q, 0, msgs[0].from), pm, msgs[1..]);
    }
  }

  lemma FeedExcess(p: Proc, b: Batch)
    requires Listed(p) && b.pm in p.pms && Plausible(p.flight, b.msgs) && Feed(p, b).Done?
    ensures var q := Feed(p, b).proc; Listed(q) && Excess(q) == Excess(p) + CallAdds(p, b)
  {
    hide Listed, Excess, Drain, Plausible, OwnAt, CaughtUp;
    var q := AddPkg(p, b.pkg);
    AddExcess(p, b.pkg);
    if b.how.ChoiceFails? {
      ErrorExcess(q, 1);
    } else if IsFree(p, b.pm) {
      WriteExcess(q, b.pm);
    } else {
      DrainFrame(q, b.pm, b.msgs);
      DrainFrees(q, b.pm, b.msgs);
      DrainExcess(q, b.pm, b.msgs);
      CaughtUpSame(p, q, b.pm, b.msgs);
      WriteExcess(Drain(q, b.pm, b.msgs).proc, b.pm);
    }
  }

  /** Each call of the run picks a PM of the list, and all answers it reads are owed. */
  predicate PossibleRun(p: Proc, bs: seq<Batch>)
    decreases |bs|
  {
    bs == [] || !Goes(p) ||
    var b := bs[0];
    && b.pm in p.pms && Plausible(p.flight, b.msgs)
    && (Feed(p, b).Done? ==> PossibleRun(Feed(p, b).proc, bs[1..]))
  }

  /** The batches of the run that were written to a PM still at work, less the answers to such that it read. */
  ghost function Surplus(p: Proc, bs: seq<Batch>): (n: int)
    decreases |bs|
  {
    if bs == [] || !Goes(p) then 0
    else CallAdds(p, bs[0]) + if Feed(p, bs[0]).Done? then Surplus(Feed(p, bs[0]).proc, bs[1..]) else 0
  }

  lemma {:induction false} RunExcess(p: Proc, bs: seq<Batch>)
    requires Listed(p) && PossibleRun(p, bs) && Run(p, bs).Done?
    ensures var q := Run(p, bs).proc;
      Listed(q) && Excess(q) == Excess(p) + Surplus(p, bs) && SameSettings(p, q)
    decreases |bs|
  {
    hide Listed, Excess, Feed, CallAdds, Plausible;
    if bs != [] && Goes(p) {
      FeedExcess(p, bs[0]);
      FeedFrame(p, bs[0]);
      RunExcess(Feed(p, bs[0]).proc, bs[1..]);
    }
  }

  /** How many of `n` answers are given up because a read throws. */
  function GivenUp(n: nat, msgs: seq<Msg>): (k: nat)
    ensures k <= n
    decreases |msgs|
  {
    if n == 0 || msgs == [] then 0
    else
      match msgs[0]
      case Lost => GivenUp(n, msgs[1..])
      case Thrown => n
      case Ack(_, _) => GivenUp(n - 1, msgs[1..])
  }

  lemma {:induction false} ReceiveTakes(p: Proc, n: nat, msgs: seq<Msg>)
    requires Plausible(p.flight, msgs) && Receive(p, n, msgs).Done?
    ensures |Receive(p, n, msgs).proc.flight| == |p.flight| - n + GivenUp(n, msgs)
    decreases |msgs|
  {
    if n > 0 {
      match msgs[0]
      case Lost => ReceiveTakes(p.(error := 1), n, msgs[1..]);
      case Thrown =>
      case Ack(rc, from) =>
        assert |p.flight - multiset{from}| == |p.flight| - 1;
        ReceiveTakes(Answered(p, rc, from), n - 1, msgs[1..]);
    }
  }

  /** What reaches receiveOutstandingMsg: answers that are owed, and enough for it to return. */
  predicate Reaches(p: Proc, acks: seq<Msg>) {
    Plausible(p.flight, acks) && ReceiveOutstanding(p, acks).Done?
  }

  /** However the answers come in after the end message, an end answer of every PM is read. */
  ghost predicate AlwaysEnds(p: Proc, brmRc: nat) {
    forall msgs: seq<EndReply> ::
      |msgs| == |p.pms| && AllArrive(msgs) && PlausibleEnd(p.flight, p.ends, msgs) ==>
        var o := ReceiveAll(p, msgs, brmRc); o.Done? && o.proc.ends == multiset{}
  }

  /** Exactly when no answer to a batch is still unread. */
  lemma AlwaysEndsIff(p: Proc, brmRc: nat)
    requires p.pms != [] && p.ends == multiset(p.pms) && p.hwmArgs == []
    ensures AlwaysEnds(p, brmRc) <==> p.flight == multiset{}
  {
    hide ReceiveAll, PlausibleEnd, AllArrive;
    if p.flight == multiset{} {
      forall msgs: seq<EndReply> | |msgs| == |p.pms| && AllArrive(msgs) && PlausibleEnd(p.flight, p.ends, msgs)
        ensures var o := ReceiveAll(p, msgs, brmRc); o.Done? && o.proc.ends == multiset{}
      {
        assert msgs + [] == msgs;
        EndPhase(p, msgs, [], brmRc);
      }
    } else {
      var msgs := LateAnswerSpoils(p, brmRc);
    }
  }

  /** The state in which the end phase begins. */
  function AtEnd(p: Proc, acks: seq<Msg>): (q: Proc)
    requires Reaches(p, acks)
  {
    SendLast(ReceiveOutstanding(p, acks).proc, false)
  }

  /**
    Every run, whatever errors, warnings, empty messages and throwing reads it meets: when the end
    message goes out, the unread answers are its surplus and those given up while receiving, and
    the end phase is sure to read an end answer of every PM if and only if there are none.
   */
  lemma StatementEndsIff(pms: seq<nat>, autocommit: bool, bs: seq<Batch>, p: Proc, acks: seq<Msg>, brmRc: nat)
    requires Distinct(pms) && pms != [] && PossibleRun(Start(pms, autocommit), bs)
    requires Run(Start(pms, autocommit), bs) == Done(p) && Reaches(p, acks)
    ensures var unread := Surplus(Start(pms, autocommit), bs) + GivenUp(Busy(p.pms, p.free), acks);
      |AtEnd(p, acks).flight| == unread && (AlwaysEnds(AtEnd(p, acks), brmRc) <==> unread == 0)
  {
    hide Run, PossibleRun, Surplus, Receive, Plausible, AlwaysEnds, Busy, GivenUp;
    var start := Start(pms, autocommit);
    StartExcess(pms, autocommit);
    RunExcess(start, bs);
    ReceiveTakes(p, Busy(p.pms, p.free), acks);
    ReceiveFrame(p, Busy(p.pms, p.free), acks);
    assert multiset{} + multiset(pms) == multiset(pms);
    AlwaysEndsIff(AtEnd(p, acks), brmRc);
  }

  lemma StartExcess(pms: seq<nat>, autocommit: bool)
    requires Distinct(pms)
    ensures Listed(Start(pms, autocommit)) && Excess(Start(pms, autocommit)) == 0
  {
    AllFree(pms, Start(pms, autocommit).free);
  }

  lemma {:induction false} AllFree(pms: seq<nat>, free: map<nat, bool>)
    requires forall pm :: pm in pms ==> pm in free && free[pm]
    ensures Busy(pms, free) == 0
  {
    if pms != [] {
      assert pms[|pms| - 1] in pms;
      AllFree(pms[..|pms| - 1], free);
    }
  }

  // Runs that every error ends.

  /** No reply is the range warning, the only error after which the caller goes on. */
  predicate NoWarning(msgs: seq<Msg>) {
    forall m :: m in msgs && m.Ack? ==> m.rc != RANGE_WARNING
  }

  predicate Warnless(bs: seq<Batch>) {
    forall b :: b in bs ==> NoWarning(b.msgs)
  }

  /** No call of the run writes to a PM still at work: each PM was free, or its own answer ended the wait. */
  ghost predicate AllServed(p: Proc, bs: seq<Batch>)
    decreases |bs|
  {
    bs == [] || !Goes(p) || (!Doubles(p, bs[0]) && (Feed(p, bs[0]).Done? ==> AllServed(Feed(p, bs[0]).proc, bs[1..])))
  }

  /** While the flags are true, no answer comes from a PM whose flag is. */
  lemma {:induction false} NoneCaughtUp(p: Proc, pm: nat, msgs: seq<Msg>)
    requires FlagsTrue(p) && Plausible(p.flight, msgs)
    ensures CaughtUp(p, pm, msgs) == 0
    decreases |msgs|
  {
    hide FlagsTrue;
    if msgs != [] && msgs[0].Ack? {
      AnsweredKeeps(p, msgs[0].rc, msgs[0].from);
      if Fine(msgs[0]) && msgs[0].from != pm {
        AnsweredKeeps(p, 0, msgs[0].from);
        NoneCaughtUp(Answered(p, 0, msgs[0].from), pm, msgs[1..]);
      }
    }
  }

  /** A wait that another message ended than the PM's own answer ends the run. */
  lemma {:induction false} OtherEndsRun(p: Proc, pm: nat, msgs: seq<Msg>)
    requires !IsFree(p, pm) && NoWarning(msgs)
    ensures var o := Drain(p, pm, msgs); o.Done? && !IsFree(o.proc, pm) ==> !Goes(o.proc)
    decreases |msgs|
  {
    if msgs != [] {
      assert msgs[0] in msgs;
      if Fine(msgs[0]) && msgs[0].from != pm {
        OtherEndsRun(Answered(p, 0, msgs[0].from), pm, msgs[1..]);
      }
    }
  }

  lemma DoublingEndsRun(p: Proc, b: Batch)
    requires Doubles(p, b) && NoWarning(b.msgs) && Feed(p, b).Done?
    ensures !Goes(Feed(p, b).proc)
  {
    hide Drain, OwnAt;
    var q := AddPkg(p, b.pkg);
    DrainFrame(q, b.pm, b.msgs);
    DrainFrees(q, b.pm, b.msgs);
    OtherEndsRun(q, b.pm, b.msgs);
  }

  lemma ServedKeepsFlags(p: Proc, b: Batch)
    requires FlagsTrue(p) && b.pm in p.pms && Plausible(p.flight, b.msgs) && Feed(p, b).Done? && !Doubles(p, b)
    ensures FlagsTrue(Feed(p, b).proc)
  {
    hide FlagsTrue, Plausible, Served;
    var q := AddPkg(p, b.pkg);
    AddKeepsFlags(p, b.pkg);
    if b.how.ChoiceFails? {
      ErrorKeepsFlags(q, 1);
    } else {
      SameServed(p, b);
      SendNextKeeps(q, b.pm, b.how, b.msgs);
    }
  }

  lemma SameServed(p: Proc, b: Batch)
    ensures Served(AddPkg(p, b.pkg), b.pm, b.msgs) == Served(p, b.pm, b.msgs)
  {
    hide OwnAt;
  }

  /** Such a run has a surplus of one answer exactly when one of its calls was not served. */
  lemma {:induction false} ErrorRunSurplus(p: Proc, bs: seq<Batch>)
    requires FlagsTrue(p) && PossibleRun(p, bs) && Warnless(bs) && Run(p, bs).Done?
    ensures Surplus(p, bs) == if AllServed(p, bs) then 0 else 1
    decreases |bs|
  {
    hide FlagsTrue, Feed, Plausible, Doubles, CaughtUp, NoWarning;
    if bs != [] && Goes(p) {
      var b := bs[0];
      assert b in bs;
      NoneCaughtUp(p, b.pm, b.msgs);
      if Doubles(p, b) {
        DoublingEndsRun(p, b);
      } else {
        ServedKeepsFlags(p, b);
        ErrorRunSurplus(Feed(p, b).proc, bs[1..]);
      }
    }
  }

  /**
    A statement whose first error ends its run: the end phase is sure to read an end answer of every
    PM if and only if every wait ended on the answer it waited for and no read threw while receiving
    the rest.
   */
  lemma ErrorStatementEndsIff(pms: seq<nat>, autocommit: bool, bs: seq<Batch>, p: Proc, acks: seq<Msg>, brmRc: nat)
    requires Distinct(pms) && pms != [] && PossibleRun(Start(pms, autocommit), bs) && Warnless(bs)
    requires Run(Start(pms, autocommit), bs) == Done(p) && Reaches(p, acks)
    ensures var served, missed := AllServed(Start(pms, autocommit), bs), GivenUp(Busy(p.pms, p.free), acks);
      && (AlwaysEnds(AtEnd(p, acks), brmRc) <==> served && missed == 0)
      && |AtEnd(p, acks).flight| == missed + if served then 0 else 1
  {
    hide Run, PossibleRun, Surplus, AllServed, Reaches, AlwaysEnds, FlagsTrue, AtEnd, Warnless, Distinct, Busy, GivenUp;
    StartHolds(pms, autocommit);
    ErrorRunSurplus(Start(pms, autocommit), bs);
    StatementEndsIff(pms, autocommit, bs, p, acks, brmRc);
  }
}
