/** The batch insert processor as an object, each method proved against the functions of BatchInsert. */
module BatchInsertProc {
  import opened Wrappers
  import opened Replies
  import opened BatchInsert

  datatype Status = StillWaiting | Excepted | Returned

  lemma DrainAt(p: Proc, pm: nat, msgs: seq<Msg>, i: nat)
    requires i <= |msgs|
    ensures i == |msgs| ==> Drain(p, pm, msgs[i..]) == Waiting
    ensures i < |msgs| && msgs[i].Lost? ==> Drain(p, pm, msgs[i..]) == Done(p.(error := NETWORK_ERROR))
    ensures i < |msgs| && msgs[i].Thrown? ==> Drain(p, pm, msgs[i..]) == Threw(p)
    ensures i < |msgs| && msgs[i].Ack? ==>
      var q := Answered(p, msgs[i].rc, msgs[i].from);
      Drain(p, pm, msgs[i..]) == if Fine(msgs[i]) && msgs[i].from != pm then Drain(q, pm, msgs[i + 1..]) else Done(q)
  {
  }

  lemma ReceiveAt(p: Proc, n: nat, msgs: seq<Msg>, i: nat)
    requires i <= |msgs|
    ensures n == 0 ==> Receive(p, n, msgs[i..]) == Done(p)
    ensures n > 0 && i == |msgs| ==> Receive(p, n, msgs[i..]) == Waiting
    ensures n > 0 && i < |msgs| && msgs[i].Lost? ==>
      Receive(p, n, msgs[i..]) == Receive(p.(error := 1), n, msgs[i + 1..])
    ensures n > 0 && i < |msgs| && msgs[i].Thrown? ==>
      Receive(p, n, msgs[i..]) == Done(p.(error := NETWORK_ERROR))
    ensures n > 0 && i < |msgs| && msgs[i].Ack? ==>
      Receive(p, n, msgs[i..]) == Receive(Answered(p, msgs[i].rc, msgs[i].from), n - 1, msgs[i + 1..])
  {
  }

  lemma CollectAt(p: Proc, n: nat, msgs: seq<EndReply>, i: nat)
    requires i <= |msgs|
    ensures n == 0 ==> Collect(p, n, msgs[i..]) == Done(p)
    ensures n > 0 && i == |msgs| ==> Collect(p, n, msgs[i..]) == Waiting
    ensures n > 0 && i < |msgs| && msgs[i] == Late(Thrown) ==>
      Collect(p, n, msgs[i..]) == Done(p.(error := 1))
    ensures n > 0 && i < |msgs| && msgs[i].Late? && msgs[i].reply.Ack? && !p.autocommit ==>
      Collect(p, n, msgs[i..]) == Done(p.(flight := p.flight - multiset{msgs[i].reply.from}, error := 1))
    ensures n > 0 && i < |msgs| && (msgs[i].End? || msgs[i].reply.Lost? || (msgs[i].reply.Ack? && p.autocommit)) ==>
      Collect(p, n, msgs[i..]) == Collect(AfterEnd(p, msgs[i]), n - 1, msgs[i + 1..])
  {
  }

  /** What a message of the end phase does, when taking it apart does not throw. */
  function AfterEnd(p: Proc, msg: EndReply): (p': Proc) {
    match msg
    case Late(Lost) => Collected(p, []).(error := NETWORK_ERROR)
    case Late(Thrown) => p
    case Late(Ack(rc, pm)) => p.(flight := p.flight - multiset{pm}, error := if rc != 0 then rc else p.error)
    case End(rc, pm, hwms) => Ended(p, rc, pm, hwms)
  }

  lemma CollectedFrame(p: Proc, list: seq<Hwm>)
    ensures Collected(p, list) == p.(hwmArgs := if p.autocommit then p.hwmArgs else p.hwmArgs + [list])
  {
  }

  lemma AnsweredHolds(p: Proc, rc: nat, pm: nat, held: seq<Pkg>)
    ensures Answered(p.(queue := held), rc, pm) == Answered(p, rc, pm).(queue := held)
  {
  }

  class Processor {
    const pms: seq<nat>
    const autocommit: bool
    var pmState: map<nat, bool>
    var insertPkgQueue: seq<Pkg>
    var currentPm: nat
    var errorCode: nat
    var hwmArgsAllPms: seq<seq<Hwm>>
    // What the outside saw, and what it owes.
    ghost var added: seq<Pkg>
    ghost var sent: seq<(nat, Pkg)>
    ghost var flight: multiset<nat>
    ghost var ends: multiset<nat>
    ghost var hwmCalls: seq<seq<Hwm>>

    ghost function State(): (p: Proc)
      reads this
    {
      Proc(pms, autocommit, pmState, insertPkgQueue, errorCode, hwmArgsAllPms, added, sent, flight, ends, hwmCalls)
    }

    constructor (moduleIds: seq<nat>, isAutocommitOn: bool)
      ensures State() == Start(moduleIds, isAutocommitOn)
    {
      pms, autocommit := moduleIds, isAutocommitOn;
      pmState := map[];
      insertPkgQueue, currentPm, errorCode, hwmArgsAllPms := [], 0, 0, [];
      added, sent, flight, ends, hwmCalls := [], [], multiset{}, multiset{}, [];
      new;
      for i := 0 to |moduleIds|
        modifies this`pmState
        invariant pmState == map pm | pm in moduleIds[..i] :: true
      {
        pmState := pmState[moduleIds[i] := true];
      }
    }

    method AddPackage(pkg: Pkg)
      modifies this
      ensures State() == AddPkg(old(State()), pkg)
    {
      insertPkgQueue := insertPkgQueue + [pkg];
      added := added + [pkg];
    }

    method GetPkg() returns (pkg: Pkg)
      requires insertPkgQueue != []
      modifies this`insertPkgQueue
      ensures pkg == old(insertPkgQueue[0]) && insertPkgQueue == old(insertPkgQueue[1..])
    {
      pkg := insertPkgQueue[0];
      insertPkgQueue := insertPkgQueue[1..];
    }

    /** Writes a package; `held` is the queue with that package put back. When the write throws, nothing changes. */
    method Post(pkg: Pkg, pm: nat, how: Try, ghost held: seq<Pkg>) returns (status: Status)
      requires held != [] && pkg == held[0] && insertPkgQueue == held[1..]
      modifies this`pmState, this`sent, this`flight
      ensures var o := TryWrite(old(State()).(queue := held), pm, how);
        !o.Waiting? && State() == o.proc && status == if o.Threw? then Excepted else Returned
    {
      if how.WriteThrows? {
        return Excepted;
      }
      sent, flight := sent + [(pm, pkg)], flight + multiset{pm};
      pmState := pmState[pm := false];
      status := Returned;
    }

    method SendFirstBatch(choice: nat, how: Try) returns (status: Status)
      requires insertPkgQueue != []
      modifies this
      ensures var o := SendFirst(old(State()), choice, how);
        State() == o.proc && status == if o.Threw? then Excepted else Returned
    {
      hide TryWrite;
      if how.ChoiceFails? {
        errorCode := 1;
        return Returned;
      }
      if choice == 0 {
        errorCode := 1;
        return Returned;
      }
      currentPm := choice;
      var bs := GetPkg();
      status := Post(bs, currentPm, how, old(insertPkgQueue));
    }

    method TakeAnswer(rc: nat, pm: nat)
      modifies this`pmState, this`errorCode, this`flight
      ensures State() == Answered(old(State()), rc, pm)
    {
      flight := flight - multiset{pm};
      if rc != 0 {
        errorCode := rc;
      }
      pmState := pmState[pm := true];
    }

    method SendNextBatch(choice: nat, how: Try, msgs: seq<Msg>) returns (status: Status)
      requires insertPkgQueue != []
      modifies this
      ensures var o := SendNext(old(State()), choice, how, msgs);
        && (status == StillWaiting <==> o.Waiting?) && (status == Excepted <==> o.Threw?)
        && (!o.Waiting? ==> State() == o.proc)
    {
      hide Drain, TryWrite;
      if how.ChoiceFails? {
        errorCode := 1;
        return Returned;
      }
      currentPm := choice;
      var bs := GetPkg();
      if currentPm in pmState && pmState[currentPm] {
        status := Post(bs, currentPm, how, old(insertPkgQueue));
      } else {
        status := AwaitAndPost(bs, currentPm, how, msgs, old(insertPkgQueue));
      }
    }

    /** What SendNext does when the PM is not free. */
    method AwaitAndPost(bs: Pkg, pm: nat, how: Try, msgs: seq<Msg>, ghost held: seq<Pkg>) returns (status: Status)
      requires held != [] && bs == held[0] && insertPkgQueue == held[1..] && !(pm in pmState && pmState[pm])
      requires !how.ChoiceFails?
      modifies this`pmState, this`errorCode, this`sent, this`flight
      ensures var o := SendNext(old(State()).(queue := held), pm, how, msgs);
        && (status == StillWaiting <==> o.Waiting?) && (status == Excepted <==> o.Threw?)
        && (!o.Waiting? ==> State() == o.proc)
    {
      hide Drain, TryWrite;
      DrainFrame(State().(queue := held), pm, msgs);
      status := Await(pm, msgs, held);
      if status == Returned {
        status := Post(bs, pm, how, held);
      }
    }

    /** The read loop of sendNextBatch; `held` is the queue with the package in hand put back. */
    method Await(pm: nat, msgs: seq<Msg>, ghost held: seq<Pkg>) returns (status: Status)
      modifies this`pmState, this`errorCode, this`flight
      ensures var o := Drain(old(State()).(queue := held), pm, msgs);
        && (status == StillWaiting <==> o.Waiting?) && (status == Excepted <==> o.Threw?)
        && (!o.Waiting? ==> State().(queue := held) == o.proc)
    {
      hide Drain, Answered;
      var i := 0;
      assert msgs[0..] == msgs;
      while i < |msgs|
        invariant 0 <= i <= |msgs|
        invariant Drain(old(State()).(queue := held), pm, msgs) == Drain(State().(queue := held), pm, msgs[i..])
      {
        DrainAt(State().(queue := held), pm, msgs, i);
        match msgs[i]
        case Lost =>
          errorCode := NETWORK_ERROR;
          return Returned;
        case Thrown =>
          return Excepted;
        case Ack(rc, from) =>
          AnsweredHolds(State(), rc, from, held);
          TakeAnswer(rc, from);
          if rc != 0 || from == pm {
            return Returned;
          }
          i := i + 1;
      }
      DrainAt(State().(queue := held), pm, msgs, i);
      status := StillWaiting;
    }

    method CountBusy() returns (n: nat)
      ensures n == Busy(pms, pmState)
    {
      n := 0;
      for i := 0 to |pms|
        invariant n == Busy(pms[..i], pmState)
      {
        if !(pms[i] in pmState && pmState[pms[i]]) {
          n := n + 1;
        }
        assert pms[..i + 1][..i] == pms[..i];
      }
      assert pms[..|pms|] == pms;
    }

    method ReceiveAnswers(expected: nat, msgs: seq<Msg>) returns (status: Status)
      modifies this`pmState, this`errorCode, this`flight
      ensures var o := Receive(old(State()), expected, msgs);
        && (status == StillWaiting <==> o.Waiting?) && status != Excepted && (o.Done? ==> State() == o.proc)
    {
      hide Receive;
      var received, i := 0, 0;
      assert msgs[0..] == msgs;
      while received != expected
        invariant 0 <= i <= |msgs| && 0 <= received <= expected
        invariant Receive(old(State()), expected, msgs) == Receive(State(), expected - received, msgs[i..])
        decreases |msgs| - i
      {
        ReceiveAt(State(), expected - received, msgs, i);
        if i == |msgs| {
          return StillWaiting;
        }
        match msgs[i] {
          case Lost => errorCode := 1;
          case Thrown =>
            errorCode := NETWORK_ERROR;
            return Returned;
          case Ack(rc, from) =>
            TakeAnswer(rc, from);
            received := received + 1;
        }
        i := i + 1;
      }
      ReceiveAt(State(), 0, msgs, i);
      status := Returned;
    }

    method ReceiveOutstandingMsg(msgs: seq<Msg>) returns (status: Status)
      modifies this`pmState, this`errorCode, this`flight
      ensures var o := ReceiveOutstanding(old(State()), msgs);
        && (status == StillWaiting <==> o.Waiting?) && status != Excepted && (o.Done? ==> State() == o.proc)
    {
      var notReceived := CountBusy();
      if notReceived > 0 && notReceived <= |pms| {
        status := ReceiveAnswers(notReceived, msgs);
      } else {
        status := Returned;
      }
    }

    method SendLastBatch(failed: bool)
      modifies this`errorCode, this`ends
      ensures State() == SendLast(old(State()), failed)
    {
      if failed {
        errorCode := 1;
      } else {
        ends := ends + multiset(pms);
      }
    }

    method CollectAnswers(msgs: seq<EndReply>) returns (status: Status)
      modifies this`errorCode, this`hwmArgsAllPms, this`flight, this`ends
      ensures var o := Collect(old(State()), |pms|, msgs);
        && (status == StillWaiting <==> o.Waiting?) && status != Excepted && (o.Done? ==> State() == o.proc)
    {
      hide Collect, AfterEnd;
      var received, i := 0, 0;
      assert msgs[0..] == msgs;
      while received != |pms|
        invariant 0 <= i <= |msgs| && 0 <= received <= |pms|
        invariant Collect(old(State()), |pms|, msgs) == Collect(State(), |pms| - received, msgs[i..])
        decreases |msgs| - i
      {
        CollectAt(State(), |pms| - received, msgs, i);
        if i == |msgs| {
          return StillWaiting;
        }
        if msgs[i] == Late(Thrown) || (msgs[i].Late? && msgs[i].reply.Ack? && !autocommit) {
          if msgs[i].reply.Ack? {
            flight := flight - multiset{msgs[i].reply.from};
          }
          errorCode := 1;
          return Returned;
        }
        TakeEnd(msgs[i]);
        received := received + 1;
        i := i + 1;
      }
      CollectAt(State(), 0, msgs, i);
      status := Returned;
    }

    /** One message of the end phase that does not throw. */
    method TakeEnd(msg: EndReply)
      requires msg.End? || msg.reply.Lost? || (msg.reply.Ack? && autocommit)
      modifies this`errorCode, this`hwmArgsAllPms, this`flight, this`ends
      ensures State() == AfterEnd(old(State()), msg)
    {
      hide Collected, Ended;
      if msg.End? {
        TakeLast(msg.rc, msg.pm, msg.hwms);
      } else if msg.reply.Lost? {
        errorCode := NETWORK_ERROR;
        KeepList([]);
        CollectedFrame(old(State()), []);
      } else {
        flight := flight - multiset{msg.reply.from};
        NoteError(msg.reply.rc);
      }
    }

    method TakeLast(rc: nat, pm: nat, hwms: seq<Hwm>)
      modifies this`errorCode, this`hwmArgsAllPms, this`ends
      ensures State() == Ended(old(State()), rc, pm, hwms)
    {
      hide Collected;
      ends := ends - multiset{pm};
      KeepList(hwms);
      NoteError(rc);
      CollectedFrame(old(State()), hwms);
    }

    method KeepList(list: seq<Hwm>)
      modifies this`hwmArgsAllPms
      ensures hwmArgsAllPms == if autocommit then old(hwmArgsAllPms) else old(hwmArgsAllPms) + [list]
    {
      if !autocommit {
        hwmArgsAllPms := hwmArgsAllPms + [list];
      }
    }

    method NoteError(rc: nat)
      modifies this`errorCode
      ensures errorCode == if rc != 0 then rc else old(errorCode)
    {
      if rc != 0 {
        errorCode := rc;
      }
    }

    method ReceiveAllMsg(msgs: seq<EndReply>, brmRc: nat) returns (status: Status)
      modifies this`errorCode, this`hwmArgsAllPms, this`flight, this`ends, this`hwmCalls
      ensures var o := ReceiveAll(old(State()), msgs, brmRc);
        && (status == StillWaiting <==> o.Waiting?) && status != Excepted && (o.Done? ==> State() == o.proc)
    {
      hide Collect;
      status := CollectAnswers(msgs);
      if status == Returned && !autocommit && |hwmArgsAllPms| == |pms| {
        SetHwms(brmRc);
      }
    }

    method SetHwms(brmRc: nat)
      requires |pms| <= |hwmArgsAllPms|
      modifies this`errorCode, this`hwmCalls
      ensures State() == SetHwm(old(State()), brmRc)
    {
      var allHwm := [];
      for i := 0 to |pms|
        invariant allHwm == Flatten(hwmArgsAllPms[..i]) && unchanged(this)
      {
        ghost var before := allHwm;
        var list := hwmArgsAllPms[i];
        for j := 0 to |list|
          invariant allHwm == before + list[..j] && unchanged(this)
        {
          allHwm := allHwm + [list[j]];
        }
        assert list[..|list|] == list;
        assert hwmArgsAllPms[..i + 1][..i] == hwmArgsAllPms[..i];
      }
      if |allHwm| > 0 {
        hwmCalls := hwmCalls + [allHwm];
        if brmRc != 0 {
          errorCode := brmRc;
        }
      }
    }
  }
}
