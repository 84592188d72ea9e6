/**
  The error a batch insert reports: which of the messages it read, the calls it made and the update
  it asked for set it last.
 */
module BatchErrors {
  import opened Wrappers
  import opened Replies
  import opened BatchInsert

  /** The last code that is not 0, or `e` when there is none. */
  function LastError(e: nat, codes: seq<nat>): (r: nat)
    decreases |codes|
  {
    if codes == [] then e
    else if codes[|codes| - 1] != 0 then codes[|codes| - 1]
    else LastError(e, codes[..|codes| - 1])
  }

  /** No error is left exactly when there was none and no code is one; one that is left is the last of them. */
  lemma {:induction false} LastErrorMeans(e: nat, codes: seq<nat>)
    ensures LastError(e, codes) == 0 <==> e == 0 && forall i :: 0 <= i < |codes| ==> codes[i] == 0
    ensures (exists k :: 0 <= k < |codes| && codes[k] != 0) ==>
      exists k :: 0 <= k < |codes| && LastError(e, codes) == codes[k] != 0
                  && forall j :: k < j < |codes| ==> codes[j] == 0
    decreases |codes|
  {
    if codes != [] {
      var n := |codes| - 1;
      LastErrorMeans(e, codes[..n]);
      if codes[n] == 0 {
        if k :| 0 <= k < |codes| && codes[k] != 0 { assert codes[..n][k] != 0; }
      }
    }
  }

  lemma {:induction false} LastErrorJoins(e: nat, a: seq<nat>, b: seq<nat>)
    ensures LastError(e, a + b) == LastError(LastError(e, a), b)
    decreases |b|
  {
    if b == [] {
      assert a + b == a;
    } else {
      assert (a + b)[..|a + b| - 1] == a + b[..|b| - 1];
      LastErrorJoins(e, a, b[..|b| - 1]);
    }
  }

  lemma LastErrorOne(e: nat, c: nat, rest: seq<nat>)
    ensures LastError(e, [c] + rest) == LastError(if c != 0 then c else e, rest)
  {
    LastErrorJoins(e, [c], rest);
    assert [c][..0] == [];
  }

  // The end phase.

  /** A message that ends the loop: a read that throws, or, with autocommit off, the answer to a batch. */
  predicate Breaks(autocommit: bool, m: EndReply) {
    m == Late(Thrown) || (!autocommit && m.Late? && m.reply.Ack?)
  }

  /** The error code a message stands for. */
  function EndCode(autocommit: bool, m: EndReply): (c: nat) {
    match m
    case End(rc, _, _) => rc
    case Late(Lost) => 10
    case Late(Thrown) => 1
    case Late(Ack(rc, _)) => if autocommit then rc else 1
  }

  function EndCodes(autocommit: bool, msgs: seq<EndReply>): (codes: seq<nat>)
    ensures |codes| == |msgs| && forall i :: 0 <= i < |msgs| ==> codes[i] == EndCode(autocommit, msgs[i])
  {
    seq(|msgs|, i requires 0 <= i < |msgs| => EndCode(autocommit, msgs[i]))
  }

  /** Of `n` messages wanted, `k` are read: all of them, or up to one that ends the loop. */
  predicate Reads(autocommit: bool, n: nat, msgs: seq<EndReply>, k: nat) {
    && k <= n && k <= |msgs| && (forall i :: 0 <= i < k - 1 ==> !Breaks(autocommit, msgs[i]))
    && (k == n || (k > 0 && Breaks(autocommit, msgs[k - 1])))
  }

  lemma ReadsLess(autocommit: bool, n: nat, msgs: seq<EndReply>, k: nat)
    requires Reads(autocommit, n, msgs, k) && k > 0 && !Breaks(autocommit, msgs[0])
    ensures Reads(autocommit, n - 1, msgs[1..], k - 1)
  {
  }

  lemma CodesHead(autocommit: bool, msgs: seq<EndReply>, k: nat)
    requires 0 < k <= |msgs|
    ensures EndCodes(autocommit, msgs[..k]) ==
            [EndCode(autocommit, msgs[0])] + EndCodes(autocommit, msgs[1..][..k - 1])
  {
  }

  lemma CollectHead(p: Proc, n: nat, msgs: seq<EndReply>)
    requires n > 0 && msgs != []
    ensures Breaks(p.autocommit, msgs[0]) ==> Collect(p, n, msgs).Done? && Collect(p, n, msgs).proc.error == 1
    ensures !Breaks(p.autocommit, msgs[0]) ==>
      var q := AfterOne(p, msgs[0]);
      && Collect(p, n, msgs) == Collect(q, n - 1, msgs[1..]) && q.autocommit == p.autocommit
      && q.error == (if EndCode(p.autocommit, msgs[0]) != 0 then EndCode(p.autocommit, msgs[0]) else p.error)
  {
  }

  /** What a message that does not end the loop leaves. */
  function AfterOne(p: Proc, m: EndReply): (q: Proc) {
    match m
    case End(rc, pm, hwms) => Ended(p, rc, pm, hwms)
    case Late(Lost) => Collected(p, []).(error := NETWORK_ERROR)
    case Late(Thrown) => p
    case Late(Ack(rc, pm)) => p.(flight := p.flight - multiset{pm}, error := if rc != 0 then rc else p.error)
  }

  lemma {:induction false} CollectError(p: Proc, n: nat, msgs: seq<EndReply>, k: nat)
    requires Reads(p.autocommit, n, msgs, k)
    ensures var o := Collect(p, n, msgs);
      o.Done? && o.proc.error == LastError(p.error, EndCodes(p.autocommit, msgs[..k]))
    decreases |msgs|
  {
    hide Collect, EndCode, AfterOne, LastError;
    if k == 0 {
      NothingRead(p, msgs);
    } else {
      CollectHead(p, n, msgs);
      CodesHead(p.autocommit, msgs, k);
      var c, rest := EndCode(p.autocommit, msgs[0]), EndCodes(p.autocommit, msgs[1..][..k - 1]);
      LastErrorOne(p.error, c, rest);
      if Breaks(p.autocommit, msgs[0]) {
        BreakIsOne(p.autocommit, msgs[0]);
        assert k == 1;
        NoneLeft(1, rest);
      } else {
        ReadsLess(p.autocommit, n, msgs, k);
        CollectError(AfterOne(p, msgs[0]), n - 1, msgs[1..], k - 1);
      }
    }
  }

  lemma NothingRead(p: Proc, msgs: seq<EndReply>)
    ensures Collect(p, 0, msgs) == Done(p) && LastError(p.error, EndCodes(p.autocommit, msgs[..0])) == p.error
  {
  }

  lemma NoneLeft(e: nat, codes: seq<nat>)
    requires codes == []
    ensures LastError(e, codes) == e
  {
  }

  lemma BreakIsOne(autocommit: bool, m: EndReply)
    requires Breaks(autocommit, m)
    ensures EndCode(autocommit, m) == 1
  {
  }

  /** The high-water marks a message brings. */
  function ListOf(m: EndReply): (hwms: seq<Hwm>) {
    if m.End? then m.hwms else []
  }

  function ListsOf(msgs: seq<EndReply>): (lists: seq<seq<Hwm>>)
    ensures |lists| == |msgs| && forall i :: 0 <= i < |msgs| ==> lists[i] == ListOf(msgs[i])
  {
    seq(|msgs|, i requires 0 <= i < |msgs| => ListOf(msgs[i]))
  }

  lemma {:induction false} CollectLists(p: Proc, n: nat, msgs: seq<EndReply>)
    requires n <= |msgs| && !p.autocommit && forall i :: 0 <= i < n ==> !Breaks(false, msgs[i])
    ensures var o := Collect(p, n, msgs);
      o.Done? && o.proc.hwmArgs == p.hwmArgs + ListsOf(msgs[..n])
    decreases |msgs|
  {
    hide Collect;
    if n == 0 {
      NothingRead(p, msgs);
      assert p.hwmArgs + ListsOf(msgs[..0]) == p.hwmArgs;
    } else {
      CollectHead(p, n, msgs);
      CollectLists(AfterOne(p, msgs[0]), n - 1, msgs[1..]);
      assert ListsOf(msgs[..n]) == [ListOf(msgs[0])] + ListsOf(msgs[1..][..n - 1]);
      Regroup(p.hwmArgs, [ListOf(msgs[0])], ListsOf(msgs[1..][..n - 1]));
    }
  }

  lemma {:induction false} CollectBroken(p: Proc, n: nat, msgs: seq<EndReply>, k: nat)
    requires Reads(p.autocommit, n, msgs, k) && k > 0 && Breaks(p.autocommit, msgs[k - 1]) && !p.autocommit
    ensures var o := Collect(p, n, msgs); o.Done? && |o.proc.hwmArgs| == |p.hwmArgs| + k - 1
    decreases |msgs|
  {
    hide Collect;
    CollectHead(p, n, msgs);
    if k == 1 {
      BrokenFrame(p, n, msgs);
    } else {
      ReadsLess(p.autocommit, n, msgs, k);
      CollectBroken(AfterOne(p, msgs[0]), n - 1, msgs[1..], k - 1);
    }
  }

  lemma BrokenFrame(p: Proc, n: nat, msgs: seq<EndReply>)
    requires n > 0 && msgs != [] && Breaks(p.autocommit, msgs[0])
    ensures Collect(p, n, msgs).Done? && Collect(p, n, msgs).proc.hwmArgs == p.hwmArgs
  {
  }

  lemma {:induction false} CollectFrame(p: Proc, n: nat, msgs: seq<EndReply>)
    ensures var o := Collect(p, n, msgs);
      o.Done? ==> o.proc.pms == p.pms && o.proc.autocommit == p.autocommit && o.proc.hwmCalls == p.hwmCalls
    decreases |msgs|
  {
    if n > 0 && msgs != [] {
      CollectFrame(AfterOne(p, msgs[0]), n - 1, msgs[1..]);
    }
  }

  /** The end phase asks for an update: every message was read, none ended the loop, and they brought some marks. */
  predicate Asks(p: Proc, msgs: seq<EndReply>) {
    var n := |p.pms|;
    && !p.autocommit && n <= |msgs| && (forall i :: 0 <= i < n ==> !Breaks(false, msgs[i]))
    && Flatten(ListsOf(msgs[..n])) != []
  }

  /**
    What receiveAllMsg reports: the result of the update when it is asked for and fails, otherwise the
    last error among the messages read.
   */
  lemma EndError(p: Proc, msgs: seq<EndReply>, k: nat, brmRc: nat)
    requires Reads(p.autocommit, |p.pms|, msgs, k) && p.hwmArgs == []
    ensures var o := ReceiveAll(p, msgs, brmRc);
      && o.Done?
      && o.proc.error == (if Asks(p, msgs) && brmRc != 0 then brmRc
                          else LastError(p.error, EndCodes(p.autocommit, msgs[..k])))
      && o.proc.hwmCalls == p.hwmCalls + if Asks(p, msgs) then [Flatten(ListsOf(msgs[..|p.pms|]))] else []
  {
    hide Collect, LastError, Flatten, EndCodes;
    var n := |p.pms|;
    CollectError(p, n, msgs, k);
    CollectFrame(p, n, msgs);
    if !p.autocommit {
      if k > 0 && Breaks(false, msgs[k - 1]) {
        CollectBroken(p, n, msgs, k);
      } else {
        CollectLists(p, n, msgs);
        assert [] + ListsOf(msgs[..n]) == ListsOf(msgs[..n]);
        assert ListsOf(msgs[..n])[..n] == ListsOf(msgs[..n]);
      }
    }
  }

  /** An end answer of 0, or, with autocommit on, the answer of 0 to a batch. */
  predicate Good(autocommit: bool, m: EndReply) {
    (m.End? && m.rc == 0) || (autocommit && m.Late? && Fine(m.reply))
  }

  /** No error is reported exactly when there was none, every message is good, and the update does not fail. */
  lemma EndErrorIff(p: Proc, msgs: seq<EndReply>, k: nat, brmRc: nat)
    requires Reads(p.autocommit, |p.pms|, msgs, k) && p.hwmArgs == []
    ensures var n, o := |p.pms|, ReceiveAll(p, msgs, brmRc);
      o.Done? && (o.proc.error == 0 <==>
        && p.error == 0 && k == n && (forall i :: 0 <= i < n ==> Good(p.autocommit, msgs[i]))
        && (Asks(p, msgs) ==> brmRc == 0))
  {
    hide LastError, Asks, ReceiveAll;
    EndError(p, msgs, k, brmRc);
    var codes := EndCodes(p.autocommit, msgs[..k]);
    LastErrorMeans(p.error, codes);
    forall i | 0 <= i < k ensures codes[i] == 0 <==> Good(p.autocommit, msgs[i]) && !Breaks(p.autocommit, msgs[i]) {
      CodeGood(p.autocommit, msgs[i]);
    }
    if k < |p.pms| {
      assert codes[k - 1] != 0;
    }
  }

  lemma CodeGood(autocommit: bool, m: EndReply)
    ensures EndCode(autocommit, m) == 0 <==> Good(autocommit, m)
    ensures Good(autocommit, m) ==> !Breaks(autocommit, m)
  {
  }

  // Before the end message.

  /** What a reply read by receiveOutstandingMsg stands for. */
  function ReplyCode(m: Msg): (c: nat) {
    match m case Lost => 1 case Thrown => 10 case Ack(rc, _) => rc
  }

  function ReplyCodes(msgs: seq<Msg>): (codes: seq<nat>)
    ensures |codes| == |msgs| && forall i :: 0 <= i < |msgs| ==> codes[i] == ReplyCode(msgs[i])
  {
    seq(|msgs|, i requires 0 <= i < |msgs| => ReplyCode(msgs[i]))
  }

  /** `k` messages are read: up to the last answer wanted, or to a read that throws. */
  predicate Receives(n: nat, msgs: seq<Msg>, k: nat) {
    && k <= |msgs| && (forall i :: 0 <= i < k - 1 ==> !msgs[i].Thrown?)
    && (k == 0 || msgs[k - 1].Thrown? || (msgs[k - 1].Ack? && Acks(msgs[..k]) == n))
  }

  lemma ReceivesMore(n: nat, msgs: seq<Msg>, j: nat)
    requires msgs != [] && !msgs[0].Thrown? && n > 0
    requires var n' := if msgs[0].Ack? then n - 1 else n; Receives(n', msgs[1..], j) && (j == 0 <==> n' == 0)
    ensures Receives(n, msgs, j + 1)
  {
    var rest := msgs[1..];
    assert msgs[..j + 1][1..] == rest[..j] && msgs[..j + 1][0] == msgs[0];
    forall i | 0 <= i < j ensures !msgs[i].Thrown? { if i > 0 { assert msgs[i] == rest[i - 1]; } }
    if j > 0 { assert msgs[j] == rest[j - 1]; } else { assert rest[..0] == []; }
  }

  lemma CodesOfReplies(msgs: seq<Msg>, k: nat)
    requires 0 < k <= |msgs|
    ensures ReplyCodes(msgs[..k]) == [ReplyCode(msgs[0])] + ReplyCodes(msgs[1..][..k - 1])
  {
  }

  lemma ReceiveStep(p: Proc, n: nat, msgs: seq<Msg>)
    requires Receive(p, n, msgs).Done?
    ensures n == 0 ==> Receive(p, n, msgs).proc == p
    ensures n > 0 ==> msgs != []
    ensures n > 0 ==>
      match msgs[0]
      case Lost => Receive(p, n, msgs) == Receive(p.(error := 1), n, msgs[1..])
      case Thrown => Receive(p, n, msgs).proc.error == 10
      case Ack(rc, from) => Receive(p, n, msgs) == Receive(Answered(p, rc, from), n - 1, msgs[1..])
  {
  }

  /** What receiveOutstandingMsg reports is the last error among the messages it read. */
  lemma {:induction false} ReceiveReports(p: Proc, n: nat, msgs: seq<Msg>) returns (k: nat)
    requires Receive(p, n, msgs).Done?
    ensures Receives(n, msgs, k) && (k == 0 <==> n == 0)
    ensures Receive(p, n, msgs).proc.error == LastError(p.error, ReplyCodes(msgs[..k]))
    decreases |msgs|
  {
    hide LastError, ReplyCode, Receive, Receives, ReplyCodes;
    ReceiveStep(p, n, msgs);
    if n == 0 {
      k := 0;
      NothingReceived(p.error, msgs);
    } else {
      var m, rest := msgs[0], msgs[1..];
      CodeOfReply(m);
      if m.Thrown? {
        k := 1;
        NothingReceived(10, rest);
        ThrownReceives(n, msgs);
      } else {
        var p' := if m.Lost? then p.(error := 1) else Answered(p, m.rc, m.from);
        var j := ReceiveReports(p', if m.Lost? then n else n - 1, rest);
        k := j + 1;
        ReceivesMore(n, msgs, j);
        ReceivesInside(if m.Lost? then n else n - 1, rest, j);
      }
      CodesOfReplies(msgs, k);
      LastErrorOne(p.error, ReplyCode(m), ReplyCodes(rest[..k - 1]));
    }
  }

  lemma NothingReceived(e: nat, msgs: seq<Msg>)
    ensures Receives(0, msgs, 0) && LastError(e, ReplyCodes(msgs[..0])) == e
  {
  }

  lemma ThrownReceives(n: nat, msgs: seq<Msg>)
    requires msgs != [] && msgs[0].Thrown?
    ensures Receives(n, msgs, 1)
  {
  }

  lemma ReceivesInside(n: nat, msgs: seq<Msg>, k: nat)
    requires Receives(n, msgs, k)
    ensures k <= |msgs|
  {
  }

  lemma CodeOfReply(m: Msg)
    ensures ReplyCode(m) == match m case Lost => 1 case Thrown => 10 case Ack(rc, _) => rc
  {
  }

  /** What sendNextBatch reports: 1 without a PM, and after a wait the error of the message that ended it. */
  lemma SendNextReports(p: Proc, choice: nat, how: Try, msgs: seq<Msg>, k: int)
    requires p.queue != [] && SendNext(p, choice, how, msgs).Done?
    ensures var e := SendNext(p, choice, how, msgs).proc.error;
      && (how.ChoiceFails? ==> e == 1)
      && (how.Works? && choice in p.free && p.free[choice] ==> e == p.error)
      && (how.Works? && !(choice in p.free && p.free[choice]) && StopsAt(choice, msgs, k) ==>
            e == match msgs[k]
                 case Lost => 10
                 case Thrown => p.error
                 case Ack(rc, _) => if rc != 0 then rc else p.error)
      && !how.WriteThrows?
  {
    hide Drain, StopsAt;
    DrainFrame(p, choice, msgs);
    if how.Works? && !IsFree(p, choice) && StopsAt(choice, msgs, k) {
      StopsInside(choice, msgs, k);
      DrainError(p, choice, msgs, k);
    }
  }

  lemma StopsInside(pm: nat, msgs: seq<Msg>, k: int)
    requires StopsAt(pm, msgs, k)
    ensures 0 <= k < |msgs|
  {
  }

  /** What sendFirstBatch reports: 1 without a PM and for PM 0. */
  lemma SendFirstReports(p: Proc, choice: nat, how: Try)
    requires p.queue != []
    ensures var o := SendFirst(p, choice, how);
      && (o.Threw? <==> how.WriteThrows? && choice != 0) && !o.Waiting?
      && (o.Done? ==> o.proc.error == if how.ChoiceFails? || choice == 0 then 1 else p.error)
      && (o.Done? && (how.ChoiceFails? || choice == 0) ==> o.proc.sent == p.sent && o.proc.queue == p.queue)
  {
  }

  /** The packages of some batches. */
  function Pkgs(bs: seq<Batch>): (ps: seq<Pkg>)
    ensures |ps| == |bs|
  {
    seq(|bs|, i requires 0 <= i < |bs| => bs[i].pkg)
  }

  /** No error that ends a statement has been set. */
  predicate GoodUpTo(p: Proc, bs: seq<Batch>) {
    Run(p, bs).Done? && Run(p, bs).proc.error in {0, 13}
  }

  /** A run takes packages in order while there is no error but the range warning, and leaves some only for an error. */
  lemma {:induction false} RunTakes(p: Proc, bs: seq<Batch>) returns (m: nat)
    requires Run(p, bs).Done?
    ensures m <= |bs| && Run(p, bs).proc.added == p.added + Pkgs(bs[..m])
    ensures m < |bs| ==> Run(p, bs).proc.error !in {0, 13}
    ensures forall j :: 0 <= j < m ==> GoodUpTo(p, bs[..j])
    decreases |bs|
  {
    hide Feed;
    if bs == [] || !Goes(p) {
      m := 0;
      assert p.added + Pkgs(bs[..0]) == p.added;
    } else {
      var q := Feed(p, bs[0]).proc;
      FeedAdds(p, bs[0]);
      var k := RunTakes(q, bs[1..]);
      m := k + 1;
      assert Pkgs(bs[..m]) == [bs[0].pkg] + Pkgs(bs[1..][..k]);
      Regroup(p.added, [bs[0].pkg], Pkgs(bs[1..][..k]));
      forall j | 0 <= j < m ensures GoodUpTo(p, bs[..j]) {
        if j > 0 {
          assert GoodUpTo(q, bs[1..][..j - 1]);
          assert bs[..j][1..] == bs[1..][..j - 1];
        }
      }
    }
  }

  lemma FeedAdds(p: Proc, b: Batch)
    requires Feed(p, b).Done?
    ensures Feed(p, b).proc.added == p.added + [b.pkg]
  {
    hide Drain;
    DrainFrame(AddPkg(p, b.pkg), b.pm, b.msgs);
  }

  /** The end message: every PM owes an end answer, or, when it cannot be written, an error is set and nobody does. */
  lemma SendLastReports(p: Proc, failed: bool)
    ensures var q := SendLast(p, failed);
      && q.error == (if failed then 1 else p.error)
      && forall pm :: q.ends[pm] == p.ends[pm] + if failed then 0 else multiset(p.pms)[pm]
  {
  }
}
