/**
  Whether the answers a transaction's rollback counts are those to its own messages, and when a
  lock of any kind leaves no answer outstanding.
 */
module TxnAnswers {
  import opened Wrappers
  import opened Replies
  import opened WeClient
  import opened BulkRollback
  import opened RollbackAnswers
  import opened RollbackPass

  /** Every PM has answered this rollback with 0. */
  predicate AllRolledBack(i: nat, all: seq<nat>, log: seq<Event>) {
    forall pm :: pm in all ==> Heard(0, Request(i, Blocks, pm)) in log
  }

  /** However the others behave, the rollback does not return 0 before every PM answered it with 0. */
  ghost predicate AlwaysRolledBack(i: nat, all: seq<nat>, owed: seq<Request>) {
    forall w: World ::
      var log := TxnRollback(i, all, false, w).log;
      Plausible(owed, Discards(w.dropped) + log) && TxnUndone(0) in log ==> AllRolledBack(i, all, log)
  }

  /** What happens in a rollback that returns 0. */
  function DoneLog(qs: seq<Request>, rs: seq<Reply<Request>>): (log: seq<Event>) {
    Tolds(qs) + Hear(|qs|, rs).log + [TxnUndone(0)]
  }

  lemma ReturnsZero(i: nat, all: seq<nat>, w: World)
    ensures var log := TxnRollback(i, all, false, w).log;
      && (TxnUndone(0) in log <==> TxnDone(|all|, w))
      && (TxnDone(|all|, w) ==> log == DoneLog(Asks(i, Blocks, all), w.replies))
  {
    hide Hear, Leading, OnlyReads, Tolds, Asks;
    HearExit(|all|, w.replies);
    HearingReads(|all|, w.replies, 0);
    NotUndone(Asks(i, Blocks, all), w.writes, Hear(|all|, w.replies).log);
  }

  lemma NotUndone(qs: seq<Request>, writes: nat, heard: seq<Event>)
    requires OnlyReads(heard)
    ensures TxnUndone(0) !in Tell(qs, writes).log && TxnUndone(0) !in Tolds(qs) + heard
  {
  }

  lemma {:induction false} NothingDropped(qs: seq<Request>)
    ensures Owed([], Discards(qs)) == []
  {
    if qs == [] {
      assert Discards(qs) == [];
    } else {
      assert Discards(qs)[1..] == Discards(qs[1..]);
      NothingDropped(qs[1..]);
    }
  }

  /** With nothing outstanding, a return of 0 means that every PM answered 0. */
  lemma OwnAnswers(i: nat, all: seq<nat>, w: World)
    requires Distinct(all) && TxnDone(|all|, w)
    requires Plausible([], Discards(w.dropped) + TxnRollback(i, all, false, w).log)
    ensures AllRolledBack(i, all, TxnRollback(i, all, false, w).log)
  {
    hide Hear, Plausible, Owed, Leading, TxnRollback, Tolds, Discards, DifferentPms, Distinct;
    var qs, log := Asks(i, Blocks, all), TxnRollback(i, all, false, w).log;
    var heard := Hear(|qs|, w.replies).log;
    ReturnsZero(i, all, w);
    NothingDropped(w.dropped);
    OwedJoins([], Discards(w.dropped), log);
    OwedJoins([], Tolds(qs) + heard, [TxnUndone(0)]);
    OwedJoins([], Tolds(qs), heard);
    TellsOwe([], qs);
    AsksDiffer(i, Blocks, all);
    forall pm | pm in all ensures Heard(0, Request(i, Blocks, pm)) in log {
      var k :| 0 <= k < |all| && all[k] == pm;
      assert qs[k] == Request(i, Blocks, pm);
      HearOwn([], qs, w.replies, qs[k]);
    }
  }

  /** The run in which the answer to `owed[0]` is counted, and never that of the PM number `t`. */
  function LateWorld(i: nat, all: seq<nat>, owed: seq<Request>, t: nat): (w: World)
    requires owed != [] && t < |all|
  {
    var qs := Asks(i, Blocks, all);
    StaleWorld(i, all, owed, 0, t).(replies := Acks([owed[0]] + (qs[..t] + qs[t + 1..])))
  }

  lemma LateLog(i: nat, all: seq<nat>, owed: seq<Request>, t: nat)
    requires owed != [] && t < |all|
    ensures var w, qs := LateWorld(i, all, owed, t), Asks(i, Blocks, all);
      && TxnDone(|all|, w)
      && TxnRollback(i, all, false, w).log ==
           Tolds(qs) + Heards([owed[0]] + (qs[..t] + qs[t + 1..])) + [TxnUndone(0)]
  {
    hide Hear, Leading, Heards, Tolds, TxnRollback;
    var qs := Asks(i, Blocks, all);
    HearAcks([owed[0]] + (qs[..t] + qs[t + 1..]));
    ReturnsZero(i, all, LateWorld(i, all, owed, t));
  }

  lemma {:induction false} LatePlausible(i: nat, all: seq<nat>, owed: seq<Request>, t: nat)
    requires owed != [] && t < |all| && Distinct(all) && (owed[0].pm in all ==> owed[0].pm == all[t])
    ensures var w := LateWorld(i, all, owed, t);
      Plausible(owed, Discards(w.dropped) + TxnRollback(i, all, false, w).log)
  {
    hide Plausible, Owed, Heards, Tolds, TxnRollback, Discards, Of, NotOf, DifferentPms;
    var w, q, qs := LateWorld(i, all, owed, t), owed[0], Asks(i, Blocks, all);
    var more, told := Of(owed[1..], q.pm), Tolds(qs) + Heards([q] + (qs[..t] + qs[t + 1..]));
    LateLog(i, all, owed, t);
    StaleDrops(owed, 0);
    AsksDiffer(i, Blocks, all);
    StaleHears(qs, q, more, t);
    NoAnswer(more + [qs[t]], TxnUndone(0));
    OwedJoins([q] + more, told, [TxnUndone(0)]);
    OwedJoins(owed, Discards(w.dropped), told + [TxnUndone(0)]);
  }

  lemma LateMisses(i: nat, all: seq<nat>, owed: seq<Request>, t: nat)
    requires owed != [] && t < |all| && Distinct(all) && owed[0].lock != i
    ensures !AllRolledBack(i, all, TxnRollback(i, all, false, LateWorld(i, all, owed, t)).log)
  {
    hide TxnRollback;
    LateLog(i, all, owed, t);
    var qs, y := Asks(i, Blocks, all), Request(i, Blocks, all[t]);
    var read := [owed[0]] + (qs[..t] + qs[t + 1..]);
    assert y !in read;
    assert Heard(0, y) !in Heards(read) && Heard(0, y) !in Tolds(qs);
  }

  /** Exactly when a return of 0 means that every PM answered this rollback with 0: no answer is outstanding. */
  lemma RolledBackIff(i: nat, all: seq<nat>, owed: seq<Request>)
    requires all != [] && Distinct(all) && forall q :: q in owed ==> q.lock != i
    ensures AlwaysRolledBack(i, all, owed) <==> owed == []
  {
    hide TxnRollback, Plausible, AllRolledBack, LateWorld, Distinct, TxnDone;
    if owed == [] {
      forall w: World | Plausible(owed, Discards(w.dropped) + TxnRollback(i, all, false, w).log)
                        && TxnUndone(0) in TxnRollback(i, all, false, w).log
        ensures AllRolledBack(i, all, TxnRollback(i, all, false, w).log)
      {
        ReturnsZero(i, all, w);
        OwnAnswers(i, all, w);
      }
    } else {
      var t: nat := 0;
      if owed[0].pm in all {
        t :| 0 <= t < |all| && all[t] == owed[0].pm;
      }
      var w := LateWorld(i, all, owed, t);
      LateLog(i, all, owed, t);
      LatePlausible(i, all, owed, t);
      LateMisses(i, all, owed, t);
      ReturnsZero(i, all, w);
    }
  }

  /** The same after any beginning of a pass. */
  lemma PassRolledBackIff(locks: seq<Lock>, pmMap: map<nat, nat>, all: seq<nat>, ws: seq<World>, i: nat)
    requires i < |locks| == |ws| && all != [] && Distinct(all)
    ensures var owed := Walk(locks, pmMap, all, ws, i).owed;
      AlwaysRolledBack(i, all, owed) <==> owed == []
  {
    hide Walk, AlwaysRolledBack, Distinct;
    var owed := Walk(locks, pmMap, all, ws, i).owed;
    forall q | q in owed ensures q.lock != i { OwedEarlier(locks, pmMap, all, ws, i, q); }
    RolledBackIff(i, all, owed);
  }

  /** A transaction's lock is released only after every PM answered its rollback with 0, if nothing was outstanding. */
  lemma TxnReleaseAnswered(i: nat, lock: Lock, all: seq<nat>, open: bool, w: World, k: nat)
    requires Distinct(all) && Plausible([], Discards(w.dropped) + TxnStep(i, lock, all, open, w).log)
    requires var log := TxnStep(i, lock, all, open, w).log; k < |log| && log[k] == ReleaseCalled
    ensures AllRolledBack(i, all, TxnStep(i, lock, all, open, w).log[..k])
  {
    hide TxnRollback, TxnBatch, TxnRc, TxnTraffic, Plausible, AllRolledBack, Discards, Distinct, TxnDone;
    var r, log := TxnRollback(i, all, open, w), TxnStep(i, lock, all, open, w).log;
    var more := log[|r.log|..];
    RollbackTraffic(i, all, open, w);
    TrafficIsSilent(r.log, i);
    TxnRollbackExit(i, all, open, w);
    assert r.log <= log && k >= |r.log| && log == r.log + more;
    Regroup(Discards(w.dropped), r.log, more);
    OwedJoins([], Discards(w.dropped) + r.log, more);
    OwnAnswers(i, all, w);
    assert r.log <= log[..k];
    MoreAnswered(i, all, r.log, log[..k]);
  }

  lemma MoreAnswered(i: nat, all: seq<nat>, a: seq<Event>, b: seq<Event>)
    requires a <= b && AllRolledBack(i, all, a)
    ensures AllRolledBack(i, all, b)
  {
    forall pm | pm in all ensures Heard(0, Request(i, Blocks, pm)) in b {
      var k :| 0 <= k < |a| && a[k] == Heard(0, Request(i, Blocks, pm));
      assert b[k] == a[k];
    }
  }

  // When nothing is outstanding.

  lemma {:induction false} SettleShorter(owed: seq<Request>, pm: nat)
    requires Oldest(owed, pm).Some?
    ensures |Settle(owed, pm)| == |owed| - 1
  {
    if owed[0].pm != pm {
      SettleShorter(owed[1..], pm);
    }
  }

  predicate NothingLost(log: seq<Event>) {
    forall e :: e in log ==> !e.Discarded?
  }

  /** Outstanding are the messages less the answers. */
  lemma {:induction false} OwedCount(owed: seq<Request>, log: seq<Event>)
    requires Plausible(owed, log) && NothingLost(log)
    ensures |Owed(owed, log)| == |owed| + Net(log)
    decreases |log|
  {
    hide Settle, Oldest;
    if log != [] {
      assert log == [log[0]] + log[1..] && log[0] in log;
      if log[0].Heard? {
        SettleShorter(owed, log[0].from.pm);
      }
      OwedCount(OwedAfter(owed, log[0]), log[1..]);
    }
  }

  lemma {:induction false} NetMeta(n: nat, rs: seq<Reply<Request>>)
    ensures Net(HearMeta(n, rs).log) + LeadingAnswers(n, rs) == 0
    decreases |rs|
  {
    if n != 0 && rs != [] && rs[0].Ack? {
      NetMeta(n - 1, rs[1..]);
      var e, more := Heard(rs[0].rc, rs[0].from), HearMeta(n - 1, rs[1..]).log;
      assert ([e] + more)[1..] == more;
    }
  }

  /** Messages and answers of one exchange. */
  lemma NetTalk(qs: seq<Request>, writes: nat, heard: Result)
    ensures Net(Then(Tell(qs, writes), heard).log) == if writes < |qs| then writes else |qs| + Net(heard.log)
  {
    hide Net, Tolds;
    NetTolds(if writes < |qs| then qs[..writes] else qs);
    NetJoins(Tolds(qs), heard.log);
  }

  predicate MetaSquare(n: nat, b: BatchWorld) {
    if b.metaWrites < n then b.metaWrites == 0 else LeadingAnswers(n, b.metaReplies) == n
  }

  /** The batch rollback leaves no answer of its own outstanding. */
  predicate BatchSettled(n: nat, b: BatchWorld) {
    && Square(n, b.writes, b.replies)
    && (BatchDone(n, b) && b.changed ==> MetaSquare(n, b))
  }

  /** Neither does the lock. */
  predicate TxnSettled(lock: Lock, all: seq<nat>, open: bool, w: World) {
    var n := |all|;
    w.brmRc == 0 && !open ==>
      && Square(n, w.writes, w.replies)
      && (TxnDone(n, w) && ' ' in lock.ownerName && w.batch.locked ==> BatchSettled(n, w.batch))
  }

  lemma NetTxn(i: nat, all: seq<nat>, w: World)
    requires w.brmRc == 0
    ensures var log := TxnRollback(i, all, false, w).log;
      (Net(log) == 0 <==> Square(|all|, w.writes, w.replies)) && (TxnDone(|all|, w) ==> Net(log) == 0)
  {
    hide Net, Hear, Leading, TxnRc, Tolds;
    var heard := Hear(|all|, w.replies);
    NetHear(|all|, w.replies);
    NetTalk(Asks(i, Blocks, all), w.writes, heard);
    var r := Then(Tell(Asks(i, Blocks, all), w.writes), heard);
    NetOne(r.log, TxnUndone(TxnRc(|all|, w)));
  }

  lemma NetOne(log: seq<Event>, e: Event)
    requires !e.Told? && !e.Heard?
    ensures Net(log + [e]) == Net(log)
  {
    NetJoins(log, [e]);
  }

  lemma NetBatch(i: nat, all: seq<nat>, b: BatchWorld)
    ensures Net(BatchTalk(i, all, b).log) == 0 <==> BatchSettled(|all|, b)
  {
    hide Net, Hear, HearMeta, Leading, LeadingAnswers, Tolds;
    var n, heard, meta := |all|, Hear(|all|, b.replies), HearMeta(|all|, b.metaReplies);
    HearExit(n, b.replies);
    NetHear(n, b.replies);
    NetMeta(n, b.metaReplies);
    NetTalk(Asks(i, Batch, all), b.writes, heard);
    NetTalk(Asks(i, Meta, all), b.metaWrites, meta);
    NetJoins(Then(Tell(Asks(i, Batch, all), b.writes), heard).log, MetaPhase(i, all, b).log);
  }

  /** Neither a message nor an answer. */
  predicate Quiet(log: seq<Event>) {
    forall e :: e in log ==> !e.Told? && !e.Heard? && !e.Discarded?
  }

  lemma {:induction false} QuietOwes(owed: seq<Request>, log: seq<Event>)
    requires Quiet(log)
    ensures Owed(owed, log) == owed
    decreases |log|
  {
    if log != [] {
      assert log[0] in log;
      QuietOwes(owed, log[1..]);
    }
  }

  predicate BatchRuns(lock: Lock, w: World) {
    ' ' in lock.ownerName && w.batch.locked
  }

  /** What a transaction's lock does after its rollback. */
  function AfterRollback(i: nat, lock: Lock, all: seq<nat>, w: World): (log: seq<Event>) {
    if BatchRuns(lock, w) then Discards(w.batch.dropped) + BatchTalk(i, all, w.batch).log else []
  }

  lemma BatchShape(i: nat, lock: Lock, all: seq<nat>, w: World)
    ensures var b := TxnBatch(i, lock, all, w);
      b.log == AfterRollback(i, lock, all, w) +
               if b.exit.Normal? && ' ' in lock.ownerName then [BatchUndone] else []
  {
    hide BatchTalk, Discards;
  }

  lemma EndIsQuiet(lock: Lock, open: bool, w: World)
    ensures var rel := TxnRelease(lock, open, w).log;
      Quiet([]) && Quiet([ReadOnlySet]) && Quiet([BatchUndone]) && Quiet(rel) && Quiet([BatchUndone] + rel)
  {
  }

  lemma TxnShape(i: nat, lock: Lock, all: seq<nat>, open: bool, w: World) returns (quiet: seq<Event>)
    ensures var r, done := TxnRollback(i, all, open, w), !open && TxnDone(|all|, w);
      && Quiet(quiet)
      && TxnStep(i, lock, all, open, w).log == r.log + ((if done then AfterRollback(i, lock, all, w) else []) + quiet)
  {
    hide TxnRollback, TxnDone, TxnRc, TxnBatch, TxnRelease, AfterRollback, Quiet;
    TxnRollbackExit(i, all, open, w);
    var r, b := TxnRollback(i, all, open, w), TxnBatch(i, lock, all, w);
    var after, rel := AfterRollback(i, lock, all, w), TxnRelease(lock, b.open, w).log;
    BatchShape(i, lock, all, w);
    EndIsQuiet(lock, b.open, w);
    if !r.exit.Normal? {
      quiet := [];
    } else if TxnRc(|all|, w) != 0 {
      quiet := [ReadOnlySet];
    } else if b.exit.Normal? {
      var undone := if ' ' in lock.ownerName then [BatchUndone] else [];
      quiet := undone + rel;
      assert [] + rel == rel;
      Regroup(after, undone, rel);
    } else {
      quiet := [];
    }
    assert [] + quiet == quiet;
  }

  lemma TalkLosesNothing(i: nat, all: seq<nat>, w: World, b: BatchWorld)
    ensures NothingLost(TxnRollback(i, all, false, w).log) && NothingLost(BatchTalk(i, all, b).log)
  {
    hide Hear, HearMeta, TxnRc, Tolds, OnlyReads, NothingLost;
    HearingReads(|all|, w.replies, 0);
    HearingReads(|all|, b.replies, 0);
    HearMetaReads(|all|, b.metaReplies);
    var blocks := Then(Tell(Asks(i, Blocks, all), w.writes), Hear(|all|, w.replies)).log;
    var batch := Then(Tell(Asks(i, Batch, all), b.writes), Hear(|all|, b.replies)).log;
    TalkLoses(Asks(i, Blocks, all), w.writes, Hear(|all|, w.replies));
    TalkLoses(Asks(i, Batch, all), b.writes, Hear(|all|, b.replies));
    TalkLoses(Asks(i, Meta, all), b.metaWrites, HearMeta(|all|, b.metaReplies));
    UndoneLoses(w.brmRc);
    UndoneLoses(TxnRc(|all|, w));
    LosesJoin(blocks, [TxnUndone(TxnRc(|all|, w))]);
    LosesJoin(batch, MetaPhase(i, all, b).log);
  }

  lemma TalkLoses(qs: seq<Request>, writes: nat, heard: Result)
    requires OnlyReads(heard.log)
    ensures NothingLost(Then(Tell(qs, writes), heard).log)
  {
  }

  lemma UndoneLoses(rc: int)
    ensures NothingLost([TxnUndone(rc)])
  {
  }

  lemma LosesJoin(a: seq<Event>, b: seq<Event>)
    ensures NothingLost(a) && NothingLost(b) ==> NothingLost(a + b)
  {
  }

  /** Exactly when a transaction's lock that met nothing outstanding leaves nothing outstanding. */
  lemma TxnLeavesNothingIff(i: nat, lock: Lock, all: seq<nat>, open: bool, w: World)
    requires Plausible([], Discards(w.dropped) + TxnStep(i, lock, all, open, w).log)
    ensures Owed([], Discards(w.dropped) + TxnStep(i, lock, all, open, w).log) == [] <==> TxnSettled(lock, all, open, w)
  {
    hide Plausible, Owed, Discards, TxnStep, TxnRollback, TxnDone, AfterRollback, Quiet, Square, BatchSettled, Net;
    var quiet := TxnShape(i, lock, all, open, w);
    var r, after := TxnRollback(i, all, open, w).log, AfterRollback(i, lock, all, w);
    var rest := (if !open && TxnDone(|all|, w) then after else []) + quiet;
    NothingDropped(w.dropped);
    OwedJoins([], Discards(w.dropped), r + rest);
    OwedJoins([], r, rest);
    if w.brmRc != 0 || open {
      RefusedQuiet(i, all, open, w);
      assert rest == quiet;
      QuietOwes([], r);
      QuietOwes([], quiet);
    } else {
      TalkLosesNothing(i, all, w, w.batch);
      OwedCount([], r);
      NetTxn(i, all, w);
      if TxnDone(|all|, w) {
        OwedJoins([], after, quiet);
        AfterLeavesNothingIff(i, lock, all, w);
        QuietOwes(Owed([], after), quiet);
      } else {
        assert rest == quiet;
        QuietOwes(Owed([], r), quiet);
      }
    }
  }

  lemma RefusedQuiet(i: nat, all: seq<nat>, open: bool, w: World)
    requires w.brmRc != 0 || open
    ensures Quiet(TxnRollback(i, all, open, w).log) && !(!open && TxnDone(|all|, w))
  {
  }

  lemma AfterLeavesNothingIff(i: nat, lock: Lock, all: seq<nat>, w: World)
    requires Plausible([], AfterRollback(i, lock, all, w))
    ensures Owed([], AfterRollback(i, lock, all, w)) == [] <==> BatchRuns(lock, w) ==> BatchSettled(|all|, w.batch)
  {
    hide Plausible, Owed, Discards, BatchTalk, BatchSettled, Net;
    if BatchRuns(lock, w) {
      var talk := BatchTalk(i, all, w.batch).log;
      NothingDropped(w.batch.dropped);
      OwedJoins([], Discards(w.batch.dropped), talk);
      TalkLosesNothing(i, all, w, w.batch);
      OwedCount([], talk);
      NetBatch(i, all, w.batch);
    } else {
      QuietOwes([], []);
    }
  }

  /** Lock `i`, of whatever kind, leaves no answer outstanding. */
  predicate LeavesNothingAt(locks: seq<Lock>, pmMap: map<nat, nat>, all: seq<nat>, ws: seq<World>, i: int)
    requires 0 <= i < |locks| == |ws|
  {
    var open := Walk(locks, pmMap, all, ws, i).open;
    if locks[i].ownerTxn > 0 then TxnSettled(locks[i], all, open, ws[i])
    else IsBulk(locks[i]) ==> Settled(locks[i], pmMap, open, ws[i])
  }

  /** All that a bulk rollback leaves outstanding is its own. */
  lemma BulkOwesBulk(i: nat, lock: Lock, pmMap: map<nat, nat>, open: bool, w: World)
    ensures var owed := Owed([], Discards(w.dropped) + Bulk(i, lock, pmMap, open, w).log);
      owed == [] <==> NoneBulk(owed)
  {
    hide Owed, Bulk;
    var log := Bulk(i, lock, pmMap, open, w).log;
    var owed := Owed([], Discards(w.dropped) + log);
    BulkMessages(i, lock, pmMap, open, w);
    if owed != [] {
      OwedFrom([], Discards(w.dropped) + log, owed[0]);
      assert BulkPhase(owed[0].phase) && owed[0] in owed;
    }
  }

  /** Exactly when a lock that met nothing outstanding leaves nothing outstanding. */
  lemma EmptyIff(locks: seq<Lock>, pmMap: map<nat, nat>, all: seq<nat>, ws: seq<World>, i: nat)
    requires i < |locks| == |ws| && Walk(locks, pmMap, all, ws, i).exit.Normal?
    requires BehavesAt(locks, pmMap, all, ws, i) && Walk(locks, pmMap, all, ws, i).owed == []
    ensures Walk(locks, pmMap, all, ws, i + 1).owed == [] <==> LeavesNothingAt(locks, pmMap, all, ws, i)
  {
    hide Walk, Bulk, TxnStep, Settled, TxnSettled, Plausible, Readable, Owed, NoneBulk, Discards;
    WalkOwes(locks, pmMap, all, ws, i);
    var open, lock, w := Walk(locks, pmMap, all, ws, i).open, locks[i], ws[i];
    if lock.ownerTxn > 0 {
      TxnLeavesNothingIff(i, lock, all, open, w);
    } else if IsBulk(lock) {
      NothingIsNoneBulk();
      LeavesNothingIff(i, lock, pmMap, open, [], w);
      BulkOwesBulk(i, lock, pmMap, open, w);
    } else {
      var log := Handle(i, lock, pmMap, all, open, w).log;
      OwedJoins([], Discards(w.dropped), log);
      NothingDropped(w.dropped);
      QuietOwes([], log);
    }
  }

  lemma NothingIsNoneBulk()
    ensures NoneBulk([])
  {
  }

  /** Over every pass: while each lock so far left nothing outstanding, nothing is. */
  lemma {:induction false} NothingStaysOutstanding(locks: seq<Lock>, pmMap: map<nat, nat>, all: seq<nat>,
                                                   ws: seq<World>, n: nat)
    requires n <= |locks| == |ws|
    requires forall i :: 0 <= i < n ==> BehavesAt(locks, pmMap, all, ws, i) && LeavesNothingAt(locks, pmMap, all, ws, i)
    ensures Walk(locks, pmMap, all, ws, n).owed == []
  {
    hide Walk, BehavesAt, LeavesNothingAt;
    WalkStarts(locks, pmMap, all, ws);
    if n > 0 {
      NothingStaysOutstanding(locks, pmMap, all, ws, n - 1);
      WalkStep(locks, pmMap, all, ws, n - 1);
      if Walk(locks, pmMap, all, ws, n - 1).exit.Normal? {
        EmptyIff(locks, pmMap, all, ws, n - 1);
      }
    }
  }

  /** Then no lock is released before every PM it concerns answered for it. */
  lemma PassReleasesAnswered(locks: seq<Lock>, pmMap: map<nat, nat>, all: seq<nat>, ws: seq<World>,
                             n: nat, i: nat, k: nat)
    requires n <= |locks| == |ws| && i < |locks| && i < |Walk(locks, pmMap, all, ws, n).logs| && Distinct(all)
    requires var log := Walk(locks, pmMap, all, ws, n).logs[i]; k < |log| && log[k] == ReleaseCalled
    requires BehavesAt(locks, pmMap, all, ws, i)
    requires forall j :: 0 <= j < i ==> BehavesAt(locks, pmMap, all, ws, j) && LeavesNothingAt(locks, pmMap, all, ws, j)
    ensures var before := Walk(locks, pmMap, all, ws, n).logs[i][..k];
      && Justified(i, locks[i], pmMap, before)
      && (locks[i].ownerTxn > 0 ==> AllRolledBack(i, all, before))
  {
    hide Walk, TxnStep, Bulk, LeavesNothingAt, Justified, Plausible, Readable, NoneBulk, AllRolledBack, Distinct;
    NothingStaysOutstanding(locks, pmMap, all, ws, i);
    NothingIsNoneBulk();
    PassJustified(locks, pmMap, all, ws, n, i, k);
    WalkLogs(locks, pmMap, all, ws, n, i);
    if locks[i].ownerTxn > 0 {
      TxnReleaseAnswered(i, locks[i], all, Walk(locks, pmMap, all, ws, i).open, ws[i], k);
    }
  }

  // Who is told what for a transaction's lock.

  lemma {:induction false} ToldIn(i: nat, phase: Phase, pms: seq<nat>, q: Request)
    ensures Told(q) in Tolds(Asks(i, phase, pms)) <==> q.lock == i && q.phase == phase && q.pm in pms
  {
    var qs := Asks(i, phase, pms);
    if q.lock == i && q.phase == phase && q.pm in pms {
      var k :| 0 <= k < |pms| && pms[k] == q.pm;
      assert qs[k] == q && Tolds(qs)[k] == Told(q);
    }
  }

  /** In an exchange, the PMs are told in order as far as the writes succeed. */
  lemma TalkTells(i: nat, phase: Phase, all: seq<nat>, writes: nat, heard: Result, q: Request)
    requires OnlyReads(heard.log)
    ensures Told(q) in Then(Tell(Asks(i, phase, all), writes), heard).log <==>
      q.lock == i && q.phase == phase && q.pm in all[..if writes < |all| then writes else |all|]
  {
    hide Tolds;
    var n := if writes < |all| then writes else |all|;
    assert Asks(i, phase, all)[..n] == Asks(i, phase, all[..n]);
    assert all[..|all|] == all;
    ToldIn(i, phase, all[..n], q);
  }

  /** The PMs a transaction's lock gets to tell of each phase. */
  function ToldOf(phase: Phase, lock: Lock, all: seq<nat>, open: bool, w: World): (pms: seq<nat>) {
    var n, b := |all|, w.batch;
    var batch := !open && TxnDone(n, w) && ' ' in lock.ownerName && b.locked;
    var writes :=
      match phase
      case Blocks => if w.brmRc == 0 && !open then w.writes else 0
      case Batch => if batch then b.writes else 0
      case Meta => if batch && BatchDone(n, b) && b.changed then b.metaWrites else 0
      case _ => 0;
    all[..if writes < n then writes else n]
  }

  lemma RollbackTells(i: nat, all: seq<nat>, open: bool, w: World, q: Request)
    ensures Told(q) in TxnRollback(i, all, open, w).log <==>
      q.lock == i && q.phase == Blocks && w.brmRc == 0 && !open &&
      q.pm in all[..if w.writes < |all| then w.writes else |all|]
  {
    hide Hear, Tolds, Asks, OnlyReads, TxnRc;
    HearingReads(|all|, w.replies, 0);
    TalkTells(i, Blocks, all, w.writes, Hear(|all|, w.replies), q);
  }

  lemma BatchTells(i: nat, all: seq<nat>, b: BatchWorld, q: Request)
    ensures var n := |all|;
      var batch := all[..if b.writes < n then b.writes else n];
      var meta := all[..if b.metaWrites < n then b.metaWrites else n];
      Told(q) in BatchTalk(i, all, b).log <==>
        (q.lock == i && q.phase == Batch && q.pm in batch)
        || (q.lock == i && q.phase == Meta && BatchDone(n, b) && b.changed && q.pm in meta)
  {
    hide Hear, HearMeta, Tolds, Asks, OnlyReads, Leading;
    HearExit(|all|, b.replies);
    HearingReads(|all|, b.replies, 0);
    HearMetaReads(|all|, b.metaReplies);
    TalkTells(i, Batch, all, b.writes, Hear(|all|, b.replies), q);
    TalkTells(i, Meta, all, b.metaWrites, HearMeta(|all|, b.metaReplies), q);
  }

  /** Exactly who is told what: all PMs for the rollback, the batch, and its meta files, as far as it gets. */
  lemma TxnTellsIff(i: nat, lock: Lock, all: seq<nat>, open: bool, w: World, q: Request)
    ensures Told(q) in TxnStep(i, lock, all, open, w).log <==>
            q.lock == i && q.pm in ToldOf(q.phase, lock, all, open, w)
  {
    hide TxnRollback, TxnDone, BatchTalk, Quiet, BatchDone, TxnStep, Discards;
    var quiet := TxnShape(i, lock, all, open, w);
    RollbackTells(i, all, open, w, q);
    BatchTells(i, all, w.batch, q);
    QuietTells(quiet, q);
    DroppedTells(w.batch.dropped, q);
  }

  lemma QuietTells(log: seq<Event>, q: Request)
    requires Quiet(log)
    ensures Told(q) !in log
  {
  }

  lemma DroppedTells(qs: seq<Request>, q: Request)
    ensures Told(q) !in Discards(qs)
  {
  }
}
