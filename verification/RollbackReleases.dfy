/**
  Exactly which locks a pass releases, whose sessions it clears and when it sets the database
  read-only, said of the locks and of what the others do.
 */
module RollbackReleases {
  import opened Wrappers
  import opened Replies
  import opened WeClient
  import opened BulkRollback
  import opened RollbackPass

  /** Messages, answers and results, and none of the last steps of a lock. */
  predicate Plain(log: seq<Event>) {
    forall e :: e in log ==> !e.ReleaseCalled? && !e.SessionCleared? && !e.ReadOnlySet?
  }

  lemma PlainJoins(a: seq<Event>, b: seq<Event>)
    ensures Plain(a + b) <==> Plain(a) && Plain(b)
    ensures Plain([])
  {
    assert forall e :: e in a ==> e in a + b;
    assert forall e :: e in b ==> e in a + b;
  }

  lemma TalkPlain(qs: seq<Request>, writes: nat, heard: Result)
    requires OnlyReads(heard.log)
    ensures Plain(Then(Tell(qs, writes), heard).log)
  {
  }

  lemma OnePlain(e: Event)
    requires !e.ReleaseCalled? && !e.SessionCleared? && !e.ReadOnlySet?
    ensures Plain([e])
  {
  }

  lemma DiscardsPlain(qs: seq<Request>)
    ensures Plain(Discards(qs))
  {
  }

  lemma RollbackPlain(i: nat, all: seq<nat>, open: bool, w: World)
    ensures Plain(TxnRollback(i, all, open, w).log)
  {
    hide Hear, OnlyReads, Plain, TxnRc, Tolds, Asks;
    HearingReads(|all|, w.replies, 0);
    TalkPlain(Asks(i, Blocks, all), w.writes, Hear(|all|, w.replies));
    OnePlain(TxnUndone(w.brmRc));
    OnePlain(TxnUndone(TxnRc(|all|, w)));
    var r := Then(Tell(Asks(i, Blocks, all), w.writes), Hear(|all|, w.replies));
    PlainJoins(r.log, [TxnUndone(TxnRc(|all|, w))]);
  }

  lemma BatchPlain(i: nat, lock: Lock, all: seq<nat>, w: World)
    ensures Plain(TxnBatch(i, lock, all, w).log)
  {
    hide Hear, HearMeta, OnlyReads, Plain, Tolds, Asks, Discards;
    var b := w.batch;
    HearingReads(|all|, b.replies, 0);
    HearMetaReads(|all|, b.metaReplies);
    TalkPlain(Asks(i, Batch, all), b.writes, Hear(|all|, b.replies));
    TalkPlain(Asks(i, Meta, all), b.metaWrites, HearMeta(|all|, b.metaReplies));
    DiscardsPlain(b.dropped);
    OnePlain(BatchUndone);
    PlainJoins(Then(Tell(Asks(i, Batch, all), b.writes), Hear(|all|, b.replies)).log, MetaPhase(i, all, b).log);
    PlainJoins(Discards(b.dropped), BatchTalk(i, all, b).log);
    PlainJoins(BatchRollback(i, all, b).log, [BatchUndone]);
  }

  /**
    A transaction's lock is released: the rollback went well everywhere, its batch part, if it has
    one, is over without an exception, the lock is not a DDL lock, and the call does not throw.
   */
  predicate TxnReleases(lock: Lock, all: seq<nat>, open: bool, w: World) {
    && !open && TxnDone(|all|, w)
    && (' ' in lock.ownerName ==> !BatchThrows(|all|, w.batch) && !BatchWaits(|all|, w.batch))
    && lock.ownerName != "DDLProc" && !w.release.Throws?
  }

  /** The last steps of a transaction's lock. */
  function LastSteps(lock: Lock, all: seq<nat>, open: bool, w: World): (log: seq<Event>) {
    if TxnReleases(lock, all, open, w) then
      if w.release.Yes? then [ReleaseCalled, SessionCleared] else [ReleaseCalled]
    else if RollbackFails(all, open, w) then [ReadOnlySet]
    else []
  }

  lemma TxnEnds(i: nat, lock: Lock, all: seq<nat>, open: bool, w: World) returns (before: seq<Event>)
    ensures Plain(before) && TxnStep(i, lock, all, open, w).log == before + LastSteps(lock, all, open, w)
  {
    hide TxnRollback, TxnBatch, TxnRc, TxnDone, BatchThrows, BatchWaits, Plain;
    var r, b := TxnRollback(i, all, open, w), TxnBatch(i, lock, all, w);
    TxnRollbackExit(i, all, open, w);
    TxnBatchExit(i, lock, all, w);
    NotBoth(all, w);
    RollbackPlain(i, all, open, w);
    BatchPlain(i, lock, all, w);
    PlainJoins(r.log, b.log);
    if !r.exit.Normal? {
      before := r.log;
      assert before + [] == before;
    } else if TxnRc(|all|, w) != 0 {
      before := r.log;
    } else {
      before := r.log + b.log;
      Regroup(r.log, b.log, TxnRelease(lock, b.open, w).log);
      assert before + [] == before;
    }
  }

  lemma NotBoth(all: seq<nat>, w: World)
    ensures TxnDone(|all|, w) ==> w.brmRc == 0 && !StopsWaiting(|all|, w.replies)
  {
  }

  lemma TxnBatchExit(i: nat, lock: Lock, all: seq<nat>, w: World)
    ensures var b, batch := TxnBatch(i, lock, all, w), ' ' in lock.ownerName;
      b.exit.Normal? <==> !(batch && (BatchThrows(|all|, w.batch) || BatchWaits(|all|, w.batch)))
  {
    hide BatchRollback, BatchThrows, BatchWaits;
    BatchExit(i, all, w.batch);
  }

  /** A lock of any kind is released: a transaction's, one of a redistribution, one of a bulk load. */
  predicate ReleasesLock(lock: Lock, pmMap: map<nat, nat>, all: seq<nat>, open: bool, w: World) {
    if lock.ownerTxn > 0 then TxnReleases(lock, all, open, w)
    else if lock.ownerName == "WriteEngineServer" then !w.release.Throws?
    else Releases(lock, pmMap, open, w)
  }

  /** Exactly when a lock is released, its session cleared, and the database set read-only. */
  lemma LockReleasedIff(i: nat, lock: Lock, pmMap: map<nat, nat>, all: seq<nat>, open: bool, w: World)
    ensures var log := Handle(i, lock, pmMap, all, open, w).log;
      && (ReleaseCalled in log <==> ReleasesLock(lock, pmMap, all, open, w))
      && (SessionCleared in log <==> lock.ownerTxn > 0 && TxnReleases(lock, all, open, w) && w.release.Yes?)
      && (ReadOnlySet in log <==> lock.ownerTxn > 0 && RollbackFails(all, open, w))
      && multiset(log)[ReleaseCalled] <= 1
  {
    hide TxnStep, Bulk, TxnReleases, Releases, RollbackFails, Silent, Plain;
    if lock.ownerTxn > 0 {
      var before := TxnEnds(i, lock, all, open, w);
      PlainHas(before);
      Excludes(lock, all, open, w);
      var last := LastSteps(lock, all, open, w);
      assert multiset(before + last) == multiset(before) + multiset(last);
    } else if lock.ownerName != "WriteEngineServer" {
      ReleasedIff(i, lock, pmMap, open, w);
      BulkKeepsQuiet(i, lock, pmMap, open, w);
    }
  }

  lemma PlainHas(log: seq<Event>)
    requires Plain(log)
    ensures ReleaseCalled !in log && SessionCleared !in log && ReadOnlySet !in log && multiset(log)[ReleaseCalled] == 0
  {
  }

  lemma Excludes(lock: Lock, all: seq<nat>, open: bool, w: World)
    ensures TxnReleases(lock, all, open, w) ==> !RollbackFails(all, open, w)
  {
  }

  /** A bulk rollback clears no session and sets nothing read-only, and releases once at most. */
  lemma BulkKeepsQuiet(i: nat, lock: Lock, pmMap: map<nat, nat>, open: bool, w: World)
    ensures var log := Bulk(i, lock, pmMap, open, w).log;
      SessionCleared !in log && ReadOnlySet !in log && multiset(log)[ReleaseCalled] <= 1
  {
    hide Bulk, Silent;
    var log := Bulk(i, lock, pmMap, open, w).log;
    ReleasedIff(i, lock, pmMap, open, w);
    BulkQuiet(i, lock, pmMap, open, w);
    OnceAtMost(log);
  }

  lemma OnceAtMost(log: seq<Event>)
    requires ReleaseCalled in log ==> log[|log| - 1] == ReleaseCalled && Silent(log[..|log| - 1])
    ensures multiset(log)[ReleaseCalled] <= 1
  {
    if ReleaseCalled in log {
      assert log == log[..|log| - 1] + [ReleaseCalled];
      assert multiset(log) == multiset(log[..|log| - 1]) + multiset{ReleaseCalled};
    }
  }

  lemma BulkQuiet(i: nat, lock: Lock, pmMap: map<nat, nat>, open: bool, w: World)
    ensures Modest(Bulk(i, lock, pmMap, open, w).log)
  {
    hide Hear, HearCleanUp, OnlyReads, Modest, Tolds, Asks;
    var pms := Owners(lock.dbroots, pmMap);
    var undo, clean := Hear(|pms|, w.replies), HearCleanUp(|pms|, w.cleanReplies, 0);
    HearingReads(|pms|, w.replies, 0);
    HearingReads(|pms|, w.cleanReplies, 0);
    ModestEnds(undo.log);
    ModestEnds(clean.log);
    assert undo.log + [] == undo.log;
    TalkModest(Asks(i, Undo, pms), w.writes, Then(undo, Result([StateChanged], Normal, true)));
    TalkModest(Asks(i, Undo, pms), w.writes, Then(undo, Result([], Stray, true)));
    TalkModest(Asks(i, CleanUp, pms), w.cleanWrites, Finish(clean, w.release));
    ModestJoins(Undone(i, lock.state, pms, w).log, CleanPhase(i, pms, w).log);
  }

  /** Neither clears a session nor sets the database read-only. */
  predicate Modest(log: seq<Event>) {
    SessionCleared !in log && ReadOnlySet !in log
  }

  lemma ModestEnds(log: seq<Event>)
    requires OnlyReads(log)
    ensures Modest(log) && Modest(log + [StateChanged]) && Modest(log + [ReleaseCalled])
  {
  }

  lemma ModestJoins(a: seq<Event>, b: seq<Event>)
    ensures Modest(a) && Modest(b) ==> Modest(a + b)
    ensures Modest([])
  {
  }

  lemma TalkModest(qs: seq<Request>, writes: nat, heard: Result)
    requires Modest(heard.log)
    ensures Modest(Then(Tell(qs, writes), heard).log)
  {
  }

  /** The queue is still registered when lock `i` is taken up exactly when an earlier lock left it so. */
  lemma {:induction false} PassOpenIff(locks: seq<Lock>, pmMap: map<nat, nat>, all: seq<nat>, ws: seq<World>, i: nat)
    requires i <= |locks| == |ws| && Walk(locks, pmMap, all, ws, i).exit.Normal?
    ensures Walk(locks, pmMap, all, ws, i).open <==> exists j :: 0 <= j < i && LeavesQueue(locks[j], pmMap, all, ws[j])
  {
    hide Walk, Handle, LeavesQueue;
    WalkStarts(locks, pmMap, all, ws);
    if i > 0 {
      WalkStep(locks, pmMap, all, ws, i - 1);
      PassOpenIff(locks, pmMap, all, ws, i - 1);
      QueueIff(i - 1, locks[i - 1], pmMap, all, Walk(locks, pmMap, all, ws, i - 1).open, ws[i - 1]);
    }
  }

  /**
    For every list of locks: each lock the pass gets to is released, its session cleared and the
    database set read-only exactly as its own world, and the queues left by the locks before it, say.
   */
  lemma PassReleasedIff(locks: seq<Lock>, pmMap: map<nat, nat>, all: seq<nat>, ws: seq<World>, n: nat, i: nat)
    requires n <= |locks| == |ws| && i < |Walk(locks, pmMap, all, ws, n).logs| && i < |locks|
    ensures var log, lock, w := Walk(locks, pmMap, all, ws, n).logs[i], locks[i], ws[i];
      var open := exists j :: 0 <= j < i && LeavesQueue(locks[j], pmMap, all, ws[j]);
      && (ReleaseCalled in log <==> ReleasesLock(lock, pmMap, all, open, w))
      && (SessionCleared in log <==> lock.ownerTxn > 0 && TxnReleases(lock, all, open, w) && w.release.Yes?)
      && (ReadOnlySet in log <==> lock.ownerTxn > 0 && RollbackFails(all, open, w))
  {
    hide Walk, Handle, LeavesQueue, TxnReleases, Releases, RollbackFails, ReleasesLock;
    WalkLogs(locks, pmMap, all, ws, n, i);
    PassOpenIff(locks, pmMap, all, ws, i);
    LockReleasedIff(i, locks[i], pmMap, all, Walk(locks, pmMap, all, ws, i).open, ws[i]);
  }

  /** What rollBackTransaction returns, by cause: `k` is the first reply that is not an answer of 0. */
  lemma TxnReturns(i: nat, all: seq<nat>, w: World, k: nat)
    requires w.brmRc == 0 ==> k <= |all| && k <= |w.replies| && forall j :: 0 <= j < k ==> Fine(w.replies[j])
    requires w.brmRc == 0 && k < |all| && k < |w.replies| ==> !Fine(w.replies[k])
    requires w.brmRc == 0 && |all| <= w.writes && k < |all| ==> k < |w.replies|
    ensures var r := TxnRollback(i, all, false, w);
      && r.exit.Normal? && r.log != []
      && r.log[|r.log| - 1] == TxnUndone(
           if w.brmRc != 0 then w.brmRc
           else if w.writes < |all| then 10
           else if k == |all| then w.dbrmRc
           else match w.replies[k] case Lost => 10 case Thrown => 10 case Ack(rc, _) => rc)
  {
    hide Hear, Tell;
    if w.brmRc == 0 {
      LeadingIs(|all|, w.replies, k);
    }
    TxnRollbackExit(i, all, false, w);
    RollbackEnds(i, all, false, w);
  }

  lemma {:induction false} LeadingIs(n: nat, rs: seq<Reply<Request>>, k: nat)
    requires k <= n && k <= |rs| && forall j :: 0 <= j < k ==> Fine(rs[j])
    requires k < n && k < |rs| ==> !Fine(rs[k])
    ensures Leading(n, rs) == k
  {
  }

  /** A lock still waits for a reply: of its rollback, of the batch part it got to, or of the bulk rollback. */
  predicate LockWaits(lock: Lock, pmMap: map<nat, nat>, all: seq<nat>, open: bool, w: World) {
    var n := |all|;
    if lock.ownerTxn > 0 then
      !open && w.brmRc == 0 &&
      ((n <= w.writes && StopsWaiting(n, w.replies))
       || (TxnDone(n, w) && ' ' in lock.ownerName && BatchWaits(n, w.batch)))
    else lock.ownerName != "WriteEngineServer" && Waits(lock, pmMap, open, w)
  }

  lemma LockWaitsIff(i: nat, lock: Lock, pmMap: map<nat, nat>, all: seq<nat>, open: bool, w: World)
    ensures Handle(i, lock, pmMap, all, open, w).exit.Blocked? <==> LockWaits(lock, pmMap, all, open, w)
  {
    hide TxnRollback, BatchRollback, TxnRc, Bulk, Waits, TxnDone, BatchThrows, BatchWaits, StopsWaiting;
    if lock.ownerTxn > 0 {
      TxnRollbackExit(i, all, open, w);
      BatchExit(i, all, w.batch);
      NotBoth(all, w);
    } else if lock.ownerName != "WriteEngineServer" {
      FlagTells(i, lock, pmMap, open, w);
    }
  }

  /** The pass reaches lock `i` and waits there. */
  predicate WaitsAt(locks: seq<Lock>, pmMap: map<nat, nat>, all: seq<nat>, ws: seq<World>, i: int)
    requires 0 <= i < |locks| == |ws|
  {
    var p := Walk(locks, pmMap, all, ws, i);
    p.exit.Normal? && LockWaits(locks[i], pmMap, all, p.open, ws[i])
  }

  /** The pass waits for a reply exactly when it reaches a lock that does. */
  lemma {:induction false} PassWaitsIff(locks: seq<Lock>, pmMap: map<nat, nat>, all: seq<nat>, ws: seq<World>, n: nat)
    requires n <= |locks| == |ws|
    ensures Walk(locks, pmMap, all, ws, n).exit.Blocked? <==>
            exists i :: 0 <= i < n && WaitsAt(locks, pmMap, all, ws, i)
  {
    hide Handle, LockWaits, Walk, WaitsAt;
    WalkStarts(locks, pmMap, all, ws);
    if n != 0 {
      PassWaitsIff(locks, pmMap, all, ws, n - 1);
      WalkStep(locks, pmMap, all, ws, n - 1);
      LockWaitsIff(n - 1, locks[n - 1], pmMap, all, Walk(locks, pmMap, all, ws, n - 1).open, ws[n - 1]);
      WaitsThere(locks, pmMap, all, ws, n - 1);
    }
  }

  lemma WaitsThere(locks: seq<Lock>, pmMap: map<nat, nat>, all: seq<nat>, ws: seq<World>, i: nat)
    requires i < |locks| == |ws|
    ensures var p := Walk(locks, pmMap, all, ws, i);
      WaitsAt(locks, pmMap, all, ws, i) <==> p.exit.Normal? && LockWaits(locks[i], pmMap, all, p.open, ws[i])
  {
    hide Walk, LockWaits;
  }
}
