/**
  The start-up pass over all table locks left behind: transactions are rolled back, bulk loads are
  undone, and the locks released. The pass uses one unique id, so a reply queue or an answer that
  one lock leaves behind is met by the next.
 */
module RollbackPass {
  import opened Wrappers
  import opened Replies
  import opened WeClient
  import opened BulkRollback
  import opened RollbackAnswers

  /** The error of the first reply that is not an answer of 0. */
  function FailCode(n: nat, rs: seq<Reply<Request>>): (rc: nat)
    ensures rc != 0
  {
    var k := Leading(n, rs);
    if k < n && k < |rs| && rs[k].Ack? then rs[k].rc else NETWORK_ERROR
  }

  /** What rollBackTransaction returns, once it waits for nothing more. */
  function TxnRc(n: nat, w: World): (rc: int) {
    if w.brmRc != 0 then w.brmRc
    else if w.writes < n then NETWORK_ERROR
    else if Leading(n, w.replies) == n then w.dbrmRc
    else FailCode(n, w.replies)
  }

  /** rollBackTransaction: its own exceptions are caught, but not that of registering the queue. */
  function TxnRollback(i: nat, all: seq<nat>, open: bool, w: World): (r: Result) {
    if w.brmRc != 0 then Result([TxnUndone(w.brmRc)], Normal, open)
    else if open then Result([], Stray, true)
    else
      var r := Then(Tell(Asks(i, Blocks, all), w.writes), Hear(|all|, w.replies));
      if r.exit.Blocked? then r else Result(r.log + [TxnUndone(TxnRc(|all|, w))], Normal, false)
  }

  /** `n` replies whose contents do not matter; the queue is removed at the end. */
  function HearMeta(n: nat, rs: seq<Reply<Request>>): (r: Result)
    decreases |rs|
  {
    if n == 0 then Result([], Normal, false)
    else if rs == [] then Result([], Blocked, true)
    else
      match rs[0]
      case Thrown => Result([], Stray, true)
      case Lost => Result([HeardNothing], Normal, false)
      case Ack(rc, from) => Then(Result([Heard(rc, from)], Normal, true), HearMeta(n - 1, rs[1..]))
  }

  function MetaPhase(i: nat, all: seq<nat>, b: BatchWorld): (r: Result) {
    Then(Tell(Asks(i, Meta, all), b.metaWrites), HearMeta(|all|, b.metaReplies))
  }

  /** When the state cannot be changed, it returns with its queue registered. */
  function BatchTalk(i: nat, all: seq<nat>, b: BatchWorld): (r: Result) {
    var r := Then(Tell(Asks(i, Batch, all), b.writes), Hear(|all|, b.replies));
    if r.exit.Reported? then Result(r.log, Normal, false)
    else if !r.exit.Normal? then r
    else if !b.changed then Result(r.log, Normal, true)
    else Then(r, MetaPhase(i, all, b))
  }

  /** rollBackBatchAutoOnTransaction: what comes in before it registers its queue again is thrown away. */
  function BatchRollback(i: nat, all: seq<nat>, b: BatchWorld): (r: Result) {
    if b.locked then Then(Result(Discards(b.dropped), Normal, false), BatchTalk(i, all, b))
    else Result([], Normal, false)
  }

  /** The lock is released, unless it is a DDL lock; a throwing release leaves the pass. */
  function TxnRelease(lock: Lock, open: bool, w: World): (r: Result) {
    if lock.ownerName == "DDLProc" then Result([], Normal, open)
    else
      match w.release
      case Throws => Result([], Reported, open)
      case Yes => Result([ReleaseCalled, SessionCleared], Normal, open)
      case No => Result([ReleaseCalled], Normal, open)
  }

  function TxnBatch(i: nat, lock: Lock, all: seq<nat>, w: World): (r: Result) {
    if ' ' in lock.ownerName then
      var b := BatchRollback(i, all, w.batch);
      Then(b, Result([BatchUndone], Normal, b.open))
    else Result([], Normal, false)
  }

  function TxnStep(i: nat, lock: Lock, all: seq<nat>, open: bool, w: World): (r: Result) {
    var r := TxnRollback(i, all, open, w);
    if !r.exit.Normal? then r
    else if TxnRc(|all|, w) != 0 then Result(r.log + [ReadOnlySet], Normal, r.open)
    else
      var b := TxnBatch(i, lock, all, w);
      Then(r, Then(b, TxnRelease(lock, b.open, w)))
  }

  predicate IsBulk(lock: Lock) {
    lock.ownerTxn <= 0 && lock.ownerName != "WriteEngineServer"
  }

  /** One lock of the pass; whatever a bulk rollback throws is caught. */
  function Handle(i: nat, lock: Lock, pmMap: map<nat, nat>, all: seq<nat>, open: bool, w: World): (r: Result) {
    if lock.ownerTxn > 0 then TxnStep(i, lock, all, open, w)
    else if IsBulk(lock) then
      var r := Bulk(i, lock, pmMap, open, w);
      Result(r.log, if r.exit.Blocked? then Blocked else Normal, r.open)
    else Result(if w.release.Throws? then [] else [ReleaseCalled], Normal, open)
  }

  datatype Pass = Pass(logs: seq<seq<Event>>, readOnly: bool, errorTxn: int, exit: Exit, open: bool, owed: seq<Request>)

  /** The rollback of the transaction was tried and failed. */
  predicate TxnFails(lock: Lock, all: seq<nat>, open: bool, w: World) {
    && lock.ownerTxn > 0 && TxnRc(|all|, w) != 0
    && (w.brmRc != 0 || (!open && !(|all| <= w.writes && StopsWaiting(|all|, w.replies))))
  }

  /** rollbackAll's walk over the first `n` locks. */
  function Walk(locks: seq<Lock>, pmMap: map<nat, nat>, all: seq<nat>, ws: seq<World>, n: nat): (pass: Pass)
    requires n <= |locks| == |ws|
  {
    if n == 0 then Pass([], false, 0, Normal, false, [])
    else
      var p := Walk(locks, pmMap, all, ws, n - 1);
      if !p.exit.Normal? then p
      else
        var lock, w := locks[n - 1], ws[n - 1];
        var r := Handle(n - 1, lock, pmMap, all, p.open, w);
        var fails := TxnFails(lock, all, p.open, w);
        Pass(p.logs + [r.log], p.readOnly || fails, if fails then lock.ownerTxn else p.errorTxn, r.exit, r.open,
             Owed(p.owed, Discards(w.dropped) + r.log))
  }

  // When the pass is aborted.

  predicate Aborted(exit: Exit) {
    exit.Stray? || exit.Reported?
  }

  /** How many of the first `n` messages are answers, up to the first that is not. */
  function LeadingAnswers(n: nat, rs: seq<Reply<Request>>): (k: nat)
    ensures k <= n && k <= |rs| && (forall j :: 0 <= j < k ==> rs[j].Ack?) && (k < n && k < |rs| ==> !rs[k].Ack?)
    decreases |rs|
  {
    if n == 0 || rs == [] || !rs[0].Ack? then 0 else 1 + LeadingAnswers(n - 1, rs[1..])
  }

  predicate MetaThrows(n: nat, b: BatchWorld) {
    var k := LeadingAnswers(n, b.metaReplies);
    b.metaWrites < n || (k < n && k < |b.metaReplies| && b.metaReplies[k].Thrown?)
  }

  predicate MetaWaits(n: nat, b: BatchWorld) {
    b.metaWrites >= n && LeadingAnswers(n, b.metaReplies) < n && LeadingAnswers(n, b.metaReplies) == |b.metaReplies|
  }

  predicate BatchDone(n: nat, b: BatchWorld) {
    n <= b.writes && Leading(n, b.replies) == n
  }

  /** An exception gets out of the batch rollback. */
  predicate BatchThrows(n: nat, b: BatchWorld) {
    b.locked && (b.writes < n || StopsThrown(n, b.replies) || (BatchDone(n, b) && b.changed && MetaThrows(n, b)))
  }

  predicate BatchWaits(n: nat, b: BatchWorld) {
    b.locked && ((n <= b.writes && StopsWaiting(n, b.replies)) || (BatchDone(n, b) && b.changed && MetaWaits(n, b)))
  }

  lemma {:induction false} HearMetaExit(n: nat, rs: seq<Reply<Request>>)
    ensures var r, k := HearMeta(n, rs), LeadingAnswers(n, rs);
      && (r.exit.Stray? <==> k < n && k < |rs| && rs[k].Thrown?)
      && (r.exit.Blocked? <==> k < n && k == |rs|)
      && !r.exit.Reported? && (r.open <==> !r.exit.Normal?)
    decreases |rs|
  {
    if n != 0 && rs != [] && rs[0].Ack? {
      HearMetaExit(n - 1, rs[1..]);
    }
  }

  lemma BatchExit(i: nat, all: seq<nat>, b: BatchWorld)
    ensures var r := BatchRollback(i, all, b);
      && (r.exit.Stray? <==> BatchThrows(|all|, b)) && (r.exit.Blocked? <==> BatchWaits(|all|, b)) && !r.exit.Reported?
      && (r.open <==> !r.exit.Normal? || (b.locked && BatchDone(|all|, b) && !b.changed))
  {
    hide Hear, HearMeta, Leading, LeadingAnswers, Discards, Tolds;
    HearExit(|all|, b.replies);
    HearMetaExit(|all|, b.metaReplies);
  }

  /** The transaction is rolled back: all messages went out, all answers are 0, and the DBRM agrees. */
  predicate TxnDone(n: nat, w: World) {
    w.brmRc == 0 && n <= w.writes && Leading(n, w.replies) == n && w.dbrmRc == 0
  }

  /**
    Exactly when a lock aborts the pass: it is a transaction's, the DBRM accepts the rollback, and
    the reply queue is still registered from an earlier lock; or the rollback goes well and its
    batch part or the release throws.
   */
  predicate Aborts(lock: Lock, all: seq<nat>, open: bool, w: World) {
    var n, batch := |all|, ' ' in lock.ownerName;
    && lock.ownerTxn > 0 && w.brmRc == 0
    && (open || (TxnDone(n, w) &&
         ((batch && BatchThrows(n, w.batch))
          || (!(batch && BatchWaits(n, w.batch)) && lock.ownerName != "DDLProc" && w.release.Throws?))))
  }

  /** The rollback of the transaction is over and did not go well. */
  predicate RollbackFails(all: seq<nat>, open: bool, w: World) {
    || w.brmRc != 0
    || (!open && !TxnDone(|all|, w) && !(|all| <= w.writes && StopsWaiting(|all|, w.replies)))
  }

  lemma FailsMeans(lock: Lock, all: seq<nat>, open: bool, w: World)
    ensures TxnFails(lock, all, open, w) <==> lock.ownerTxn > 0 && RollbackFails(all, open, w)
  {
    hide Leading;
  }

  lemma TxnRollbackExit(i: nat, all: seq<nat>, open: bool, w: World)
    ensures var r := TxnRollback(i, all, open, w);
      && (r.exit.Stray? <==> w.brmRc == 0 && open) && !r.exit.Reported?
      && (r.exit.Blocked? <==> w.brmRc == 0 && !open && |all| <= w.writes && StopsWaiting(|all|, w.replies))
      && (r.exit.Normal? && TxnRc(|all|, w) == 0 <==> !open && TxnDone(|all|, w))
      && (r.open <==> open || r.exit.Blocked?)
  {
    hide Hear, Leading;
    HearExit(|all|, w.replies);
  }

  lemma TxnStepExit(i: nat, lock: Lock, all: seq<nat>, open: bool, w: World)
    requires lock.ownerTxn > 0
    ensures Aborted(TxnStep(i, lock, all, open, w).exit) <==> Aborts(lock, all, open, w)
  {
    hide TxnRollback, BatchRollback, BatchThrows, BatchWaits, TxnRc, Leading;
    TxnRollbackExit(i, all, open, w);
    BatchExit(i, all, w.batch);
  }

  lemma AbortsIff(i: nat, lock: Lock, pmMap: map<nat, nat>, all: seq<nat>, open: bool, w: World)
    ensures Aborted(Handle(i, lock, pmMap, all, open, w).exit) <==> Aborts(lock, all, open, w)
  {
    hide TxnStep, Bulk, Aborts;
    if lock.ownerTxn > 0 {
      TxnStepExit(i, lock, all, open, w);
    } else {
      NoTxnNoAbort(lock, all, open, w);
    }
  }

  lemma NoTxnNoAbort(lock: Lock, all: seq<nat>, open: bool, w: World)
    requires lock.ownerTxn <= 0
    ensures !Aborts(lock, all, open, w)
  {
  }

  lemma WalkStep(locks: seq<Lock>, pmMap: map<nat, nat>, all: seq<nat>, ws: seq<World>, i: nat)
    requires i < |locks| == |ws|
    ensures var p, q := Walk(locks, pmMap, all, ws, i), Walk(locks, pmMap, all, ws, i + 1);
      && (!p.exit.Normal? ==> q == p)
      && (p.exit.Normal? ==>
            var r := Handle(i, locks[i], pmMap, all, p.open, ws[i]);
            q.exit == r.exit && q.open == r.open && q.logs == p.logs + [r.log])
  {
    hide Handle, TxnFails, Owed, Discards;
  }

  lemma WalkStarts(locks: seq<Lock>, pmMap: map<nat, nat>, all: seq<nat>, ws: seq<World>)
    requires |locks| == |ws|
    ensures Walk(locks, pmMap, all, ws, 0) == Pass([], false, 0, Normal, false, [])
  {
  }

  lemma WalkFails(locks: seq<Lock>, pmMap: map<nat, nat>, all: seq<nat>, ws: seq<World>, i: nat)
    requires i < |locks| == |ws| && Walk(locks, pmMap, all, ws, i).exit.Normal?
    ensures var p, q := Walk(locks, pmMap, all, ws, i), Walk(locks, pmMap, all, ws, i + 1);
      && |q.logs| == |p.logs| + 1 && q.readOnly == (p.readOnly || FailsAt(locks, pmMap, all, ws, i))
      && q.errorTxn == if FailsAt(locks, pmMap, all, ws, i) then locks[i].ownerTxn else p.errorTxn
  {
    hide Handle, TxnFails, RollbackFails, Owed, Discards;
    FailsMeans(locks[i], all, Walk(locks, pmMap, all, ws, i).open, ws[i]);
  }

  /** The pass reaches lock `i` and is aborted there. */
  predicate AbortsAt(locks: seq<Lock>, pmMap: map<nat, nat>, all: seq<nat>, ws: seq<World>, i: int)
    requires 0 <= i < |locks| == |ws|
  {
    var p := Walk(locks, pmMap, all, ws, i);
    p.exit.Normal? && Aborts(locks[i], all, p.open, ws[i])
  }

  /** The pass is aborted exactly when it reaches a lock that aborts it. */
  lemma {:induction false} PassAbortsIff(locks: seq<Lock>, pmMap: map<nat, nat>, all: seq<nat>, ws: seq<World>, n: nat)
    requires n <= |locks| == |ws|
    ensures Aborted(Walk(locks, pmMap, all, ws, n).exit) <==>
            exists i :: 0 <= i < n && AbortsAt(locks, pmMap, all, ws, i)
  {
    hide Handle, Aborts, Walk, AbortsAt;
    WalkStarts(locks, pmMap, all, ws);
    if n != 0 {
      PassAbortsIff(locks, pmMap, all, ws, n - 1);
      WalkStep(locks, pmMap, all, ws, n - 1);
      var p := Walk(locks, pmMap, all, ws, n - 1);
      AbortsIff(n - 1, locks[n - 1], pmMap, all, p.open, ws[n - 1]);
      AbortsThere(locks, pmMap, all, ws, n - 1);
    }
  }

  lemma AbortsThere(locks: seq<Lock>, pmMap: map<nat, nat>, all: seq<nat>, ws: seq<World>, i: nat)
    requires i < |locks| == |ws|
    ensures var p := Walk(locks, pmMap, all, ws, i);
      AbortsAt(locks, pmMap, all, ws, i) <==> p.exit.Normal? && Aborts(locks[i], all, p.open, ws[i])
  {
    hide Walk, Aborts;
  }

  /** A pass that stopped early has met nothing after. */
  lemma {:induction false} WalkPrefix(locks: seq<Lock>, pmMap: map<nat, nat>, all: seq<nat>, ws: seq<World>, n: nat)
    requires n <= |locks| == |ws|
    ensures var p := Walk(locks, pmMap, all, ws, n);
      |p.logs| <= n && (p.exit.Normal? ==> |p.logs| == n)
  {
    hide Handle, TxnFails, Owed, Discards;
    if n != 0 { WalkPrefix(locks, pmMap, all, ws, n - 1); }
  }

  lemma {:induction false} WalkStops(locks: seq<Lock>, pmMap: map<nat, nat>, all: seq<nat>,
                                     ws: seq<World>, n: nat, m: nat)
    requires n <= m <= |locks| == |ws| && !Walk(locks, pmMap, all, ws, n).exit.Normal?
    ensures Walk(locks, pmMap, all, ws, m) == Walk(locks, pmMap, all, ws, n)
  {
    hide Handle, TxnFails, Owed, Discards;
    if n < m { WalkStops(locks, pmMap, all, ws, n, m - 1); }
  }

  /** The logs are those of the locks, in order, each begun with what the locks before left behind. */
  lemma {:induction false} WalkLogs(locks: seq<Lock>, pmMap: map<nat, nat>, all: seq<nat>,
                                    ws: seq<World>, n: nat, i: nat)
    requires n <= |locks| == |ws| && i < |Walk(locks, pmMap, all, ws, n).logs|
    ensures i < n && Walk(locks, pmMap, all, ws, i).exit.Normal?
    ensures var p := Walk(locks, pmMap, all, ws, i);
      Walk(locks, pmMap, all, ws, n).logs[i] == Handle(i, locks[i], pmMap, all, p.open, ws[i]).log
  {
    hide Handle, Walk;
    WalkPrefix(locks, pmMap, all, ws, n);
    WalkPrefix(locks, pmMap, all, ws, n - 1);
    WalkStep(locks, pmMap, all, ws, n - 1);
    if i < |Walk(locks, pmMap, all, ws, n - 1).logs| {
      WalkLogs(locks, pmMap, all, ws, n - 1, i);
    }
  }

  /** Lock `i` is the last of the first `n` whose transaction could not be rolled back. */
  predicate FailsAt(locks: seq<Lock>, pmMap: map<nat, nat>, all: seq<nat>, ws: seq<World>, i: int)
    requires 0 <= i < |locks| == |ws|
  {
    locks[i].ownerTxn > 0 && RollbackFails(all, Walk(locks, pmMap, all, ws, i).open, ws[i])
  }

  predicate LastFailure(locks: seq<Lock>, pmMap: map<nat, nat>, all: seq<nat>, ws: seq<World>, n: nat, i: int)
    requires n <= |locks| == |ws|
  {
    0 <= i < n && FailsAt(locks, pmMap, all, ws, i) && forall j :: i < j < n ==> !FailsAt(locks, pmMap, all, ws, j)
  }

  /** The database goes read-only, with the last failing transaction remembered, exactly when a rollback failed. */
  lemma {:induction false} PassOutcome(locks: seq<Lock>, pmMap: map<nat, nat>, all: seq<nat>, ws: seq<World>, n: nat)
    requires n <= |locks| == |ws|
    ensures var p := Walk(locks, pmMap, all, ws, n);
      && |p.logs| <= n
      && (p.readOnly ==> exists i :: LastFailure(locks, pmMap, all, ws, |p.logs|, i) && p.errorTxn == locks[i].ownerTxn)
      && (!p.readOnly ==> p.errorTxn == 0 && forall i :: 0 <= i < |p.logs| ==> !FailsAt(locks, pmMap, all, ws, i))
  {
    hide Walk, FailsAt;
    WalkStarts(locks, pmMap, all, ws);
    if n != 0 {
      PassOutcome(locks, pmMap, all, ws, n - 1);
      WalkPrefix(locks, pmMap, all, ws, n - 1);
      WalkStep(locks, pmMap, all, ws, n - 1);
      var q := Walk(locks, pmMap, all, ws, n - 1);
      if q.exit.Normal? {
        WalkFails(locks, pmMap, all, ws, n - 1);
        if FailsAt(locks, pmMap, all, ws, n - 1) {
          assert LastFailure(locks, pmMap, all, ws, n, n - 1);
        } else if q.readOnly {
          var i :| LastFailure(locks, pmMap, all, ws, n - 1, i) && q.errorTxn == locks[i].ownerTxn;
          assert LastFailure(locks, pmMap, all, ws, n, i);
        }
      }
    }
  }

  // What a queue left registered does.

  /**
    A lock leaves the queue registered: a bulk rollback out of which a call threw, or a batch
    rollback whose state could not be changed.
   */
  predicate LeavesQueue(lock: Lock, pmMap: map<nat, nat>, all: seq<nat>, w: World) {
    if lock.ownerTxn > 0 then
      TxnDone(|all|, w) && ' ' in lock.ownerName && w.batch.locked && BatchDone(|all|, w.batch) && !w.batch.changed
    else lock.ownerName != "WriteEngineServer" && Leaks(lock, pmMap, false, w)
  }

  lemma QueueIff(i: nat, lock: Lock, pmMap: map<nat, nat>, all: seq<nat>, open: bool, w: World)
    requires Handle(i, lock, pmMap, all, open, w).exit.Normal?
    ensures Handle(i, lock, pmMap, all, open, w).open <==> open || LeavesQueue(lock, pmMap, all, w)
  {
    hide TxnRollback, BatchRollback, TxnRc, Bulk, Leading, BatchThrows, BatchWaits, BatchDone;
    LeaksIff(i, lock, pmMap, open, w);
    if lock.ownerTxn > 0 {
      TxnRollbackExit(i, all, open, w);
      BatchExit(i, all, w.batch);
    }
  }

  /** Once registered, it stays, and no lock of a transaction or a bulk load is released any more. */
  lemma {:induction false} QueueStays(locks: seq<Lock>, pmMap: map<nat, nat>, all: seq<nat>,
                                      ws: seq<World>, i: nat, n: nat)
    requires i <= n <= |locks| == |ws| && Walk(locks, pmMap, all, ws, i).open
    requires Walk(locks, pmMap, all, ws, n).exit.Normal?
    ensures Walk(locks, pmMap, all, ws, n).open
  {
    hide Handle, Walk, LeavesQueue;
    if i < n {
      WalkStep(locks, pmMap, all, ws, n - 1);
      QueueStays(locks, pmMap, all, ws, i, n - 1);
      QueueIff(n - 1, locks[n - 1], pmMap, all, true, ws[n - 1]);
    }
  }

  lemma OpenReleasesNothing(i: nat, lock: Lock, pmMap: map<nat, nat>, all: seq<nat>, w: World)
    requires lock.ownerTxn > 0 || IsBulk(lock)
    ensures ReleaseCalled !in Handle(i, lock, pmMap, all, true, w).log
  {
  }

  lemma LeakStopsReleases(locks: seq<Lock>, pmMap: map<nat, nat>, all: seq<nat>, ws: seq<World>, n: nat, i: nat, j: nat)
    requires n <= |locks| == |ws| && i <= j < |locks| && j < |Walk(locks, pmMap, all, ws, n).logs|
    requires Walk(locks, pmMap, all, ws, i).open && (locks[j].ownerTxn > 0 || IsBulk(locks[j]))
    ensures ReleaseCalled !in Walk(locks, pmMap, all, ws, n).logs[j]
  {
    hide Walk, Handle;
    WalkLogs(locks, pmMap, all, ws, n, j);
    QueueStays(locks, pmMap, all, ws, i, j);
    OpenReleasesNothing(j, locks[j], pmMap, all, ws[j]);
  }

  // What justifies a release.

  lemma {:induction false} HearMetaReads(n: nat, rs: seq<Reply<Request>>)
    ensures OnlyReads(HearMeta(n, rs).log)
    decreases |rs|
  {
    if n != 0 && rs != [] { HearMetaReads(n - 1, rs[1..]); }
  }

  /** Messages of a transaction rollback and their answers, and no release. */
  predicate TxnTraffic(log: seq<Event>, i: nat) {
    AllMessages(log, i, false) && Silent(log)
  }

  lemma BothTraffic(a: seq<Event>, b: seq<Event>, i: nat)
    ensures TxnTraffic(a, i) && TxnTraffic(b, i) ==> TxnTraffic(a + b, i)
    ensures TxnTraffic([], i)
  {
  }

  lemma TellTraffic(heard: seq<Event>, i: nat, phase: Phase, pms: seq<nat>, writes: nat)
    requires OnlyReads(heard) && !BulkPhase(phase)
    ensures var told := Tell(Asks(i, phase, pms), writes);
      TxnTraffic(told.log, i) && TxnTraffic(Tolds(Asks(i, phase, pms)) + heard, i)
  {
    MessagesJoin(heard, [], i, phase, pms, writes);
  }

  lemma RollbackTraffic(i: nat, all: seq<nat>, open: bool, w: World)
    ensures TxnTraffic(TxnRollback(i, all, open, w).log, i)
  {
    hide Hear, OnlyReads, TxnTraffic, TxnRc, Asks, Tolds;
    HearingReads(|all|, w.replies, 0);
    TellTraffic(Hear(|all|, w.replies).log, i, Blocks, all, w.writes);
    var r := Then(Tell(Asks(i, Blocks, all), w.writes), Hear(|all|, w.replies));
    BothTraffic(r.log, [TxnUndone(TxnRc(|all|, w))], i);
    OneTraffic(TxnUndone(TxnRc(|all|, w)), i);
    OneTraffic(TxnUndone(w.brmRc), i);
  }

  lemma OneTraffic(e: Event, i: nat)
    requires !e.Told? && !e.ReleaseCalled?
    ensures TxnTraffic([e], i) && TxnTraffic([], i)
  {
  }

  lemma DroppedTraffic(qs: seq<Request>, i: nat)
    ensures TxnTraffic(Discards(qs), i)
  {
  }

  lemma BatchTraffic(i: nat, lock: Lock, all: seq<nat>, w: World)
    ensures TxnTraffic(TxnBatch(i, lock, all, w).log, i)
  {
    hide Hear, HearMeta, OnlyReads, TxnTraffic, Asks, Tolds, Discards;
    var b := w.batch;
    DroppedTraffic(b.dropped, i);
    HearingReads(|all|, b.replies, 0);
    HearMetaReads(|all|, b.metaReplies);
    var x, y := Hear(|all|, b.replies), HearMeta(|all|, b.metaReplies);
    TellTraffic(x.log, i, Batch, all, b.writes);
    TellTraffic(y.log, i, Meta, all, b.metaWrites);
    var first, second := Then(Tell(Asks(i, Batch, all), b.writes), x), Then(Tell(Asks(i, Meta, all), b.metaWrites), y);
    BothTraffic(first.log, second.log, i);
    BothTraffic(Discards(b.dropped), BatchTalk(i, all, b).log, i);
    BothTraffic(BatchRollback(i, all, b).log, [BatchUndone], i);
    OneTraffic(BatchUndone, i);
  }

  /** What must have happened before the release of lock number `i`. */
  predicate Justified(i: nat, lock: Lock, pmMap: map<nat, nat>, before: seq<Event>) {
    && (lock.ownerTxn > 0 ==>
          TxnUndone(0) in before && lock.ownerName != "DDLProc" && (' ' in lock.ownerName ==> BatchUndone in before))
    && (IsBulk(lock) && lock.state.LOADING? ==> AllAnswered(i, lock, pmMap, before))
  }

  /** A transaction's lock is released only after its rollback returned 0. */
  lemma TxnJustified(i: nat, lock: Lock, all: seq<nat>, open: bool, w: World, k: nat)
    requires var log := TxnStep(i, lock, all, open, w).log; k < |log| && log[k] == ReleaseCalled
    ensures var before := TxnStep(i, lock, all, open, w).log[..k];
      TxnUndone(0) in before && lock.ownerName != "DDLProc" && (' ' in lock.ownerName ==> BatchUndone in before)
  {
    hide TxnRc, BatchRollback, TxnTraffic, TxnRollback;
    RollbackEnds(i, all, open, w);
    var log, r, b := TxnStep(i, lock, all, open, w).log, TxnRollback(i, all, open, w), TxnBatch(i, lock, all, w);
    RollbackTraffic(i, all, open, w);
    BatchTraffic(i, lock, all, w);
    TrafficIsSilent(r.log, i);
    TrafficIsSilent(b.log, i);
    var rel := TxnRelease(lock, b.open, w);
    assert log == r.log + (b.log + rel.log);
    assert k >= |r.log| + |b.log|;
    assert log[..k][|r.log| - 1] == TxnUndone(0);
    if ' ' in lock.ownerName {
      assert log[..k][|r.log| + |b.log| - 1] == BatchUndone;
    }
  }

  lemma RollbackEnds(i: nat, all: seq<nat>, open: bool, w: World)
    ensures var r := TxnRollback(i, all, open, w);
      r.exit.Normal? ==> r.log != [] && r.log[|r.log| - 1] == TxnUndone(TxnRc(|all|, w))
  {
    hide Hear, Tell;
  }

  lemma TrafficIsSilent(log: seq<Event>, i: nat)
    requires TxnTraffic(log, i)
    ensures ReleaseCalled !in log && ReleaseCalled !in log + [ReadOnlySet]
  {
  }

  /** The run of lock `i` is one that can happen after the locks before it. */
  predicate BehavesAt(locks: seq<Lock>, pmMap: map<nat, nat>, all: seq<nat>, ws: seq<World>, i: int)
    requires 0 <= i < |locks| == |ws|
  {
    var p := Walk(locks, pmMap, all, ws, i);
    var log := Handle(i, locks[i], pmMap, all, p.open, ws[i]).log;
    p.exit.Normal? ==> Plausible(p.owed, Discards(ws[i].dropped) + log) && (IsBulk(locks[i]) ==> Readable(log))
  }

  /** No answer to a bulk rollback is outstanding when lock `i` is taken up. */
  predicate ClearAt(locks: seq<Lock>, pmMap: map<nat, nat>, all: seq<nat>, ws: seq<World>, i: nat)
    requires i <= |locks| == |ws|
  {
    NoneBulk(Walk(locks, pmMap, all, ws, i).owed)
  }

  lemma HandleJustified(i: nat, lock: Lock, pmMap: map<nat, nat>, all: seq<nat>,
                        open: bool, owed: seq<Request>, w: World, k: nat)
    requires var log := Handle(i, lock, pmMap, all, open, w).log;
      && k < |log| && log[k] == ReleaseCalled
      && (IsBulk(lock) ==> Plausible(owed, Discards(w.dropped) + log) && Readable(log))
    requires IsBulk(lock) && lock.state.LOADING? ==> NoneBulk(owed)
    ensures Justified(i, lock, pmMap, Handle(i, lock, pmMap, all, open, w).log[..k])
  {
    hide Bulk, TxnStep, Plausible, Readable, NoneBulk, AllAnswered;
    if lock.ownerTxn > 0 {
      TxnJustified(i, lock, all, open, w, k);
    } else if IsBulk(lock) && lock.state.LOADING? {
      ReleaseAnswered(i, lock, pmMap, open, owed, w);
      ReleasedIff(i, lock, pmMap, open, w);
      OnlyLast(Bulk(i, lock, pmMap, open, w).log, k);
    }
  }

  lemma OnlyLast(log: seq<Event>, k: nat)
    requires k < |log| && log[k] == ReleaseCalled && Silent(log[..|log| - 1])
    ensures k == |log| - 1
  {
    forall j | 0 <= j < |log| - 1 ensures log[j] != ReleaseCalled {
      assert log[..|log| - 1][j] in log[..|log| - 1];
    }
  }

  /**
    For every list of locks: a transaction's lock is released only after its rollback returned 0,
    and that of a bulk load only past LOADING, or after every PM owning one of its dbroots answered
    0, if no answer to an earlier bulk rollback was outstanding.
   */
  lemma PassJustified(locks: seq<Lock>, pmMap: map<nat, nat>, all: seq<nat>, ws: seq<World>, n: nat, i: nat, k: nat)
    requires n <= |locks| == |ws| && i < |locks| && i < |Walk(locks, pmMap, all, ws, n).logs|
    requires var log := Walk(locks, pmMap, all, ws, n).logs[i]; k < |log| && log[k] == ReleaseCalled
    requires BehavesAt(locks, pmMap, all, ws, i)
    requires IsBulk(locks[i]) && locks[i].state.LOADING? ==> ClearAt(locks, pmMap, all, ws, i)
    ensures Justified(i, locks[i], pmMap, Walk(locks, pmMap, all, ws, n).logs[i][..k])
  {
    hide Walk, Handle, Justified, Plausible, Readable, NoneBulk;
    WalkLogs(locks, pmMap, all, ws, n, i);
    var p := Walk(locks, pmMap, all, ws, i);
    HandleJustified(i, locks[i], pmMap, all, p.open, p.owed, ws[i], k);
  }

  // When no answer is outstanding.

  lemma {:induction false} OwedFrom(owed: seq<Request>, log: seq<Event>, q: Request)
    requires q in Owed(owed, log)
    ensures q in owed || Told(q) in log
    decreases |log|
  {
    if log != [] {
      assert log == [log[0]] + log[1..];
      OwedFrom(OwedAfter(owed, log[0]), log[1..], q);
      if (log[0].Heard? || log[0].Discarded?) && q in Settle(owed, log[0].from.pm) {
        SettleKeeps(owed, log[0].from.pm, q);
      }
    }
  }

  /** What lock `i` asks is asked for lock `i`; only a bulk rollback asks for a bulk rollback. */
  lemma HandleTells(i: nat, lock: Lock, pmMap: map<nat, nat>, all: seq<nat>, open: bool, w: World)
    ensures AllMessages(Handle(i, lock, pmMap, all, open, w).log, i, IsBulk(lock))
  {
    hide AllMessages, Bulk, TxnRollback, TxnBatch, TxnRc;
    BulkMessages(i, lock, pmMap, open, w);
    RollbackTraffic(i, all, open, w);
    BatchTraffic(i, lock, all, w);
    var r, b := TxnRollback(i, all, open, w).log, TxnBatch(i, lock, all, w);
    var rel := TxnRelease(lock, b.open, w).log;
    OtherMessages(i);
    BothMessages(b.log, rel, i, false);
    BothMessages(r, b.log + rel, i, false);
    BothMessages(r, b.log, i, false);
    BothMessages(r, [ReadOnlySet], i, false);
  }

  lemma OtherMessages(i: nat)
    ensures AllMessages([ReleaseCalled, SessionCleared], i, false) && AllMessages([ReleaseCalled], i, false)
    ensures AllMessages([], i, false) && AllMessages([ReadOnlySet], i, false)
  {
  }

  /** What is outstanding was asked for earlier locks. */
  lemma {:induction false} OwedEarlier(locks: seq<Lock>, pmMap: map<nat, nat>, all: seq<nat>,
                                       ws: seq<World>, n: nat, q: Request)
    requires n <= |locks| == |ws| && q in Walk(locks, pmMap, all, ws, n).owed
    ensures q.lock < n
  {
    hide Walk, Handle, Owed;
    WalkStarts(locks, pmMap, all, ws);
    if n > 0 {
      WalkStep(locks, pmMap, all, ws, n - 1);
      var p, w := Walk(locks, pmMap, all, ws, n - 1), ws[n - 1];
      if q in p.owed {
        OwedEarlier(locks, pmMap, all, ws, n - 1, q);
      } else {
        WalkOwes(locks, pmMap, all, ws, n - 1);
        var log := Handle(n - 1, locks[n - 1], pmMap, all, p.open, w).log;
        OwedFrom(p.owed, Discards(w.dropped) + log, q);
        HandleTells(n - 1, locks[n - 1], pmMap, all, p.open, w);
      }
    }
  }

  lemma WalkOwes(locks: seq<Lock>, pmMap: map<nat, nat>, all: seq<nat>, ws: seq<World>, i: nat)
    requires i < |locks| == |ws| && Walk(locks, pmMap, all, ws, i).exit.Normal?
    ensures var p := Walk(locks, pmMap, all, ws, i);
      Walk(locks, pmMap, all, ws, i + 1).owed ==
      Owed(p.owed, Discards(ws[i].dropped) + Handle(i, locks[i], pmMap, all, p.open, ws[i]).log)
  {
    hide Handle, TxnFails, Owed, Discards;
  }

  /**
    Exactly when lock `i` is safe from answers meant for the locks before it, however the others go
    on from there: no answer to an earlier bulk rollback is outstanding.
   */
  lemma PassAnsweredIff(locks: seq<Lock>, pmMap: map<nat, nat>, all: seq<nat>, ws: seq<World>, i: nat)
    requires i < |locks| == |ws| && IsBulk(locks[i]) && locks[i].state.LOADING? && Owners(locks[i].dbroots, pmMap) != []
    ensures AlwaysAnswered(i, locks[i], pmMap, Walk(locks, pmMap, all, ws, i).owed) <==>
            ClearAt(locks, pmMap, all, ws, i)
  {
    hide Walk, AlwaysAnswered, NoneBulk, Owners;
    var owed := Walk(locks, pmMap, all, ws, i).owed;
    forall q | q in owed ensures q.lock != i { OwedEarlier(locks, pmMap, all, ws, i, q); }
    AnsweredIff(i, locks[i], pmMap, owed);
  }

  /** Lock `i`, if it is that of a bulk load, leaves no answer outstanding. */
  predicate SettledAt(locks: seq<Lock>, pmMap: map<nat, nat>, all: seq<nat>, ws: seq<World>, i: int)
    requires 0 <= i < |locks| == |ws|
  {
    IsBulk(locks[i]) ==> Settled(locks[i], pmMap, Walk(locks, pmMap, all, ws, i).open, ws[i])
  }

  /** A lock keeps the line clear exactly when it is settled. */
  lemma ClearIff(locks: seq<Lock>, pmMap: map<nat, nat>, all: seq<nat>, ws: seq<World>, i: nat)
    requires i < |locks| == |ws| && Walk(locks, pmMap, all, ws, i).exit.Normal?
    requires BehavesAt(locks, pmMap, all, ws, i) && ClearAt(locks, pmMap, all, ws, i)
    ensures ClearAt(locks, pmMap, all, ws, i + 1) <==> SettledAt(locks, pmMap, all, ws, i)
  {
    hide Walk, Bulk, TxnStep, Settled, Plausible, Readable, Owed, NoneBulk;
    WalkOwes(locks, pmMap, all, ws, i);
    var p, lock, w := Walk(locks, pmMap, all, ws, i), locks[i], ws[i];
    if IsBulk(lock) {
      LeavesNothingIff(i, lock, pmMap, p.open, p.owed, w);
    } else {
      HandleTells(i, lock, pmMap, all, p.open, w);
      NoneBulkStays(p.owed, w.dropped, Handle(i, lock, pmMap, all, p.open, w).log, i);
    }
  }

  lemma NoneBulkStays(owed: seq<Request>, dropped: seq<Request>, log: seq<Event>, i: nat)
    requires NoneBulk(owed) && AllMessages(log, i, false)
    ensures NoneBulk(Owed(owed, Discards(dropped) + log))
  {
    hide Owed;
    forall q | q in Owed(owed, Discards(dropped) + log) ensures !BulkPhase(q.phase) {
      OwedFrom(owed, Discards(dropped) + log, q);
    }
  }

  /** While every lock so far was settled, the line is clear, and so every release is justified. */
  lemma {:induction false} SettledStaysClear(locks: seq<Lock>, pmMap: map<nat, nat>, all: seq<nat>,
                                             ws: seq<World>, n: nat)
    requires n <= |locks| == |ws|
    requires forall i :: 0 <= i < n ==> BehavesAt(locks, pmMap, all, ws, i) && SettledAt(locks, pmMap, all, ws, i)
    ensures ClearAt(locks, pmMap, all, ws, n)
  {
    hide Walk, BehavesAt, SettledAt;
    WalkStarts(locks, pmMap, all, ws);
    if n > 0 {
      SettledStaysClear(locks, pmMap, all, ws, n - 1);
      WalkStep(locks, pmMap, all, ws, n - 1);
      if Walk(locks, pmMap, all, ws, n - 1).exit.Normal? {
        ClearIff(locks, pmMap, all, ws, n - 1);
      }
    }
  }

  /** Once a lock left the queue registered, the next transaction the DBRM lets roll back aborts the pass. */
  lemma LeakAborts(locks: seq<Lock>, pmMap: map<nat, nat>, all: seq<nat>, ws: seq<World>, i: nat, j: nat)
    requires i < j < |locks| == |ws| && Walk(locks, pmMap, all, ws, j).exit.Normal?
    requires Walk(locks, pmMap, all, ws, i).exit.Normal? && LeavesQueue(locks[i], pmMap, all, ws[i])
    requires locks[j].ownerTxn > 0 && ws[j].brmRc == 0
    ensures AbortsAt(locks, pmMap, all, ws, j)
  {
    hide Walk, Handle, LeavesQueue;
    var p := Walk(locks, pmMap, all, ws, i);
    WalkStep(locks, pmMap, all, ws, i);
    if !Walk(locks, pmMap, all, ws, i + 1).exit.Normal? {
      WalkStops(locks, pmMap, all, ws, i + 1, j);
    }
    QueueIff(i, locks[i], pmMap, all, p.open, ws[i]);
    QueueStays(locks, pmMap, all, ws, i + 1, j);
  }

  const NO_BATCH := BatchWorld(false, [], 0, [], true, 0, [])
  const TWO_PMS := map[1 := 1, 2 := 2]

  lemma TwoOwners()
    ensures Owners([1, 2], TWO_PMS) == [1, 2]
  {
    assert [1, 2][..1] == [1] && [1][..0] == [];
    assert Owners([1], TWO_PMS) == [1];
  }

  /** PM 1 refuses the rollback of lock 0, so nobody waits for PM 2. */
  function RefusedWorld(): World {
    World([], Yes, 0, 2, [Ack(5, Request(0, Undo, 1))], false, 0, [], 0, NO_BATCH, Yes)
  }

  lemma RefusedLeavesOne(lock: Lock)
    requires IsBulk(lock) && lock.state.LOADING? && lock.dbroots == [1, 2]
    ensures var r := Handle(0, lock, TWO_PMS, [1, 2], false, RefusedWorld());
      && r.log == [Told(Request(0, Undo, 1)), Told(Request(0, Undo, 2)), Heard(5, Request(0, Undo, 1))]
      && r.exit.Normal? && !r.open
  {
    TwoOwners();
    var a, b, w := Request(0, Undo, 1), Request(0, Undo, 2), RefusedWorld();
    assert Asks(0, Undo, [1, 2]) == [a, b] && Tolds([a, b]) == [Told(a), Told(b)];
    assert Hear(2, w.replies) == Result([Heard(5, a)], Reported, false);
  }

  lemma TwoAskedOneAnswers(a: Request, b: Request)
    requires a.pm != b.pm && BulkPhase(a.phase)
    ensures var log := [Told(a), Told(b), Heard(5, a)]; Plausible([], log) && Readable(log) && Owed([], log) == [b]
  {
    hide Plausible, Owed;
    assert [Told(a), Told(b), Heard(5, a)] == Tolds([a, b]) + [Heard(5, a)];
    TellsOwe([], [a, b]);
    assert [] + [a, b] == [a, b];
    OwedJoins([], Tolds([a, b]), [Heard(5, a)]);
    SettleFirst([a, b]);
    assert [Heard(5, a)] == [Heard(5, a)] + [];
    PlausibleStep([a, b], Heard(5, a), []);
    NothingHappens([b]);
  }

  /**
    Two locks in LOADING on PMs 1 and 2. PM 1 refuses the first; PM 2's answer to it is counted for
    the second, which is released without PM 2 having answered for it.
   */
  lemma StaleAnswerReleases(locks: seq<Lock>) returns (ws: seq<World>)
    requires |locks| == 2
    requires forall i :: 0 <= i < 2 ==> IsBulk(locks[i]) && locks[i].state.LOADING? && locks[i].dbroots == [1, 2]
    ensures |ws| == 2 && BehavesAt(locks, TWO_PMS, [1, 2], ws, 0) && BehavesAt(locks, TWO_PMS, [1, 2], ws, 1)
    ensures var p := Walk(locks, TWO_PMS, [1, 2], ws, 2);
      |p.logs| == 2 && ReleaseCalled in p.logs[1] && !AllAnswered(1, locks[1], TWO_PMS, p.logs[1])
  {
    hide Handle, Plausible, Owed, Walk, AllAnswered;
    TwoOwners();
    var w0, owed := RefusedWorld(), [Request(0, Undo, 2)];
    RefusedLeavesOne(locks[0]);
    TwoAskedOneAnswers(Request(0, Undo, 1), Request(0, Undo, 2));
    var w1 := StaleReleases(1, locks[1], TWO_PMS, owed, 0);
    ws := [w0, w1];
    WalkStarts(locks, TWO_PMS, [1, 2], ws);
    WalkStep(locks, TWO_PMS, [1, 2], ws, 0);
    WalkOwes(locks, TWO_PMS, [1, 2], ws, 0);
    WalkStep(locks, TWO_PMS, [1, 2], ws, 1);
    var log0 := Handle(0, locks[0], TWO_PMS, [1, 2], false, w0).log;
    assert Discards([]) + log0 == log0;
    HandlesBulk(1, locks[1], w1);
  }

  lemma HandlesBulk(i: nat, lock: Lock, w: World)
    requires IsBulk(lock)
    ensures Handle(i, lock, TWO_PMS, [1, 2], false, w).log == Bulk(i, lock, TWO_PMS, false, w).log
  {
  }
}
