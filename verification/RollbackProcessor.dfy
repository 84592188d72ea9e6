/** The rollback processor as an object that does things in order, proved against BulkRollback and RollbackPass. */
module RollbackProcessor {
  import opened Wrappers
  import opened Replies
  import opened WeClient
  import opened BulkRollback
  import opened RollbackPass

  lemma OwnersGrow(dbroots: seq<nat>, i: nat, pmMap: map<nat, nat>)
    requires i < |dbroots|
    ensures Owners(dbroots[..i + 1], pmMap) == Insert(Owners(dbroots[..i], pmMap), PmOf(pmMap, dbroots[i]))
  {
    assert dbroots[..i + 1][..i] == dbroots[..i];
  }

  /** The set of PMs to talk to. */
  method PmSet(dbroots: seq<nat>, pmMap: map<nat, nat>) returns (pms: seq<nat>)
    ensures pms == Owners(dbroots, pmMap)
  {
    pms := [];
    for i := 0 to |dbroots|
      invariant pms == Owners(dbroots[..i], pmMap)
    {
      OwnersGrow(dbroots, i, pmMap);
      pms := Insert(pms, PmOf(pmMap, dbroots[i]));
    }
    assert dbroots[..|dbroots|] == dbroots;
  }

  lemma ToldsMore(qs: seq<Request>, i: nat)
    requires i < |qs|
    ensures Tolds(qs[..i + 1]) == Tolds(qs[..i]) + [Told(qs[i])]
  {
  }

  lemma HearAt(n: nat, rs: seq<Reply<Request>>, i: nat)
    requires i <= |rs|
    ensures n == 0 ==> Hear(n, rs[i..]) == Result([], Normal, true)
    ensures n > 0 && i == |rs| ==> Hear(n, rs[i..]) == Result([], Blocked, true)
    ensures n > 0 && i < |rs| && rs[i].Thrown? ==> Hear(n, rs[i..]) == Result([], Stray, true)
    ensures n > 0 && i < |rs| && !rs[i].Thrown? && !Fine(rs[i]) ==>
      Hear(n, rs[i..]) == Result([EventOf(rs[i])], Reported, false)
    ensures n > 0 && i < |rs| && Fine(rs[i]) ==>
      var r := Hear(n - 1, rs[i + 1..]);
      Hear(n, rs[i..]) == Result([EventOf(rs[i])] + r.log, r.exit, r.open)
  {
    if n > 0 && i < |rs| && Fine(rs[i]) {
      HearExit(n - 1, rs[i + 1..]);
    }
  }

  lemma LeadingAt(n: nat, rs: seq<Reply<Request>>, i: nat)
    requires n > 0 && i <= |rs|
    ensures Leading(n, rs[i..]) == if i < |rs| && Fine(rs[i]) then 1 + Leading(n - 1, rs[i + 1..]) else 0
  {
  }

  lemma HearCleanUpAt(n: nat, rs: seq<Reply<Request>>, rc: nat, i: nat)
    requires i <= |rs|
    ensures n == 0 ==> HearCleanUp(n, rs[i..], rc) == Result([], if rc == 0 then Normal else Reported, rc == 0)
    ensures n > 0 && rc != 0 ==> HearCleanUp(n, rs[i..], rc) == Result([], Stray, false)
    ensures n > 0 && rc == 0 && i == |rs| ==> HearCleanUp(n, rs[i..], rc) == Result([], Blocked, true)
    ensures n > 0 && rc == 0 && i < |rs| && rs[i].Thrown? ==> HearCleanUp(n, rs[i..], rc) == Result([], Stray, true)
    ensures n > 0 && rc == 0 && i < |rs| && !rs[i].Thrown? ==>
      var r := HearCleanUp(n - 1, rs[i + 1..], if rs[i].Ack? then rs[i].rc else 1);
      HearCleanUp(n, rs[i..], rc) == Result([EventOf(rs[i])] + r.log, r.exit, r.open)
  {
  }

  lemma HearMetaAt(n: nat, rs: seq<Reply<Request>>, i: nat)
    requires i <= |rs|
    ensures n == 0 ==> HearMeta(n, rs[i..]) == Result([], Normal, false)
    ensures n > 0 && i == |rs| ==> HearMeta(n, rs[i..]) == Result([], Blocked, true)
    ensures n > 0 && i < |rs| && rs[i].Thrown? ==> HearMeta(n, rs[i..]) == Result([], Stray, true)
    ensures n > 0 && i < |rs| && rs[i].Lost? ==> HearMeta(n, rs[i..]) == Result([HeardNothing], Normal, false)
    ensures n > 0 && i < |rs| && rs[i].Ack? ==>
      var r := HearMeta(n - 1, rs[i + 1..]);
      HearMeta(n, rs[i..]) == Result([EventOf(rs[i])] + r.log, r.exit, r.open)
  {
  }

  class Processor {
    var log: seq<Event>
    var readOnly: bool
    var registered: bool   // whether the client has a reply queue for the pass's unique id

    constructor ()
      ensures log == [] && !readOnly && !registered
    {
      log, readOnly, registered := [], false, false;
    }

    method TellAll(qs: seq<Request>, writes: nat) returns (exit: Exit)
      modifies this`log
      ensures var r := Tell(qs, writes); log == old(log) + r.log && exit == r.exit
    {
      hide Tolds;
      var i := 0;
      assert old(log) + Tolds(qs[..0]) == old(log);
      while i < |qs|
        invariant 0 <= i <= |qs| && i <= writes
        invariant log == old(log) + Tolds(qs[..i])
      {
        if i == writes {
          return Stray;
        }
        ToldsMore(qs, i);
        log := log + [Told(qs[i])];
        i := i + 1;
      }
      assert qs[..i] == qs;
      exit := Normal;
    }

    /** Reads one reply for each message; the first failure removes the queue and ends the wait. */
    method AwaitAll(n: nat, rs: seq<Reply<Request>>) returns (exit: Exit, rc: nat)
      requires registered
      modifies this`log, this`registered
      ensures var r := Hear(n, rs); log == old(log) + r.log && exit == r.exit && registered == r.open
      ensures exit.Reported? || exit.Stray? ==> rc == FailCode(n, rs)
    {
      hide Hear, Leading;
      rc := 0;
      var i := 0;
      ghost var done := [];
      assert rs[0..] == rs;
      while i < n
        invariant 0 <= i <= n && i <= |rs| && log == old(log) + done && registered
        invariant var r := Hear(n - i, rs[i..]); Hear(n, rs) == Result(done + r.log, r.exit, r.open)
        invariant Leading(n, rs) == i + Leading(n - i, rs[i..])
      {
        HearAt(n - i, rs, i);
        LeadingAt(n - i, rs, i);
        if i == |rs| {
          return Blocked, rc;
        }
        if rs[i].Thrown? {
          return Stray, NETWORK_ERROR;
        }
        ghost var e := EventOf(rs[i]);
        Regroup(old(log), done, [e]);
        Regroup(done, [e], Hear(n - i - 1, rs[i + 1..]).log);
        log := log + [EventOf(rs[i])];
        if !Fine(rs[i]) {
          registered := false;
          return Reported, if rs[i].Ack? then rs[i].rc else NETWORK_ERROR;
        }
        done := done + [e];
        i := i + 1;
      }
      HearAt(0, rs, i);
      exit := Normal;
    }

    /** Reads one reply for each message, remembering the first failure; a read without a queue throws. */
    method AwaitCleanUp(n: nat, rs: seq<Reply<Request>>) returns (exit: Exit)
      requires registered
      modifies this`log, this`registered
      ensures var r := HearCleanUp(n, rs, 0); log == old(log) + r.log && exit == r.exit && registered == r.open
    {
      hide HearCleanUp;
      var count, i, rcCleanup := 0, 0, 0;
      ghost var done := [];
      assert rs[0..] == rs;
      while count < n
        invariant 0 <= i <= |rs| && 0 <= count <= n && log == old(log) + done && registered == (rcCleanup == 0)
        invariant var r := HearCleanUp(n - count, rs[i..], rcCleanup);
          HearCleanUp(n, rs, 0) == Result(done + r.log, r.exit, r.open)
        decreases n - count
      {
        HearCleanUpAt(n - count, rs, rcCleanup, i);
        if !registered {
          return Stray;
        }
        if i == |rs| {
          return Blocked;
        }
        if rs[i].Thrown? {
          return Stray;
        }
        ghost var e := EventOf(rs[i]);
        Regroup(old(log), done, [e]);
        log := log + [EventOf(rs[i])];
        if rs[i].Lost? {
          registered, rcCleanup := false, 1;
        } else if rs[i].rc != 0 && rcCleanup == 0 {
          registered, rcCleanup := false, rs[i].rc;
        }
        Regroup(done, [e], HearCleanUp(n - count - 1, rs[i + 1..], rcCleanup).log);
        done := done + [e];
        count, i := count + 1, i + 1;
      }
      HearCleanUpAt(0, rs, rcCleanup, i);
      exit := if rcCleanup == 0 then Normal else Reported;
    }

    method AwaitMeta(n: nat, rs: seq<Reply<Request>>) returns (exit: Exit)
      requires registered
      modifies this`log, this`registered
      ensures var r := HearMeta(n, rs); log == old(log) + r.log && exit == r.exit && registered == r.open
    {
      hide HearMeta;
      var count, i := 0, 0;
      ghost var done := [];
      assert rs[0..] == rs;
      while count < n
        invariant 0 <= i <= |rs| && 0 <= count <= n && log == old(log) + done && registered
        invariant var r := HearMeta(n - count, rs[i..]); HearMeta(n, rs) == Result(done + r.log, r.exit, r.open)
        decreases n - count
      {
        HearMetaAt(n - count, rs, i);
        if i == |rs| {
          return Blocked;
        }
        if rs[i].Thrown? {
          return Stray;
        }
        ghost var e := EventOf(rs[i]);
        Regroup(old(log), done, [e]);
        Regroup(done, [e], HearMeta(n - count - 1, rs[i + 1..]).log);
        log := log + [EventOf(rs[i])];
        if rs[i].Lost? {
          registered := false;
          return Normal;
        }
        done := done + [e];
        count, i := count + 1, i + 1;
      }
      HearMetaAt(0, rs, i);
      registered := false;
      exit := Normal;
    }

    method UndoAll(lock: nat, pms: seq<nat>, w: World) returns (exit: Exit)
      requires registered
      modifies this`log, this`registered
      ensures var r := UndoPhase(lock, pms, w); log == old(log) + r.log && exit == r.exit && registered == r.open
    {
      hide Hear, Tolds;
      exit := TellAll(Asks(lock, Undo, pms), w.writes);
      if exit != Normal {
        return;
      }
      var rc;
      exit, rc := AwaitAll(|pms|, w.replies);
      HearExit(|pms|, w.replies);
      if exit != Normal {
        return;
      }
      if w.changeThrows {
        return Stray;
      }
      log := log + [StateChanged];
    }

    method CleanUpAll(lock: nat, pms: seq<nat>, w: World) returns (exit: Exit)
      requires registered
      modifies this`log, this`registered
      ensures var r := CleanPhase(lock, pms, w); log == old(log) + r.log && exit == r.exit && registered == r.open
    {
      hide HearCleanUp, Tolds;
      exit := TellAll(Asks(lock, CleanUp, pms), w.cleanWrites);
      if exit != Normal {
        return;
      }
      exit := AwaitCleanUp(|pms|, w.cleanReplies);
      if exit == Stray || exit == Blocked {
        return;
      }
      registered := false;
      if w.release.Throws? {
        return Stray;
      }
      log := log + [ReleaseCalled];
    }

    method ProcessBulkRollback(i: nat, lock: Lock, pmMap: map<nat, nat>, w: World)
        returns (exit: Exit, lockReleased: bool)
      modifies this`log, this`registered
      ensures var r := Bulk(i, lock, pmMap, old(registered), w);
        log == old(log) + r.log && exit == r.exit && registered == r.open
      ensures lockReleased == LockReleased(i, lock, pmMap, old(registered), w)
    {
      hide UndoPhase, CleanPhase, Owners;
      lockReleased := true;
      if w.owner.Throws? {
        return Reported, false;
      }
      if w.owner.No? {
        return Reported, false;
      }
      if registered {
        return Stray, lockReleased;
      }
      registered := true;
      var pms := PmSet(lock.dbroots, pmMap);
      if lock.state.LOADING? {
        exit := UndoAll(i, pms, w);
        if exit != Normal {
          lockReleased := exit != Reported;
          return;
        }
        UndoExit(i, pms, w);
      }
      exit := CleanUpAll(i, pms, w);
    }

    method RollBackTransaction(i: nat, all: seq<nat>, w: World) returns (exit: Exit, rc: int)
      modifies this`log, this`registered
      ensures var r := TxnRollback(i, all, old(registered), w);
        log == old(log) + r.log && exit == r.exit && registered == r.open
      ensures exit.Normal? ==> rc == TxnRc(|all|, w)
    {
      hide Hear, Tolds, Leading;
      rc := w.brmRc;
      if rc != 0 {
        log := log + [TxnUndone(rc)];
        return Normal, rc;
      }
      if registered {
        return Stray, rc;
      }
      registered := true;
      rc := NETWORK_ERROR;
      exit := TellAll(Asks(i, Blocks, all), w.writes);
      if exit.Normal? {
        exit, rc := AwaitAll(|all|, w.replies);
        HearExit(|all|, w.replies);
        if exit == Blocked {
          return;
        }
        if exit == Normal {
          rc := w.dbrmRc;
        }
      }
      registered := false;
      log := log + [TxnUndone(rc)];
      exit := Normal;
    }

    method RemoveMeta(i: nat, all: seq<nat>, b: BatchWorld) returns (exit: Exit)
      requires registered
      modifies this`log, this`registered
      ensures var r := MetaPhase(i, all, b); log == old(log) + r.log && exit == r.exit && registered == r.open
    {
      hide HearMeta, Tolds;
      exit := TellAll(Asks(i, Meta, all), b.metaWrites);
      if exit.Normal? {
        exit := AwaitMeta(|all|, b.metaReplies);
      }
    }

    method RollBackBatch(i: nat, all: seq<nat>, b: BatchWorld) returns (exit: Exit)
      requires !registered
      modifies this`log, this`registered
      ensures var r := BatchRollback(i, all, b); log == old(log) + r.log && exit == r.exit && registered == r.open
    {
      hide Hear, MetaPhase, Tolds, Discards;
      if !b.locked {
        return Normal;
      }
      log := log + Discards(b.dropped);
      registered := true;
      exit := TalkBatch(i, all, b);
      Regroup(old(log), Discards(b.dropped), BatchTalk(i, all, b).log);
    }

    method TalkBatch(i: nat, all: seq<nat>, b: BatchWorld) returns (exit: Exit)
      requires registered
      modifies this`log, this`registered
      ensures var r := BatchTalk(i, all, b); log == old(log) + r.log && exit == r.exit && registered == r.open
    {
      hide Hear, MetaPhase, Tolds;
      exit := TellAll(Asks(i, Batch, all), b.writes);
      if !exit.Normal? {
        return;
      }
      var rc;
      exit, rc := AwaitAll(|all|, b.replies);
      HearExit(|all|, b.replies);
      if exit.Reported? {
        return Normal;
      }
      if !exit.Normal? || !b.changed {
        return;
      }
      Regroup(old(log), Tolds(Asks(i, Batch, all)), Hear(|all|, b.replies).log);
      Regroup(old(log), Tolds(Asks(i, Batch, all)) + Hear(|all|, b.replies).log, MetaPhase(i, all, b).log);
      exit := RemoveMeta(i, all, b);
    }

    method ReleaseTxn(lock: Lock, w: World) returns (exit: Exit)
      modifies this`log
      ensures var r := TxnRelease(lock, registered, w);
        log == old(log) + r.log && exit == r.exit && registered == r.open
    {
      if lock.ownerName == "DDLProc" {
        return Normal;
      }
      if w.release.Throws? {
        return Reported;
      }
      log := log + [ReleaseCalled];
      if w.release.Yes? {
        log := log + [SessionCleared];
      }
      exit := Normal;
    }

    method BatchPart(i: nat, lock: Lock, all: seq<nat>, w: World) returns (exit: Exit)
      requires !registered
      modifies this`log, this`registered
      ensures var r := TxnBatch(i, lock, all, w); log == old(log) + r.log && exit == r.exit && registered == r.open
    {
      hide BatchRollback;
      exit := Normal;
      if ' ' in lock.ownerName {
        exit := RollBackBatch(i, all, w.batch);
        if exit == Normal {
          log := log + [BatchUndone];
        }
      }
    }

    /** A lock of a transaction. */
    method RollbackTxn(i: nat, lock: Lock, all: seq<nat>, w: World) returns (exit: Exit, failed: bool)
      modifies this
      ensures var r := TxnStep(i, lock, all, old(registered), w);
        log == old(log) + r.log && exit == r.exit && registered == r.open
      ensures failed == (TxnRollback(i, all, old(registered), w).exit.Normal? && TxnRc(|all|, w) != 0)
      ensures readOnly == (old(readOnly) || failed)
    {
      hide TxnRc, TxnRollback, TxnBatch, TxnRelease;
      var rc;
      failed := false;
      exit, rc := RollBackTransaction(i, all, w);
      TxnRollbackExit(i, all, old(registered), w);
      if exit != Normal {
        return;
      }
      ghost var r, b := TxnRollback(i, all, old(registered), w).log, TxnBatch(i, lock, all, w);
      if rc != 0 {
        readOnly, failed := true, true;
        Regroup(old(log), r, [ReadOnlySet]);
        log := log + [ReadOnlySet];
        return;
      }
      exit := BatchPart(i, lock, all, w);
      Regroup(old(log), r, b.log);
      if exit != Normal {
        return;
      }
      Regroup(old(log), r + b.log, TxnRelease(lock, b.open, w).log);
      Regroup(r, b.log, TxnRelease(lock, b.open, w).log);
      exit := ReleaseTxn(lock, w);
    }

    /** One lock of the pass. */
    method RollbackLock(i: nat, lock: Lock, pmMap: map<nat, nat>, all: seq<nat>, w: World)
        returns (exit: Exit, failed: bool)
      modifies this
      ensures var r := Handle(i, lock, pmMap, all, old(registered), w);
        log == old(log) + r.log && exit == r.exit && registered == r.open
      ensures failed == TxnFails(lock, all, old(registered), w) && readOnly == (old(readOnly) || failed)
    {
      hide Bulk, TxnStep, TxnRollback, TxnRc;
      exit, failed := Normal, false;
      if lock.ownerTxn > 0 {
        exit, failed := RollbackTxn(i, lock, all, w);
        TxnRollbackExit(i, all, old(registered), w);
      } else if lock.ownerName == "WriteEngineServer" {
        if !w.release.Throws? {
          log := log + [ReleaseCalled];
        }
      } else {
        var how, released := ProcessBulkRollback(i, lock, pmMap, w);
        if how == Blocked {
          exit := Blocked;
        }
      }
    }

    /** The pass over all locks. */
    method RollbackAll(locks: seq<Lock>, pmMap: map<nat, nat>, all: seq<nat>, ws: seq<World>)
        returns (errorTxn: int, exit: Exit)
      requires |ws| == |locks| && !readOnly && !registered
      modifies this
      ensures var p := Walk(locks, pmMap, all, ws, |locks|);
        && log == old(log) + Flatten(p.logs) && readOnly == p.readOnly && errorTxn == p.errorTxn
        && exit == p.exit && registered == p.open
    {
      hide Handle, Walk, Flatten, TxnFails, RollbackFails;
      WalkStarts(locks, pmMap, all, ws);
      FlattenNone();
      assert old(log) + [] == old(log);
      errorTxn, exit := 0, Normal;
      for i := 0 to |locks|
        invariant exit == Normal
        invariant var p := Walk(locks, pmMap, all, ws, i);
          && log == old(log) + Flatten(p.logs) && readOnly == p.readOnly && errorTxn == p.errorTxn
          && exit == p.exit && registered == p.open
      {
        ghost var p := Walk(locks, pmMap, all, ws, i);
        ghost var l := Handle(i, locks[i], pmMap, all, p.open, ws[i]).log;
        WalkStep(locks, pmMap, all, ws, i);
        WalkFails(locks, pmMap, all, ws, i);
        FailsMeans(locks[i], all, p.open, ws[i]);
        FlattenOneMore(p.logs, l);
        Regroup(old(log), Flatten(p.logs), l);
        var failed;
        exit, failed := RollbackLock(i, locks[i], pmMap, all, ws[i]);
        if failed {
          errorTxn := locks[i].ownerTxn;
        }
        if exit != Normal {
          WalkStops(locks, pmMap, all, ws, i + 1, |locks|);
          return;
        }
      }
    }
  }

  lemma FlattenNone()
    ensures Flatten<Event>([]) == []
  {
  }

  lemma FlattenOneMore(logs: seq<seq<Event>>, l: seq<Event>)
    ensures Flatten(logs + [l]) == Flatten(logs) + l
  {
    assert (logs + [l])[..|logs|] == logs;
  }
}
