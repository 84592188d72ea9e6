/**
  The bulk rollback of one table lock left behind. What the other processes do is a parameter; what
  this one does is a log of events in order, how it ends, and whether its reply queue is still
  registered then.
 */
module BulkRollback {
  import opened Wrappers
  import opened Replies
  import opened WeClient

  datatype Answer = Yes | No | Throws
  datatype LockState = LOADING | CLEANUP

  datatype Lock = Lock(id: nat, ownerTxn: int, ownerName: string, state: LockState, dbroots: seq<nat>)

  /** How the others behave in rollBackBatchAutoOnTransaction; `dropped` as below, for its own reply queue. */
  datatype BatchWorld = BatchWorld(locked: bool, dropped: seq<Request>, writes: nat, replies: seq<Reply<Request>>,
                                   changed: bool, metaWrites: nat, metaReplies: seq<Reply<Request>>)

  /**
    How the others behave for one lock: which late answers come in before its reply queue is
    registered, how many writes succeed before one throws, and what is read. A message that cannot
    be taken apart reads as Thrown.
   */
  datatype World = World(dropped: seq<Request>, owner: Answer, brmRc: int, writes: nat, replies: seq<Reply<Request>>,
                         changeThrows: bool, cleanWrites: nat, cleanReplies: seq<Reply<Request>>, dbrmRc: int,
                         batch: BatchWorld, release: Answer)

  /** Reported: an exception raised on purpose. Stray: one raised by a call. Blocked: no reply comes. */
  datatype Exit = Normal | Reported | Stray | Blocked

  /** `open`: the reply queue is registered. */
  datatype Result = Result(log: seq<Event>, exit: Exit, open: bool)

  function Then(a: Result, b: Result): (r: Result) {
    if a.exit.Normal? then Result(a.log + b.log, b.exit, b.open) else a
  }

  /** The PM of a dbroot; a dbroot the map does not know reads as PM 0. */
  function PmOf(pmMap: map<nat, nat>, dbroot: nat): (pm: nat) {
    if dbroot in pmMap then pmMap[dbroot] else 0
  }

  predicate Ascending(s: seq<nat>) {
    forall i, j :: 0 <= i < j < |s| ==> s[i] < s[j]
  }

  /** An ordered set: inserting keeps the order and drops duplicates. */
  function Insert(s: seq<nat>, x: nat): (s': seq<nat>)
    requires Ascending(s)
    ensures Ascending(s')
    ensures forall y :: y in s' <==> y in s || y == x
  {
    if s == [] then [x]
    else if x < s[0] then [x] + s
    else if x == s[0] then s
    else
      var t := Insert(s[1..], x);
      assert s == [s[0]] + s[1..];
      assert forall y :: y in s[1..] ==> s[0] < y;
      ConsAscends(s[0], t);
      [s[0]] + t
  }

  lemma ConsAscends(x: nat, t: seq<nat>)
    requires Ascending(t) && forall y :: y in t ==> x < y
    ensures Ascending([x] + t)
  {
    var s := [x] + t;
    forall i, j | 0 <= i < j < |s| ensures s[i] < s[j] {
      assert s[j] == t[j - 1] && t[j - 1] in t;
      if i > 0 { assert s[i] == t[i - 1]; }
    }
  }

  /** The PMs that own one of the dbroots, each once, in ascending order. */
  function Owners(dbroots: seq<nat>, pmMap: map<nat, nat>): (pms: seq<nat>)
    ensures Ascending(pms)
    ensures forall pm :: pm in pms <==> exists r :: r in dbroots && PmOf(pmMap, r) == pm
  {
    if dbroots == [] then []
    else
      var front, last := dbroots[..|dbroots| - 1], dbroots[|dbroots| - 1];
      assert dbroots == front + [last];
      Insert(Owners(front, pmMap), PmOf(pmMap, last))
  }

  /** A dbroot the map does not know counts for PM 0. */
  lemma OwnersMeans(dbroots: seq<nat>, pmMap: map<nat, nat>, pm: nat)
    ensures pm in Owners(dbroots, pmMap) <==>
      exists r :: r in dbroots && ((r in pmMap && pmMap[r] == pm) || (r !in pmMap && pm == 0))
  {
    hide Owners;
    if r :| r in dbroots && PmOf(pmMap, r) == pm {
      assert r in dbroots;
    }
    if r :| r in dbroots && ((r in pmMap && pmMap[r] == pm) || (r !in pmMap && pm == 0)) {
      assert PmOf(pmMap, r) == pm;
    }
  }

  /** One message for each PM. */
  function Asks(lock: nat, phase: Phase, pms: seq<nat>): (qs: seq<Request>)
    ensures |qs| == |pms| && forall k :: 0 <= k < |qs| ==> qs[k] == Request(lock, phase, pms[k])
  {
    seq(|pms|, k requires 0 <= k < |pms| => Request(lock, phase, pms[k]))
  }

  function Tolds(qs: seq<Request>): (log: seq<Event>)
    ensures |log| == |qs|
  {
    seq(|qs|, k requires 0 <= k < |qs| => Told(qs[k]))
  }

  function Discards(qs: seq<Request>): (log: seq<Event>)
    ensures |log| == |qs|
  {
    seq(|qs|, k requires 0 <= k < |qs| => Discarded(qs[k]))
  }

  function Tell(qs: seq<Request>, writes: nat): (r: Result) {
    if writes < |qs| then Result(Tolds(qs[..writes]), Stray, true) else Result(Tolds(qs), Normal, true)
  }

  function EventOf(r: Reply<Request>): (e: Event)
    requires !r.Thrown?
  {
    if r.Ack? then Heard(r.rc, r.from) else HeardNothing
  }

  /** `n` replies; the first failure removes the queue and ends it. */
  function Hear(n: nat, replies: seq<Reply<Request>>): (r: Result)
    decreases |replies|
  {
    if n == 0 then Result([], Normal, true)
    else if replies == [] then Result([], Blocked, true)
    else if replies[0].Thrown? then Result([], Stray, true)
    else if !Fine(replies[0]) then Result([EventOf(replies[0])], Reported, false)
    else Then(Result([EventOf(replies[0])], Normal, true), Hear(n - 1, replies[1..]))
  }

  /**
    `n` replies to the clean-up message. The first failure is remembered in `rc` and removes the
    queue: a further read then throws.
   */
  function HearCleanUp(n: nat, replies: seq<Reply<Request>>, rc: nat): (r: Result)
    decreases |replies|
  {
    if n == 0 then Result([], if rc == 0 then Normal else Reported, rc == 0)
    else if rc != 0 then Result([], Stray, false)
    else if replies == [] then Result([], Blocked, true)
    else
      match replies[0]
      case Thrown => Result([], Stray, true)
      case Lost => Then(Result([HeardNothing], Normal, false), HearCleanUp(n - 1, replies[1..], 1))
      case Ack(ack, from) => Then(Result([Heard(ack, from)], Normal, true), HearCleanUp(n - 1, replies[1..], ack))
  }

  function UndoPhase(lock: nat, pms: seq<nat>, w: World): (r: Result) {
    Then(Tell(Asks(lock, Undo, pms), w.writes),
         Then(Hear(|pms|, w.replies),
              if w.changeThrows then Result([], Stray, true) else Result([StateChanged], Normal, true)))
  }

  /** Once all clean-up replies are in, the queue goes and the lock is released. */
  function Finish(heard: Result, release: Answer): (r: Result) {
    if heard.exit.Stray? || heard.exit.Blocked? then heard
    else if release.Throws? then Result(heard.log, Stray, false)
    else Result(heard.log + [ReleaseCalled], heard.exit, false)
  }

  function CleanPhase(lock: nat, pms: seq<nat>, w: World): (r: Result) {
    Then(Tell(Asks(lock, CleanUp, pms), w.cleanWrites), Finish(HearCleanUp(|pms|, w.cleanReplies, 0), w.release))
  }

  function Undone(lock: nat, state: LockState, pms: seq<nat>, w: World): (r: Result) {
    if state.LOADING? then UndoPhase(lock, pms, w) else Result([], Normal, true)
  }

  /** processBulkRollback for lock number `i`; it cannot register a queue that already is. */
  function Bulk(i: nat, lock: Lock, pmMap: map<nat, nat>, open: bool, w: World): (r: Result) {
    if !w.owner.Yes? then Result([], Reported, open)
    else if open then Result([], Stray, true)
    else
      var pms := Owners(lock.dbroots, pmMap);
      Then(Undone(i, lock.state, pms, w), CleanPhase(i, pms, w))
  }

  /** The flag processBulkRollback leaves behind. */
  function LockReleased(i: nat, lock: Lock, pmMap: map<nat, nat>, open: bool, w: World): (released: bool) {
    w.owner.Yes? && (open || !Undone(i, lock.state, Owners(lock.dbroots, pmMap), w).exit.Reported?)
  }

  // How it ends, said of what the others do.

  predicate StopsThrown(n: nat, rs: seq<Reply<Request>>) {
    var k := Leading(n, rs);
    k < n && k < |rs| && rs[k].Thrown?
  }

  predicate StopsWaiting(n: nat, rs: seq<Reply<Request>>) {
    Leading(n, rs) < n && Leading(n, rs) == |rs|
  }

  lemma {:induction false} HearExit(n: nat, rs: seq<Reply<Request>>)
    ensures var r := Hear(n, rs);
      && (r.exit.Normal? <==> Leading(n, rs) == n)
      && (r.exit.Stray? <==> StopsThrown(n, rs))
      && (r.exit.Blocked? <==> StopsWaiting(n, rs))
      && (r.open <==> !r.exit.Reported?)
    decreases |rs|
  {
    if n != 0 && rs != [] && Fine(rs[0]) {
      HearExit(n - 1, rs[1..]);
    }
  }

  /** All clean-up replies are read when only the last one may be a failure, and none throws. */
  predicate ReadsAll(n: nat, rs: seq<Reply<Request>>) {
    var k := Leading(n, rs);
    k == n || (k + 1 == n && k < |rs| && !rs[k].Thrown?)
  }

  lemma {:induction false} HearCleanUpExit(n: nat, rs: seq<Reply<Request>>)
    ensures var r := HearCleanUp(n, rs, 0);
      && (r.exit.Normal? <==> Leading(n, rs) == n)
      && (r.exit.Normal? || r.exit.Reported? <==> ReadsAll(n, rs))
      && (r.exit.Blocked? <==> StopsWaiting(n, rs))
      && (r.open <==> r.exit.Normal? || r.exit.Blocked? || StopsThrown(n, rs))
    decreases |rs|
  {
    if n != 0 && rs != [] && Fine(rs[0]) {
      HearCleanUpExit(n - 1, rs[1..]);
    }
  }

  predicate UndoDone(n: nat, w: World) {
    n <= w.writes && Leading(n, w.replies) == n && !w.changeThrows
  }

  /** A write, a read or the change of state throws, and is reached. */
  predicate UndoThrows(n: nat, w: World) {
    w.writes < n || StopsThrown(n, w.replies) || (Leading(n, w.replies) == n && w.changeThrows)
  }

  predicate UndoWaits(n: nat, w: World) {
    n <= w.writes && StopsWaiting(n, w.replies)
  }

  predicate CleanDone(n: nat, w: World) {
    n <= w.cleanWrites && ReadsAll(n, w.cleanReplies)
  }

  /**
    A write, a read or the release throws, and is reached; the read after a failed reply is one
    that throws.
   */
  predicate CleanThrows(n: nat, w: World) {
    var k := Leading(n, w.cleanReplies);
    || w.cleanWrites < n || StopsThrown(n, w.cleanReplies) || (k + 1 < n && k < |w.cleanReplies|)
    || (ReadsAll(n, w.cleanReplies) && w.release.Throws?)
  }

  predicate CleanWaits(n: nat, w: World) {
    n <= w.cleanWrites && StopsWaiting(n, w.cleanReplies)
  }

  /** The lock is past LOADING, or the rollback of all PMs went well. */
  predicate Undoes(state: LockState, n: nat, w: World) {
    state.LOADING? ==> UndoDone(n, w)
  }

  lemma UndoExit(lock: nat, pms: seq<nat>, w: World)
    ensures var r := UndoPhase(lock, pms, w);
      && (r.exit.Normal? <==> UndoDone(|pms|, w))
      && (r.exit.Stray? <==> UndoThrows(|pms|, w))
      && (r.exit.Blocked? <==> UndoWaits(|pms|, w))
      && (r.open <==> !r.exit.Reported?)
  {
    hide Hear, Leading;
    HearExit(|pms|, w.replies);
  }

  lemma CleanExit(lock: nat, pms: seq<nat>, w: World)
    ensures var r := CleanPhase(lock, pms, w);
      && (r.exit.Normal? || r.exit.Reported? <==> CleanDone(|pms|, w) && !w.release.Throws?)
      && (r.exit.Stray? <==> CleanThrows(|pms|, w))
      && (r.exit.Blocked? <==> CleanWaits(|pms|, w))
      && (r.open <==> w.cleanWrites < |pms| || StopsThrown(|pms|, w.cleanReplies) || r.exit.Blocked?)
  {
    hide HearCleanUp, Leading;
    HearCleanUpExit(|pms|, w.cleanReplies);
  }

  // When the lock is released, and when the flag tells.

  predicate Silent(log: seq<Event>) {
    ReleaseCalled !in log
  }

  predicate OnlyReads(log: seq<Event>) {
    forall e :: e in log ==> e.Heard? || e.HeardNothing?
  }

  lemma {:induction false} HearingReads(n: nat, rs: seq<Reply<Request>>, rc: nat)
    ensures OnlyReads(Hear(n, rs).log) && OnlyReads(HearCleanUp(n, rs, rc).log)
    decreases |rs|
  {
    if n != 0 && rs != [] {
      HearingReads(n - 1, rs[1..], if rs[0].Ack? then rs[0].rc else 1);
    }
  }

  lemma ReadsAreQuiet(log: seq<Event>, q: Request)
    requires OnlyReads(log)
    ensures Silent(log) && Told(q) !in log && multiset(log)[Told(q)] == 0
  {
  }

  lemma UndoneIsSilent(lock: nat, state: LockState, pms: seq<nat>, w: World)
    ensures Silent(Undone(lock, state, pms, w).log)
  {
    hide Hear, OnlyReads;
    HearingReads(|pms|, w.replies, 0);
    ReadsAreQuiet(Hear(|pms|, w.replies).log, Request(0, Undo, 0));
  }

  /** Release is the last thing a clean-up does. */
  lemma CleanReleases(lock: nat, pms: seq<nat>, w: World)
    ensures var r := CleanPhase(lock, pms, w);
      && (ReleaseCalled in r.log <==> CleanDone(|pms|, w) && !w.release.Throws?)
      && (ReleaseCalled in r.log ==> r.log[|r.log| - 1] == ReleaseCalled && Silent(r.log[..|r.log| - 1]))
  {
    hide HearCleanUp, ReadsAll, OnlyReads;
    var heard := HearCleanUp(|pms|, w.cleanReplies, 0);
    HearCleanUpExit(|pms|, w.cleanReplies);
    HearingReads(|pms|, w.cleanReplies, 0);
    ReadsAreQuiet(heard.log, Request(0, CleanUp, 0));
    var told, fin := Tell(Asks(lock, CleanUp, pms), w.cleanWrites), Finish(heard, w.release);
    if told.exit.Normal? && (fin.exit.Normal? || fin.exit.Reported?) {
      assert told.log + fin.log == (told.log + heard.log) + [ReleaseCalled];
    }
  }

  /**
    Exactly when a lock is released: it could be taken over, the queue was free, the rollback went
    well on every PM or was done before, all clean-up messages went out, and no clean-up reply but
    the last was a failure.
   */
  predicate Releases(lock: Lock, pmMap: map<nat, nat>, open: bool, w: World) {
    var n := |Owners(lock.dbroots, pmMap)|;
    w.owner.Yes? && !open && Undoes(lock.state, n, w) && CleanDone(n, w) && !w.release.Throws?
  }

  lemma ReleasedIff(i: nat, lock: Lock, pmMap: map<nat, nat>, open: bool, w: World)
    ensures var log := Bulk(i, lock, pmMap, open, w).log;
      && (ReleaseCalled in log <==> Releases(lock, pmMap, open, w))
      && (ReleaseCalled in log ==> log[|log| - 1] == ReleaseCalled && Silent(log[..|log| - 1]))
  {
    hide UndoPhase, CleanPhase, UndoDone, CleanDone;
    var pms := Owners(lock.dbroots, pmMap);
    var undo, clean := Undone(i, lock.state, pms, w), CleanPhase(i, pms, w);
    UndoExit(i, pms, w);
    UndoneIsSilent(i, lock.state, pms, w);
    CleanReleases(i, pms, w);
    if ReleaseCalled in clean.log {
      var log := undo.log + clean.log;
      assert log[..|log| - 1] == undo.log + clean.log[..|clean.log| - 1];
    }
  }

  /** The call is still waiting for a reply. */
  predicate Waits(lock: Lock, pmMap: map<nat, nat>, open: bool, w: World) {
    var n := |Owners(lock.dbroots, pmMap)|;
    w.owner.Yes? && !open &&
    ((lock.state.LOADING? && UndoWaits(n, w)) || (Undoes(lock.state, n, w) && CleanWaits(n, w)))
  }

  /**
    An exception of a call gets out: of registering the queue, of a write, a read, the change of
    state or the release, whichever is reached first; or of the read after a failed clean-up reply
    that was not the last.
   */
  predicate Escapes(lock: Lock, pmMap: map<nat, nat>, open: bool, w: World) {
    var n := |Owners(lock.dbroots, pmMap)|;
    w.owner.Yes? &&
    (open || (lock.state.LOADING? && UndoThrows(n, w))
     || (Undoes(lock.state, n, w) && CleanThrows(n, w)))
  }

  /** The flag is right exactly when no exception of a call gets out; when one does, it says released and is wrong. */
  lemma FlagTells(i: nat, lock: Lock, pmMap: map<nat, nat>, open: bool, w: World)
    ensures var r, flag := Bulk(i, lock, pmMap, open, w), LockReleased(i, lock, pmMap, open, w);
      && (r.exit.Blocked? <==> Waits(lock, pmMap, open, w))
      && (!r.exit.Blocked? ==> ((flag <==> ReleaseCalled in r.log) <==> !Escapes(lock, pmMap, open, w)))
      && (Escapes(lock, pmMap, open, w) ==> flag)
  {
    hide UndoPhase, CleanPhase, UndoDone, CleanDone, UndoWaits, CleanWaits, UndoThrows, CleanThrows;
    var pms := Owners(lock.dbroots, pmMap);
    UndoExit(i, pms, w);
    CleanExit(i, pms, w);
    ReleasedIff(i, lock, pmMap, open, w);
  }

  /** One PM whose connection fails on the first write: the flag says released, the lock is still held. */
  lemma WriteThrowsFlagWrong(lock: Lock, w: World)
    requires lock.state.LOADING? && lock.dbroots == [1] && w.owner.Yes? && w.writes == 0
    ensures LockReleased(0, lock, map[1 := 1], false, w) && ReleaseCalled !in Bulk(0, lock, map[1 := 1], false, w).log
  {
    var pms := Owners(lock.dbroots, map[1 := 1]);
    assert PmOf(map[1 := 1], 1) in pms;
    FlagTells(0, lock, map[1 := 1], false, w);
  }

  /** Nothing throws, but the first of two clean-up replies is an error: the read of the second throws. */
  lemma CleanUpErrorFlagWrong(lock: Lock, w: World)
    requires lock.state.CLEANUP? && lock.dbroots == [1, 2] && w.owner.Yes? && w.cleanWrites == 2
    requires w.cleanReplies == [Ack(5, Request(0, CleanUp, 1)), Ack(0, Request(0, CleanUp, 2))]
    ensures var m := map[1 := 1, 2 := 2];
      LockReleased(0, lock, m, false, w) && ReleaseCalled !in Bulk(0, lock, m, false, w).log
  {
    var m := map[1 := 1, 2 := 2];
    var pms := Owners(lock.dbroots, m);
    assert PmOf(m, 1) in pms && PmOf(m, 2) in pms;
    assert |pms| >= 2;
    FlagTells(0, lock, m, false, w);
  }

  /** The queue stays registered exactly when a call threw while it was, or the call still waits. */
  predicate Leaks(lock: Lock, pmMap: map<nat, nat>, open: bool, w: World) {
    var n := |Owners(lock.dbroots, pmMap)|;
    if !w.owner.Yes? || open then open
    else
      || (lock.state.LOADING? && (UndoThrows(n, w) || UndoWaits(n, w)))
      || (Undoes(lock.state, n, w) &&
          (w.cleanWrites < n || StopsThrown(n, w.cleanReplies) || CleanWaits(n, w)))
  }

  lemma LeaksIff(i: nat, lock: Lock, pmMap: map<nat, nat>, open: bool, w: World)
    ensures Bulk(i, lock, pmMap, open, w).open <==> Leaks(lock, pmMap, open, w)
  {
    hide UndoPhase, CleanPhase, UndoDone, CleanDone, UndoWaits, CleanWaits, UndoThrows, StopsThrown;
    var pms := Owners(lock.dbroots, pmMap);
    UndoExit(i, pms, w);
    CleanExit(i, pms, w);
  }

  // Who is told what, and when.

  lemma AskedHead(lock: nat, phase: Phase, pms: seq<nat>)
    requires pms != []
    ensures Tolds(Asks(lock, phase, pms)) ==
            [Told(Request(lock, phase, pms[0]))] + Tolds(Asks(lock, phase, pms[1..]))
  {
  }

  lemma {:induction false} ToldsCount(lock: nat, phase: Phase, pms: seq<nat>, q: Request)
    requires Ascending(pms)
    ensures multiset(Tolds(Asks(lock, phase, pms)))[Told(q)] ==
            if q.lock == lock && q.phase == phase && q.pm in pms then 1 else 0
  {
    hide Tolds, Asks;
    if pms != [] {
      ToldsCount(lock, phase, pms[1..], q);
      var first, rest := Told(Request(lock, phase, pms[0])), Tolds(Asks(lock, phase, pms[1..]));
      AskedHead(lock, phase, pms);
      assert multiset([first] + rest) == multiset{first} + multiset(rest);
      assert pms == [pms[0]] + pms[1..];
    }
  }

  function Once(b: bool): (n: nat) {
    if b then 1 else 0
  }

  lemma TellCount(lock: nat, phase: Phase, pms: seq<nat>, writes: nat, q: Request)
    requires Ascending(pms)
    ensures var r := Tell(Asks(lock, phase, pms), writes);
      var once := Once(q.lock == lock && q.phase == phase && q.pm in pms);
      multiset(r.log)[Told(q)] <= once && (r.exit.Normal? ==> multiset(r.log)[Told(q)] == once)
  {
    if writes < |pms| {
      ToldsCount(lock, phase, pms[..writes], q);
      assert Asks(lock, phase, pms)[..writes] == Asks(lock, phase, pms[..writes]);
    } else {
      ToldsCount(lock, phase, pms, q);
    }
  }

  lemma UndoTellsOnce(lock: nat, pms: seq<nat>, w: World, q: Request)
    requires Ascending(pms)
    ensures var r, once := UndoPhase(lock, pms, w), Once(q.lock == lock && q.phase.Undo? && q.pm in pms);
      multiset(r.log)[Told(q)] <= once && (r.exit.Normal? ==> multiset(r.log)[Told(q)] == once)
  {
    hide Tell, Hear, Asks, OnlyReads;
    TellCount(lock, Undo, pms, w.writes, q);
    HearingReads(|pms|, w.replies, 0);
    var heard := Hear(|pms|, w.replies);
    ReadsAreQuiet(heard.log, q);
    assert multiset(heard.log + [StateChanged])[Told(q)] == 0;
  }

  lemma CleanTellsOnce(lock: nat, pms: seq<nat>, w: World, q: Request)
    requires Ascending(pms)
    ensures var r, once := CleanPhase(lock, pms, w), Once(q.lock == lock && q.phase.CleanUp? && q.pm in pms);
      && multiset(r.log)[Told(q)] <= once
      && (ReleaseCalled in r.log ==> multiset(r.log)[Told(q)] == once)
  {
    hide HearCleanUp, Asks, ReadsAll, Tolds, OnlyReads;
    TellCount(lock, CleanUp, pms, w.cleanWrites, q);
    HearingReads(|pms|, w.cleanReplies, 0);
    CleanReleases(lock, pms, w);
    var heard := HearCleanUp(|pms|, w.cleanReplies, 0);
    ReadsAreQuiet(heard.log, q);
    NoneToldAfter(Tell(Asks(lock, CleanUp, pms), w.cleanWrites).log, heard.log, q);
  }

  lemma NoneToldAfter(told: seq<Event>, heard: seq<Event>, q: Request)
    requires multiset(heard)[Told(q)] == 0
    ensures multiset(told + heard)[Told(q)] == multiset(told)[Told(q)]
    ensures multiset(told + (heard + [ReleaseCalled]))[Told(q)] == multiset(told)[Told(q)]
  {
    assert multiset(told + heard) == multiset(told) + multiset(heard);
    assert multiset(told + (heard + [ReleaseCalled])) == multiset(told) + multiset(heard) + multiset{ReleaseCalled};
  }

  /** No PM is told twice in a phase; a released lock had each owner told once, per phase it went through. */
  lemma ToldOnce(i: nat, lock: Lock, pmMap: map<nat, nat>, open: bool, w: World, phase: Phase, pm: nat)
    ensures var log, pms, q := Bulk(i, lock, pmMap, open, w).log, Owners(lock.dbroots, pmMap), Request(i, phase, pm);
      && multiset(log)[Told(q)] <= Once(pm in pms && (phase.CleanUp? || phase.Undo?))
      && (ReleaseCalled in log ==>
            multiset(log)[Told(q)] == Once(pm in pms && (phase.CleanUp? || (phase.Undo? && lock.state.LOADING?))))
  {
    hide UndoPhase, CleanPhase;
    var pms, q := Owners(lock.dbroots, pmMap), Request(i, phase, pm);
    UndoTellsOnce(i, pms, w, q);
    CleanTellsOnce(i, pms, w, q);
    UndoneIsSilent(i, lock.state, pms, w);
  }

  /** A lock in LOADING moves to CLEANUP before any PM is told to clean up. */
  lemma StateBeforeCleanUp(i: nat, lock: Lock, pmMap: map<nat, nat>, open: bool, w: World, k: nat)
    requires lock.state.LOADING?
    requires var log := Bulk(i, lock, pmMap, open, w).log; k < |log| && log[k].Told? && log[k].to.phase.CleanUp?
    ensures StateChanged in Bulk(i, lock, pmMap, open, w).log[..k]
  {
    var pms, log := Owners(lock.dbroots, pmMap), Bulk(i, lock, pmMap, open, w).log;
    var undo := UndoPhase(i, pms, w);
    UndoTellsOnce(i, pms, w, log[k].to);
    assert log[k] !in undo.log;
    assert k >= |undo.log| && undo.exit.Normal?;
    assert undo.log[|undo.log| - 1] == StateChanged;
    assert log[..k][|undo.log| - 1] == StateChanged;
  }
}
