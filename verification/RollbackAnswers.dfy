/**
  Whether the answers a bulk rollback counts are those to its own messages. All locks of a pass use
  one unique id, so an answer that an earlier lock did not wait for may be read by a later one.
 */
module RollbackAnswers {
  import opened Wrappers
  import opened Replies
  import opened WeClient
  import opened BulkRollback

  predicate BulkPhase(phase: Phase) {
    phase.Undo? || phase.CleanUp?
  }

  /** Only the answer to a message of a bulk rollback carries the PM number the loops here take out of it. */
  predicate Readable(log: seq<Event>) {
    forall e :: e in log && e.Heard? ==> BulkPhase(e.from.phase)
  }

  /** What `w` says can happen when `owed` is still to be answered. */
  predicate Behaves(i: nat, lock: Lock, pmMap: map<nat, nat>, open: bool, owed: seq<Request>, w: World) {
    var log := Bulk(i, lock, pmMap, open, w).log;
    Plausible(owed, Discards(w.dropped) + log) && Readable(log)
  }

  predicate NoneBulk(owed: seq<Request>) {
    forall q :: q in owed ==> !BulkPhase(q.phase)
  }

  predicate DifferentPms(qs: seq<Request>) {
    forall i, j :: 0 <= i < j < |qs| ==> qs[i].pm != qs[j].pm
  }

  lemma DifferentJoins(q: Request, rest: seq<Request>, s: seq<Request>)
    requires DifferentPms([q] + rest) && DifferentPms(s) && forall r :: r in s ==> r in rest
    ensures DifferentPms([q] + s)
  {
    var t := [q] + s;
    forall i, j | 0 <= i < j < |t| ensures t[i].pm != t[j].pm {
      if i > 0 {
        assert t[i] == s[i - 1] && t[j] == s[j - 1];
      } else {
        assert t[j] == s[j - 1] && s[j - 1] in rest;
        var k :| 0 <= k < |rest| && rest[k] == s[j - 1];
        assert ([q] + rest)[0] == q && ([q] + rest)[k + 1] == rest[k];
      }
    }
  }

  lemma {:induction false} SettleTakes(rest: seq<Request>, pm: nat)
    requires Oldest(rest, pm).Some? && DifferentPms(rest)
    ensures |Settle(rest, pm)| == |rest| - 1 && DifferentPms(Settle(rest, pm))
    ensures forall q :: q in rest && q.pm != pm ==> q in Settle(rest, pm)
    ensures forall q :: q in rest && q.pm == pm ==> Oldest(rest, pm) == Some(q)
  {
    assert rest == [rest[0]] + rest[1..];
    if rest[0].pm != pm {
      SettleTakes(rest[1..], pm);
      forall r | r in Settle(rest[1..], pm) ensures r in rest[1..] { SettleKeeps(rest[1..], pm, r); }
      DifferentJoins(rest[0], rest[1..], Settle(rest[1..], pm));
    }
  }

  /** No answer in the log is one to `base`. */
  predicate Apart(base: seq<Request>, log: seq<Event>) {
    forall e :: e in log && e.Heard? ==> e.from !in base
  }

  /** While no answer to another request is read, as many good answers as were asked for are the answers asked for. */
  lemma {:induction false} HearOwn(base: seq<Request>, rest: seq<Request>, rs: seq<Reply<Request>>, q: Request)
    requires DifferentPms(rest) && Leading(|rest|, rs) == |rest| && q in rest
    requires Plausible(base + rest, Hear(|rest|, rs).log) && Apart(base, Hear(|rest|, rs).log)
    ensures Heard(0, q) in Hear(|rest|, rs).log
    decreases |rs|
  {
    hide Hear, Leading, Plausible, Settle, Oldest, DifferentPms;
    HearStep(|rest|, rs);
    var first, more := rs[0].from, Hear(|rest| - 1, rs[1..]).log;
    PlausibleStep(base + rest, Heard(0, first), more);
    assert Heard(0, first) in [Heard(0, first)] + more;
    assert Oldest(base, first.pm).None? by {
      if Oldest(base, first.pm).Some? {
        OldestAhead(base, rest, first.pm);
        OldestIn(base, first.pm);
      }
    }
    SettleBehind(base, rest, first.pm);
    SettleTakes(rest, first.pm);
    if q != first {
      assert forall e :: e in more ==> e in [Heard(0, first)] + more;
      HearOwn(base, Settle(rest, first.pm), rs[1..], q);
    }
  }

  lemma HearStep(n: nat, rs: seq<Reply<Request>>)
    requires n > 0 && Leading(n, rs) == n
    ensures rs != [] && Fine(rs[0]) && Leading(n - 1, rs[1..]) == n - 1
    ensures Hear(n, rs).log == [Heard(0, rs[0].from)] + Hear(n - 1, rs[1..]).log
  {
    HearExit(n - 1, rs[1..]);
  }

  lemma PlausibleStep(owed: seq<Request>, e: Event, more: seq<Event>)
    ensures Plausible(owed, [e] + more) <==> Possible(owed, e) && Plausible(OwedAfter(owed, e), more)
    ensures Owed(owed, [e] + more) == Owed(OwedAfter(owed, e), more)
  {
    assert ([e] + more)[1..] == more;
  }

  lemma {:induction false} TellsOwe(owed: seq<Request>, qs: seq<Request>)
    ensures Owed(owed, Tolds(qs)) == owed + qs && Plausible(owed, Tolds(qs))
    decreases |qs|
  {
    if qs == [] {
      assert Tolds(qs) == [] && owed + qs == owed;
    } else {
      assert Tolds(qs)[1..] == Tolds(qs[1..]);
      TellsOwe(owed + [qs[0]], qs[1..]);
      assert owed + [qs[0]] + qs[1..] == owed + qs;
    }
  }

  /** When the rollback phase goes well and no other bulk answer was outstanding, every PM answered 0. */
  lemma UndoHearsAll(lock: nat, pms: seq<nat>, w: World, owed: seq<Request>, pm: nat)
    requires Ascending(pms) && pm in pms && UndoDone(|pms|, w) && NoneBulk(owed)
    requires var log := UndoPhase(lock, pms, w).log; Plausible(owed, log) && Readable(log)
    ensures Heard(0, Request(lock, Undo, pm)) in UndoPhase(lock, pms, w).log
  {
    hide Hear, Plausible, Owed;
    var qs, heard := Asks(lock, Undo, pms), Hear(|pms|, w.replies).log;
    HearExit(|pms|, w.replies);
    var log := Tolds(qs) + (heard + [StateChanged]);
    assert UndoPhase(lock, pms, w).log == log;
    OwedJoins(owed, Tolds(qs), heard + [StateChanged]);
    TellsOwe(owed, qs);
    OwedJoins(owed + qs, heard, [StateChanged]);
    var k :| 0 <= k < |pms| && pms[k] == pm;
    assert qs[k] == Request(lock, Undo, pm);
    assert Apart(owed, heard) by { assert forall e :: e in heard ==> e in log; }
    HearOwn(owed, qs, w.replies, Request(lock, Undo, pm));
  }

  /** Every PM that owns one of the lock's dbroots has answered its rollback with 0. */
  predicate AllAnswered(i: nat, lock: Lock, pmMap: map<nat, nat>, before: seq<Event>) {
    forall pm :: pm in Owners(lock.dbroots, pmMap) ==> Heard(0, Request(i, Undo, pm)) in before
  }

  /** The release of a lock in LOADING comes after all answers, if no bulk answer was outstanding before. */
  lemma ReleaseAnswered(i: nat, lock: Lock, pmMap: map<nat, nat>, open: bool, owed: seq<Request>, w: World)
    requires Behaves(i, lock, pmMap, open, owed, w) && NoneBulk(owed) && lock.state.LOADING?
    requires ReleaseCalled in Bulk(i, lock, pmMap, open, w).log
    ensures var log := Bulk(i, lock, pmMap, open, w).log;
      log[|log| - 1] == ReleaseCalled && AllAnswered(i, lock, pmMap, log[..|log| - 1])
  {
    hide Plausible, Owed, UndoDone, CleanDone;
    var pms, log := Owners(lock.dbroots, pmMap), Bulk(i, lock, pmMap, open, w).log;
    var undo, clean := UndoPhase(i, pms, w), CleanPhase(i, pms, w);
    ReleasedIff(i, lock, pmMap, open, w);
    UndoExit(i, pms, w);
    assert log == undo.log + clean.log;
    CleanReleases(i, pms, w);
    var owed' := Owed(owed, Discards(w.dropped));
    OwedJoins(owed, Discards(w.dropped), log);
    OwedJoins(owed', undo.log, clean.log);
    DiscardsKeep(owed, w.dropped);
    assert log[..|log| - 1] == undo.log + clean.log[..|clean.log| - 1];
    forall pm | pm in pms ensures Heard(0, Request(i, Undo, pm)) in log[..|log| - 1] {
      UndoHearsAll(i, pms, w, owed', pm);
    }
  }

  lemma {:induction false} DiscardsKeep(owed: seq<Request>, qs: seq<Request>)
    ensures forall q :: q in Owed(owed, Discards(qs)) ==> q in owed
    decreases |qs|
  {
    if qs == [] {
      assert Discards(qs) == [];
    } else {
      assert Discards(qs)[1..] == Discards(qs[1..]);
      DiscardsKeep(Settle(owed, qs[0].pm), qs[1..]);
      forall q | q in Settle(owed, qs[0].pm) ensures q in owed { SettleKeeps(owed, qs[0].pm, q); }
    }
  }

  // The converse: one outstanding bulk answer is enough for a release that is not justified.

  function Acks(qs: seq<Request>): (rs: seq<Reply<Request>>)
    ensures |rs| == |qs|
  {
    seq(|qs|, k requires 0 <= k < |qs| => Ack(0, qs[k]))
  }

  function Heards(qs: seq<Request>): (log: seq<Event>)
    ensures |log| == |qs|
  {
    seq(|qs|, k requires 0 <= k < |qs| => Heard(0, qs[k]))
  }

  lemma {:induction false} HearAcks(qs: seq<Request>)
    ensures Hear(|qs|, Acks(qs)) == Result(Heards(qs), Normal, true) && Leading(|qs|, Acks(qs)) == |qs|
  {
    if qs == [] {
      assert Heards(qs) == [];
    } else {
      HearAcks(qs[1..]);
      assert Acks(qs)[1..] == Acks(qs[1..]);
      assert Heards(qs) == [Heard(0, qs[0])] + Heards(qs[1..]);
    }
  }

  lemma {:induction false} CleanAcks(qs: seq<Request>)
    ensures var rs := Acks(qs) + [Lost];
      && HearCleanUp(|qs| + 1, rs, 0) == Result(Heards(qs) + [HeardNothing], Reported, false)
      && Leading(|qs| + 1, rs) == |qs|
  {
    var rs := Acks(qs) + [Lost];
    if qs == [] {
      assert rs == [Lost] && Heards(qs) + [HeardNothing] == [HeardNothing];
      assert HearCleanUp(0, rs[1..], 1) == Result([], Reported, false);
    } else {
      CleanAcks(qs[1..]);
      assert rs[1..] == Acks(qs[1..]) + [Lost];
      assert Heards(qs) + [HeardNothing] == [Heard(0, qs[0])] + (Heards(qs[1..]) + [HeardNothing]);
    }
  }

  /** Answers of PMs that owe nothing before `qs` come in order. */
  lemma {:induction false} AnswerFront(base: seq<Request>, qs: seq<Request>, rest: seq<Request>)
    requires forall q :: q in qs ==> Oldest(base, q.pm).None?
    ensures Plausible(base + (qs + rest), Heards(qs)) && Owed(base + (qs + rest), Heards(qs)) == base + rest
    decreases |qs|
  {
    hide Plausible, Owed, Heards, Settle, Oldest;
    DiscardsHead(qs);
    if qs == [] {
      assert qs + rest == rest;
      NothingHappens(base + rest);
    } else {
      AnswerNext(base, qs[0], qs[1..] + rest, Heards(qs[1..]));
      SplitFirst(qs, rest);
      AnswerFront(base, qs[1..], rest);
    }
  }

  lemma AnswerNext(base: seq<Request>, q: Request, rest: seq<Request>, more: seq<Event>)
    requires Oldest(base, q.pm).None?
    ensures Plausible(base + ([q] + rest), [Heard(0, q)] + more) <==> Plausible(base + rest, more)
    ensures Owed(base + ([q] + rest), [Heard(0, q)] + more) == Owed(base + rest, more)
  {
    hide Plausible, Owed, Settle, Oldest;
    SettleBehind(base, [q] + rest, q.pm);
    SettleFirst([q] + rest);
    assert ([q] + rest)[1..] == rest;
    PlausibleStep(base + ([q] + rest), Heard(0, q), more);
  }

  lemma NothingHappens(owed: seq<Request>)
    ensures Plausible(owed, []) && Owed(owed, []) == owed
  {
  }

  /** The oldest requests come in while nobody listens. */
  lemma {:induction false} DropFront(owed: seq<Request>, k: nat)
    requires k <= |owed|
    ensures Plausible(owed, Discards(owed[..k])) && Owed(owed, Discards(owed[..k])) == owed[k..]
    decreases k
  {
    if k == 0 {
      assert Discards(owed[..0]) == [];
    } else {
      assert Discards(owed[..k]) == [Discarded(owed[0])] + Discards(owed[1..][..k - 1]);
      PlausibleStep(owed, Discarded(owed[0]), Discards(owed[1..][..k - 1]));
      DropFront(owed[1..], k - 1);
    }
  }

  lemma DiscardsHead(qs: seq<Request>)
    ensures Discards(qs) == if qs == [] then [] else [Discarded(qs[0])] + Discards(qs[1..])
    ensures Heards(qs) == if qs == [] then [] else [Heard(0, qs[0])] + Heards(qs[1..])
  {
  }

  lemma SettleFirst(s: seq<Request>)
    requires s != []
    ensures Oldest(s, s[0].pm) == Some(s[0]) && Settle(s, s[0].pm) == s[1..]
  {
  }

  function Of(s: seq<Request>, pm: nat): (t: seq<Request>)
    ensures forall q :: q in t ==> q in s && q.pm == pm
  {
    if s == [] then [] else (if s[0].pm == pm then [s[0]] else []) + Of(s[1..], pm)
  }

  function NotOf(s: seq<Request>, pm: nat): (t: seq<Request>) {
    if s == [] then [] else (if s[0].pm != pm then [s[0]] else []) + NotOf(s[1..], pm)
  }

  /** So do all those of the other PMs. */
  lemma {:induction false} DropOthers(kept: seq<Request>, s: seq<Request>, pm: nat)
    requires forall q :: q in kept ==> q.pm == pm
    ensures Plausible(kept + s, Discards(NotOf(s, pm))) && Owed(kept + s, Discards(NotOf(s, pm))) == kept + Of(s, pm)
    decreases |s|
  {
    hide Plausible, Owed, Discards, Settle, Oldest, NotOf, Of;
    DiscardsHead(NotOf(s, pm));
    SplitHead(s, pm);
    if s == [] {
      assert kept + s == kept == kept + Of(s, pm);
      NothingHappens(kept);
    } else if s[0].pm == pm {
      DropOthers(kept + [s[0]], s[1..], pm);
      Regroup(kept, [s[0]], s[1..]);
      Regroup(kept, [s[0]], Of(s[1..], pm));
      assert [s[0]] + s[1..] == s;
    } else {
      DropNext(kept, s, NotOf(s[1..], pm));
      DropOthers(kept, s[1..], pm);
    }
  }

  lemma SplitHead(s: seq<Request>, pm: nat)
    ensures s == [] ==> Of(s, pm) == [] && NotOf(s, pm) == []
    ensures s != [] && s[0].pm == pm ==> Of(s, pm) == [s[0]] + Of(s[1..], pm) && NotOf(s, pm) == NotOf(s[1..], pm)
    ensures s != [] && s[0].pm != pm ==> Of(s, pm) == Of(s[1..], pm) && NotOf(s, pm) == [s[0]] + NotOf(s[1..], pm)
  {
  }

  lemma DropNext(kept: seq<Request>, s: seq<Request>, more: seq<Request>)
    requires s != [] && forall q :: q in kept ==> q.pm != s[0].pm
    ensures Plausible(kept + s, Discards([s[0]] + more)) <==> Plausible(kept + s[1..], Discards(more))
    ensures Owed(kept + s, Discards([s[0]] + more)) == Owed(kept + s[1..], Discards(more))
  {
    hide Plausible, Owed, Discards, Settle, Oldest;
    OwesNothing(kept, s[0].pm);
    SettleBehind(kept, s, s[0].pm);
    SettleFirst(s);
    DiscardsHead([s[0]] + more);
    assert ([s[0]] + more)[1..] == more;
    PlausibleStep(kept + s, Discarded(s[0]), Discards(more));
  }

  /** The run in which lock `i` counts the answer to `owed[k]`, and never that of the owner number `t`. */
  function StaleWorld(i: nat, pms: seq<nat>, owed: seq<Request>, k: nat, t: nat): (w: World)
    requires k < |owed| && t < |pms|
  {
    var undo, clean := Asks(i, Undo, pms), Asks(i, CleanUp, pms);
    World(owed[..k] + NotOf(owed[k..], owed[k].pm), Yes, 0, |pms|, Acks([owed[k]] + undo[..t] + undo[t + 1..]),
          false, |pms|, Acks(clean[..t] + clean[t + 1..]) + [Lost], 0, BatchWorld(false, [], 0, [], true, 0, []), Yes)
  }

  lemma {:induction false} StaleDrops(owed: seq<Request>, k: nat)
    requires k < |owed|
    ensures var x := owed[k].pm; var dropped := owed[..k] + NotOf(owed[k..], x);
      Plausible(owed, Discards(dropped)) && Owed(owed, Discards(dropped)) == [owed[k]] + Of(owed[k + 1..], x)
  {
    hide Plausible, Owed, Discards;
    var x := owed[k].pm;
    DropFront(owed, k);
    DropOthers([], owed[k..], x);
    OwedJoins(owed, Discards(owed[..k]), Discards(NotOf(owed[k..], x)));
    DiscardsJoin(owed[..k], NotOf(owed[k..], x));
    assert owed[k..][1..] == owed[k + 1..];
    assert [] + owed[k..] == owed[k..] && [] + Of(owed[k..], x) == Of(owed[k..], x);
  }

  lemma DiscardsJoin(a: seq<Request>, b: seq<Request>)
    ensures Discards(a + b) == Discards(a) + Discards(b) && Heards(a + b) == Heards(a) + Heards(b)
  {
  }

  /** All PMs but number `t` answer. */
  lemma AnswerOthers(base: seq<Request>, qs: seq<Request>, t: nat)
    requires t < |qs| && DifferentPms(qs) && forall k :: 0 <= k < |qs| && k != t ==> Oldest(base, qs[k].pm).None?
    ensures var others := qs[..t] + qs[t + 1..];
      Plausible(base + qs, Heards(others)) && Owed(base + qs, Heards(others)) == base + [qs[t]]
  {
    hide Plausible, Owed, Heards, Oldest, DifferentPms;
    var a, b := qs[..t], qs[t + 1..];
    forall q | q in a ensures Oldest(base, q.pm).None? {
      var k :| 0 <= k < t && qs[k] == q;
    }
    forall q | q in b ensures Oldest(base, q.pm).None? && q.pm != qs[t].pm {
      var k :| t < k < |qs| && qs[k] == q;
      Differs(qs, t, k);
    }
    AnswerAround(base, a, qs[t], b);
    assert a + ([qs[t]] + b) == qs;
  }

  lemma Differs(qs: seq<Request>, i: nat, j: nat)
    requires DifferentPms(qs) && i < j < |qs|
    ensures qs[i].pm != qs[j].pm
  {
  }

  lemma AnswerAround(base: seq<Request>, a: seq<Request>, y: Request, b: seq<Request>)
    requires forall q :: q in a ==> Oldest(base, q.pm).None?
    requires forall q :: q in b ==> Oldest(base, q.pm).None? && q.pm != y.pm
    ensures var owed := base + (a + ([y] + b));
      Plausible(owed, Heards(a + b)) && Owed(owed, Heards(a + b)) == base + [y]
  {
    hide Plausible, Owed, Heards, Oldest;
    AnswerFront(base, a, [y] + b);
    forall q | q in b ensures Oldest(base + [y], q.pm).None? {
      SettleBehind(base, [y], q.pm);
      OwesNothing([y], q.pm);
    }
    AnswerFront(base + [y], b, []);
    Regroup(base, [y], b);
    assert b + [] == b && base + [y] + [] == base + [y];
    DiscardsJoin(a, b);
    OwedJoins(base + (a + ([y] + b)), Heards(a), Heards(b));
  }

  /** All PMs are asked, `q` is answered late, and number `t` never answers. */
  lemma StaleHears(qs: seq<Request>, q: Request, more: seq<Request>, t: nat)
    requires t < |qs| && DifferentPms(qs) && forall r :: r in more ==> r.pm == q.pm
    requires forall j :: 0 <= j < |qs| && j != t ==> qs[j].pm != q.pm
    ensures var log := Tolds(qs) + Heards([q] + (qs[..t] + qs[t + 1..]));
      Plausible([q] + more, log) && Owed([q] + more, log) == more + [qs[t]]
  {
    hide Plausible, Owed, Heards, Oldest, Settle, DifferentPms;
    var others, told := qs[..t] + qs[t + 1..], [q] + more + qs;
    TellsOwe([q] + more, qs);
    forall j | 0 <= j < |qs| && j != t ensures Oldest(more, qs[j].pm).None? { OwesNothing(more, qs[j].pm); }
    AnswerOthers(more, qs, t);
    SettleFirst(told);
    assert told[1..] == more + qs;
    PlausibleStep(told, Heard(0, q), Heards(others));
    DiscardsJoin([q], others);
    HeardsOne(q);
    OwedJoins([q] + more, Tolds(qs), Heards([q] + others));
  }

  lemma AsksDiffer(i: nat, phase: Phase, pms: seq<nat>)
    requires Distinct(pms)
    ensures DifferentPms(Asks(i, phase, pms))
  {
  }

  lemma AscendingDistinct(pms: seq<nat>)
    requires Ascending(pms)
    ensures Distinct(pms)
  {
  }

  lemma StaleUndo(i: nat, pms: seq<nat>, owed: seq<Request>, k: nat, t: nat)
    requires Ascending(pms) && k < |owed| && t < |pms| && BulkPhase(owed[k].phase)
    requires owed[k].pm in pms ==> owed[k].pm == pms[t]
    ensures var w, more, undo := StaleWorld(i, pms, owed, k, t), Of(owed[k + 1..], owed[k].pm), Asks(i, Undo, pms);
      var r, others := UndoPhase(i, pms, w), undo[..t] + undo[t + 1..];
      && UndoDone(|pms|, w)
      && r.log == Tolds(undo) + (Heards([owed[k]] + others) + [StateChanged])
      && Plausible([owed[k]] + more, r.log) && Owed([owed[k]] + more, r.log) == more + [undo[t]]
  {
    hide Plausible, Owed, Heards, Tolds, Hear, Leading, Of, DifferentPms, Distinct;
    var w, q, undo := StaleWorld(i, pms, owed, k, t), owed[k], Asks(i, Undo, pms);
    var more, others := Of(owed[k + 1..], q.pm), undo[..t] + undo[t + 1..];
    assert [q] + undo[..t] + undo[t + 1..] == [q] + others;
    HearAcks([q] + others);
    AscendingDistinct(pms);
    AsksDiffer(i, Undo, pms);
    StaleHears(undo, q, more, t);
    Regroup(Tolds(undo), Heards([q] + others), [StateChanged]);
    OwedJoins([q] + more, Tolds(undo) + Heards([q] + others), [StateChanged]);
    NoAnswer(more + [undo[t]], StateChanged);
  }

  lemma HeardsOne(q: Request)
    ensures Heards([q]) == [Heard(0, q)]
  {
  }

  lemma NoAnswer(owed: seq<Request>, e: Event)
    requires !e.Told? && !e.Heard? && !e.Discarded?
    ensures Plausible(owed, [e]) && Owed(owed, [e]) == owed
  {
  }

  lemma StaleClean(i: nat, pms: seq<nat>, owed: seq<Request>, k: nat, t: nat)
    requires Ascending(pms) && k < |owed| && t < |pms|
    requires owed[k].pm in pms ==> owed[k].pm == pms[t]
    ensures var w, more, clean := StaleWorld(i, pms, owed, k, t), Of(owed[k + 1..], owed[k].pm), Asks(i, CleanUp, pms);
      var r, others := CleanPhase(i, pms, w), clean[..t] + clean[t + 1..];
      && CleanDone(|pms|, w)
      && r.log == Tolds(clean) + (Heards(others) + [HeardNothing] + [ReleaseCalled])
      && Plausible(more + [Request(i, Undo, pms[t])], r.log)
  {
    hide Plausible, Owed, Heards, HearCleanUp, Leading, Oldest, Settle, Of;
    var w, q, clean := StaleWorld(i, pms, owed, k, t), owed[k], Asks(i, CleanUp, pms);
    var more, others := Of(owed[k + 1..], q.pm), clean[..t] + clean[t + 1..];
    var base := more + [Request(i, Undo, pms[t])];
    CleanAcks(others);
    TellsOwe(base, clean);
    assert forall j :: 0 <= j < |clean| && j != t ==> clean[j].pm != q.pm && clean[j].pm != pms[t];
    forall j | 0 <= j < |clean| && j != t ensures Oldest(base, clean[j].pm).None? { OwesNothing(base, clean[j].pm); }
    AnswerOthers(base, clean, t);
    var last := [HeardNothing] + [ReleaseCalled];
    OwedJoins(base, Tolds(clean), Heards(others) + [HeardNothing] + [ReleaseCalled]);
    assert Heards(others) + [HeardNothing] + [ReleaseCalled] == Heards(others) + last;
    OwedJoins(base + clean, Heards(others), last);
    OwedJoins(base + [clean[t]], [HeardNothing], [ReleaseCalled]);
    NoAnswer(base + [clean[t]], HeardNothing);
    NoAnswer(base + [clean[t]], ReleaseCalled);
  }

  /** The events of that run. */
  function StaleLog(i: nat, pms: seq<nat>, q: Request, t: nat): (log: seq<Event>)
    requires t < |pms|
  {
    var undo, clean := Asks(i, Undo, pms), Asks(i, CleanUp, pms);
    Tolds(undo) + (Heards([q] + (undo[..t] + undo[t + 1..])) + [StateChanged])
    + (Tolds(clean) + (Heards(clean[..t] + clean[t + 1..]) + [HeardNothing] + [ReleaseCalled]))
  }

  lemma StaleLogMisses(i: nat, pms: seq<nat>, q: Request, t: nat)
    requires t < |pms| && Ascending(pms) && q.lock != i && BulkPhase(q.phase)
    ensures Readable(StaleLog(i, pms, q, t)) && Heard(0, Request(i, Undo, pms[t])) !in StaleLog(i, pms, q, t)
  {
    hide Ascending;
    var undo, clean := Asks(i, Undo, pms), Asks(i, CleanUp, pms);
    var a, b := [q] + (undo[..t] + undo[t + 1..]), clean[..t] + clean[t + 1..];
    assert Request(i, Undo, pms[t]) !in undo[..t] && Request(i, Undo, pms[t]) !in undo[t + 1..] by {
      AscendingDiffers(pms, t);
    }
    forall e | e in StaleLog(i, pms, q, t) && e.Heard?
      ensures BulkPhase(e.from.phase) && e.from != Request(i, Undo, pms[t])
    {
      assert e in Heards(a) || e in Heards(b);
      assert e.from in a || e.from in b;
    }
  }

  lemma AscendingDiffers(pms: seq<nat>, t: nat)
    requires Ascending(pms) && t < |pms|
    ensures pms[t] !in pms[..t] && pms[t] !in pms[t + 1..]
  {
  }

  lemma StaleReleases(i: nat, lock: Lock, pmMap: map<nat, nat>, owed: seq<Request>, k: nat) returns (w: World)
    requires lock.state.LOADING? && Owners(lock.dbroots, pmMap) != []
    requires k < |owed| && BulkPhase(owed[k].phase) && owed[k].lock != i
    ensures Behaves(i, lock, pmMap, false, owed, w) && ReleaseCalled in Bulk(i, lock, pmMap, false, w).log
    ensures !AllAnswered(i, lock, pmMap, Bulk(i, lock, pmMap, false, w).log)
  {
    hide Plausible, Owed, Readable, StaleWorld, StaleLog, Bulk, AllAnswered;
    var pms, q := Owners(lock.dbroots, pmMap), owed[k];
    var t: nat := 0;
    if q.pm in pms {
      t :| 0 <= t < |pms| && pms[t] == q.pm;
    }
    w := StaleWorld(i, pms, owed, k, t);
    StaleBulk(i, lock, pmMap, owed, k, t);
    StaleLogMisses(i, pms, q, t);
    MissedOne(i, lock, pmMap, StaleLog(i, pms, q, t), pms[t]);
  }

  lemma MissedOne(i: nat, lock: Lock, pmMap: map<nat, nat>, log: seq<Event>, pm: nat)
    requires pm in Owners(lock.dbroots, pmMap) && Heard(0, Request(i, Undo, pm)) !in log
    ensures !AllAnswered(i, lock, pmMap, log)
  {
  }

  /** What happens in that run. */
  lemma StaleBulk(i: nat, lock: Lock, pmMap: map<nat, nat>, owed: seq<Request>, k: nat, t: nat)
    requires lock.state.LOADING? && k < |owed| && BulkPhase(owed[k].phase) && t < |Owners(lock.dbroots, pmMap)|
    requires var pms := Owners(lock.dbroots, pmMap); owed[k].pm in pms ==> owed[k].pm == pms[t]
    ensures var pms := Owners(lock.dbroots, pmMap);
      var w := StaleWorld(i, pms, owed, k, t);
      var log := Bulk(i, lock, pmMap, false, w).log;
      log == StaleLog(i, pms, owed[k], t) && ReleaseCalled in log && Plausible(owed, Discards(w.dropped) + log)
  {
    hide Plausible, Owed, UndoDone, CleanDone, UndoPhase, CleanPhase, Owners, Discards, Heards, Tolds, Asks;
    var pms := Owners(lock.dbroots, pmMap);
    var w := StaleWorld(i, pms, owed, k, t);
    StaleUndo(i, pms, owed, k, t);
    StaleClean(i, pms, owed, k, t);
    StaleDrops(owed, k);
    UndoExit(i, pms, w);
    ReleasedIff(i, lock, pmMap, false, w);
    var undo, clean := UndoPhase(i, pms, w).log, CleanPhase(i, pms, w).log;
    OwedJoins(owed, Discards(w.dropped), undo + clean);
    OwedJoins(Owed(owed, Discards(w.dropped)), undo, clean);
  }

  /** However the others behave, the lock is not released before every owner answered 0. */
  ghost predicate AlwaysAnswered(i: nat, lock: Lock, pmMap: map<nat, nat>, owed: seq<Request>) {
    forall w: World ::
      var log := Bulk(i, lock, pmMap, false, w).log;
      Behaves(i, lock, pmMap, false, owed, w) && ReleaseCalled in log ==> AllAnswered(i, lock, pmMap, log[..|log| - 1])
  }

  /**
    Exactly when a lock in LOADING is safe from answers meant for others: no answer to a message of
    an earlier bulk rollback is outstanding.
   */
  lemma AnsweredIff(i: nat, lock: Lock, pmMap: map<nat, nat>, owed: seq<Request>)
    requires lock.state.LOADING? && Owners(lock.dbroots, pmMap) != [] && forall q :: q in owed ==> q.lock != i
    ensures AlwaysAnswered(i, lock, pmMap, owed) <==> NoneBulk(owed)
  {
    hide Bulk, Behaves, AllAnswered, Owners;
    if NoneBulk(owed) {
      forall w: World | Behaves(i, lock, pmMap, false, owed, w) && ReleaseCalled in Bulk(i, lock, pmMap, false, w).log
        ensures var log := Bulk(i, lock, pmMap, false, w).log; AllAnswered(i, lock, pmMap, log[..|log| - 1])
      {
        ReleaseAnswered(i, lock, pmMap, false, owed, w);
      }
    } else {
      var k :| 0 <= k < |owed| && BulkPhase(owed[k].phase);
      var w := StaleReleases(i, lock, pmMap, owed, k);
      var log := Bulk(i, lock, pmMap, false, w).log;
      PrefixAnswered(i, lock, pmMap, log, |log| - 1);
    }
  }

  lemma PrefixAnswered(i: nat, lock: Lock, pmMap: map<nat, nat>, log: seq<Event>, k: int)
    requires 0 <= k <= |log|
    ensures AllAnswered(i, lock, pmMap, log[..k]) ==> AllAnswered(i, lock, pmMap, log)
  {
    assert forall e :: e in log[..k] ==> e in log;
  }

  // What a bulk rollback leaves outstanding.

  function Bulks(owed: seq<Request>): (n: nat)
    ensures n == 0 <==> NoneBulk(owed)
  {
    if owed == [] then 0
    else
      assert owed == [owed[0]] + owed[1..];
      (if BulkPhase(owed[0].phase) then 1 else 0) + Bulks(owed[1..])
  }

  /** Messages less answers. */
  function Net(log: seq<Event>): (n: int) {
    if log == [] then 0 else (if log[0].Told? then 1 else if log[0].Heard? then -1 else 0) + Net(log[1..])
  }

  lemma {:induction false} NetJoins(a: seq<Event>, b: seq<Event>)
    ensures Net(a + b) == Net(a) + Net(b)
  {
    if a == [] {
      assert a + b == b;
    } else {
      assert (a + b)[1..] == a[1..] + b;
      NetJoins(a[1..], b);
    }
  }

  lemma {:induction false} BulksAppend(owed: seq<Request>, q: Request)
    ensures Bulks(owed + [q]) == Bulks(owed) + if BulkPhase(q.phase) then 1 else 0
  {
    if owed == [] {
      assert owed + [q] == [q];
    } else {
      assert (owed + [q])[1..] == owed[1..] + [q];
      BulksAppend(owed[1..], q);
    }
  }

  lemma {:induction false} BulksSettle(owed: seq<Request>, pm: nat)
    requires Oldest(owed, pm).Some?
    ensures Bulks(Settle(owed, pm)) == Bulks(owed) - if BulkPhase(Oldest(owed, pm).value.phase) then 1 else 0
  {
    if owed[0].pm != pm {
      BulksSettle(owed[1..], pm);
      assert ([owed[0]] + Settle(owed[1..], pm))[1..] == Settle(owed[1..], pm);
    }
  }

  predicate AllBulk(log: seq<Event>) {
    forall e :: e in log ==>
      (e.Told? ==> BulkPhase(e.to.phase)) && (e.Heard? ==> BulkPhase(e.from.phase)) && !e.Discarded?
  }

  lemma {:induction false} BulksOwed(owed: seq<Request>, log: seq<Event>)
    requires Plausible(owed, log) && AllBulk(log)
    ensures Bulks(Owed(owed, log)) == Bulks(owed) + Net(log)
    decreases |log|
  {
    hide Bulks, Settle, Oldest;
    if log != [] {
      var e := log[0];
      assert log == [e] + log[1..] && e in log;
      if e.Told? {
        BulksAppend(owed, e.to);
      } else if e.Heard? {
        BulksSettle(owed, e.from.pm);
      }
      BulksOwed(OwedAfter(owed, e), log[1..]);
    }
  }

  /** How many answers are read when `n` replies are waited for. */
  function Answers(n: nat, rs: seq<Reply<Request>>): (k: nat) {
    var k := Leading(n, rs);
    k + if k < n && k < |rs| && rs[k].Ack? then 1 else 0
  }

  lemma {:induction false} NetHear(n: nat, rs: seq<Reply<Request>>)
    ensures Net(Hear(n, rs).log) + Answers(n, rs) == 0 && Net(HearCleanUp(n, rs, 0).log) + Answers(n, rs) == 0
    decreases |rs|
  {
    if n != 0 && rs != [] && !rs[0].Thrown? {
      var e := EventOf(rs[0]);
      if Fine(rs[0]) {
        NetHear(n - 1, rs[1..]);
        assert ([e] + Hear(n - 1, rs[1..]).log)[1..] == Hear(n - 1, rs[1..]).log;
        assert ([e] + HearCleanUp(n - 1, rs[1..], 0).log)[1..] == HearCleanUp(n - 1, rs[1..], 0).log;
      } else {
        assert HearCleanUp(n, rs, 0).log == [e];
      }
    }
  }

  lemma {:induction false} NetTolds(qs: seq<Request>)
    ensures Net(Tolds(qs)) == |qs|
  {
    if qs != [] {
      assert Tolds(qs)[1..] == Tolds(qs[1..]);
      NetTolds(qs[1..]);
    }
  }

  /** Nobody is told anything, or all are told and all answers are read. */
  predicate Square(n: nat, writes: nat, rs: seq<Reply<Request>>) {
    if writes < n then writes == 0 else Answers(n, rs) == n
  }

  lemma NetPhases(lock: nat, pms: seq<nat>, w: World)
    ensures Net(UndoPhase(lock, pms, w).log) >= 0 && Net(CleanPhase(lock, pms, w).log) >= 0
    ensures Net(UndoPhase(lock, pms, w).log) == 0 <==> Square(|pms|, w.writes, w.replies)
    ensures Net(CleanPhase(lock, pms, w).log) == 0 <==> Square(|pms|, w.cleanWrites, w.cleanReplies)
  {
    hide Hear, HearCleanUp, Net, Leading;
    var n, undo, clean := |pms|, Asks(lock, Undo, pms), Asks(lock, CleanUp, pms);
    var h, c := Hear(n, w.replies).log, HearCleanUp(n, w.cleanReplies, 0).log;
    NetHear(n, w.replies);
    NetHear(n, w.cleanReplies);
    NetTolds(undo);
    NetTolds(clean);
    NetTolds(if w.writes < n then undo[..w.writes] else undo);
    NetTolds(if w.cleanWrites < n then clean[..w.cleanWrites] else clean);
    NetOfOthers(h);
    NetOfOthers(c);
    NetJoins(Tolds(undo), h);
    NetJoins(Tolds(undo), h + [StateChanged]);
    NetJoins(Tolds(clean), c);
    NetJoins(Tolds(clean), c + [ReleaseCalled]);
    assert h + [] == h;
  }

  lemma NetOfOthers(log: seq<Event>)
    ensures Net(log + [StateChanged]) == Net(log) == Net(log + [ReleaseCalled])
  {
    NetJoins(log, [StateChanged]);
    NetJoins(log, [ReleaseCalled]);
  }

  /** The lock leaves no answer of its own outstanding. */
  predicate Settled(lock: Lock, pmMap: map<nat, nat>, open: bool, w: World) {
    var n := |Owners(lock.dbroots, pmMap)|;
    w.owner.Yes? && !open ==>
      && (lock.state.LOADING? ==> Square(n, w.writes, w.replies))
      && (Undoes(lock.state, n, w) ==> Square(n, w.cleanWrites, w.cleanReplies))
  }

  lemma NetBulk(i: nat, lock: Lock, pmMap: map<nat, nat>, open: bool, w: World)
    ensures Net(Bulk(i, lock, pmMap, open, w).log) == 0 <==> Settled(lock, pmMap, open, w)
  {
    hide UndoPhase, CleanPhase, UndoDone, Square;
    var pms := Owners(lock.dbroots, pmMap);
    NetPhases(i, pms, w);
    UndoExit(i, pms, w);
    NetJoins(Undone(i, lock.state, pms, w).log, CleanPhase(i, pms, w).log);
  }

  /** Nothing is told but messages for lock `i`, all or none of them of a bulk rollback, which throws nothing away. */
  predicate AllMessages(log: seq<Event>, i: nat, bulk: bool) {
    forall e :: e in log ==>
      (e.Told? ==> e.to.lock == i && (BulkPhase(e.to.phase) <==> bulk)) && (bulk ==> !e.Discarded?)
  }

  lemma MessagesAllBulk(log: seq<Event>, i: nat)
    requires AllMessages(log, i, true) && Readable(log)
    ensures AllBulk(log)
  {
  }

  lemma BothMessages(a: seq<Event>, b: seq<Event>, i: nat, bulk: bool)
    ensures AllMessages(a, i, bulk) && AllMessages(b, i, bulk) ==> AllMessages(a + b, i, bulk)
    ensures AllMessages([], i, bulk)
  {
  }

  lemma MessagesJoin(heard: seq<Event>, last: seq<Event>, i: nat, phase: Phase, pms: seq<nat>, writes: nat)
    requires OnlyReads(heard) && forall e :: e in last ==> !e.Told? && !e.Discarded?
    ensures var qs, bulk := Asks(i, phase, pms), BulkPhase(phase);
      && AllMessages(Tell(qs, writes).log, i, bulk) && AllMessages(Tolds(qs) + heard, i, bulk)
      && AllMessages(Tolds(qs) + heard + last, i, bulk) && AllMessages(Tolds(qs) + (heard + last), i, bulk)
  {
  }

  lemma BulkMessages(i: nat, lock: Lock, pmMap: map<nat, nat>, open: bool, w: World)
    ensures AllMessages(Bulk(i, lock, pmMap, open, w).log, i, true)
  {
    hide Hear, HearCleanUp, OnlyReads, AllMessages, Asks, Tolds;
    var pms := Owners(lock.dbroots, pmMap);
    HearingReads(|pms|, w.replies, 0);
    HearingReads(|pms|, w.cleanReplies, 0);
    MessagesJoin(Hear(|pms|, w.replies).log, [StateChanged], i, Undo, pms, w.writes);
    MessagesJoin(HearCleanUp(|pms|, w.cleanReplies, 0).log, [ReleaseCalled], i, CleanUp, pms, w.cleanWrites);
    assert Hear(|pms|, w.replies).log + [] == Hear(|pms|, w.replies).log;
    BothMessages(Undone(i, lock.state, pms, w).log, CleanPhase(i, pms, w).log, i, true);
  }

  /** Exactly when a bulk rollback that met no outstanding bulk answer leaves none behind. */
  lemma LeavesNothingIff(i: nat, lock: Lock, pmMap: map<nat, nat>, open: bool, owed: seq<Request>, w: World)
    requires Behaves(i, lock, pmMap, open, owed, w) && NoneBulk(owed)
    ensures NoneBulk(Owed(owed, Discards(w.dropped) + Bulk(i, lock, pmMap, open, w).log)) <==>
            Settled(lock, pmMap, open, w)
  {
    hide Bulk, Plausible, Owed, Bulks, Net, Settled;
    var log := Bulk(i, lock, pmMap, open, w).log;
    var owed' := Owed(owed, Discards(w.dropped));
    OwedJoins(owed, Discards(w.dropped), log);
    DiscardsKeep(owed, w.dropped);
    BulkMessages(i, lock, pmMap, open, w);
    MessagesAllBulk(log, i);
    BulksOwed(owed', log);
    NetBulk(i, lock, pmMap, open, w);
    BulksZero(owed');
    BulksZero(Owed(owed', log));
  }

  lemma BulksZero(owed: seq<Request>)
    ensures Bulks(owed) == 0 <==> NoneBulk(owed)
  {
  }
}
