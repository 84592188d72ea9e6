/**
  The standby's watch over the active parent module: one round of pings after another, until a
  manual signal or a detected outage starts the change-over.
 */
module Failover {
  import Bytes

  /** `others` is the number of further devices to ping; the flags are fixed configuration. */
  datatype Config = Config(heartbeat: int, others: nat, amazon: bool, amazonPmFailover: bool,
                           internalStorage: bool, gluster: bool, startRetries: nat)

  /** Unreadable: reading the setting, or the notice sent before it is obeyed, throws. */
  datatype Setting = Enabled | Disabled | Unreadable

  /** What the cloud says of the parent's instance; `starts` are the results of starting a stopped one. */
  datatype Instance = Rebooting | Stopped(starts: seq<bool>) | Terminated

  /** What one round of the loop sees. `pings` are the answers of the other devices, in the order asked. */
  datatype Round = Round(signal: bool, parentAck: bool, socketOk: bool, flagsOk: bool, interfaceUp: bool,
                         pings: seq<bool>, disabled: Setting, instance: Instance)

  datatype State = State(pingFailure: nat, recoveryTest: bool, disableCount: nat, noAckCount: nat,
                         parentRestart: bool)

  datatype Loop = Watching(state: State) | Signalled | FailedOver

  const INITIAL := State(0, false, 0, 0, false)

  function PingAt(r: Round, i: nat): (ack: bool) {
    i < |r.pings| && r.pings[i]
  }

  /** All pings of one test: each device once per count 0 to `heartbeat`. */
  function Probes(c: Config): (n: nat) {
    if c.heartbeat < 0 then 0 else (c.heartbeat + 1) * c.others
  }

  predicate SomeAck(c: Config, r: Round) {
    exists i :: 0 <= i < Probes(c) && PingAt(r, i)
  }

  predicate FirstFails(c: Config, r: Round) {
    Probes(c) > 0 && !PingAt(r, 0)
  }

  /** The outage test of a round whose parent has been silent long enough: the new state and the verdict. */
  function Test(c: Config, s: State, r: Round): (res: (State, bool)) {
    if !r.socketOk || !r.flagsOk then (s, false)
    else if !r.interfaceUp then (s.(noAckCount := s.noAckCount + 1), false)
    else if c.others == 0 then (s, true)
    else if !SomeAck(c, r) then (s, false)
    else if !FirstFails(c, r) then (s, true)
    else (s.(recoveryTest := true), s.recoveryTest)
  }

  /** The instance could not be brought back. */
  predicate Gone(c: Config, i: Instance) {
    match i
    case Rebooting => false
    case Terminated => true
    case Stopped(starts) => forall k :: 0 <= k < c.startRetries && k < |starts| ==> !starts[k]
  }

  predicate WaitsForInstance(c: Config, r: Round) {
    c.amazon && !c.amazonPmFailover && !Gone(c, r.instance)
  }

  /** What the settings make of a detected outage. */
  function Decide(c: Config, s: State, r: Round): (l: Loop) {
    var s1 := if r.disabled.Disabled? then s.(disableCount := s.disableCount + 1) else s;
    var s2 := if WaitsForInstance(c, r) then s1.(parentRestart := true) else s1;
    if r.disabled.Disabled? || WaitsForInstance(c, r) || (c.internalStorage && !c.gluster) then Watching(s2)
    else FailedOver
  }

  function Turn(c: Config, s: State, r: Round): (l: Loop) {
    if r.signal then Signalled
    else if r.parentAck then Watching(s.(pingFailure := 0, noAckCount := 0, parentRestart := false))
    else
      var s1 := s.(pingFailure := s.pingFailure + 1);
      if s1.pingFailure < c.heartbeat then Watching(s1)
      else
        var (s2, outage) := Test(c, s1, r);
        if outage then Decide(c, s2, r) else Watching(s2)
  }

  /** The loop over a history of rounds. */
  function Watch(c: Config, h: seq<Round>): (l: Loop)
    decreases |h|
  {
    if h == [] then Watching(INITIAL)
    else
      var l := Watch(c, h[..|h| - 1]);
      if l.Watching? then Turn(c, l.state, h[|h| - 1]) else l
  }

  // The same decision, said of the history alone.

  /** How many rounds in a row, up to the last, the parent has been silent. */
  function Silence(h: seq<Round>): (n: nat)
    ensures n <= |h|
    decreases |h|
  {
    if h == [] || h[|h| - 1].parentAck then 0 else Silence(h[..|h| - 1]) + 1
  }

  /** A device answers one of the pings of the round: each is asked at counts 0 to `heartbeat`. */
  predicate DeviceAnswers(c: Config, r: Round) {
    exists i :: 0 <= i < |r.pings| && i < (c.heartbeat + 1) * c.others && r.pings[i]
  }

  /** The first ping of the round is sent and not answered. */
  predicate FirstSilent(c: Config, r: Round) {
    c.heartbeat >= 0 && c.others > 0 && (r.pings == [] || !r.pings[0])
  }

  /** The last round tests, after enough silence, with a usable socket. */
  predicate Tested(c: Config, h: seq<Round>)
    requires h != []
  {
    var r := h[|h| - 1];
    !r.parentAck && c.heartbeat <= Silence(h) && r.socketOk && r.flagsOk
  }

  /** Some devices answered, but not the first one asked. */
  predicate Mixed(c: Config, h: seq<Round>)
    requires h != []
  {
    var r := h[|h| - 1];
    Tested(c, h) && r.interfaceUp && DeviceAnswers(c, r) && FirstSilent(c, r)
  }

  predicate MixedBefore(c: Config, h: seq<Round>) {
    exists k :: 0 < k < |h| && Mixed(c, h[..k])
  }

  /** The parent alone is out, or a partial outage was seen a second time. */
  predicate Outage(c: Config, h: seq<Round>)
    requires h != []
  {
    var r := h[|h| - 1];
    && Tested(c, h) && r.interfaceUp
    && (c.others == 0 || (DeviceAnswers(c, r) && (FirstSilent(c, r) ==> MixedBefore(c, h))))
  }

  /** The instance is terminated, or stopped and every one of the allowed starts fails. */
  predicate LostForGood(c: Config, i: Instance) {
    i.Terminated? || (i.Stopped? && forall k :: 0 <= k < |i.starts| && k < c.startRetries ==> !i.starts[k])
  }

  /** The switch is not off; storage moves; and in the cloud without PM failover there is no instance to wait for. */
  predicate Allowed(c: Config, r: Round) {
    && !r.disabled.Disabled?
    && (c.internalStorage ==> c.gluster)
    && (c.amazon && !c.amazonPmFailover ==> LostForGood(c, r.instance))
  }

  /** How many tests since the parent last answered found the interface down. */
  function DownTests(c: Config, h: seq<Round>): (n: nat)
    decreases |h|
  {
    if h == [] || h[|h| - 1].parentAck then 0
    else DownTests(c, h[..|h| - 1]) + if Tested(c, h) && !h[|h| - 1].interfaceUp then 1 else 0
  }

  /** How many outages were met with the switch off. */
  function DisabledOutages(c: Config, h: seq<Round>): (n: nat)
    decreases |h|
  {
    if h == [] then 0
    else DisabledOutages(c, h[..|h| - 1]) + if Outage(c, h) && h[|h| - 1].disabled.Disabled? then 1 else 0
  }

  /** Since the parent last answered, an outage ended in waiting for its instance. */
  predicate RestartAwaited(c: Config, h: seq<Round>)
    decreases |h|
  {
    && h != [] && !h[|h| - 1].parentAck
    && (RestartAwaited(c, h[..|h| - 1])
        || (Outage(c, h) && c.amazon && !c.amazonPmFailover && !LostForGood(c, h[|h| - 1].instance)))
  }

  lemma {:induction false} SilenceMeans(h: seq<Round>, k: int)
    requires |h| - Silence(h) <= k < |h|
    ensures !h[k].parentAck
    decreases |h|
  {
    if k < |h| - 1 {
      SilenceMeans(h[..|h| - 1], k);
    }
  }

  lemma MixedGrows(c: Config, h: seq<Round>)
    requires h != []
    ensures (exists k :: 0 < k <= |h| && Mixed(c, h[..k])) <==> MixedBefore(c, h) || Mixed(c, h)
  {
    assert h[..|h|] == h;
  }

  /** The state kept while watching is what the history says. */
  ghost predicate Remembers(c: Config, s: State, h: seq<Round>) {
    && s.pingFailure == Silence(h)
    && (s.recoveryTest <==> exists k :: 0 < k <= |h| && Mixed(c, h[..k]))
    && s.noAckCount == DownTests(c, h) && s.disableCount == DisabledOutages(c, h)
    && (s.parentRestart <==> RestartAwaited(c, h))
  }

  lemma {:induction false} WatchRemembers(c: Config, h: seq<Round>)
    requires Watch(c, h).Watching?
    ensures Remembers(c, Watch(c, h).state, h)
    decreases |h|
  {
    if h != [] {
      hide Turn, Mixed, Outage, Remembers;
      var front := h[..|h| - 1];
      WatchRemembers(c, front);
      TurnRemembers(c, Watch(c, front).state, h);
    } else {
      assert INITIAL == Watch(c, h).state;
    }
  }

  lemma PrefixMixed(c: Config, h: seq<Round>)
    requires h != []
    ensures var front := h[..|h| - 1];
      MixedBefore(c, h) <==> exists k :: 0 < k <= |front| && Mixed(c, front[..k])
  {
    var front := h[..|h| - 1];
    forall k | 0 < k <= |front| ensures front[..k] == h[..k] {}
  }

  /** The pings in the words of the history. */
  lemma SamePings(c: Config, r: Round)
    ensures SomeAck(c, r) <==> DeviceAnswers(c, r)
    ensures c.others == 0 ==> !DeviceAnswers(c, r)
  {
    hide Probes;
    ProbesAre(c);
    var n := (c.heartbeat + 1) * c.others;
    if DeviceAnswers(c, r) {
      var i :| 0 <= i < |r.pings| && i < n && r.pings[i];
      assert PingAt(r, i);
    }
    if SomeAck(c, r) {
      var i :| 0 <= i < Probes(c) && PingAt(r, i);
      assert 0 <= i < |r.pings| && i < n && r.pings[i];
    }
  }

  lemma ProbesAre(c: Config)
    ensures var n := (c.heartbeat + 1) * c.others; Probes(c) == if n < 0 then 0 else n
    ensures Probes(c) > 0 <==> c.heartbeat >= 0 && c.others > 0
    ensures c.others == 0 ==> (c.heartbeat + 1) * c.others == 0
  {
    if c.heartbeat >= 0 {
      Bytes.MulMono(0, c.heartbeat + 1, c.others);
    } else {
      Negative(c.heartbeat + 1, c.others);
    }
  }

  lemma Negative(a: int, b: nat)
    requires a <= 0
    ensures a * b <= 0
  {
  }

  lemma SameFirst(c: Config, r: Round)
    ensures FirstFails(c, r) <==> FirstSilent(c, r)
  {
    hide Probes;
    ProbesAre(c);
  }

  lemma SameInstance(c: Config, i: Instance)
    ensures Gone(c, i) <==> LostForGood(c, i)
  {
  }

  /** The test of the other devices, in the words of the history. */
  lemma TestMeans(c: Config, s: State, h: seq<Round>)
    requires h != [] && Tested(c, h) && (s.recoveryTest <==> MixedBefore(c, h))
    ensures var (s', outage) := Test(c, s, h[|h| - 1]);
      && (outage <==> Outage(c, h))
      && s' == s.(recoveryTest := s.recoveryTest || Mixed(c, h),
                  noAckCount := s.noAckCount + if h[|h| - 1].interfaceUp then 0 else 1)
  {
    hide SomeAck, FirstFails, DeviceAnswers, FirstSilent, MixedBefore;
    SamePings(c, h[|h| - 1]);
    SameFirst(c, h[|h| - 1]);
  }

  lemma DecideMeans(c: Config, s: State, r: Round)
    ensures var l, waits := Decide(c, s, r), c.amazon && !c.amazonPmFailover && !LostForGood(c, r.instance);
      && !l.Signalled? && (l.FailedOver? <==> Allowed(c, r))
      && (l.Watching? ==> l.state == s.(disableCount := s.disableCount + if r.disabled.Disabled? then 1 else 0,
                                        parentRestart := s.parentRestart || waits))
  {
    hide Gone, LostForGood;
    SameInstance(c, r.instance);
  }

  /** One round: the counts of the history are those of the state after it. */
  lemma TurnRemembers(c: Config, s: State, h: seq<Round>)
    requires h != [] && Remembers(c, s, h[..|h| - 1])
    ensures var l := Turn(c, s, h[|h| - 1]);
      && (l.Watching? ==> Remembers(c, l.state, h))
      && (l.FailedOver? <==> !h[|h| - 1].signal && Outage(c, h) && Allowed(c, h[|h| - 1]))
      && (l.Signalled? <==> h[|h| - 1].signal)
  {
    hide Test, Decide, DeviceAnswers, FirstSilent, LostForGood, MixedBefore;
    MixedGrows(c, h);
    PrefixMixed(c, h);
    var r, s1 := h[|h| - 1], s.(pingFailure := s.pingFailure + 1);
    if !r.signal && !r.parentAck && s1.pingFailure >= c.heartbeat && r.socketOk && r.flagsOk {
      TestMeans(c, s1, h);
      DecideMeans(c, Test(c, s1, r).0, r);
    } else {
      Untested(c, s1, r);
    }
  }

  lemma Untested(c: Config, s: State, r: Round)
    ensures !r.socketOk || !r.flagsOk ==> Test(c, s, r) == (s, false)
  {
  }

  /**
    While the watch goes on, a round starts the change-over exactly when the parent has been
    silent for the heartbeat count, the local interface works, the others show an outage, and no
    setting forbids it.
   */
  lemma FailoverIff(c: Config, h: seq<Round>)
    requires h != [] && Watch(c, h[..|h| - 1]).Watching?
    ensures Watch(c, h).FailedOver? <==> !h[|h| - 1].signal && Outage(c, h) && Allowed(c, h[|h| - 1])
    ensures Watch(c, h).Signalled? <==> h[|h| - 1].signal
  {
    hide Turn, Outage, Allowed, Remembers;
    WatchRemembers(c, h[..|h| - 1]);
    TurnRemembers(c, Watch(c, h[..|h| - 1]).state, h);
  }

  /** The history with another answer about the instance in its last round. */
  function WithInstance(h: seq<Round>, i: Instance): (h': seq<Round>)
    requires h != []
  {
    h[..|h| - 1] + [h[|h| - 1].(instance := i)]
  }

  /**
    With PM failover on, or outside the cloud, what is said of the instance decides nothing. In the
    cloud without it, a change-over means that the instance is lost for good.
   */
  lemma InstanceDecides(c: Config, h: seq<Round>, i: Instance)
    requires h != [] && Watch(c, h[..|h| - 1]).Watching?
    ensures !c.amazon || c.amazonPmFailover ==> Watch(c, WithInstance(h, i)) == Watch(c, h)
    ensures c.amazon && !c.amazonPmFailover && Watch(c, h).FailedOver? ==>
      match h[|h| - 1].instance
      case Rebooting => false
      case Terminated => true
      case Stopped(starts) => forall k :: 0 <= k < |starts| && k < c.startRetries ==> !starts[k]
  {
    hide Turn, Outage;
    FailoverIff(c, h);
    var front, r := h[..|h| - 1], h[|h| - 1];
    assert WithInstance(h, i)[..|h| - 1] == front && WithInstance(h, i)[|h| - 1] == r.(instance := i);
    if !c.amazon || c.amazonPmFailover {
      TurnBlind(c, Watch(c, front).state, r, i);
    }
  }

  lemma TurnBlind(c: Config, s: State, r: Round, i: Instance)
    requires !c.amazon || c.amazonPmFailover
    ensures Turn(c, s, r.(instance := i)) == Turn(c, s, r)
  {
    hide SomeAck, FirstFails;
    var r' := r.(instance := i);
    SamePings(c, r);
    SamePings(c, r');
    SameFirst(c, r);
    SameFirst(c, r');
  }

  /** A change-over follows a full heartbeat count of rounds, the last one included, in which the parent was silent. */
  lemma FailoverAfterSilence(c: Config, h: seq<Round>, k: int)
    requires h != [] && Watch(c, h[..|h| - 1]).Watching? && Watch(c, h).FailedOver?
    requires |h| - c.heartbeat <= k < |h| || k == |h| - 1
    ensures 0 <= k && !h[k].parentAck
  {
    FailoverIff(c, h);
    SilenceMeans(h, k);
  }

  /** Every change-over has such a round; every run ends only in one, or in a signal. */
  lemma {:induction false} FailoverHasCause(c: Config, h: seq<Round>)
    requires Watch(c, h).FailedOver?
    ensures exists k :: 0 < k <= |h| && Outage(c, h[..k]) && Allowed(c, h[k - 1]) && !h[k - 1].signal
    decreases |h|
  {
    var front := h[..|h| - 1];
    if Watch(c, front).Watching? {
      FailoverIff(c, h);
      assert h[..|h|] == h;
    } else {
      FailoverHasCause(c, front);
      var k :| 0 < k <= |front| && Outage(c, front[..k]) && Allowed(c, front[k - 1]) && !front[k - 1].signal;
      assert front[..k] == h[..k];
    }
  }

  /** While the setting reads disabled, no number of outages starts a change-over. */
  lemma {:induction false} DisabledNeverFailsOver(c: Config, h: seq<Round>)
    requires forall r :: r in h ==> r.disabled.Disabled?
    ensures !Watch(c, h).FailedOver?
    decreases |h|
  {
    if h != [] {
      DisabledNeverFailsOver(c, h[..|h| - 1]);
      assert h[|h| - 1] in h;
    }
  }

  // The loop as the standby runs it.

  /** Pings the other devices, over and over, until one answers. */
  method Probe(c: Config, r: Round) returns (ack: bool, noack: bool)
    ensures ack <==> SomeAck(c, r)
    ensures noack <==> FirstFails(c, r)
  {
    ack, noack := false, false;
    var count, asked := 0, 0;
    while count <= c.heartbeat
      invariant 0 <= count && (count <= c.heartbeat + 1 || count == 0)
      invariant asked == count * c.others && asked <= Probes(c)
      invariant !ack && (noack <==> asked > 0)
      invariant forall i :: 0 <= i < asked ==> !PingAt(r, i)
    {
      Bytes.MulNext(count, c.others);
      Bytes.MulMono(count, c.heartbeat + 1, c.others);
      for j := 0 to c.others
        invariant asked == count * c.others + j
        invariant !ack && (noack <==> asked > 0)
        invariant forall i :: 0 <= i < asked ==> !PingAt(r, i)
      {
        if PingAt(r, asked) {
          ack := true;
          return;
        }
        noack := true;
        asked := asked + 1;
      }
      count := count + 1;
    }
    assert asked == Probes(c);
  }

  class Monitor {
    var pingFailure: nat
    var failover: bool
    var recoveryTest: bool
    var disableCount: nat
    var noAckCount: nat
    var parentRestart: bool

    ghost function Now(): (s: State)
      reads this
    {
      State(pingFailure, recoveryTest, disableCount, noAckCount, parentRestart)
    }

    constructor ()
      ensures Now() == INITIAL && !failover
    {
      pingFailure, failover, recoveryTest, disableCount, noAckCount, parentRestart := 0, false, false, 0, 0, false;
    }

    method TestOthers(c: Config, r: Round)
      requires !failover
      modifies this
      ensures (Now(), failover) == Test(c, old(Now()), r)
    {
      var ack, noack := false, false;
      if !r.socketOk {
        return;
      }
      if !r.flagsOk {
        return;
      }
      if r.interfaceUp {
        if c.others != 0 {
          ack, noack := Probe(c, r);
        } else {
          failover := true;
        }
      } else {
        noack := true;
        noAckCount := noAckCount + 1;
      }
      if !ack && noack {
        // The standby goes cold.
      } else if ack && !noack {
        failover := true;
      } else if ack && noack && !recoveryTest {
        recoveryTest := true;
      } else if ack && noack && recoveryTest {
        failover := true;
      }
    }

    method StartInstance(c: Config, starts: seq<bool>) returns (started: bool)
      ensures started <==> !Gone(c, Stopped(starts))
    {
      var retry := 0;
      while retry < c.startRetries
        invariant 0 <= retry <= c.startRetries
        invariant forall k :: 0 <= k < retry && k < |starts| ==> !starts[k]
      {
        if retry < |starts| && starts[retry] {
          return true;
        }
        retry := retry + 1;
      }
      started := false;
    }

    method ObeySettings(c: Config, r: Round)
      requires failover
      modifies this`failover, this`disableCount, this`parentRestart
      ensures var l := Decide(c, old(Now()), r);
        (failover <==> l.FailedOver?) && (l.Watching? ==> Now() == l.state)
    {
      if r.disabled.Disabled? {
        failover := false;
        disableCount := disableCount + 1;
      }
      if c.amazon && !c.amazonPmFailover {
        var terminated := r.instance.Terminated?;
        if r.instance.Stopped? {
          var started := StartInstance(c, r.instance.starts);
          terminated := !started;
        }
        if !terminated {
          failover := false;
          parentRestart := true;
        }
      }
      if c.internalStorage && failover && !c.gluster {
        failover := false;
      }
    }

    /** The monitor loop, over the rounds that come. */
    method WatchParent(c: Config, h: seq<Round>) returns (signalled: bool)
      requires Now() == INITIAL && !failover
      modifies this
      ensures var l := Watch(c, h);
        (signalled <==> l.Signalled?) && (failover <==> l.FailedOver?) && (l.Watching? ==> Now() == l.state)
    {
      hide Test;
      for i := 0 to |h|
        invariant !failover && Watch(c, h[..i]) == Watching(Now())
      {
        WatchStep(c, h, i);
        if h[i].signal {
          WatchStays(c, h, i + 1);
          return true;
        }
        if h[i].parentAck {
          pingFailure, noAckCount, parentRestart := 0, 0, false;
        } else {
          pingFailure := pingFailure + 1;
          if pingFailure >= c.heartbeat {
            TestOthers(c, h[i]);
          }
        }
        if failover {
          ObeySettings(c, h[i]);
        }
        if failover {
          WatchStays(c, h, i + 1);
          return false;
        }
      }
      assert h[..|h|] == h;
      signalled := false;
    }
  }

  lemma WatchStep(c: Config, h: seq<Round>, i: nat)
    requires i < |h| && Watch(c, h[..i]).Watching?
    ensures Watch(c, h[..i + 1]) == Turn(c, Watch(c, h[..i]).state, h[i])
  {
    assert h[..i + 1][..i] == h[..i];
  }

  lemma {:induction false} WatchStays(c: Config, h: seq<Round>, i: nat)
    requires i <= |h|
    ensures !Watch(c, h[..i]).Watching? ==> Watch(c, h) == Watch(c, h[..i])
    decreases |h|
  {
    if i < |h| {
      var front := h[..|h| - 1];
      WatchStays(c, front, i);
      assert front[..i] == h[..i];
    } else {
      assert h[..i] == h;
    }
  }
}
