/**
 * The per-message-class topic managers, seen from the controller that owns
 * them. A manager is abstracted to what the controller can change or observe:
 * which message class it serves, the fork it was built for, whether it stays
 * enabled during optimistic sync, whether it is subscribed, and the log of
 * calls the controller has made on it.
 */
module GossipManagers {
  import opened GossipTypes

  /** A message payload, kept opaque as its serialised bytes. */
  type Payload = seq<bv8>

  /** A call the controller makes on a manager other than subscribe/unsubscribe. */
  datatype ManagerCall =
    | OnNewAttestation(attestation: Payload)
    | OnNewAggregate(attestation: Payload)
    | PublishBlock(block: Payload)
    | PublishVoluntaryExit(exit: Payload)
    | PublishProposerSlashing(slashing: Payload)
    | PublishAttesterSlashing(slashing: Payload)
    | SubscribeToSubnetId(subnetId: Int32)
    | UnsubscribeFromSubnetId(subnetId: Int32)

  datatype GossipManager = GossipManager(
    messageClass: MessageClass,
    forkInfo: ForkInfo,
    forkDigest: Bytes4,
    enabledDuringOptimisticSync: bool,
    subscribed: bool,
    calls: seq<ManagerCall>)

  /** A freshly constructed manager: not yet subscribed, nothing received. */
  function NewGossipManager(
    messageClass: MessageClass, forkInfo: ForkInfo, forkDigest: Bytes4,
    isEnabledDuringOptimisticSync: MessageClass -> bool): GossipManager
  {
    GossipManager(messageClass, forkInfo, forkDigest,
                  isEnabledDuringOptimisticSync(messageClass), false, [])
  }

  /** `a` and `b` are the same manager: same class, fork, digest and eligibility. */
  predicate SameManager(a: GossipManager, b: GossipManager) {
    && a.messageClass == b.messageClass
    && a.forkInfo == b.forkInfo
    && a.forkDigest == b.forkDigest
    && a.enabledDuringOptimisticSync == b.enabledDuringOptimisticSync
  }

  /**
   * The managers of one fork once constructed: one per message class in
   * construction order, all built for the same fork info and digest, each
   * with the eligibility the policy gives its class.
   */
  predicate WellFormed(ms: seq<GossipManager>, fork: Fork,
                       isEnabledDuringOptimisticSync: MessageClass -> bool)
  {
    && |ms| == |ConstructionOrder|
    && ms[0].forkInfo.fork == fork
    && (forall i :: 0 <= i < |ms| ==> ms[i].messageClass == ConstructionOrder[i])
    && (forall i :: 0 <= i < |ms| ==>
          ms[i].enabledDuringOptimisticSync == isEnabledDuringOptimisticSync(ms[i].messageClass))
    && (forall i :: 0 <= i < |ms| ==>
          ms[i].forkInfo == ms[0].forkInfo && ms[i].forkDigest == ms[0].forkDigest)
  }

  /** The six managers of a phase0 fork, in the order the controller appends them. */
  function NewGossipManagers(forkInfo: ForkInfo, forkDigest: Bytes4,
                             isEnabledDuringOptimisticSync: MessageClass -> bool): (ms: seq<GossipManager>)
    ensures WellFormed(ms, forkInfo.fork, isEnabledDuringOptimisticSync)
    ensures forall i :: 0 <= i < |ms| ==>
      && !ms[i].subscribed && ms[i].calls == []
      && ms[i].forkInfo == forkInfo && ms[i].forkDigest == forkDigest
  {
    [ NewGossipManager(Attestation, forkInfo, forkDigest, isEnabledDuringOptimisticSync),
      NewGossipManager(Block, forkInfo, forkDigest, isEnabledDuringOptimisticSync),
      NewGossipManager(Aggregate, forkInfo, forkDigest, isEnabledDuringOptimisticSync),
      NewGossipManager(VoluntaryExit, forkInfo, forkDigest, isEnabledDuringOptimisticSync),
      NewGossipManager(ProposerSlashing, forkInfo, forkDigest, isEnabledDuringOptimisticSync),
      NewGossipManager(AttesterSlashing, forkInfo, forkDigest, isEnabledDuringOptimisticSync) ]
  }

  /** Every well-formed manager list holds exactly one manager per message class. */
  lemma WellFormedOnePerClass(ms: seq<GossipManager>, fork: Fork,
                              isEnabledDuringOptimisticSync: MessageClass -> bool)
    requires WellFormed(ms, fork, isEnabledDuringOptimisticSync)
    ensures forall c :: ms[Position(c)].messageClass == c
    ensures forall i, j :: 0 <= i < |ms| && 0 <= j < |ms| && i != j ==>
      ms[i].messageClass != ms[j].messageClass
  {
    forall i, j | 0 <= i < |ms| && 0 <= j < |ms| && i != j
      ensures ms[i].messageClass != ms[j].messageClass
    {
      assert ms[i].messageClass == ConstructionOrder[i];
      assert ms[j].messageClass == ConstructionOrder[j];
      assert i == Position(ConstructionOrder[i]);
    }
  }

  /** Well-formedness depends only on the identity of each manager. */
  lemma SameManagersPreserveWellFormed(ms: seq<GossipManager>, rs: seq<GossipManager>, fork: Fork,
                                       isEnabledDuringOptimisticSync: MessageClass -> bool)
    requires WellFormed(ms, fork, isEnabledDuringOptimisticSync)
    requires |rs| == |ms| && forall i :: 0 <= i < |ms| ==> SameManager(rs[i], ms[i])
    ensures WellFormed(rs, fork, isEnabledDuringOptimisticSync)
  {
  }

  // ---------------------------------------------------------------------------
  // Lifecycle: the filtered forEach passes of startGossip, stopGossip and
  // stopGossipForOptimisticSync over the manager list.
  // ---------------------------------------------------------------------------

  datatype LifecycleCall =
    | Start(isOptimisticHead: bool)
    | Stop
    | StopForOptimisticSync

  /** Whether `call` acts on manager `m` (the filter of its pass). */
  predicate Selects(call: LifecycleCall, m: GossipManager) {
    match call
    case Start(isOptimisticHead) => m.enabledDuringOptimisticSync || !isOptimisticHead
    case Stop => true
    case StopForOptimisticSync => !m.enabledDuringOptimisticSync
  }

  /** What `call` does to one manager: subscribe it, unsubscribe it, or leave it. */
  function Step(call: LifecycleCall, m: GossipManager): GossipManager {
    if !Selects(call, m) then m
    else if call.Start? then m.(subscribed := true)
    else m.(subscribed := false)
  }

  /** The pass of `call` over the whole list, in list order. */
  function ApplyLifecycle(ms: seq<GossipManager>, call: LifecycleCall): (r: seq<GossipManager>)
    ensures |r| == |ms|
  {
    if ms == [] then [] else [Step(call, ms[0])] + ApplyLifecycle(ms[1..], call)
  }

  lemma {:induction false} ApplyLifecycleAt(ms: seq<GossipManager>, call: LifecycleCall)
    ensures forall i :: 0 <= i < |ms| ==> ApplyLifecycle(ms, call)[i] == Step(call, ms[i])
  {
    if ms != [] {
      ApplyLifecycleAt(ms[1..], call);
      var r := ApplyLifecycle(ms, call);
      assert r == [Step(call, ms[0])] + ApplyLifecycle(ms[1..], call);
      forall i | 1 <= i < |ms| ensures r[i] == Step(call, ms[i]) {
        assert r[i] == ApplyLifecycle(ms[1..], call)[i - 1];
        assert ms[1..][i - 1] == ms[i];
      }
    }
  }

  /**
   * No lifecycle pass constructs, drops, reorders or otherwise alters a
   * manager: only subscription states change.
   */
  lemma {:induction false} LifecycleKeepsManagers(ms: seq<GossipManager>, call: LifecycleCall)
    ensures var r := ApplyLifecycle(ms, call);
      forall i :: 0 <= i < |ms| ==> SameManager(r[i], ms[i]) && r[i].calls == ms[i].calls
  {
    ApplyLifecycleAt(ms, call);
  }

  lemma {:induction false} LifecyclePreservesWellFormed(ms: seq<GossipManager>, call: LifecycleCall, fork: Fork,
                                     isEnabledDuringOptimisticSync: MessageClass -> bool)
    requires WellFormed(ms, fork, isEnabledDuringOptimisticSync)
    ensures WellFormed(ApplyLifecycle(ms, call), fork, isEnabledDuringOptimisticSync)
  {
    LifecycleKeepsManagers(ms, call);
    SameManagersPreserveWellFormed(ms, ApplyLifecycle(ms, call), fork, isEnabledDuringOptimisticSync);
  }

  /**
   * After startGossip(root, isOptimisticHead) a manager is subscribed exactly
   * when it already was or it passes the optimistic-sync filter.
   */
  lemma {:induction false} StartGossipSubscribes(ms: seq<GossipManager>, isOptimisticHead: bool)
    ensures var r := ApplyLifecycle(ms, Start(isOptimisticHead));
      forall i :: 0 <= i < |ms| ==>
        (r[i].subscribed <==> ms[i].subscribed || ms[i].enabledDuringOptimisticSync || !isOptimisticHead)
  {
    ApplyLifecycleAt(ms, Start(isOptimisticHead));
  }

  /** Outside optimistic sync, startGossip subscribes every manager. */
  lemma {:induction false} StartGossipNotOptimisticSubscribesAll(ms: seq<GossipManager>)
    ensures forall i :: 0 <= i < |ms| ==> ApplyLifecycle(ms, Start(false))[i].subscribed
  {
    StartGossipSubscribes(ms, false);
  }

  /** stopGossip leaves every manager unsubscribed, whatever its eligibility. */
  lemma {:induction false} StopGossipUnsubscribesAll(ms: seq<GossipManager>)
    ensures forall i :: 0 <= i < |ms| ==> !ApplyLifecycle(ms, Stop)[i].subscribed
  {
    ApplyLifecycleAt(ms, Stop);
  }

  /**
   * stopGossipForOptimisticSync unsubscribes exactly the ineligible managers;
   * the eligible ones keep their subscription state.
   */
  lemma {:induction false} StopForOptimisticSyncUnsubscribesIneligible(ms: seq<GossipManager>)
    ensures var r := ApplyLifecycle(ms, StopForOptimisticSync);
      forall i :: 0 <= i < |ms| ==>
        (r[i].subscribed <==> ms[i].subscribed && ms[i].enabledDuringOptimisticSync)
  {
    ApplyLifecycleAt(ms, StopForOptimisticSync);
  }

  /** Repeating any lifecycle call changes nothing: no double subscription, no double stop. */
  lemma {:induction false} LifecycleIdempotent(ms: seq<GossipManager>, call: LifecycleCall)
    ensures ApplyLifecycle(ApplyLifecycle(ms, call), call) == ApplyLifecycle(ms, call)
  {
    var once := ApplyLifecycle(ms, call);
    ApplyLifecycleAt(ms, call);
    ApplyLifecycleAt(once, call);
  }

  /**
   * After a stop, a start subscribes exactly the managers that pass its
   * filter: stop is reversible and the restart reuses the same managers.
   */
  lemma {:induction false} RestartAfterStop(ms: seq<GossipManager>, isOptimisticHead: bool)
    ensures var r := ApplyLifecycle(ApplyLifecycle(ms, Stop), Start(isOptimisticHead));
      forall i :: 0 <= i < |ms| ==>
        && (r[i].subscribed <==> ms[i].enabledDuringOptimisticSync || !isOptimisticHead)
        && SameManager(r[i], ms[i]) && r[i].calls == ms[i].calls
  {
    var stopped := ApplyLifecycle(ms, Stop);
    ApplyLifecycleAt(ms, Stop);
    ApplyLifecycleAt(stopped, Start(isOptimisticHead));
  }

  /**
   * Demoting a fully started controller to optimistic sync leaves the same
   * state as stopping it and starting it again with an optimistic head.
   */
  lemma {:induction false} OptimisticDemotionMatchesOptimisticStart(ms: seq<GossipManager>)
    ensures ApplyLifecycle(ApplyLifecycle(ms, Start(false)), StopForOptimisticSync)
         == ApplyLifecycle(ApplyLifecycle(ms, Stop), Start(true))
  {
    var started := ApplyLifecycle(ms, Start(false));
    var stopped := ApplyLifecycle(ms, Stop);
    ApplyLifecycleAt(ms, Start(false));
    ApplyLifecycleAt(ms, Stop);
    ApplyLifecycleAt(started, StopForOptimisticSync);
    ApplyLifecycleAt(stopped, Start(true));
  }

  // ---------------------------------------------------------------------------
  // Routing: a publish or subnet call reaches one manager and only that one.
  // ---------------------------------------------------------------------------

  /** Hand `call` to the manager at `index`. */
  function Deliver(ms: seq<GossipManager>, index: nat, call: ManagerCall): (r: seq<GossipManager>)
    requires index < |ms|
    ensures |r| == |ms|
    ensures forall j :: 0 <= j < |ms| ==> SameManager(r[j], ms[j]) && r[j].subscribed == ms[j].subscribed
    ensures forall j :: 0 <= j < |ms| ==>
      r[j].calls == if j == index then ms[j].calls + [call] else ms[j].calls
  {
    ms[index := ms[index].(calls := ms[index].calls + [call])]
  }

  /**
   * The calls handed to managers so far, in the order they were made, each
   * tagged with the message class of the manager that received it.
   */
  type Trace = seq<(MessageClass, ManagerCall)>

  /** The calls of `trace` that went to the manager of class `c`, in order. */
  function CallsTo(trace: Trace, c: MessageClass): (calls: seq<ManagerCall>)
    ensures |calls| <= |trace|
  {
    if trace == [] then []
    else
      var last := trace[|trace| - 1];
      CallsTo(trace[..|trace| - 1], c) + (if last.0 == c then [last.1] else [])
  }

  /** Extending the trace by one call extends the log of its receiver only. */
  lemma CallsToAppend(trace: Trace, target: MessageClass, call: ManagerCall, c: MessageClass)
    ensures CallsTo(trace + [(target, call)], c)
         == CallsTo(trace, c) + (if target == c then [call] else [])
  {
    assert (trace + [(target, call)])[..|trace|] == trace;
  }

  /**
   * If every manager's log is the part of the trace addressed to its class,
   * then after a delivery at `index` that holds of the trace extended by the
   * delivered call.
   */
  lemma DeliverExtendsTrace(ms: seq<GossipManager>, fork: Fork,
                            isEnabledDuringOptimisticSync: MessageClass -> bool,
                            trace: Trace, index: nat, call: ManagerCall)
    requires WellFormed(ms, fork, isEnabledDuringOptimisticSync) && index < |ms|
    requires forall c :: ms[Position(c)].calls == CallsTo(trace, c)
    ensures var r := Deliver(ms, index, call);
      forall c :: r[Position(c)].calls == CallsTo(trace + [(ms[index].messageClass, call)], c)
  {
    var r := Deliver(ms, index, call);
    WellFormedOnePerClass(ms, fork, isEnabledDuringOptimisticSync);
    forall c ensures r[Position(c)].calls == CallsTo(trace + [(ms[index].messageClass, call)], c) {
      CallsToAppend(trace, ms[index].messageClass, call, c);
      if ms[index].messageClass == c {
        assert index == Position(c);
      } else {
        assert index != Position(c);
      }
    }
  }

  /**
   * Routing `call` to the manager of class `c` appends it once to that
   * manager's log; every other manager is left exactly as it was.
   */
  lemma DeliverToClass(ms: seq<GossipManager>, fork: Fork,
                       isEnabledDuringOptimisticSync: MessageClass -> bool,
                       c: MessageClass, call: ManagerCall)
    requires WellFormed(ms, fork, isEnabledDuringOptimisticSync)
    ensures var r := Deliver(ms, Position(c), call);
      && WellFormed(r, fork, isEnabledDuringOptimisticSync)
      && r[Position(c)].messageClass == c
      && r[Position(c)].calls == ms[Position(c)].calls + [call]
      && r[Position(c)].subscribed == ms[Position(c)].subscribed
      && forall d :: d != c ==> r[Position(d)] == ms[Position(d)]
  {
    var r := Deliver(ms, Position(c), call);
    WellFormedOnePerClass(ms, fork, isEnabledDuringOptimisticSync);
    SameManagersPreserveWellFormed(ms, r, fork, isEnabledDuringOptimisticSync);
    forall d | d != c ensures r[Position(d)] == ms[Position(d)] {
      assert Position(d) != Position(c);
    }
  }

  /**
   * publishAttestation: the attestation manager receives the attestation once
   * as a new attestation, the aggregate manager once as a new aggregate, and
   * no other manager changes.
   */
  lemma PublishAttestationRouting(ms: seq<GossipManager>, fork: Fork,
                                  isEnabledDuringOptimisticSync: MessageClass -> bool,
                                  attestation: Payload)
    requires WellFormed(ms, fork, isEnabledDuringOptimisticSync)
    ensures var r := Deliver(Deliver(ms, Position(Attestation), OnNewAttestation(attestation)),
                             Position(Aggregate), OnNewAggregate(attestation));
      && WellFormed(r, fork, isEnabledDuringOptimisticSync)
      && r[Position(Attestation)].calls == ms[Position(Attestation)].calls + [OnNewAttestation(attestation)]
      && r[Position(Aggregate)].calls == ms[Position(Aggregate)].calls + [OnNewAggregate(attestation)]
      && (forall i :: 0 <= i < |ms| ==> r[i].subscribed == ms[i].subscribed)
      && forall d :: d != Attestation && d != Aggregate ==> r[Position(d)] == ms[Position(d)]
  {
    var first := Deliver(ms, Position(Attestation), OnNewAttestation(attestation));
    DeliverToClass(ms, fork, isEnabledDuringOptimisticSync, Attestation, OnNewAttestation(attestation));
    DeliverToClass(first, fork, isEnabledDuringOptimisticSync, Aggregate, OnNewAggregate(attestation));
  }
}
