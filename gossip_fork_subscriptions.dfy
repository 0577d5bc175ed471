/**
 * The phase0 fork-scoped gossip controller. It owns the list of topic
 * managers of one fork, built lazily on the first start, and six typed
 * references into that list; it drives their subscription lifecycle and
 * routes each locally produced message to the manager of its class.
 *
 * A typed reference is the index of its manager in the list (None while the
 * list has not been built, where the source holds null).
 */
module GossipForkSubscriptions {
  import opened GossipTypes
  import opened GossipManagers

  class GossipForkSubscriptionsPhase0 {
    const fork: Fork
    /** Which message classes stay enabled while the head is optimistic. */
    const isEnabledDuringOptimisticSync: MessageClass -> bool

    var gossipManagers: seq<GossipManager>

    var attestationGossipManager: Option<nat>
    var aggregateGossipManager: Option<nat>
    var blockGossipManager: Option<nat>
    var voluntaryExitGossipManager: Option<nat>
    var proposerSlashingGossipManager: Option<nat>
    var attesterSlashingGossipManager: Option<nat>

    /** Every call handed to a manager so far, in order, with the class of its receiver. */
    ghost var trace: Trace

    /**
     * Either nothing is built yet (and no call was handed to a manager), or
     * the list holds the six managers of this fork in construction order,
     * every typed reference points at the manager of its class, and each
     * manager's log is the part of the trace addressed to its class.
     */
    ghost predicate Valid()
      reads this
    {
      ValidWith(gossipManagers, trace)
    }

    /** `Valid()` with the list and the trace given explicitly. */
    ghost predicate ValidWith(gossipManagers: seq<GossipManager>, trace: Trace)
      reads this
    {
      || (&& gossipManagers == []
          && attestationGossipManager == None
          && aggregateGossipManager == None
          && blockGossipManager == None
          && voluntaryExitGossipManager == None
          && proposerSlashingGossipManager == None
          && attesterSlashingGossipManager == None
          && trace == [])
      || (&& WellFormed(gossipManagers, fork, isEnabledDuringOptimisticSync)
          && attestationGossipManager == Some(Position(Attestation))
          && aggregateGossipManager == Some(Position(Aggregate))
          && blockGossipManager == Some(Position(Block))
          && voluntaryExitGossipManager == Some(Position(VoluntaryExit))
          && proposerSlashingGossipManager == Some(Position(ProposerSlashing))
          && attesterSlashingGossipManager == Some(Position(AttesterSlashing))
          && forall c {:trigger CallsTo(trace, c)} :: gossipManagers[Position(c)].calls == CallsTo(trace, c))
    }

    /** Whether the managers have been built (the list is no longer empty). */
    predicate Constructed()
      reads this
    {
      gossipManagers != []
    }

    constructor (fork: Fork, isEnabledDuringOptimisticSync: MessageClass -> bool)
      ensures Valid() && !Constructed()
      ensures this.fork == fork
      ensures this.isEnabledDuringOptimisticSync == isEnabledDuringOptimisticSync
    {
      this.fork := fork;
      this.isEnabledDuringOptimisticSync := isEnabledDuringOptimisticSync;
      gossipManagers := [];
      attestationGossipManager, aggregateGossipManager, blockGossipManager := None, None, None;
      voluntaryExitGossipManager, proposerSlashingGossipManager, attesterSlashingGossipManager := None, None, None;
      trace := [];
    }

    /** The epoch at which this controller's fork activates; reads no mutable state. */
    function ActivationEpoch(): (epoch: UInt64)
      ensures epoch == fork.epoch
    {
      fork.epoch
    }

    /**
     * Builds the six managers if none exist yet (with the digest that
     * `getForkDigest` gives for the activation epoch), then subscribes every
     * manager that passes the optimistic-sync filter.
     */
    method StartGossip(genesisValidatorsRoot: Bytes32, isOptimisticHead: bool,
                       getForkDigest: UInt64 -> Bytes4)
      requires Valid()
      modifies this`gossipManagers, this`attestationGossipManager, this`blockGossipManager,
               this`aggregateGossipManager, this`voluntaryExitGossipManager,
               this`proposerSlashingGossipManager, this`attesterSlashingGossipManager
      ensures Valid() && Constructed()
      ensures gossipManagers == ApplyLifecycle(
        if old(gossipManagers) == []
        then NewGossipManagers(ForkInfo(fork, genesisValidatorsRoot),
                               getForkDigest(ActivationEpoch()), isEnabledDuringOptimisticSync)
        else old(gossipManagers),
        Start(isOptimisticHead))
    {
      if |gossipManagers| == 0 {
        var forkInfo := ForkInfo(fork, genesisValidatorsRoot);
        var forkDigest := getForkDigest(ActivationEpoch());
        AddGossipManagers(forkInfo, forkDigest);
      }
      ForEachManager(Start(isOptimisticHead));
    }

    /** The stream pass shared by the lifecycle calls: apply `call` to each selected manager. */
    method ForEachManager(call: LifecycleCall)
      requires Valid()
      modifies this`gossipManagers
      ensures Valid()
      ensures gossipManagers == ApplyLifecycle(old(gossipManagers), call)
    {
      ghost var before := gossipManagers;
      var i := 0;
      while i < |gossipManagers|
        invariant 0 <= i <= |gossipManagers| == |before|
        invariant forall k :: 0 <= k < i ==> gossipManagers[k] == Step(call, before[k])
        invariant forall k :: i <= k < |before| ==> gossipManagers[k] == before[k]
      {
        var manager := gossipManagers[i];
        if Selects(call, manager) {
          gossipManagers := gossipManagers[i := manager.(subscribed := call.Start?)];
        }
        i := i + 1;
      }
      PointwiseIsLifecycle(before, gossipManagers, call);
      LifecycleKeepsValid(before, call);
    }

    /** A list whose every position is the step of the same position of `ms` is the pass over `ms`. */
    lemma PointwiseIsLifecycle(ms: seq<GossipManager>, r: seq<GossipManager>, call: LifecycleCall)
      requires |r| == |ms| && forall k :: 0 <= k < |ms| ==> r[k] == Step(call, ms[k])
      ensures r == ApplyLifecycle(ms, call)
    {
      ApplyLifecycleAt(ms, call);
    }

    /** A lifecycle pass over a valid list leaves a valid list for the same trace. */
    lemma LifecycleKeepsValid(ms: seq<GossipManager>, call: LifecycleCall)
      requires ValidWith(ms, trace)
      ensures ValidWith(ApplyLifecycle(ms, call), trace)
    {
      var r := ApplyLifecycle(ms, call);
      if ms != [] {
        LifecyclePreservesWellFormed(ms, call, fork, isEnabledDuringOptimisticSync);
        LifecycleKeepsManagers(ms, call);
        forall c ensures r[Position(c)].calls == CallsTo(trace, c) {
          assert r[Position(c)].calls == ms[Position(c)].calls;
        }
      } else {
        assert r == [];
      }
    }

    method AddAttestationGossipManager(forkInfo: ForkInfo, forkDigest: Bytes4)
      modifies this`gossipManagers, this`attestationGossipManager
      ensures gossipManagers == old(gossipManagers)
        + [NewGossipManager(Attestation, forkInfo, forkDigest, isEnabledDuringOptimisticSync)]
      ensures attestationGossipManager == Some(|old(gossipManagers)|)
    {
      attestationGossipManager := Some(|gossipManagers|);
      AddGossipManager(NewGossipManager(Attestation, forkInfo, forkDigest, isEnabledDuringOptimisticSync));
    }

    method AddBlockGossipManager(forkInfo: ForkInfo, forkDigest: Bytes4)
      modifies this`gossipManagers, this`blockGossipManager
      ensures gossipManagers == old(gossipManagers)
        + [NewGossipManager(Block, forkInfo, forkDigest, isEnabledDuringOptimisticSync)]
      ensures blockGossipManager == Some(|old(gossipManagers)|)
    {
      blockGossipManager := Some(|gossipManagers|);
      AddGossipManager(NewGossipManager(Block, forkInfo, forkDigest, isEnabledDuringOptimisticSync));
    }

    method AddAggregateGossipManager(forkInfo: ForkInfo, forkDigest: Bytes4)
      modifies this`gossipManagers, this`aggregateGossipManager
      ensures gossipManagers == old(gossipManagers)
        + [NewGossipManager(Aggregate, forkInfo, forkDigest, isEnabledDuringOptimisticSync)]
      ensures aggregateGossipManager == Some(|old(gossipManagers)|)
    {
      aggregateGossipManager := Some(|gossipManagers|);
      AddGossipManager(NewGossipManager(Aggregate, forkInfo, forkDigest, isEnabledDuringOptimisticSync));
    }

    method AddVoluntaryExitGossipManager(forkInfo: ForkInfo, forkDigest: Bytes4)
      modifies this`gossipManagers, this`voluntaryExitGossipManager
      ensures gossipManagers == old(gossipManagers)
        + [NewGossipManager(VoluntaryExit, forkInfo, forkDigest, isEnabledDuringOptimisticSync)]
      ensures voluntaryExitGossipManager == Some(|old(gossipManagers)|)
    {
      voluntaryExitGossipManager := Some(|gossipManagers|);
      AddGossipManager(NewGossipManager(VoluntaryExit, forkInfo, forkDigest, isEnabledDuringOptimisticSync));
    }

    method AddProposerSlashingGossipManager(forkInfo: ForkInfo, forkDigest: Bytes4)
      modifies this`gossipManagers, this`proposerSlashingGossipManager
      ensures gossipManagers == old(gossipManagers)
        + [NewGossipManager(ProposerSlashing, forkInfo, forkDigest, isEnabledDuringOptimisticSync)]
      ensures proposerSlashingGossipManager == Some(|old(gossipManagers)|)
    {
      proposerSlashingGossipManager := Some(|gossipManagers|);
      AddGossipManager(NewGossipManager(ProposerSlashing, forkInfo, forkDigest, isEnabledDuringOptimisticSync));
    }

    method AddAttesterSlashingGossipManager(forkInfo: ForkInfo, forkDigest: Bytes4)
      modifies this`gossipManagers, this`attesterSlashingGossipManager
      ensures gossipManagers == old(gossipManagers)
        + [NewGossipManager(AttesterSlashing, forkInfo, forkDigest, isEnabledDuringOptimisticSync)]
      ensures attesterSlashingGossipManager == Some(|old(gossipManagers)|)
    {
      attesterSlashingGossipManager := Some(|gossipManagers|);
      AddGossipManager(NewGossipManager(AttesterSlashing, forkInfo, forkDigest, isEnabledDuringOptimisticSync));
    }

    /**
     * Builds the managers of an unbuilt controller: appends the six managers
     * in construction order, and each typed reference points at the position
     * its manager was appended at. The single-manager steps it calls are
     * construction steps only; the controller is valid again once all six
     * are in place.
     */
    method AddGossipManagers(forkInfo: ForkInfo, forkDigest: Bytes4)
      requires Valid() && !Constructed() && forkInfo.fork == fork
      modifies this`gossipManagers, this`attestationGossipManager, this`blockGossipManager,
               this`aggregateGossipManager, this`voluntaryExitGossipManager,
               this`proposerSlashingGossipManager, this`attesterSlashingGossipManager
      ensures Valid() && Constructed()
      ensures gossipManagers == NewGossipManagers(forkInfo, forkDigest, isEnabledDuringOptimisticSync)
      ensures attestationGossipManager == Some(Position(Attestation))
      ensures blockGossipManager == Some(Position(Block))
      ensures aggregateGossipManager == Some(Position(Aggregate))
      ensures voluntaryExitGossipManager == Some(Position(VoluntaryExit))
      ensures proposerSlashingGossipManager == Some(Position(ProposerSlashing))
      ensures attesterSlashingGossipManager == Some(Position(AttesterSlashing))
    {
      ghost var built := NewGossipManagers(forkInfo, forkDigest, isEnabledDuringOptimisticSync);
      AddAttestationGossipManager(forkInfo, forkDigest);
      AddBlockGossipManager(forkInfo, forkDigest);
      AddAggregateGossipManager(forkInfo, forkDigest);
      AddVoluntaryExitGossipManager(forkInfo, forkDigest);
      AddProposerSlashingGossipManager(forkInfo, forkDigest);
      AddAttesterSlashingGossipManager(forkInfo, forkDigest);
      assert gossipManagers == built;
      FreshlyBuiltIsValid(forkInfo, forkDigest);
    }

    /** A controller holding a freshly built list, all references set and an empty trace, is valid. */
    lemma FreshlyBuiltIsValid(forkInfo: ForkInfo, forkDigest: Bytes4)
      requires forkInfo.fork == fork && trace == []
      requires gossipManagers == NewGossipManagers(forkInfo, forkDigest, isEnabledDuringOptimisticSync)
      requires attestationGossipManager == Some(Position(Attestation))
      requires blockGossipManager == Some(Position(Block))
      requires aggregateGossipManager == Some(Position(Aggregate))
      requires voluntaryExitGossipManager == Some(Position(VoluntaryExit))
      requires proposerSlashingGossipManager == Some(Position(ProposerSlashing))
      requires attesterSlashingGossipManager == Some(Position(AttesterSlashing))
      ensures Valid() && Constructed()
    {
    }

    method AddGossipManager(gossipManager: GossipManager)
      modifies this`gossipManagers
      ensures gossipManagers == old(gossipManagers) + [gossipManager]
    {
      gossipManagers := gossipManagers + [gossipManager];
    }

    /** Unsubscribes every manager, eligible or not; the list itself is kept. */
    method StopGossip()
      requires Valid()
      modifies this`gossipManagers
      ensures Valid()
      ensures gossipManagers == ApplyLifecycle(old(gossipManagers), Stop)
    {
      ForEachManager(Stop);
    }

    /** Unsubscribes only the managers that are not enabled during optimistic sync. */
    method StopGossipForOptimisticSync()
      requires Valid()
      modifies this`gossipManagers
      ensures Valid()
      ensures gossipManagers == ApplyLifecycle(old(gossipManagers), StopForOptimisticSync)
    {
      ForEachManager(StopForOptimisticSync);
    }

    /** Hands `call` to the manager at `index` and records it in the trace. */
    method Notify(index: nat, call: ManagerCall)
      requires Valid() && index < |gossipManagers|
      modifies this`gossipManagers, this`trace
      ensures Valid()
      ensures gossipManagers == Deliver(old(gossipManagers), index, call)
      ensures trace == old(trace) + [(old(gossipManagers)[index].messageClass, call)]
    {
      DeliveryKeepsValid(gossipManagers, trace, index, call);
      trace := trace + [(gossipManagers[index].messageClass, call)];
      gossipManagers := Deliver(gossipManagers, index, call);
    }

    /**
     * Delivering a call to a manager of a valid list, and appending it to the
     * trace tagged with that manager's class, leaves a valid state.
     */
    lemma DeliveryKeepsValid(ms: seq<GossipManager>, t: Trace, index: nat, call: ManagerCall)
      requires ValidWith(ms, t) && index < |ms|
      ensures ValidWith(Deliver(ms, index, call), t + [(ms[index].messageClass, call)])
    {
      DeliverExtendsTrace(ms, fork, isEnabledDuringOptimisticSync, t, index, call);
      SameManagersPreserveWellFormed(ms, Deliver(ms, index, call), fork, isEnabledDuringOptimisticSync);
    }

    method PublishAttestation(attestation: Payload)
      requires Valid() && attestationGossipManager.Some? && aggregateGossipManager.Some?
      modifies this`gossipManagers, this`trace
      ensures Valid()
      ensures gossipManagers == Deliver(
        Deliver(old(gossipManagers), Position(Attestation), OnNewAttestation(attestation)),
        Position(Aggregate), OnNewAggregate(attestation))
      ensures trace == old(trace)
        + [(Attestation, OnNewAttestation(attestation)), (Aggregate, OnNewAggregate(attestation))]
    {
      Notify(attestationGossipManager.value, OnNewAttestation(attestation));
      Notify(aggregateGossipManager.value, OnNewAggregate(attestation));
    }

    method PublishBlock(block: Payload)
      requires Valid() && blockGossipManager.Some?
      modifies this`gossipManagers, this`trace
      ensures Valid()
      ensures gossipManagers == Deliver(old(gossipManagers), Position(Block), ManagerCall.PublishBlock(block))
      ensures trace == old(trace) + [(Block, ManagerCall.PublishBlock(block))]
    {
      Notify(blockGossipManager.value, ManagerCall.PublishBlock(block));
    }

    method PublishProposerSlashing(message: Payload)
      requires Valid() && proposerSlashingGossipManager.Some?
      modifies this`gossipManagers, this`trace
      ensures Valid()
      ensures gossipManagers
        == Deliver(old(gossipManagers), Position(ProposerSlashing), ManagerCall.PublishProposerSlashing(message))
      ensures trace == old(trace) + [(ProposerSlashing, ManagerCall.PublishProposerSlashing(message))]
    {
      Notify(proposerSlashingGossipManager.value, ManagerCall.PublishProposerSlashing(message));
    }

    method PublishAttesterSlashing(message: Payload)
      requires Valid() && attesterSlashingGossipManager.Some?
      modifies this`gossipManagers, this`trace
      ensures Valid()
      ensures gossipManagers
        == Deliver(old(gossipManagers), Position(AttesterSlashing), ManagerCall.PublishAttesterSlashing(message))
      ensures trace == old(trace) + [(AttesterSlashing, ManagerCall.PublishAttesterSlashing(message))]
    {
      Notify(attesterSlashingGossipManager.value, ManagerCall.PublishAttesterSlashing(message));
    }

    method PublishVoluntaryExit(message: Payload)
      requires Valid() && voluntaryExitGossipManager.Some?
      modifies this`gossipManagers, this`trace
      ensures Valid()
      ensures gossipManagers
        == Deliver(old(gossipManagers), Position(VoluntaryExit), ManagerCall.PublishVoluntaryExit(message))
      ensures trace == old(trace) + [(VoluntaryExit, ManagerCall.PublishVoluntaryExit(message))]
    {
      Notify(voluntaryExitGossipManager.value, ManagerCall.PublishVoluntaryExit(message));
    }

    method SubscribeToAttestationSubnetId(subnetId: Int32)
      requires Valid() && attestationGossipManager.Some?
      modifies this`gossipManagers, this`trace
      ensures Valid()
      ensures gossipManagers
        == Deliver(old(gossipManagers), Position(Attestation), SubscribeToSubnetId(subnetId))
      ensures trace == old(trace) + [(Attestation, SubscribeToSubnetId(subnetId))]
    {
      Notify(attestationGossipManager.value, SubscribeToSubnetId(subnetId));
    }

    method UnsubscribeFromAttestationSubnetId(subnetId: Int32)
      requires Valid() && attestationGossipManager.Some?
      modifies this`gossipManagers, this`trace
      ensures Valid()
      ensures gossipManagers
        == Deliver(old(gossipManagers), Position(Attestation), UnsubscribeFromSubnetId(subnetId))
      ensures trace == old(trace) + [(Attestation, UnsubscribeFromSubnetId(subnetId))]
    {
      Notify(attestationGossipManager.value, UnsubscribeFromSubnetId(subnetId));
    }
  }

  /**
   * A client method whose assertions Dafny proves: start outside optimistic
   * sync, start again, demote to optimistic sync, stop, and start with an
   * optimistic head, under a policy in which only block gossip stays enabled
   * during optimistic sync.
   */
  method LifecycleScenario(fork: Fork, genesisValidatorsRoot: Bytes32, getForkDigest: UInt64 -> Bytes4)
  {
    var controller := new GossipForkSubscriptionsPhase0(fork, c => c == Block);
    controller.StartGossip(genesisValidatorsRoot, false, getForkDigest);
    var built := controller.gossipManagers;
    assert |built| == 6;
    StartGossipNotOptimisticSubscribesAll(NewGossipManagers(
      ForkInfo(fork, genesisValidatorsRoot), getForkDigest(fork.epoch), c => c == Block));
    assert forall i :: 0 <= i < 6 ==> built[i].subscribed;

    controller.StartGossip(genesisValidatorsRoot, false, getForkDigest);
    LifecycleIdempotent(NewGossipManagers(
      ForkInfo(fork, genesisValidatorsRoot), getForkDigest(fork.epoch), c => c == Block), Start(false));
    assert controller.gossipManagers == built;

    controller.StopGossipForOptimisticSync();
    StopForOptimisticSyncUnsubscribesIneligible(built);
    assert controller.gossipManagers[Position(Block)].subscribed;
    assert !controller.gossipManagers[Position(Attestation)].subscribed;

    var demoted := controller.gossipManagers;
    controller.StopGossip();
    controller.StartGossip(genesisValidatorsRoot, true, getForkDigest);
    RestartAfterStop(demoted, true);
    assert controller.gossipManagers[Position(Block)].subscribed;
    assert !controller.gossipManagers[Position(Attestation)].subscribed;
  }
}
