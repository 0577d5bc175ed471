# Phase0 gossip fork subscriptions, modelled in Dafny

This project models `GossipForkSubscriptionsPhase0`, the controller that owns the gossip topic
managers of one phase0 fork in a beacon-chain peer-to-peer client. It has four jobs:

- It builds the six topic managers lazily, on the first `startGossip`. The managers are, in order:
  attestation, block, aggregate, voluntary exit, proposer slashing, attester slashing.
- It subscribes the managers that pass the optimistic-sync filter.
- It unsubscribes all managers on `stopGossip`, and only the ineligible ones on
  `stopGossipForOptimisticSync`.
- It routes each locally produced message to the manager of its class, and delegates attestation
  subnet (un)subscription to the attestation manager.

Files and modules:

- `gossip_types.dfy` (`GossipTypes`) holds the value types: `UInt64`, `Int32`, `Bytes4`,
  `Bytes32`, `Fork`, `ForkInfo`, and the closed `MessageClass` enumeration. It also holds the
  construction order and `Position`, which gives the index of each class in that order.
- `gossip_managers.dfy` (`GossipManagers`) holds the abstract topic manager and the lemmas.
  A manager is a record of its message class, fork info, fork digest, optimistic-sync
  eligibility, subscription flag, and the log of calls the controller made on it. The lifecycle
  passes and message routing are specification functions on the manager list, with lemmas about
  them.
- `gossip_fork_subscriptions.dfy` (`GossipForkSubscriptions`) holds the controller as a class.
  - It has a `seq<GossipManager>` field that is appended in place during construction.
  - It has six typed references. Each is an index into that list, and `None` while nothing is
    built (where the source holds null).
  - Its methods use `modifies` clauses. The filtered `forEach` passes are `while` loops proved
    equal to the specification functions.
  - `Valid()` is established by the constructor. It says the list is either empty, with all
    typed references unset, or holds exactly the six managers in construction order, with each
    typed reference at its class's position and each manager's log equal to the part of the
    controller's call trace addressed to its class.
  - `Valid()` is required and kept by the start, stop, publish and subnet methods, and by
    `AddGossipManagers`, which needs an unbuilt controller and leaves it built. So after any
    sequence of those calls, starts after stops included, there is never a duplicate or a seventh
    manager.
  - `AddGossipManager` and the six single-manager add methods are construction steps. They are
    called only from `AddGossipManagers` (inside `StartGossip`), and in the source they are
    `protected` or package-private rather than part of the controller's public interface. Their
    contracts state exactly what they append, but they neither require nor keep `Valid()`: after
    one of them alone the list holds fewer than six managers, or more if called on a built list.
  - A ghost field `trace` records every call handed to a manager, in order, tagged with the class
    of the receiving manager. The publish and subnet methods state what they append to it, which
    fixes the order of the two calls `PublishAttestation` makes.

Interfaces that are parameters here:

- The chain-data lookup of the fork digest is a function argument of `StartGossip`. It is
  applied to the activation epoch.
- Which message classes stay enabled during optimistic sync is decided inside the individual
  managers, whose code is not part of this model. Here it is a function argument of the
  constructor, fixed for the controller's lifetime.

## Model

| member | source | states |
|---|---|---|
| `GossipTypes.Position` | networking/eth2/src/main/java/tech/pegasys/teku/networking/eth2/gossip/forks/versions/GossipForkSubscriptionsPhase0.java:216-223 | each message class has exactly one position in the construction order (attestation, block, aggregate, voluntary exit, proposer slashing, attester slashing) |
| `GossipManagers.NewGossipManagers` | networking/eth2/src/main/java/tech/pegasys/teku/networking/eth2/gossip/forks/versions/GossipForkSubscriptionsPhase0.java:123-223 | the built list is well formed: one manager per class, in construction order, all for the given fork info and digest, each with its class's eligibility, none subscribed, no calls received; each element is `NewGossipManager` for its class, modelling the constructions at lines 136-213 |
| `GossipManagers.WellFormedOnePerClass` | networking/eth2/src/main/java/tech/pegasys/teku/networking/eth2/gossip/forks/versions/GossipForkSubscriptionsPhase0.java:216-227 | a well-formed list has the manager of class c at Position(c), and no two managers share a class |
| `GossipManagers.SameManagersPreserveWellFormed` | networking/eth2/src/main/java/tech/pegasys/teku/networking/eth2/gossip/forks/versions/GossipForkSubscriptionsPhase0.java:113-117 | changing only subscription states or logs keeps a list well formed |
| `GossipManagers.ApplyLifecycle` | networking/eth2/src/main/java/tech/pegasys/teku/networking/eth2/gossip/forks/versions/GossipForkSubscriptionsPhase0.java:118-120 | a filtered forEach pass keeps the list's length; the pass is built from `Selects` (the filter lambdas at lines 119 and 237, and no filter at line 231) and `Step` (`subscribe` at line 120, `unsubscribe` at lines 231 and 238 on selected managers) |
| `GossipManagers.ApplyLifecycleAt` | networking/eth2/src/main/java/tech/pegasys/teku/networking/eth2/gossip/forks/versions/GossipForkSubscriptionsPhase0.java:230-239 | a pass acts on every manager on its own: position i of the result is manager i after `Step`, which subscribes (start) or unsubscribes (stops) it when `Selects` accepts it and leaves it unchanged otherwise |
| `GossipManagers.LifecycleKeepsManagers` | networking/eth2/src/main/java/tech/pegasys/teku/networking/eth2/gossip/forks/versions/GossipForkSubscriptionsPhase0.java:113-120 | no lifecycle call builds, drops, reorders or alters a manager or its log; only subscription states change |
| `GossipManagers.LifecyclePreservesWellFormed` | networking/eth2/src/main/java/tech/pegasys/teku/networking/eth2/gossip/forks/versions/GossipForkSubscriptionsPhase0.java:229-239 | every lifecycle call keeps the list of six managers well formed |
| `GossipManagers.StartGossipSubscribes` | networking/eth2/src/main/java/tech/pegasys/teku/networking/eth2/gossip/forks/versions/GossipForkSubscriptionsPhase0.java:118-120 | after start, a manager is subscribed if and only if it was subscribed already or it is eligible or the head is not optimistic; managers failing the filter keep their state |
| `GossipManagers.StartGossipNotOptimisticSubscribesAll` | networking/eth2/src/main/java/tech/pegasys/teku/networking/eth2/gossip/forks/versions/GossipForkSubscriptionsPhase0.java:118-120 | with a non-optimistic head, start subscribes every manager |
| `GossipManagers.StopGossipUnsubscribesAll` | networking/eth2/src/main/java/tech/pegasys/teku/networking/eth2/gossip/forks/versions/GossipForkSubscriptionsPhase0.java:230-232 | stop leaves every manager unsubscribed, whatever its eligibility |
| `GossipManagers.StopForOptimisticSyncUnsubscribesIneligible` | networking/eth2/src/main/java/tech/pegasys/teku/networking/eth2/gossip/forks/versions/GossipForkSubscriptionsPhase0.java:235-239 | after the optimistic-sync stop, a manager is subscribed if and only if it was subscribed before and is eligible |
| `GossipManagers.LifecycleIdempotent` | networking/eth2/src/main/java/tech/pegasys/teku/networking/eth2/gossip/forks/versions/GossipForkSubscriptionsPhase0.java:118-120 | repeating start, stop or the optimistic-sync stop changes nothing |
| `GossipManagers.RestartAfterStop` | networking/eth2/src/main/java/tech/pegasys/teku/networking/eth2/gossip/forks/versions/GossipForkSubscriptionsPhase0.java:111-121 | start after stop reuses the same managers and logs, and subscribes exactly those passing the filter |
| `GossipManagers.OptimisticDemotionMatchesOptimisticStart` | networking/eth2/src/main/java/tech/pegasys/teku/networking/eth2/gossip/forks/versions/GossipForkSubscriptionsPhase0.java:235-239 | demoting a fully started list gives the same state as stop followed by an optimistic-head start |
| `GossipManagers.Deliver` | networking/eth2/src/main/java/tech/pegasys/teku/networking/eth2/gossip/forks/versions/GossipForkSubscriptionsPhase0.java:247-250 | a delivery appends the call once to the target manager's log; every other log, and all subscription states and identities, stay unchanged |
| `GossipManagers.DeliverToClass` | networking/eth2/src/main/java/tech/pegasys/teku/networking/eth2/gossip/forks/versions/GossipForkSubscriptionsPhase0.java:247-275 | routing to class c reaches the manager of class c once and leaves the manager of every other class exactly as it was |
| `GossipManagers.CallsTo` | networking/eth2/src/main/java/tech/pegasys/teku/networking/eth2/gossip/forks/versions/GossipForkSubscriptionsPhase0.java:241-275 | the calls of a trace addressed to one class, in trace order, are never more than the trace itself |
| `GossipManagers.CallsToAppend` | networking/eth2/src/main/java/tech/pegasys/teku/networking/eth2/gossip/forks/versions/GossipForkSubscriptionsPhase0.java:241-275 | appending one call to the trace extends only the addressed class's sequence of calls, by that call |
| `GossipManagers.DeliverExtendsTrace` | networking/eth2/src/main/java/tech/pegasys/teku/networking/eth2/gossip/forks/versions/GossipForkSubscriptionsPhase0.java:241-275 | if every manager's log is its class's part of the trace, a delivery keeps that true for the trace extended by the delivered call tagged with the receiver's class |
| `GossipManagers.PublishAttestationRouting` | networking/eth2/src/main/java/tech/pegasys/teku/networking/eth2/gossip/forks/versions/GossipForkSubscriptionsPhase0.java:242-245 | an attestation is logged once by the attestation manager (as new attestation) and once by the aggregate manager (as new aggregate); no other manager and no subscription state changes |
| `GossipForkSubscriptions.GossipForkSubscriptionsPhase0.constructor` | networking/eth2/src/main/java/tech/pegasys/teku/networking/eth2/gossip/forks/versions/GossipForkSubscriptionsPhase0.java:74-103 | a new controller holds its fork and has no managers and no typed references |
| `GossipForkSubscriptions.GossipForkSubscriptionsPhase0.ActivationEpoch` | networking/eth2/src/main/java/tech/pegasys/teku/networking/eth2/gossip/forks/versions/GossipForkSubscriptionsPhase0.java:105-108 | returns exactly the fork's epoch; as a function on immutable fields it reads and changes no state |
| `GossipForkSubscriptions.GossipForkSubscriptionsPhase0.StartGossip` | networking/eth2/src/main/java/tech/pegasys/teku/networking/eth2/gossip/forks/versions/GossipForkSubscriptionsPhase0.java:110-121 | builds the six managers only when the list is empty, using the digest for the activation epoch; then the new list is the start pass over the (built or existing) list; the controller stays valid and is built afterwards |
| `GossipForkSubscriptions.GossipForkSubscriptionsPhase0.ForEachManager` | networking/eth2/src/main/java/tech/pegasys/teku/networking/eth2/gossip/forks/versions/GossipForkSubscriptionsPhase0.java:118-120 | the in-place loop over the list equals the specification pass and keeps the controller valid |
| `GossipForkSubscriptions.GossipForkSubscriptionsPhase0.LifecycleKeepsValid` | networking/eth2/src/main/java/tech/pegasys/teku/networking/eth2/gossip/forks/versions/GossipForkSubscriptionsPhase0.java:229-239 | a start, stop or optimistic-sync stop pass over a valid list leaves the controller valid for the same trace: still six managers, references in place, logs unchanged |
| `GossipForkSubscriptions.GossipForkSubscriptionsPhase0.DeliveryKeepsValid` | networking/eth2/src/main/java/tech/pegasys/teku/networking/eth2/gossip/forks/versions/GossipForkSubscriptionsPhase0.java:241-275 | delivering a call to one manager and recording it in the trace, tagged with that manager's class, leaves the controller valid |
| `GossipForkSubscriptions.GossipForkSubscriptionsPhase0.AddAttestationGossipManager` | networking/eth2/src/main/java/tech/pegasys/teku/networking/eth2/gossip/forks/versions/GossipForkSubscriptionsPhase0.java:123-139 | appends one attestation manager; the typed reference points at the appended position |
| `GossipForkSubscriptions.GossipForkSubscriptionsPhase0.AddBlockGossipManager` | networking/eth2/src/main/java/tech/pegasys/teku/networking/eth2/gossip/forks/versions/GossipForkSubscriptionsPhase0.java:141-154 | appends one block manager; the typed reference points at the appended position |
| `GossipForkSubscriptions.GossipForkSubscriptionsPhase0.AddAggregateGossipManager` | networking/eth2/src/main/java/tech/pegasys/teku/networking/eth2/gossip/forks/versions/GossipForkSubscriptionsPhase0.java:156-169 | appends one aggregate manager; the typed reference points at the appended position |
| `GossipForkSubscriptions.GossipForkSubscriptionsPhase0.AddVoluntaryExitGossipManager` | networking/eth2/src/main/java/tech/pegasys/teku/networking/eth2/gossip/forks/versions/GossipForkSubscriptionsPhase0.java:171-184 | appends one voluntary-exit manager; the typed reference points at the appended position |
| `GossipForkSubscriptions.GossipForkSubscriptionsPhase0.AddProposerSlashingGossipManager` | networking/eth2/src/main/java/tech/pegasys/teku/networking/eth2/gossip/forks/versions/GossipForkSubscriptionsPhase0.java:186-199 | appends one proposer-slashing manager; the typed reference points at the appended position |
| `GossipForkSubscriptions.GossipForkSubscriptionsPhase0.AddAttesterSlashingGossipManager` | networking/eth2/src/main/java/tech/pegasys/teku/networking/eth2/gossip/forks/versions/GossipForkSubscriptionsPhase0.java:201-214 | appends one attester-slashing manager; the typed reference points at the appended position |
| `GossipForkSubscriptions.GossipForkSubscriptionsPhase0.AddGossipManagers` | networking/eth2/src/main/java/tech/pegasys/teku/networking/eth2/gossip/forks/versions/GossipForkSubscriptionsPhase0.java:216-223 | on an unbuilt valid controller, builds exactly the six managers in construction order; each typed reference points at the position of its class; the controller is valid and built afterwards |
| `GossipForkSubscriptions.GossipForkSubscriptionsPhase0.AddGossipManager` | networking/eth2/src/main/java/tech/pegasys/teku/networking/eth2/gossip/forks/versions/GossipForkSubscriptionsPhase0.java:225-227 | appends the manager at the end of the list |
| `GossipForkSubscriptions.GossipForkSubscriptionsPhase0.StopGossip` | networking/eth2/src/main/java/tech/pegasys/teku/networking/eth2/gossip/forks/versions/GossipForkSubscriptionsPhase0.java:229-232 | the new list is the stop pass over the old one; only the list changes |
| `GossipForkSubscriptions.GossipForkSubscriptionsPhase0.StopGossipForOptimisticSync` | networking/eth2/src/main/java/tech/pegasys/teku/networking/eth2/gossip/forks/versions/GossipForkSubscriptionsPhase0.java:234-239 | the new list is the optimistic-sync stop pass over the old one; only the list changes |
| `GossipForkSubscriptions.GossipForkSubscriptionsPhase0.Notify` | networking/eth2/src/main/java/tech/pegasys/teku/networking/eth2/gossip/forks/versions/GossipForkSubscriptionsPhase0.java:242-275 | handing a call to a manager is a delivery at its index, appends the call, tagged with that manager's class, to the trace, and keeps the controller valid |
| `GossipForkSubscriptions.GossipForkSubscriptionsPhase0.PublishAttestation` | networking/eth2/src/main/java/tech/pegasys/teku/networking/eth2/gossip/forks/versions/GossipForkSubscriptionsPhase0.java:241-245 | delivers the attestation to the attestation manager, then to the aggregate manager; the trace grows by exactly those two calls in that order; requires both typed references set |
| `GossipForkSubscriptions.GossipForkSubscriptionsPhase0.PublishBlock` | networking/eth2/src/main/java/tech/pegasys/teku/networking/eth2/gossip/forks/versions/GossipForkSubscriptionsPhase0.java:247-250 | delivers the block to the block manager only; the trace grows by that one call |
| `GossipForkSubscriptions.GossipForkSubscriptionsPhase0.PublishProposerSlashing` | networking/eth2/src/main/java/tech/pegasys/teku/networking/eth2/gossip/forks/versions/GossipForkSubscriptionsPhase0.java:252-255 | delivers the slashing to the proposer-slashing manager only; the trace grows by that one call |
| `GossipForkSubscriptions.GossipForkSubscriptionsPhase0.PublishAttesterSlashing` | networking/eth2/src/main/java/tech/pegasys/teku/networking/eth2/gossip/forks/versions/GossipForkSubscriptionsPhase0.java:257-260 | delivers the slashing to the attester-slashing manager only; the trace grows by that one call |
| `GossipForkSubscriptions.GossipForkSubscriptionsPhase0.PublishVoluntaryExit` | networking/eth2/src/main/java/tech/pegasys/teku/networking/eth2/gossip/forks/versions/GossipForkSubscriptionsPhase0.java:262-265 | delivers the exit to the voluntary-exit manager only; the trace grows by that one call |
| `GossipForkSubscriptions.GossipForkSubscriptionsPhase0.SubscribeToAttestationSubnetId` | networking/eth2/src/main/java/tech/pegasys/teku/networking/eth2/gossip/forks/versions/GossipForkSubscriptionsPhase0.java:267-270 | delegates the subnet subscription to the attestation manager only; the trace grows by that one call |
| `GossipForkSubscriptions.GossipForkSubscriptionsPhase0.UnsubscribeFromAttestationSubnetId` | networking/eth2/src/main/java/tech/pegasys/teku/networking/eth2/gossip/forks/versions/GossipForkSubscriptionsPhase0.java:272-275 | delegates the subnet unsubscription to the attestation manager only; the trace grows by that one call |

`LifecycleScenario` is a client method whose assertions Dafny proves; it has no contract of its own. Under a policy where only block
gossip stays enabled during optimistic sync, it shows the following:

- A non-optimistic start builds six managers, all subscribed.
- A second start changes nothing.
- The optimistic-sync stop keeps the block manager subscribed and unsubscribes the attestation
  manager.
- A stop followed by an optimistic start keeps the same six managers, with the block manager
  subscribed and the attestation manager not.

## Left out

- fuzz/src/test/java/tech/pegasys/teku/fuzz/FuzzUtilTest.java is not part of this model. It is
  a test harness doing resource I/O, Snappy decompression and SSZ/JSON decoding.
- The internals of the individual gossip managers and of `AttestationSubnetSubscriptions` are not
  part of this model. Each manager is abstracted to a subscription flag and a log of the calls it
  received.
  - Subscribing an already subscribed manager is therefore a no-op by construction. The source
    calls `subscribe` again on every start.
  - Subnet (un)subscriptions are only logged. No subnet-level state or idempotence is claimed.
- Which class is enabled during optimistic sync is defined by each manager's own code. The model
  takes it as a constructor parameter.
- The fork digest comes from a function argument applied to the activation epoch. How chain data
  derives it is not modelled. `ForkInfo` is recorded in each manager but has no other effect.
- `startGossip`'s `genesisValidatorsRoot` argument goes only into `ForkInfo`; the digest lookup
  receives the activation epoch alone (GossipForkSubscriptionsPhase0.java:114-115). Whatever
  root the chain data uses internally for that lookup is not modelled.
- The source has no failure path for digest lookup, so there is no all-or-nothing construction
  error to model. Transport failures while (un)subscribing are also not modelled.
- `publishBlock` returns a `SafeFuture`. `PublishBlock` returns nothing, because the completion
  of the asynchronous publish is not modelled.
- Asynchronous execution (`AsyncRunner`), metrics, gossip encoding, the discovery network, the
  operation processors and the debug data dumper are foreign plumbing and are not modelled.
- `toString` is formatting only and is not modelled.
- Later-fork subclasses that override `addGossipManagers` to add more managers are not part of
  this model. The count of six is the phase0 count.
- Publish and subnet methods require their typed reference to be set. Before the first start the
  source would throw a null-pointer exception; the model excludes that call instead.
- GossipManagers.PublishAttestationRouting: the logs are per manager, so the lemma cannot show
  that the attestation manager is called before the aggregate manager. That order is stated by
  the `trace` postcondition of `PublishAttestation`.
