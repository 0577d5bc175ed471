/**
 * Value types shared by the gossip fork-subscription model: the fixed-width
 * integers and byte strings of the consensus types, the fork record and the
 * closed set of gossip message classes handled by a phase0 fork.
 */
module GossipTypes {

  /** An unsigned 64-bit integer (epochs are UInt64 values). */
  newtype UInt64 = x: int | 0 <= x < 0x1_0000_0000_0000_0000

  /** A signed 32-bit integer, the width of a subnet id as the controller receives it. */
  newtype Int32 = x: int | -0x8000_0000 <= x < 0x8000_0000

  type Bytes4 = s: seq<bv8> | |s| == 4 witness [0, 0, 0, 0]

  type Bytes32 = s: seq<bv8> | |s| == 32 witness seq(32, _ => 0 as bv8)

  datatype Option<T> = None | Some(value: T)

  /** A protocol-upgrade boundary: its versions and the epoch at which it activates. */
  datatype Fork = Fork(previousVersion: Bytes4, currentVersion: Bytes4, epoch: UInt64)

  /** The fork together with the genesis validators root of the chain it belongs to. */
  datatype ForkInfo = ForkInfo(fork: Fork, genesisValidatorsRoot: Bytes32)

  /** The message classes a phase0 fork gossips, one topic manager each. */
  datatype MessageClass =
    | Attestation
    | Block
    | Aggregate
    | VoluntaryExit
    | ProposerSlashing
    | AttesterSlashing

  /** The order in which the controller constructs and appends its managers. */
  const ConstructionOrder: seq<MessageClass> :=
    [Attestation, Block, Aggregate, VoluntaryExit, ProposerSlashing, AttesterSlashing]

  /**
   * The position at which the manager of message class `c` is appended:
   * the one and only index of `c` in the construction order.
   */
  function Position(c: MessageClass): (i: nat)
    ensures i < |ConstructionOrder| && ConstructionOrder[i] == c
    ensures forall j :: 0 <= j < |ConstructionOrder| && ConstructionOrder[j] == c ==> j == i
  {
    match c
    case Attestation => 0
    case Block => 1
    case Aggregate => 2
    case VoluntaryExit => 3
    case ProposerSlashing => 4
    case AttesterSlashing => 5
  }
}
