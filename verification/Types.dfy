/** Value types shared by the whole model (model/aodv-common.h and model/aodv-neighbor.h). */
module Types {

  // Fixed-width unsigned integers. Wrap-around is written out where the protocol can reach it.
  type U8 = n: nat | n < 0x100
  type U16 = n: nat | n < 0x1_0000
  type U32 = n: nat | n < 0x1_0000_0000

  // An IPv4 address, as the number its Get() returns.
  type Address = U32

  // A simulator time. Absolute times and durations share the type, as they do in ns-3.
  type Time = int

  function Max(a: Time, b: Time): Time {
    if a < b then b else a
  }

  // What a default-constructed Ipv4Address holds.
  const UNSET_ADDRESS: Address := 0x6666_6666

  datatype Option<+T> = None | Some(value: T) {
    function GetOr(default: T): T {
      match this
      case Some(v) => v
      case None => default
    }
  }

  // RN, BCN and BN: regular nodes, backbone-capable nodes and backbone nodes.
  datatype NodeStatus = RnNode | Core | NeighNode

  // Why a backbone node stays one, as it advertises it.
  datatype Indicator = ConvertBreak | ConvertAllow | ConvertOther

  datatype WeightFunction = NodeDegree | NodeIp | NodeRandom | NodeBnDegree

  // A backbone neighbour of a neighbour.
  datatype TwoHop = TwoHop(addr: Address, weight: U32, indicator: Indicator, timeout: Time)

  // The entries with a new timeout.
  function Stamped(bn: seq<TwoHop>, timeout: Time): (r: seq<TwoHop>)
    ensures |r| == |bn|
    ensures forall i :: 0 <= i < |bn| ==> r[i] == bn[i].(timeout := timeout)
  {
    if bn == [] then [] else [bn[0].(timeout := timeout)] + Stamped(bn[1..], timeout)
  }

  datatype NeighborTuple = NeighborTuple(
    addr: Address,
    expire: Time,
    close: bool,
    helloCounter: U16,
    sequenceNumber: U16,
    weight: U32,
    status: NodeStatus,
    associated: Address,
    indicator: Indicator,
    client: bool,
    bnNeighbors: seq<TwoHop>)

  datatype NeighborPair = NeighborPair(first: Address, second: Address)

  // The contents of a HELLO message.
  datatype Hello = Hello(
    sequenceNumber: U16,
    status: NodeStatus,
    indicator: Indicator,
    origin: Address,
    associated: Address,
    weightFunction: WeightFunction,
    weight: U32,
    bnNeighbors: seq<TwoHop>)
}
