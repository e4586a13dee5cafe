/** The backbone rules that a node runs on its long timer (model/aodv-routing-protocol.cc). */
module Backbone {
  import opened Types
  import opened Lists
  import opened NeighborTuples
  import opened NeighborLists
  import opened BackboneRules
  import opened RouteErrors
  import opened RouteErrorEffects
  import opened NeighborRoutes
  import RoutingTables
  import RouteMemory
  import IdCaches

  ghost predicate Enumerates(list: seq<NeighborTuple>, pairs: seq<NeighborPair>, status: NodeStatus) {
    forall p :: p in pairs <==> PairOf(list, p.first, p.second, status)
  }

  ghost predicate Any(pairs: seq<NeighborPair>, holds: NeighborPair -> bool) {
    exists p :: p in pairs && holds(p)
  }

  lemma AnyAppend(pairs: seq<NeighborPair>, p: NeighborPair, holds: NeighborPair -> bool)
    ensures Any(pairs + [p], holds) <==> Any(pairs, holds) || holds(p)
  {
    assert forall q :: q in pairs + [p] <==> q in pairs || q == p;
  }

  // Leaving a loop over all pairs at the first hit loses nothing.
  lemma EarlyExit(list: seq<NeighborTuple>, pairs: seq<NeighborPair>, status: NodeStatus, k: nat,
                  holds: NeighborPair -> bool)
    requires Enumerates(list, pairs, status)
    requires k <= |pairs| && (k == |pairs| || Any(pairs[..k], holds))
    ensures Any(pairs[..k], holds) <==> exists v, w :: PairOf(list, v, w, status) && holds(NeighborPair(v, w))
  {
    if Any(pairs[..k], holds) {
      var p :| p in pairs[..k] && holds(p);
      assert PairOf(list, p.first, p.second, status) && p == NeighborPair(p.first, p.second);
    }
    if k == |pairs| {
      assert pairs[..k] == pairs;
      forall v, w | PairOf(list, v, w, status) && holds(NeighborPair(v, w))
        ensures Any(pairs, holds)
      {
        assert NeighborPair(v, w).first == v && NeighborPair(v, w).second == w;
        assert NeighborPair(v, w) in pairs;
      }
    }
  }

  ghost predicate PairFrom(one: seq<NeighborTuple>, two: seq<NeighborTuple>, p: NeighborPair) {
    p.first != p.second && (exists t :: t in one && t.addr == p.first) && (exists t :: t in two && t.addr == p.second)
  }

  // The tests the loops make, as functions on pairs.
  ghost function DetourFor(list: seq<NeighborTuple>, v: Address, w: Address): NeighborPair -> bool {
    (p: NeighborPair) => DetourVia(list, v, w, p.first, p.second)
  }

  ghost function NeedsMeFor(st: LocalState): NeighborPair -> bool {
    (p: NeighborPair) => NeedsMe(st, p.first, p.second)
  }

  ghost function NeedsMeIndirectlyFor(st: LocalState): NeighborPair -> bool {
    (p: NeighborPair) => NeedsMeIndirectly(st, p.first, p.second)
  }

  ghost function NotLinked(st: LocalState): NeighborPair -> bool {
    (p: NeighborPair) => !Linked(st, p.first, p.second)
  }

  ghost function NotDirect(st: LocalState): NeighborPair -> bool {
    (p: NeighborPair) => !StaysDirect(st, p.first, p.second)
  }

  ghost function CoreNotDirect(st: LocalState): NeighborPair -> bool {
    (p: NeighborPair) => !CoreStaysDirect(st, p.first, p.second)
  }

  ghost function NotIndirect(st: LocalState): NeighborPair -> bool {
    (p: NeighborPair) => !StaysIndirect(st, p.first, p.second)
  }

  ghost function NotDetoured(st: LocalState): NeighborPair -> bool {
    (p: NeighborPair) => !StaysDetoured(st, p.first, p.second)
  }

  // The filter chain of a quitting condition is empty exactly when every pair passes one of its tests.
  lemma ChainEmpty(list: seq<NeighborTuple>, pairs: seq<NeighborPair>, status: NodeStatus,
                   a: NeighborPair -> bool, b: NeighborPair -> bool, c: NeighborPair -> bool)
    requires Enumerates(list, pairs, status)
    ensures Filter(Filter(Filter(pairs, a), b), c) == [] <==>
            forall v, w :: PairOf(list, v, w, status) ==>
              !a(NeighborPair(v, w)) || !b(NeighborPair(v, w)) || !c(NeighborPair(v, w))
  {
    var chain := Filter(Filter(Filter(pairs, a), b), c);
    if chain != [] {
      var p := chain[0];
      assert p in chain;
      assert p in pairs && a(p) && b(p) && c(p) && p == NeighborPair(p.first, p.second);
    } else {
      forall v, w | PairOf(list, v, w, status)
        ensures !a(NeighborPair(v, w)) || !b(NeighborPair(v, w)) || !c(NeighborPair(v, w))
      {
        var p := NeighborPair(v, w);
        assert PairOf(list, p.first, p.second, status);
        assert p in pairs;
        assert p !in chain;
      }
    }
  }

  lemma NoneLeft(list: seq<NeighborTuple>, p: NeighborTuple -> bool)
    ensures Filter(list, p) == [] <==> forall t :: t in list ==> !p(t)
  {
    if Filter(list, p) != [] {
      assert Filter(list, p)[0] in Filter(list, p);
    }
  }

  lemma CoreMember(list: seq<NeighborTuple>, core: seq<NeighborTuple>)
    requires core == Filter(list, HasNodeStatus(Core))
    ensures forall x :: HasStatus(list, x, Core) <==> exists n :: 0 <= n < |core| && core[n].addr == x
  {
    forall x | HasStatus(list, x, Core)
      ensures exists n :: 0 <= n < |core| && core[n].addr == x
    {
      var t :| t in list && t.addr == x && t.status == Core;
      assert t in core;
    }
    assert forall n :: 0 <= n < |core| ==> core[n] in core;
  }

  // ---------- the steps of the timers, on values ----------

  ghost function Weighed(st: LocalState): LocalState {
    match st.weightFunction
    case NodeIp => st.(weight := st.me)
    case NodeRandom => st
    case NodeBnDegree => st.(weight := |Filter(st.list, HasNodeStatus(NeighNode))| % 0x1_0000_0000)
    case NodeDegree => st.(weight := |st.list| % 0x1_0000_0000)
  }

  // The backbone neighbour counts of the last two rounds, kept in sixteen bits.
  ghost function Recounted(st: LocalState): LocalState {
    st.(lastBn := st.currentBn, currentBn := |Filter(st.list, HasNodeStatus(NeighNode))| % 0x1_0000)
  }

  // What a node decides on: its state after the two purges, reweighed and recounted.
  ghost function AtDecision(st: LocalState, minHello: U32, now: Time): LocalState {
    Recounted(Weighed(st.(list := Filter(Filter(st.list, Heard(minHello)), Open(now)))))
  }

  ghost function LongTimer(st: LocalState, minHello: U32, now: Time): LocalState {
    var decided := Decide(AtDecision(st, minHello, now));
    decided.(list := CountersReset(decided.list))
  }

  ghost function Greeting(st: LocalState, sequenceNumber: U16): Hello {
    Hello(sequenceNumber, st.status, st.indicator, st.me, st.associated, st.weightFunction, st.weight, BnSet(st.list))
  }

  // With HELLOs switched off the sender's tuple is not made to live longer.
  ghost function Greet(st: LocalState, hello: Hello, enabled: bool, longInterval: Time, lifetime: Time,
                       now: Time): LocalState {
    var greeted := BnApplied(HelloApplied(st.list, hello, hello.associated in st.own, now), hello, longInterval, now);
    st.(list := if enabled then Refreshed(greeted, hello.origin, lifetime, now) else greeted)
  }

  function HelloKey(hello: Hello): IdCaches.Key {
    IdCaches.Key(hello.origin, hello.sequenceNumber)
  }

  // The same for the pairs that are already known to be unlinked.
  lemma IndirectExit(st: LocalState, pairs: seq<NeighborPair>, k: nat)
    requires forall p :: p in pairs <==> PairOf(st.list, p.first, p.second, Core) && !Linked(st, p.first, p.second)
    requires k <= |pairs| && (k == |pairs| || Any(pairs[..k], NeedsMeIndirectlyFor(st)))
    ensures Any(pairs[..k], NeedsMeIndirectlyFor(st)) <==> PushedToJoinIndirectly(st)
  {
    if Any(pairs[..k], NeedsMeIndirectlyFor(st)) {
      var p :| p in pairs[..k] && NeedsMeIndirectlyFor(st)(p);
      assert p in pairs;
      assert PairOf(st.list, p.first, p.second, Core) && NeedsMeIndirectly(st, p.first, p.second);
    }
    if k == |pairs| {
      assert pairs[..k] == pairs;
      forall v, w | PairOf(st.list, v, w, Core) && NeedsMeIndirectly(st, v, w)
        ensures Any(pairs, NeedsMeIndirectlyFor(st))
      {
        var p := NeighborPair(v, w);
        assert PairOf(st.list, p.first, p.second, Core) && !Linked(st, p.first, p.second);
        assert p in pairs && NeedsMeIndirectlyFor(st)(p);
      }
    }
  }

  class BackboneNode {
    const nb: Neighbors
    const helloIdCache: IdCaches.IdCache
    var messageSequenceNumber: U16
    var mainAddress: Address
    var ownAddresses: set<Address>
    var localWeight: U32
    var localWeightFunction: WeightFunction
    var localNodeStatus: NodeStatus
    var localIndicator: Indicator
    var localAssociated: Address
    var localCurrentBn: U16
    var localLastBn: U16
    var rule1: bool
    var rule2: bool
    var enableHello: bool

    constructor (nb: Neighbors, helloIdCache: IdCaches.IdCache, mainAddress: Address, ownAddresses: set<Address>)
      ensures this.nb == nb && this.helloIdCache == helloIdCache && messageSequenceNumber == 0 && enableHello
      ensures State() == LocalState(mainAddress, ownAddresses, 0, NodeDegree, Core, ConvertOther, 0, true, true, 0,
                                    0, nb.list)
    {
      this.nb, this.helloIdCache, messageSequenceNumber := nb, helloIdCache, 0;
      this.mainAddress, this.ownAddresses := mainAddress, ownAddresses;
      localWeight, localWeightFunction := 0, NodeDegree;
      localNodeStatus, localIndicator, localAssociated := Core, ConvertOther, 0;
      localCurrentBn, localLastBn := 0, 0;
      rule1, rule2, enableHello := true, true, true;
    }

    ghost function State(): LocalState
      reads this, nb
    {
      LocalState(mainAddress, ownAddresses, localWeight, localWeightFunction, localNodeStatus, localIndicator,
                 localAssociated, rule1, rule2, localCurrentBn, localLastBn, nb.list)
    }

    ghost predicate Valid()
      reads nb
    {
      Distinct(nb.list)
    }

    // ---------- building blocks ----------

    method IsMyOwnAddress(a: Address) returns (mine: bool)
      ensures mine <==> a in State().own
    {
      mine := a in ownAddresses;
    }

    method HigherWeight(neighbor: Address) returns (higher: bool)
      requires IndexOf(nb.list, neighbor) < |nb.list|
      ensures higher == Higher(State(), neighbor)
    {
      var i := nb.FindNeighborTuple(neighbor);
      var node := nb.list[i];
      higher := HigherWeightThan(node.weight, node.addr);
    }

    method HigherWeightThan(weight: U32, a: Address) returns (higher: bool)
      ensures higher == Outranks(State().weight, State().me, weight, a)
    {
      higher := localWeight > weight || (localWeight == weight && mainAddress > a);
    }

    method Are1HopNeighbors(v: Address, w: Address) returns (neighbors: bool)
      requires IndexOf(nb.list, v) < |nb.list| && IndexOf(nb.list, w) < |nb.list|
      ensures neighbors == OneHop(nb.list, v, w)
    {
      var bnV := nb.GetMulticastNeighbors(v);
      var wInV := nb.IntersectionWithAddress(bnV, w);
      var bnW := nb.GetMulticastNeighbors(w);
      var vInW := nb.IntersectionWithAddress(bnW, v);
      neighbors := !(wInV == [] && vInW == []);
      assert w in bnV <==> w in BnOf(nb.list, v);
      assert v in bnW <==> v in BnOf(nb.list, w);
    }

    method Are2HopNeighbors(v: Address, w: Address) returns (neighbors: bool)
      requires IndexOf(nb.list, v) < |nb.list| && IndexOf(nb.list, w) < |nb.list|
      ensures neighbors == TwoHops(nb.list, v, w)
    {
      var bnV := nb.GetMulticastNeighbors(v);
      var bnW := nb.GetMulticastNeighbors(w);
      var common := nb.IntersectionOfSets(bnV, bnW);
      neighbors := common != [];
      assert forall x :: x in bnV && x in bnW <==> x in BnOf(nb.list, v) && x in BnOf(nb.list, w);
    }

    // All ordered pairs of different nodes, the first from one list and the second from the other.
    method IsDirectlyConnected(one: seq<NeighborTuple>, two: seq<NeighborTuple>) returns (pairs: seq<NeighborPair>)
      ensures forall p :: p in pairs <==> PairFrom(one, two, p)
    {
      pairs := [];
      for i := 0 to |one|
        invariant forall p :: p in pairs <==> PairFrom(one[..i], two, p)
      {
        var row := PairsWith(one[i], two);
        pairs := pairs + row;
        assert one[..i + 1] == one[..i] + [one[i]];
      }
      assert one[..|one|] == one;
    }

    // The inner loop of IsDirectlyConnected.
    method PairsWith(t: NeighborTuple, two: seq<NeighborTuple>) returns (pairs: seq<NeighborPair>)
      ensures forall p :: p in pairs <==> PairFrom([t], two, p)
    {
      pairs := [];
      for j := 0 to |two|
        invariant forall p :: p in pairs <==> PairFrom([t], two[..j], p)
      {
        assert two[..j + 1] == two[..j] + [two[j]];
        if t.addr != two[j].addr {
          pairs := pairs + [NeighborPair(t.addr, two[j].addr)];
        }
      }
      assert two[..|two|] == two;
    }

    // The pairs of a backbone neighbour and a neighbour of the given status.
    method PairsOf(status: NodeStatus) returns (pairs: seq<NeighborPair>)
      ensures Enumerates(nb.list, pairs, status)
    {
      var one := nb.GetOneHopNeighbors(NeighNode);
      var two := nb.GetOneHopNeighbors(status);
      pairs := IsDirectlyConnected(one, two);
      forall p: NeighborPair
        ensures PairFrom(one, two, p) <==> PairOf(nb.list, p.first, p.second, status)
      {
      }
    }

    // HandlePushJoinNonDC: whether the three-hop detour of rule 1 exists. The source asserts the status of both nodes.
    method HandlePushJoinNonDC(v: Address, w: Address) returns (exist: bool)
      requires Valid()
      requires HasStatus(nb.list, v, NeighNode)
      requires HasStatus(nb.list, w, NeighNode) || HasStatus(nb.list, w, Core)
      ensures exist == Detour(nb.list, v, w)
    {
      AssertStatuses(v, w);
      var pairs := PairsOf(NeighNode);
      exist := false;
      var k := 0;
      while k < |pairs| && !exist
        invariant 0 <= k <= |pairs|
        invariant exist <==> Any(pairs[..k], DetourFor(nb.list, v, w))
      {
        assert pairs[..k + 1] == pairs[..k] + [pairs[k]] && pairs[k] in pairs;
        AnyAppend(pairs[..k], pairs[k], DetourFor(nb.list, v, w));
        exist := IsDetour(v, w, pairs[k].first, pairs[k].second);
        k := k + 1;
      }
      EarlyExit(nb.list, pairs, NeighNode, k, DetourFor(nb.list, v, w));
      assert forall x, y :: DetourFor(nb.list, v, w)(NeighborPair(x, y)) == DetourVia(nb.list, v, w, x, y);
    }

    // The assertions at its start.
    method AssertStatuses(v: Address, w: Address)
      requires Valid()
      requires HasStatus(nb.list, v, NeighNode)
      requires HasStatus(nb.list, w, NeighNode) || HasStatus(nb.list, w, Core)
      ensures IndexOf(nb.list, v) < |nb.list| && IndexOf(nb.list, w) < |nb.list|
    {
      StatusFound(nb.list, v, NeighNode);
      StatusFound(nb.list, w, NeighNode);
      StatusFound(nb.list, w, Core);
      var i := nb.FindNeighborTuple(v);
      var j := nb.FindNeighborTuple(w);
      assert nb.list[i].status == NeighNode;
      assert nb.list[j].status == NeighNode || nb.list[j].status == Core;
    }

    // The body of its loop.
    method IsDetour(v: Address, w: Address, x: Address, y: Address) returns (exist: bool)
      requires IndexOf(nb.list, v) < |nb.list| && IndexOf(nb.list, w) < |nb.list|
      requires HasStatus(nb.list, x, NeighNode) && HasStatus(nb.list, y, NeighNode)
      ensures exist == DetourVia(nb.list, v, w, x, y)
    {
      var adjacent := Are1HopNeighbors(x, y);
      if !adjacent {
        return false;
      }
      if x == v || x == w || y == v || y == w {
        return false;
      }
      var bnW := nb.GetMulticastNeighbors(v);
      var bnV := nb.GetMulticastNeighbors(w);
      assert forall a :: a in bnW <==> a in BnOf(nb.list, v);
      assert forall a :: a in bnV <==> a in BnOf(nb.list, w);
      var vBnX := Holds(bnV, x);
      var wBnY := Holds(bnW, y);
      var vBnY := Holds(bnV, y);
      var wBnX := Holds(bnW, x);
      exist := (vBnX && wBnY) || (vBnY && wBnX);
    }

    method Holds(bn: seq<Address>, a: Address) returns (holds: bool)
      ensures holds <==> a in bn
    {
      var common := nb.IntersectionWithAddress(bn, a);
      holds := common != [];
    }

    // Whether two known neighbours are linked, as HandlePushJoin and HandleJoinAmNotDuplex test it.
    method AreLinked(v: Address, w: Address) returns (linked: bool)
      requires Valid() && v != w
      requires HasStatus(nb.list, v, NeighNode)
      requires HasStatus(nb.list, w, NeighNode) || HasStatus(nb.list, w, Core)
      ensures linked == Linked(State(), v, w)
    {
      var oneHop := Are1HopNeighbors(v, w);
      var twoHop := Are2HopNeighbors(v, w);
      AssertOneOrTwo(v, w, oneHop, twoHop);
      linked := oneHop || twoHop;
      if !linked && rule1 {
        linked := HandlePushJoinNonDC(v, w);
      }
    }

    // The source asserts that the closed neighbourhoods meet exactly when the nodes are one or two hops apart.
    method AssertOneOrTwo(v: Address, w: Address, oneHop: bool, twoHop: bool)
      requires v != w && IndexOf(nb.list, v) < |nb.list| && IndexOf(nb.list, w) < |nb.list|
      requires oneHop == OneHop(nb.list, v, w) && twoHop == TwoHops(nb.list, v, w)
    {
      var bnV := nb.GetMulticastNeighbors(v);
      var bnW := nb.GetMulticastNeighbors(w);
      assert forall x :: x in bnV <==> x in BnOf(nb.list, v);
      assert forall x :: x in bnW <==> x in BnOf(nb.list, w);
      assert forall x :: x in bnV + [v] <==> x in bnV || x == v;
      assert forall x :: x in bnW + [w] <==> x in bnW || x == w;
      if oneHop {
        assert (w in bnV + [v] && w in bnW + [w]) || (v in bnV + [v] && v in bnW + [w]);
      } else if twoHop {
        ghost var x :| x in BnOf(nb.list, v) && x in BnOf(nb.list, w);
        assert x in bnV + [v] && x in bnW + [w];
      }
      var both := nb.IntersectionOfSets(bnV + [v], bnW + [w]);
      assert (both != []) == (oneHop || twoHop);
    }

    // ---------- joining ----------

    method BCN2BNRule2() returns (allowed: bool)
      ensures allowed == Rule2Allows(State())
    {
      if rule2 {
        return if localCurrentBn > localLastBn then false else true;
      } else {
        return true;
      }
    }

    method HandleJoin() returns (convert: bool)
      ensures convert == MustJoin(State())
    {
      var bn := nb.GetOneHopNeighbors(NeighNode);
      var conversion1a := bn == [];
      NoneLeft(nb.list, HasNodeStatus(NeighNode));
      var best := nb.GetBestNeighbor(Core);
      var conversion1b := false;
      if best.Some? {
        conversion1b := HigherWeightThan(best.value.weight, best.value.addr);
      }
      var coreClients := nb.GetClients(Core);
      NoneLeft(nb.list, IsClient(Core));
      var rnClients := nb.GetClients(RnNode);
      NoneLeft(nb.list, IsClient(RnNode));
      var conversion2 := !(coreClients == [] && rnClients == []);
      convert := (conversion1a && conversion1b) || conversion2;
    }

    method HandlePushJoin() returns (pair2connect: bool)
      requires Valid()
      ensures pair2connect == PushedToJoin(State())
    {
      var pairs := PairsOf(NeighNode);
      pair2connect := false;
      var k := 0;
      while k < |pairs| && !pair2connect
        invariant 0 <= k <= |pairs|
        invariant pair2connect <==> Any(pairs[..k], NeedsMeFor(State()))
      {
        assert pairs[..k + 1] == pairs[..k] + [pairs[k]] && pairs[k] in pairs;
        AnyAppend(pairs[..k], pairs[k], NeedsMeFor(State()));
        pair2connect := PairNeedsMe(pairs[k].first, pairs[k].second);
        k := k + 1;
      }
      EarlyExit(nb.list, pairs, NeighNode, k, NeedsMeFor(State()));
      assert forall v, w :: NeedsMeFor(State())(NeighborPair(v, w)) == NeedsMe(State(), v, w);
    }

    // The body of its loop.
    method PairNeedsMe(v: Address, w: Address) returns (connect: bool)
      requires Valid() && PairOf(nb.list, v, w, NeighNode)
      ensures connect == NeedsMe(State(), v, w)
    {
      var linked := AreLinked(v, w);
      if linked {
        return false;
      }
      var xExist := SomeCoreConnects(v, w);
      connect := !xExist;
    }

    // The inner loop over the core neighbours.
    method SomeCoreConnects(v: Address, w: Address) returns (xExist: bool)
      requires IndexOf(nb.list, v) < |nb.list| && IndexOf(nb.list, w) < |nb.list|
      ensures xExist <==> exists x :: HasStatus(nb.list, x, Core) && Connects(State(), x, v, w)
    {
      hide Connects, ConnectsIndirectly;
      var core := nb.GetOneHopNeighbors(Core);
      xExist := false;
      var k := 0;
      while k < |core| && !xExist
        invariant 0 <= k <= |core|
        invariant xExist ==> k > 0 && Connects(State(), core[k - 1].addr, v, w)
        invariant !xExist ==> forall n :: 0 <= n < k ==> !Connects(State(), core[n].addr, v, w)
      {
        assert core[k] in core;
        xExist := CanConnect(core[k].addr, v, w);
        k := k + 1;
      }
      CoreMember(nb.list, core);
      if xExist {
        assert core[k - 1] in core;
        assert HasStatus(nb.list, core[k - 1].addr, Core);
      }
    }

    method CanConnect(x: Address, v: Address, w: Address) returns (can: bool)
      requires IndexOf(nb.list, v) < |nb.list| && IndexOf(nb.list, w) < |nb.list| && IndexOf(nb.list, x) < |nb.list|
      ensures can == Connects(State(), x, v, w)
    {
      var neighborXV := Are1HopNeighbors(x, v);
      var neighborXW := Are1HopNeighbors(x, w);
      var higher := HigherWeight(x);
      can := neighborXW && neighborXV && !higher;
    }

    // The pairs of a backbone and a core neighbour that nothing links yet.
    method HandleJoinAmNotDuplex() returns (noConnectedPair: seq<NeighborPair>)
      requires Valid()
      ensures forall p :: p in noConnectedPair <==>
        PairOf(nb.list, p.first, p.second, Core) && !Linked(State(), p.first, p.second)
    {
      hide Linked;
      var pairs := PairsOf(Core);
      noConnectedPair := [];
      var k := 0;
      while k < |pairs|
        invariant 0 <= k <= |pairs|
        invariant noConnectedPair == Filter(pairs[..k], NotLinked(State()))
      {
        FilterStep(pairs, k, NotLinked(State()));
        var ipv, ipw := pairs[k].first, pairs[k].second;
        assert ipv != ipw;
        assert IndexOf(nb.list, ipv) < |nb.list| && IndexOf(nb.list, ipw) < |nb.list|;
        var linked := AreLinked(ipv, ipw);
        if !linked {
          noConnectedPair := noConnectedPair + [NeighborPair(ipv, ipw)];
        }
        k := k + 1;
      }
      assert pairs[..k] == pairs;
    }

    method HandleJoinAmDuplex() returns (pair2connect: bool)
      requires Valid()
      ensures pair2connect == PushedToJoinIndirectly(State())
    {
      var pairs := HandleJoinAmNotDuplex();
      pair2connect := false;
      var k := 0;
      while k < |pairs| && !pair2connect
        invariant 0 <= k <= |pairs|
        invariant pair2connect <==> Any(pairs[..k], NeedsMeIndirectlyFor(State()))
      {
        assert pairs[..k + 1] == pairs[..k] + [pairs[k]] && pairs[k] in pairs;
        AnyAppend(pairs[..k], pairs[k], NeedsMeIndirectlyFor(State()));
        pair2connect := PairNeedsMeIndirectly(pairs[k].first, pairs[k].second);
        k := k + 1;
      }
      IndirectExit(State(), pairs, k);
    }

    // The body of its loop.
    method PairNeedsMeIndirectly(v: Address, w: Address) returns (connect: bool)
      requires Valid() && PairOf(nb.list, v, w, Core) && !Linked(State(), v, w)
      ensures connect == NeedsMeIndirectly(State(), v, w)
    {
      var bnW := nb.GetMulticastNeighbors(w);
      assert forall x :: x in bnW <==> x in BnOf(nb.list, w);
      AssertApart(v, w, bnW);
      if bnW == [] {
        return false;
      }
      assert bnW[0] in bnW;
      var xExist := SomeCoreConnectsIndirectly(v, w);
      connect := !xExist;
    }

    // The inner loop over the core neighbours.
    method SomeCoreConnectsIndirectly(v: Address, w: Address) returns (xExist: bool)
      requires IndexOf(nb.list, v) < |nb.list| && IndexOf(nb.list, w) < |nb.list|
      ensures xExist <==> exists x :: HasStatus(nb.list, x, Core) && ConnectsIndirectly(State(), x, v, w)
    {
      hide Connects, ConnectsIndirectly;
      var core := nb.GetOneHopNeighbors(Core);
      xExist := false;
      var k := 0;
      while k < |core| && !xExist
        invariant 0 <= k <= |core|
        invariant xExist ==> k > 0 && ConnectsIndirectly(State(), core[k - 1].addr, v, w)
        invariant !xExist ==> forall n :: 0 <= n < k ==> !ConnectsIndirectly(State(), core[n].addr, v, w)
      {
        assert core[k] in core;
        xExist := CanConnectIndirectly(core[k].addr, v, w);
        k := k + 1;
      }
      CoreMember(nb.list, core);
      if xExist {
        assert core[k - 1] in core;
        assert HasStatus(nb.list, core[k - 1].addr, Core);
      }
    }

    // The source asserts that w's backbone neighbours and those of v, with v itself, are disjoint.
    method AssertApart(v: Address, w: Address, bnW: seq<Address>)
      requires PairOf(nb.list, v, w, Core) && !Linked(State(), v, w)
      requires forall x :: x in bnW <==> x in BnOf(nb.list, w)
    {
      var bnV := nb.GetMulticastNeighbors(v);
      assert forall x :: x in bnV <==> x in BnOf(nb.list, v);
      assert forall x :: x in [v] + bnV <==> x in bnV || x == v;
      var both := nb.IntersectionOfSets(bnW, [v] + bnV);
      assert both == [];
    }

    method CanConnectIndirectly(x: Address, v: Address, w: Address) returns (can: bool)
      requires IndexOf(nb.list, w) < |nb.list| && IndexOf(nb.list, x) < |nb.list|
      ensures can == ConnectsIndirectly(State(), x, v, w)
    {
      if x == w {
        return false;
      }
      var bnX := nb.GetMulticastNeighbors(x);
      assert v in bnX <==> v in BnOf(nb.list, x);
      var neighborXV := Holds(bnX, v);
      var neighborXZ := Are2HopNeighbors(x, w);
      var higher := HigherWeight(x);
      can := neighborXV && neighborXZ && !higher;
    }

    method JoiningQuittingMechanism() returns (bcn2bn: bool)
      requires Valid() && localNodeStatus == Core
      modifies this`localNodeStatus
      ensures State() == Join(old(State())) && bcn2bn == Joins(old(State()))
    {
      var allowed := BCN2BNRule2();
      if !allowed {
        return false;
      }
      var conv1 := HandleJoin();
      var conv2 := HandlePushJoin();
      var conv3 := HandleJoinAmDuplex();
      bcn2bn := conv1 || conv2 || conv3;
      if bcn2bn {
        localNodeStatus := NeighNode;
      }
    }

    method AssociationAlgorithm()
      requires localNodeStatus != NeighNode
      modifies this`localAssociated
      ensures State() == Associate(old(State()))
    {
      var best := nb.GetBestNeighbor(NeighNode);
      if best == None {
        best := nb.GetBestNeighbor(Core);
      }
      if best == None {
        best := nb.GetBestNeighbor(RnNode);
      }
      if best.Some? {
        localAssociated := best.value.addr;
      }
    }

    // ---------- quitting ----------

    method HeartBeatPushJoinAnchors1() returns (holds: bool)
      ensures holds == ClientsServed(nb.list)
    {
      var rnClients := nb.GetClients(RnNode);
      NoneLeft(nb.list, IsClient(RnNode));
      var cond1 := rnClients == [];
      var cond2 := true;
      if cond1 {
        cond2 := CoreClientsServed();
      }
      holds := cond1 && cond2;
    }

    // The loop over the core clients, which stops when condition 1 is known to fail.
    method CoreClientsServed() returns (cond2: bool)
      ensures cond2 <==> forall t :: t in nb.list && t.client && t.status == Core ==> |t.bnNeighbors| > 1
    {
      var core := nb.GetOneHopNeighbors(Core);
      cond2 := true;
      var k := 0;
      while k < |core| && cond2
        invariant 0 <= k <= |core|
        invariant cond2 <==> forall n :: 0 <= n < k && core[n].client ==> |core[n].bnNeighbors| > 1
      {
        if core[k].client {
          cond2 := |core[k].bnNeighbors| > 1;
        }
        k := k + 1;
      }
      assert forall n :: 0 <= n < |core| ==> core[n] in core;
    }

    method HeartBeatPushJoinAnchors2A(gp: seq<NeighborPair>) returns (noDirect: seq<NeighborPair>)
      requires forall p :: p in gp ==> Find(nb.list, p.first).Some? && Find(nb.list, p.second).Some?
      ensures noDirect == Filter(gp, NotDirect(State()))
    {
      hide StaysDirect;
      noDirect := [];
      for k := 0 to |gp|
        invariant noDirect == Filter(gp[..k], NotDirect(State()))
      {
        FilterStep(gp, k, NotDirect(State()));
        var direct := IsDirect(gp[k].first, gp[k].second);
        if !direct {
          noDirect := noDirect + [NeighborPair(gp[k].first, gp[k].second)];
        }
      }
      assert gp[..|gp|] == gp;
    }

    method IsDirect(v: Address, w: Address) returns (direct: bool)
      requires Find(nb.list, v).Some? && Find(nb.list, w).Some?
      ensures direct == StaysDirect(State(), v, w)
    {
      var i := nb.FindNeighborTuple(v);
      var j := nb.FindNeighborTuple(w);
      var nodeV, nodeW := nb.list[i], nb.list[j];
      var neighbors := Are1HopNeighbors(v, w);
      var overV := HigherWeight(v);
      var overW := HigherWeight(w);
      var higher := !overV || !overW;
      var breaker := nodeV.indicator == ConvertBreak || nodeW.indicator == ConvertBreak;
      direct := neighbors && (higher || breaker);
    }

    method HeartBeatPushJoinAnchors3A(gp: seq<NeighborPair>) returns (noDirect: seq<NeighborPair>)
      requires forall p :: p in gp ==> Find(nb.list, p.first).Some? && Find(nb.list, p.second).Some?
      ensures noDirect == Filter(gp, CoreNotDirect(State()))
    {
      hide CoreStaysDirect;
      noDirect := [];
      for k := 0 to |gp|
        invariant noDirect == Filter(gp[..k], CoreNotDirect(State()))
      {
        FilterStep(gp, k, CoreNotDirect(State()));
        var direct := IsCoreDirect(gp[k].first, gp[k].second);
        if !direct {
          noDirect := noDirect + [gp[k]];
        }
      }
      assert gp[..|gp|] == gp;
    }

    method IsCoreDirect(v: Address, w: Address) returns (direct: bool)
      requires Find(nb.list, v).Some? && Find(nb.list, w).Some?
      ensures direct == CoreStaysDirect(State(), v, w)
    {
      var connected := Are1HopNeighbors(v, w);
      var i := nb.FindNeighborTuple(v);
      var bn := nb.list[i];
      var over := HigherWeightThan(bn.weight, bn.addr);
      var breaker := bn.indicator == ConvertBreak;
      direct := connected && (!over || breaker);
    }

    // Rules 2b and 3b are the same test.
    method HeartBeatPushJoinAnchorsB(gp: seq<NeighborPair>) returns (noIndirect: seq<NeighborPair>)
      requires forall p :: p in gp ==> Find(nb.list, p.first).Some? && Find(nb.list, p.second).Some?
      ensures noIndirect == Filter(gp, NotIndirect(State()))
    {
      hide StaysIndirect;
      noIndirect := [];
      for k := 0 to |gp|
        invariant noIndirect == Filter(gp[..k], NotIndirect(State()))
      {
        FilterStep(gp, k, NotIndirect(State()));
        var convert := IsIndirect(gp[k]);
        if !convert {
          noIndirect := noIndirect + [gp[k]];
        }
      }
      assert gp[..|gp|] == gp;
    }

    // The loop over the common backbone neighbours of a pair.
    method IsIndirect(pair: NeighborPair) returns (convert: bool)
      requires Find(nb.list, pair.first).Some? && Find(nb.list, pair.second).Some?
      ensures convert == StaysIndirect(State(), pair.first, pair.second)
    {
      var nodesX := nb.GetCommonBN(pair);
      convert := false;
      var k := 0;
      while k < |nodesX| && !convert
        invariant 0 <= k <= |nodesX|
        invariant convert ==> k > 0 && Survivor(State(), pair.first, nodesX[k - 1])
        invariant !convert ==> forall n :: 0 <= n < k ==> !Survivor(State(), pair.first, nodesX[n])
      {
        assert nodesX[k] in nodesX;
        convert := Survives(pair, nodesX[k]);
        k := k + 1;
      }
      if convert {
        assert nodesX[k - 1] in nodesX;
      } else {
        assert forall x :: x in nodesX ==> !Survivor(State(), pair.first, x);
      }
    }

    // Its body; the source asserts that both neighbours list the common node.
    method Survives(pair: NeighborPair, x: Address) returns (convert: bool)
      requires Find(nb.list, pair.first).Some? && Find(nb.list, pair.second).Some?
      requires x in BnOf(nb.list, pair.first) && x in BnOf(nb.list, pair.second)
      ensures convert == Survivor(State(), pair.first, x)
    {
      var mine := IsMyOwnAddress(x);
      if mine {
        return false;
      }
      var commonBn := nb.FindMulticastBnNeighborTuple(pair.first, x);
      var commonBnW := nb.FindMulticastBnNeighborTuple(pair.second, x);
      assert commonBn.Some? && commonBnW.Some? && commonBn.value.addr == commonBnW.value.addr;
      var over := HigherWeightThan(commonBn.value.weight, commonBn.value.addr);
      var breaker := commonBn.value.indicator == ConvertBreak;
      convert := !over || breaker;
    }

    // So are rules 2c and 3c.
    method HeartBeatPushJoinAnchorsC(gp: seq<NeighborPair>) returns (no3hop: seq<NeighborPair>)
      requires Valid()
      requires forall p :: p in gp ==>
                 PairOf(nb.list, p.first, p.second, NeighNode) || PairOf(nb.list, p.first, p.second, Core)
      ensures no3hop == Filter(gp, NotDetoured(State()))
    {
      hide Detour;
      if !rule1 {
        FilterAll(gp, NotDetoured(State()));
        return gp;
      }
      no3hop := [];
      for k := 0 to |gp|
        invariant no3hop == Filter(gp[..k], NotDetoured(State()))
      {
        FilterStep(gp, k, NotDetoured(State()));
        var detour := HandlePushJoinNonDC(gp[k].first, gp[k].second);
        if !detour {
          no3hop := no3hop + [gp[k]];
        }
      }
      assert gp[..|gp|] == gp;
    }

    method HeartBeatPushJoinAnchors2() returns (holds: bool)
      requires Valid()
      ensures holds == BackboneStaysLinked(State())
    {
      hide StaysDirect, StaysIndirect, StaysDetoured;
      var gp := PairsOf(NeighNode);
      var gpA := HeartBeatPushJoinAnchors2A(gp);
      var gpB := HeartBeatPushJoinAnchorsB(gpA);
      var gpC := HeartBeatPushJoinAnchorsC(gpB);
      ChainEmpty(nb.list, gp, NeighNode, NotDirect(State()), NotIndirect(State()), NotDetoured(State()));
      holds := gpC == [];
    }

    method HeartBeatPushJoinAnchors3() returns (holds: bool)
      requires Valid()
      ensures holds == CoreStaysLinked(State())
    {
      hide CoreStaysDirect, StaysIndirect, StaysDetoured;
      var pairs := PairsOf(Core);
      var pairsA := HeartBeatPushJoinAnchors3A(pairs);
      var pairsB := HeartBeatPushJoinAnchorsB(pairsA);
      var pairsC := HeartBeatPushJoinAnchorsC(pairsB);
      ChainEmpty(nb.list, pairs, Core, CoreNotDirect(State()), NotIndirect(State()), NotDetoured(State()));
      holds := pairsC == [];
    }

    method HeartBeatPushJoinAnchors() returns (bn2bcn: bool)
      requires Valid() && localNodeStatus == NeighNode
      modifies this`localIndicator, this`localNodeStatus
      ensures State() == Quit(old(State())) && bn2bcn == Quits(old(State()))
    {
      hide ClientsServed, BackboneStaysLinked, CoreStaysLinked;
      var cond1 := HeartBeatPushJoinAnchors1();
      var cond2 := HeartBeatPushJoinAnchors2();
      var cond3 := HeartBeatPushJoinAnchors3();
      localIndicator := ConvertOther;
      if !cond1 || !(cond2 && cond3) {
        localIndicator := ConvertBreak;
      }
      if cond1 && !(cond2 && cond3) {
        localIndicator := ConvertAllow;
      }
      bn2bcn := cond1 && cond2 && cond3;
      if bn2bcn {
        localNodeStatus := Core;
      }
    }

    // ---------- the long timer ----------

    method UpdateLocalWeight()
      modifies this`localWeight
      ensures State() == Weighed(old(State()))
    {
      match localWeightFunction {
        case NodeIp => localWeight := mainAddress;
        case NodeRandom =>
        case NodeBnDegree =>
          var size := nb.GetNeighborhoodSize(NeighNode);
          localWeight := size % 0x1_0000_0000;
        case NodeDegree =>
          localWeight := |nb.list| % 0x1_0000_0000;
      }
    }

    method UpdateLocalLastBnNeighbors()
      modifies this`localLastBn, this`localCurrentBn
      ensures State() == Recounted(old(State()))
    {
      localLastBn := localCurrentBn;
      var size := nb.GetNeighborhoodSize(NeighNode);
      localCurrentBn := size % 0x1_0000;
    }

    // What the link failures found by the two purges of a round do to the routes.
    ghost function LossesOfRound(now: Time): RepairState
      reads nb, nb.failures, nb.failures.table
    {
      var heard := Heard(nb.minHello);
      LinksBroken(nb.FailuresAfter(Lost(nb.list, heard), now), nb.failures.table.badLinkLifetime,
                  nb.failures.rerrRateLimit, Lost(Filter(nb.list, heard), Open(now)), now)
    }

    // The neighbours that the two purges remove, in order.
    ghost function LostInRound(now: Time): seq<Address>
      reads nb
    {
      var heard := Heard(nb.minHello);
      Lost(nb.list, heard) + Lost(Filter(nb.list, heard), Open(now))
    }

    method LongTimerExpire(now: Time)
      requires Valid() && nb.CanLose(LostInRound(now), now)
      modifies this`localWeight, this`localLastBn, this`localCurrentBn, this`localAssociated, this`localNodeStatus,
               this`localIndicator, nb`list, nb.failures`rerrCount, nb.failures`sent, nb.failures.table`entries
      ensures State() == LongTimer(old(State()), nb.minHello, now)
      ensures nb.failures.State() == old(LossesOfRound(now))
      ensures Valid()
    {
      hide LossesOfRound, Weighed, Recounted, Decide, Filter, LossesFit;
      PurgeRound(now);
      UpdateLocalWeight();
      UpdateLocalLastBnNeighbors();
      DecideNow();
      nb.ResetHelloCounter();
    }

    // Its two purges.
    method PurgeRound(now: Time)
      requires Valid() && nb.CanLose(LostInRound(now), now)
      modifies nb`list, nb.failures`rerrCount, nb.failures`sent, nb.failures.table`entries
      ensures nb.list == Filter(Filter(old(nb.list), Heard(nb.minHello)), Open(now))
      ensures nb.failures.State() == old(LossesOfRound(now))
      ensures Valid()
    {
      hide LinksBroken, Filter, Lost, LossFitsOneRerr, RoutingTables.Purged;
      FilterKeepsDistinct(nb.list, Heard(nb.minHello));
      FilterKeepsDistinct(Filter(nb.list, Heard(nb.minHello)), Open(now));
      ghost var s, bad, limit := nb.failures.State(), nb.failures.table.badLinkLifetime, nb.failures.rerrRateLimit;
      LinksBrokenKeepLossesFit(s, bad, limit, Lost(nb.list, Heard(nb.minHello)), now, LostInRound(now));
      nb.PurgeHello(now);
      nb.Purge(now);
    }

    // The switch of LongTimerExpire.
    method DecideNow()
      requires Valid()
      modifies this`localAssociated, this`localNodeStatus, this`localIndicator
      ensures State() == Decide(old(State()))
    {
      hide Join, Quit, Associate;
      match localNodeStatus {
        case RnNode =>
          AssociationAlgorithm();
        case Core =>
          AssociationAlgorithm();
          var joined := JoiningQuittingMechanism();
        case NeighNode =>
          var quit := HeartBeatPushJoinAnchors();
      }
    }

    // ---------- hellos ----------

    // Sends a HELLO of the node on each of its interfaces, with one sequence number after the other.
    method SendHello(interfaces: nat) returns (hellos: seq<Hello>)
      modifies this`messageSequenceNumber
      ensures |hellos| == interfaces
      ensures forall i :: 0 <= i < interfaces ==>
        hellos[i] == Greeting(State(), (old(messageSequenceNumber) as nat + i) % 0x1_0000)
      ensures messageSequenceNumber as nat == (old(messageSequenceNumber) as nat + interfaces) % 0x1_0000
      ensures State() == old(State())
    {
      hellos := [];
      for j := 0 to interfaces
        invariant |hellos| == j && State() == old(State())
        invariant messageSequenceNumber as nat == (old(messageSequenceNumber) as nat + j) % 0x1_0000
        invariant forall i :: 0 <= i < j ==>
                    hellos[i] == Greeting(State(), (old(messageSequenceNumber) as nat + i) % 0x1_0000)
      {
        var tset := nb.GetBnNeighbors();
        hellos := hellos + [Hello(messageSequenceNumber, localNodeStatus, localIndicator, mainAddress, localAssociated,
                                  localWeightFunction, localWeight, tset)];
        messageSequenceNumber := (messageSequenceNumber as nat + 1) % 0x1_0000;
      }
    }

    method ShortTimerExpire(interfaces: nat) returns (hellos: seq<Hello>)
      modifies this`localLastBn, this`localCurrentBn, this`localWeight, this`messageSequenceNumber
      ensures State() == Weighed(Recounted(old(State())))
      ensures |hellos| == interfaces
      ensures forall i :: 0 <= i < interfaces ==>
        hellos[i] == Greeting(State(), (old(messageSequenceNumber) as nat + i) % 0x1_0000)
      ensures messageSequenceNumber as nat == (old(messageSequenceNumber) as nat + interfaces) % 0x1_0000
    {
      hide Weighed, Recounted;
      UpdateLocalLastBnNeighbors();
      UpdateLocalWeight();
      hellos := SendHello(interfaces);
    }

    // Whether the node has heard this HELLO of the sender lately.
    ghost predicate Knows(hello: Hello, now: Time)
      reads helloIdCache
    {
      IdCaches.Answer(helloIdCache.State(), HelloKey(hello), now)
    }

    ghost predicate CanRoute()
      reads nb, nb.failures, nb.failures.table
    {
      nb.failures.table.badLinkLifetime >= 0 && RouteMemory.WellKept(nb.failures.table.entries)
    }

    // RecvAodv for a HELLO: the route to the IP source comes first.
    method RecvHelloMessage(sender: Address, hello: Hello, iface: Address, activeRouteTimeout: Time, longInterval: Time,
                            lifetime: Time, now: Time)
      requires Valid() && CanRoute()
      modifies helloIdCache`cache, nb`list, nb.failures`rerrCount, nb.failures`sent, nb.failures.table`entries
      ensures helloIdCache.State() == IdCaches.Checked(old(helloIdCache.State()), HelloKey(hello), now)
      ensures State() == if old(Knows(hello, now)) then old(State())
                         else Greet(old(State()), hello, enableHello, longInterval, lifetime, now)
      ensures nb.failures.State() == old(nb.failures.State()).(table :=
        if old(Knows(hello, now)) then
          RouteByMessage(old(nb.failures.table.entries), sender, iface, activeRouteTimeout,
                         nb.failures.table.badLinkLifetime, now)
        else
          RouteByHelloMessage(old(nb.failures.table.entries), sender, hello.origin, hello.sequenceNumber, iface,
                              activeRouteTimeout, longInterval, lifetime, nb.failures.table.badLinkLifetime, now))
      ensures Valid() && CanRoute()
    {
      hide RouteByMessage, RouteByHello, Greet, RouteMemory.WellKept, IdCaches.Answer, IdCaches.Checked;
      MessageGivesRoute(nb.failures.table.entries, sender, iface, activeRouteTimeout,
                        nb.failures.table.badLinkLifetime, now);
      UpdateRouteToNeighbor(nb.failures.table, sender, iface, activeRouteTimeout, now);
      RecvHello(hello, iface, longInterval, lifetime, now);
    }

    // A HELLO heard lately is ignored; any other refreshes the neighbour list and gives the sender a route.
    method RecvHello(hello: Hello, iface: Address, longInterval: Time, lifetime: Time, now: Time)
      requires Valid() && CanRoute()
      modifies helloIdCache`cache, nb`list, nb.failures`rerrCount, nb.failures`sent, nb.failures.table`entries
      ensures helloIdCache.State() == IdCaches.Checked(old(helloIdCache.State()), HelloKey(hello), now)
      ensures State() == if old(Knows(hello, now)) then old(State())
                         else Greet(old(State()), hello, enableHello, longInterval, lifetime, now)
      ensures nb.failures.State() == old(nb.failures.State()).(table :=
        if old(Knows(hello, now)) then old(nb.failures.table.entries)
        else RouteByHello(old(nb.failures.table.entries), hello.origin, hello.sequenceNumber, iface, longInterval,
                          lifetime, nb.failures.table.badLinkLifetime, now))
      ensures Valid() && CanRoute()
    {
      hide HelloApplied, BnApplied, Refreshed, RouteByHello, RouteMemory.WellKept, IdCaches.Answer, IdCaches.Checked;
      var duplicate := helloIdCache.IsDuplicate(hello.origin, hello.sequenceNumber, now);
      if duplicate {
        return;
      }
      var client := IsMyOwnAddress(hello.associated);
      nb.UpdateNeighborTuple(hello, client, now);
      BnAppliedKeepsDistinct(nb.list, hello, longInterval, now);
      nb.UpdateMulticastNeighborTuple(hello, longInterval, now);
      HelloGivesRoute(nb.failures.table.entries, hello.origin, hello.sequenceNumber, iface, longInterval, lifetime,
                      nb.failures.table.badLinkLifetime, now);
      RouteToSender(nb.failures.table, hello.origin, hello.sequenceNumber, iface, longInterval, lifetime, now);
      if enableHello {
        RefreshedKeepsDistinct(nb.list, hello.origin, lifetime, now);
        nb.Update(hello.origin, lifetime, now);
      }
    }
  }
}
