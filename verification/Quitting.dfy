/** Leaving the backbone is safe: what the quitting conditions guarantee about the network. */
module Quitting {
  import opened Types
  import opened NeighborTuples
  import opened BackboneRules
  import opened Networks

  // ---------- the conditions, read on the network ----------

  ghost predicate Between(net: Network, x: Address, v: Address, w: Address) {
    Is(net, x, NeighNode) && Adjacent(net, v, x) && Adjacent(net, w, x)
  }

  ghost predicate BnLink(net: Network, u: Address, a: Address) {
    Adjacent(net, u, a) && Is(net, a, NeighNode)
  }

  // v - y - x - w over backbone neighbours of u.
  ghost predicate DetourOver(net: Network, u: Address, v: Address, w: Address, x: Address, y: Address) {
    && BnLink(net, u, x) && BnLink(net, u, y)
    && Adjacent(net, x, y) && x != v && x != w && y != v && y != w
    && Adjacent(net, v, y) && Adjacent(net, w, x)
  }

  ghost predicate HasDetour(net: Network, u: Address, v: Address, w: Address) {
    exists x, y :: DetourOver(net, u, v, w, x, y)
  }

  ghost predicate Outlasts(net: Network, x: Address, u: Address)
    requires x in net && u in net
  {
    Above(net, x, u) || Breaker(net, x)
  }

  ghost predicate KeptDirect(net: Network, u: Address, v: Address, w: Address)
    requires u in net && v in net && w in net
  {
    Adjacent(net, v, w) && (Outlasts(net, v, u) || Outlasts(net, w, u))
  }

  ghost predicate KeptIndirect(net: Network, u: Address, v: Address, w: Address)
    requires u in net
  {
    exists x :: x != u && Between(net, x, v, w) && Outlasts(net, x, u)
  }

  lemma DirectOnNet(net: Network, u: Address, st: LocalState, v: Address, w: Address)
    requires WellFormed(net) && Accurate(net, u, st)
    requires BnLink(net, u, v) && BnLink(net, u, w)
    ensures StaysDirect(st, v, w) <==> KeptDirect(net, u, v, w)
  {
    SeenOneHop(net, u, st, v, w);
    SeenPriority(net, u, st, v);
    SeenPriority(net, u, st, w);
  }

  // The entry of a common backbone neighbour tells whether it outlasts u.
  lemma SurvivorOnNet(net: Network, u: Address, st: LocalState, v: Address, x: Address)
    requires WellFormed(net) && Accurate(net, u, st)
    requires Adjacent(net, u, v) && net[v].status != RnNode && x in BnLinks(net, v)
    ensures Survivor(st, v, x) <==> x != u && Outlasts(net, x, u)
  {
    SeenTuple(net, u, st, v);
    var bn := Find(st.list, v).value.bnNeighbors;
    assert x in Addresses(bn);
    var e := FindTwoHop(bn, x).value;
    assert e in bn && e.addr == x;
  }

  lemma IndirectOnNet(net: Network, u: Address, st: LocalState, v: Address, w: Address)
    requires WellFormed(net) && Accurate(net, u, st)
    requires Adjacent(net, u, v) && net[v].status != RnNode && Adjacent(net, u, w) && net[w].status != RnNode
    ensures StaysIndirect(st, v, w) <==> KeptIndirect(net, u, v, w)
  {
    SeenBn(net, u, st, v);
    SeenBn(net, u, st, w);
    forall x
      ensures x in BnOf(st.list, v) && x in BnOf(st.list, w) && Survivor(st, v, x) <==>
              x != u && Between(net, x, v, w) && Outlasts(net, x, u)
    {
      if x in BnLinks(net, v) {
        SurvivorOnNet(net, u, st, v, x);
      }
    }
  }

  lemma DetourViaOnNet(net: Network, u: Address, st: LocalState, v: Address, w: Address, x: Address, y: Address)
    requires WellFormed(net) && Accurate(net, u, st)
    requires Adjacent(net, u, v) && net[v].status != RnNode && Adjacent(net, u, w) && net[w].status != RnNode
    requires BnLink(net, u, x) && BnLink(net, u, y)
    ensures DetourVia(st.list, v, w, x, y) <==> DetourOver(net, u, v, w, x, y) || DetourOver(net, u, v, w, y, x)
  {
    SeenBn(net, u, st, v);
    SeenBn(net, u, st, w);
    SeenOneHop(net, u, st, x, y);
  }

  lemma DetourOnNet(net: Network, u: Address, st: LocalState, v: Address, w: Address)
    requires WellFormed(net) && Accurate(net, u, st)
    requires Adjacent(net, u, v) && net[v].status != RnNode && Adjacent(net, u, w) && net[w].status != RnNode
    ensures Detour(st.list, v, w) <==> HasDetour(net, u, v, w)
  {
    forall x, y
      ensures HasStatus(st.list, x, NeighNode) && HasStatus(st.list, y, NeighNode) && x != y &&
              DetourVia(st.list, v, w, x, y) <==>
              DetourOver(net, u, v, w, x, y) || DetourOver(net, u, v, w, y, x)
    {
      SeenStatus(net, u, st, x, NeighNode);
      SeenStatus(net, u, st, y, NeighNode);
      if BnLink(net, u, x) && BnLink(net, u, y) {
        DetourViaOnNet(net, u, st, v, w, x, y);
      }
    }
  }

  // HandlePushJoinNonDC does not depend on the order of its two arguments.
  lemma DetourSymmetric(list: seq<NeighborTuple>, v: Address, w: Address)
    ensures Detour(list, v, w) <==> Detour(list, w, v)
  {
    forall a, b | Detour(list, a, b)
      ensures Detour(list, b, a)
    {
      var x, y :|
        HasStatus(list, x, NeighNode) && HasStatus(list, y, NeighNode) && x != y && DetourVia(list, a, b, x, y);
      assert DetourVia(list, b, a, x, y);
    }
  }

  ghost predicate Kept(net: Network, u: Address, rule1: bool, v: Address, w: Address)
    requires u in net && v in net && w in net
  {
    KeptDirect(net, u, v, w) || KeptIndirect(net, u, v, w) || (rule1 && HasDetour(net, u, v, w))
  }

  // Condition 2, as computed from an accurate view, is a property of the network around the node.
  lemma BackboneStaysLinkedOnNet(net: Network, u: Address, st: LocalState)
    requires WellFormed(net) && Accurate(net, u, st)
    ensures BackboneStaysLinked(st) <==>
            forall v, w :: BnLink(net, u, v) && BnLink(net, u, w) && v != w ==> Kept(net, u, st.rule1, v, w)
  {
    forall v, w
      ensures PairOf(st.list, v, w, NeighNode) <==> BnLink(net, u, v) && BnLink(net, u, w) && v != w
      ensures BnLink(net, u, v) && BnLink(net, u, w) ==>
        (StaysDirect(st, v, w) || StaysIndirect(st, v, w) || StaysDetoured(st, v, w) <==> Kept(net, u, st.rule1, v, w))
    {
      SeenStatus(net, u, st, v, NeighNode);
      SeenStatus(net, u, st, w, NeighNode);
      if BnLink(net, u, v) && BnLink(net, u, w) {
        DirectOnNet(net, u, st, v, w);
        IndirectOnNet(net, u, st, v, w);
        DetourOnNet(net, u, st, v, w);
      }
    }
  }

  // ---------- one node leaves ----------

  // A pair that condition 2 keeps is joined in any part of the backbone that has the pair, the outlasting
  // common neighbour and, for rule 1, the backbone neighbours of u.
  lemma KeptIsJoined(net: Network, u: Address, rule1: bool, s: set<Address>, v: Address, w: Address)
    requires WellFormed(net)
    requires BnLink(net, u, v) && BnLink(net, u, w) && v in s && w in s && Kept(net, u, rule1, v, w)
    requires forall x :: x != u && Is(net, x, NeighNode) && Outlasts(net, x, u) ==> x in s
    requires rule1 ==> forall x :: BnLink(net, u, x) ==> x in s
    ensures Joined(net, s, v, w)
  {
    if KeptDirect(net, u, v, w) {
      JoinedEdge(net, s, v, w);
    } else if KeptIndirect(net, u, v, w) {
      var x :| x != u && Between(net, x, v, w) && Outlasts(net, x, u);
      JoinedTwoSteps(net, s, v, x, w);
    } else {
      var x, y :| DetourOver(net, u, v, w, x, y);
      JoinedThreeSteps(net, s, v, y, x, w);
    }
  }

  // With accurate knowledge and condition 2, one node may leave the backbone, rule 1 on or off: every two
  // other backbone nodes that a backbone path joined are still joined by one.
  lemma OneQuitKeepsBackboneJoined(net: Network, u: Address, st: LocalState, a: Address, b: Address)
    requires WellFormed(net) && Accurate(net, u, st) && BackboneStaysLinked(st)
    requires a != u && b != u && Joined(net, BackboneOf(net), a, b)
    ensures Joined(net, BackboneOf(net) - {u}, a, b)
  {
    var s := BackboneOf(net);
    BackboneStaysLinkedOnNet(net, u, st);
    forall v, w | v in s && w in s && v != u && w != u && v != w && Adjacent(net, u, v) && Adjacent(net, u, w)
      ensures Joined(net, s - {u}, v, w)
    {
      assert BnLink(net, u, v) && BnLink(net, u, w);
      KeptIsJoined(net, u, st.rule1, s - {u}, v, w);
    }
    JoinedAround(net, s, u, a, b);
  }

  // ---------- any number of nodes leave at once ----------

  // A node of q above all others.
  lemma Topmost(net: Network, q: set<Address>) returns (m: Address)
    requires q != {} && q <= net.Keys
    ensures m in q && forall x :: x in q && x != m ==> Above(net, m, x)
  {
    var k :| k in q;
    if q == {k} {
      m := k;
    } else {
      var n := Topmost(net, q - {k});
      m := if Above(net, n, k) then n else k;
      assert forall x :: x in q ==> x == k || x in q - {k};
    }
  }

  // What is asked of each node u of the set q that leaves: accurate knowledge and condition 2; it did not
  // advertise that it must stay; and, where it applies rule 1, none of its neighbours leaves with it.
  ghost predicate MayLeaveWith(net: Network, q: set<Address>, u: Address, st: LocalState) {
    && Is(net, u, NeighNode)
    && Accurate(net, u, st) && BackboneStaysLinked(st)
    && !Breaker(net, u)
    && (st.rule1 ==> net[u].links !! q)
  }

  ghost predicate MayLeave(net: Network, views: map<Address, LocalState>, q: set<Address>) {
    forall u :: u in q ==> u in views && MayLeaveWith(net, q, u, views[u])
  }

  // Removing the lowest node first, each step leaves the connecting nodes that condition 2 relied on in place.
  lemma {:induction false} LeavingTogetherKeepsBackboneJoined(net: Network, views: map<Address, LocalState>,
                                                              q: set<Address>, a: Address, b: Address)
    requires WellFormed(net) && MayLeave(net, views, q)
    requires a !in q && b !in q && Joined(net, BackboneOf(net), a, b)
    ensures Joined(net, BackboneOf(net) - q, a, b)
    decreases q
  {
    var s := BackboneOf(net);
    if q == {} {
      assert s - q == s;
    } else {
      var m := Topmost(net, q);
      LeavingTogetherKeepsBackboneJoined(net, views, q - {m}, a, b);
      TopmostIsBypassed(net, views, q, m);
      JoinedAround(net, s - (q - {m}), m, a, b);
      assert s - (q - {m}) - {m} == s - q;
    }
  }

  lemma TopmostIsBypassed(net: Network, views: map<Address, LocalState>, q: set<Address>, m: Address)
    requires WellFormed(net) && MayLeave(net, views, q)
    requires m in q && forall x :: x in q && x != m ==> Above(net, m, x)
    ensures Bypassed(net, BackboneOf(net) - (q - {m}), m)
  {
    var s := BackboneOf(net) - (q - {m});
    var st := views[m];
    assert MayLeaveWith(net, q, m, st);
    BackboneStaysLinkedOnNet(net, m, st);
    forall x | x in q && x != m
      ensures !Outlasts(net, x, m)
    {
      assert MayLeaveWith(net, q, x, views[x]);
    }
    forall v, w | v in s && w in s && v != m && w != m && v != w && Adjacent(net, m, v) && Adjacent(net, m, w)
      ensures Joined(net, s - {m}, v, w)
    {
      assert BnLink(net, m, v) && BnLink(net, m, w);
      KeptIsJoined(net, m, st.rule1, s - {m}, v, w);
    }
  }
}
