/** Rounds in which many nodes leave the backbone at once, and how far their safety goes. */
module QuitRounds {
  import opened Types
  import opened NeighborTuples
  import opened BackboneRules
  import opened Networks
  import opened Quitting
  import opened Attachment
  import opened Joining
  import opened Views

  // The network after the nodes of q have become core nodes.
  ghost function Demoted(net: Network, q: set<Address>): Network {
    map a | a in net :: if a in q then net[a].(status := Core, indicator := ConvertOther) else net[a]
  }

  lemma DemotedBackbone(net: Network, q: set<Address>)
    ensures BackboneOf(Demoted(net, q)) == BackboneOf(net) - q
  {
  }

  // The nodes that leave when every backbone node runs its long timer on its view.
  ghost function Leavers(net: Network, views: map<Address, LocalState>): set<Address> {
    set u | u in BackboneOf(net) && u in views && Decide(views[u]).status == Core
  }

  // No leaver had advertised BREAK, and no leaver under rule 1 has a neighbour that leaves too.
  ghost predicate LeaversAreCareful(net: Network, views: map<Address, LocalState>) {
    var q := Leavers(net, views);
    forall u :: u in q ==> !Breaker(net, u) && (views[u].rule1 ==> net[u].links !! q)
  }

  // Two backbone nodes of after are joined along its backbone exactly if they were along that of before.
  ghost predicate SameConnectivity(before: Network, after: Network) {
    forall a, b :: a in BackboneOf(after) && b in BackboneOf(after) ==>
      (Joined(after, BackboneOf(after), a, b) <==> Joined(before, BackboneOf(before), a, b))
  }

  // When all backbone nodes decide at once on accurate views, the remaining backbone has exactly the
  // connectivity it had, provided the leavers are careful.
  lemma QuitRoundPreservesConnectivity(net: Network, views: map<Address, LocalState>)
    requires WellFormed(net)
    requires forall u :: u in BackboneOf(net) ==> u in views && Accurate(net, u, views[u])
    requires LeaversAreCareful(net, views)
    ensures SameConnectivity(net, Demoted(net, Leavers(net, views)))
  {
    hide WellFormed, Leavers, Accurate, Walk;
    var q := Leavers(net, views);
    var after := Demoted(net, q);
    DemotedBackbone(net, q);
    LeaversMayLeave(net, views);
    forall a, b | a in BackboneOf(after) && b in BackboneOf(after)
      ensures Joined(after, BackboneOf(after), a, b) <==> Joined(net, BackboneOf(net), a, b)
    {
      if Joined(net, BackboneOf(net), a, b) {
        LeavingTogetherKeepsBackboneJoined(net, views, q, a, b);
        JoinedSameLinks(net, after, BackboneOf(after), a, b);
      }
      if Joined(after, BackboneOf(after), a, b) {
        JoinedSameLinks(after, net, BackboneOf(after), a, b);
        JoinedInLarger(net, BackboneOf(after), BackboneOf(net), a, b);
      }
    }
  }

  lemma LeaversMayLeave(net: Network, views: map<Address, LocalState>)
    requires forall u :: u in BackboneOf(net) ==> u in views && Accurate(net, u, views[u])
    requires LeaversAreCareful(net, views)
    ensures MayLeave(net, views, Leavers(net, views)) && MayQuit(net, views, Leavers(net, views))
  {
    forall u | u in Leavers(net, views)
      ensures MayLeaveWith(net, Leavers(net, views), u, views[u]) && CoreStaysLinked(views[u])
    {
      assert u in BackboneOf(net) && Accurate(net, u, views[u]);
      assert Quits(views[u]);
    }
  }

  // ---------- rounds in which core nodes join as well ----------

  // All nodes decide at once: backbone nodes quit and core nodes join.
  ghost function Decided(net: Network, views: map<Address, LocalState>): Network {
    Promoted(Demoted(net, Leavers(net, views)), Joiners(net, views))
  }

  ghost predicate AllKnow(net: Network, views: map<Address, LocalState>) {
    forall u :: u in net && !Is(net, u, RnNode) ==> u in views && Accurate(net, u, views[u])
  }

  lemma DecidedBackbone(net: Network, views: map<Address, LocalState>)
    ensures BackboneOf(Decided(net, views)) == BackboneOf(net) - Leavers(net, views) + Joiners(net, views)
    ensures Decided(net, views).Keys == net.Keys && forall a :: a in net ==>
              Decided(net, views)[a].links == net[a].links
  {
    hide Joins, Decide;
  }

  // Two backbone nodes that stay, and that were joined along the backbone, still are.
  lemma DecidingKeepsJoined(net: Network, views: map<Address, LocalState>, a: Address, b: Address)
    requires WellFormed(net) && AllKnow(net, views) && LeaversAreCareful(net, views)
    ensures a !in Leavers(net, views) && b !in Leavers(net, views) && Joined(net, BackboneOf(net), a, b) ==>
              Joined(Decided(net, views), BackboneOf(Decided(net, views)), a, b)
  {
    hide Leavers, Joiners, Accurate, Joined, Decided, LeaversAreCareful;
    if a !in Leavers(net, views) && b !in Leavers(net, views) && Joined(net, BackboneOf(net), a, b) {
      var after := Decided(net, views);
      var s := BackboneOf(net) - Leavers(net, views);
      LeaversMayLeave(net, views);
      LeavingTogetherKeepsBackboneJoined(net, views, Leavers(net, views), a, b);
      DecidedBackbone(net, views);
      JoinedInLarger(net, s, BackboneOf(after), a, b);
      JoinedSameLinks(net, after, BackboneOf(after), a, b);
    }
  }

  // w has a backbone neighbour that is joined to v.
  ghost predicate ReachedFrom(net: Network, w: Address, v: Address) {
    exists y :: BnLink(net, w, y) && Joined(net, BackboneOf(net), y, v)
  }

  // A core node that reached a backbone node that stays has a backbone neighbour afterwards, one that is joined to
  // that node along the backbone.
  lemma DecidingKeepsCoreAttached(net: Network, views: map<Address, LocalState>, w: Address, v: Address)
    requires WellFormed(net) && AllKnow(net, views) && LeaversAreCareful(net, views)
    requires Is(net, w, Core) && Is(net, v, NeighNode)
    ensures v !in Leavers(net, views) && Joined(net, BackboneOf(net) + {w}, w, v) ==>
              ReachedFrom(Decided(net, views), w, v)
  {
    hide Leavers, Joiners, Accurate, Joined, Decided, LeaversAreCareful, MayQuit;
    if v !in Leavers(net, views) && Joined(net, BackboneOf(net) + {w}, w, v) {
      var after := Decided(net, views);
      var s := BackboneOf(net) - Leavers(net, views);
      LeaversMayLeave(net, views);
      LeavingTogetherKeepsCoreAttached(net, views, Leavers(net, views), w, v);
      var y :| BnLink(net, w, y) && y !in Leavers(net, views) && Joined(net, s, y, v);
      DecidedBackbone(net, views);
      JoinedInLarger(net, s, BackboneOf(after), y, v);
      JoinedSameLinks(net, after, BackboneOf(after), y, v);
      assert y in BackboneOf(net) && y in BackboneOf(after);
    }
  }

  // Two backbone nodes that stay and have a common core neighbour.
  ghost predicate StayOverCore(net: Network, views: map<Address, LocalState>, v: Address, w: Address) {
    && Is(net, v, NeighNode) && Is(net, w, NeighNode) && v != w
    && v !in Leavers(net, views) && w !in Leavers(net, views)
    && exists x :: CommonCore(net, x, v, w)
  }

  // And two backbone nodes that stay, and that had a common core neighbour, are joined even though others quit.
  lemma DecidingConnects(net: Network, views: map<Address, LocalState>, v: Address, w: Address)
    requires WellFormed(net) && AllKnow(net, views) && LeaversAreCareful(net, views)
    requires CoreReady(net, views)
    ensures StayOverCore(net, views, v, w) ==>
              Joined(Decided(net, views), BackboneOf(Decided(net, views)), v, w)
  {
    hide Leavers, Accurate, Joined, Decided, LeaversAreCareful, Joins, Rule2Allows, Near;
    if StayOverCore(net, views, v, w) {
      var c := SomeHighestCommonCore(net, v, w);
      HighestCommonCoreJoins(net, c, views[c], v, w);
      if Joins(views[c]) {
        var after := Decided(net, views);
        DecidedBackbone(net, views);
        JoinedTwoSteps(after, BackboneOf(after), v, c, w);
      } else {
        NearIsJoined(net, views[c].rule1, v, w);
        DecidingKeepsJoined(net, views, v, w);
      }
    }
  }

  // ---------- exactly when every round is safe ----------

  // All backbone nodes have accurate views, and use rule 1 or have advertised BREAK only where that is allowed.
  ghost predicate RoundOf(net: Network, views: map<Address, LocalState>, rule1: bool, breakers: bool) {
    && WellFormed(net)
    && forall u :: u in BackboneOf(net) ==>
         u in views && Accurate(net, u, views[u]) && (views[u].rule1 ==> rule1) && (Breaker(net, u) ==> breakers)
  }

  ghost predicate RoundIsSafe(net: Network, views: map<Address, LocalState>) {
    SameConnectivity(net, Demoted(net, Leavers(net, views)))
  }

  // Rounds preserve connectivity, on every network, exactly when rule 1 is off and no node has advertised BREAK.
  lemma QuitRoundsSafeIff(rule1: bool, breakers: bool)
    ensures (forall net, views :: RoundOf(net, views, rule1, breakers) ==> RoundIsSafe(net, views)) <==>
            !rule1 && !breakers
  {
    hide SameConnectivity, Leavers, WellFormed, Accurate, Breaker, Demoted;
    if !rule1 && !breakers {
      forall net, views | RoundOf(net, views, rule1, breakers)
        ensures RoundIsSafe(net, views)
      {
        PlainRoundIsSafe(net, views);
      }
    } else if breakers {
      BreakersMayDisconnect();
      assert RoundOf(TwoBreakers(), ViewsOf(TwoBreakers(), false), rule1, breakers);
    } else {
      Rule1MayDisconnect();
      assert RoundOf(TwoDetours(), ViewsOf(TwoDetours(), true), rule1, breakers);
    }
  }

  lemma PlainRoundIsSafe(net: Network, views: map<Address, LocalState>)
    requires RoundOf(net, views, false, false)
    ensures RoundIsSafe(net, views)
  {
    hide Accurate, SameConnectivity, Demoted, WellFormed;
    assert forall u :: u in Leavers(net, views) ==> u in BackboneOf(net);
    QuitRoundPreservesConnectivity(net, views);
  }

  // ---------- a round that disconnects, with BREAK nodes and with rule 1 ----------

  // What every node knows.
  ghost function ViewsOf(net: Network, rule1: bool): map<Address, LocalState>
    requires WellFormed(net)
  {
    map u | u in net :: ViewOf(net, u, rule1)
  }

  ghost function Node(weight: U32, indicator: Indicator, links: set<Address>): NodeInfo {
    NodeInfo(NeighNode, weight, indicator, 0, links)
  }

  // A regular node attached to a.
  ghost function Client(a: Address): NodeInfo {
    NodeInfo(RnNode, 0, ConvertOther, a, {a})
  }

  ghost predicate KeepsPairs(net: Network, u: Address, rule1: bool)
    requires u in net
  {
    forall v, w :: BnLink(net, u, v) && BnLink(net, u, w) && v != w ==>
      v in net && w in net && Kept(net, u, rule1, v, w)
  }

  // A node without core neighbours and clients quits when condition 2 holds at it.
  lemma QuitsByConditionTwo(net: Network, u: Address, rule1: bool)
    requires WellFormed(net) && u in net && Is(net, u, NeighNode) && KeepsPairs(net, u, rule1)
    requires forall a :: a in net[u].links ==> a in net && net[a].status != Core && net[a].associated != u
    ensures u in Leavers(net, ViewsOf(net, rule1))
  {
    hide ViewOf, Kept, Accurate;
    var st := ViewOf(net, u, rule1);
    ViewOfAccurate(net, u, rule1);
    ViewOfRule1(net, u, rule1);
    SeenSelf(net, u, st);
    BackboneStaysLinkedOnNet(net, u, st);
    NobodyToServe(net, u, st);
  }

  lemma SeenSelf(net: Network, u: Address, st: LocalState)
    requires Accurate(net, u, st)
    ensures u in net && st.status == net[u].status
  {
  }

  lemma NobodyToServe(net: Network, u: Address, st: LocalState)
    requires Accurate(net, u, st)
    requires forall a :: a in net[u].links ==> a in net && net[a].status != Core && net[a].associated != u
    ensures ClientsServed(st.list) && CoreStaysLinked(st)
  {
    hide AccurateBn, Distinct, OneHop, Detour;
    assert forall t :: t in st.list ==> AccurateTuple(net, u, t);
  }

  // A node with a regular client stays, and so does one at which condition 2 fails.
  lemma StaysFor(net: Network, u: Address, rule1: bool)
    requires WellFormed(net) && u in net && Is(net, u, NeighNode)
    requires (exists c :: ClientOf(net, c, u) && Is(net, c, RnNode)) || !KeepsPairs(net, u, rule1)
    ensures u !in Leavers(net, ViewsOf(net, rule1))
  {
    hide ViewOf, Kept, Accurate;
    var st := ViewOf(net, u, rule1);
    ViewOfAccurate(net, u, rule1);
    ViewOfRule1(net, u, rule1);
    SeenSelf(net, u, st);
    BackboneStaysLinkedOnNet(net, u, st);
    if c :| ClientOf(net, c, u) && Is(net, c, RnNode) {
      if ClientsServed(st.list) {
        ClientsServedOnNet(net, u, st, c);
      }
    }
  }

  // A backbone path a - x - b is lost when everything around a leaves and a and b stay.
  lemma Separated(net: Network, rule1: bool, a: Address, x: Address, b: Address)
    requires WellFormed(net) && Is(net, a, NeighNode) && Is(net, x, NeighNode) && Is(net, b, NeighNode) && a != b
    requires Adjacent(net, a, x) && Adjacent(net, x, b)
    ensures var q := Leavers(net, ViewsOf(net, rule1));
            a !in q && b !in q && (forall c :: BnLink(net, a, c) ==> c in q) ==> !RoundIsSafe(net, ViewsOf(net, rule1))
  {
    hide Leavers, ViewsOf, WellFormed;
    var q := Leavers(net, ViewsOf(net, rule1));
    var after := Demoted(net, q);
    DemotedBackbone(net, q);
    if a !in q && b !in q && forall c :: BnLink(net, a, c) ==> c in q {
      JoinedTwoSteps(net, BackboneOf(net), a, x, b);
      NotJoinedFromIsolated(after, BackboneOf(after), a, b);
      assert a in BackboneOf(after) && b in BackboneOf(after);
    }
  }

  lemma ViewsAreAccurate(net: Network, rule1: bool, breakers: bool)
    requires WellFormed(net) && forall u :: u in net && Breaker(net, u) ==> breakers
    ensures RoundOf(net, ViewsOf(net, rule1), rule1, breakers)
  {
    hide Accurate, ViewOf, Breaker;
    forall u | u in net
      ensures Accurate(net, u, ViewOf(net, u, rule1)) && ViewOf(net, u, rule1).rule1 == rule1
    {
      ViewOfAccurate(net, u, rule1);
      ViewOfRule1(net, u, rule1);
    }
  }

  lemma WalkSecond(net: Network, s: set<Address>, p: seq<Address>)
    requires Walk(net, s, p) && |p| > 1
    ensures p[1] in s && Adjacent(net, p[0], p[1])
  {
    assert p[1..][0] == p[1];
  }

  lemma NotJoinedFromIsolated(net: Network, s: set<Address>, a: Address, b: Address)
    requires a in net && net[a].links !! s && a != b
    ensures !Joined(net, s, a, b)
  {
    forall p
      ensures !WalkFromTo(net, s, p, a, b)
    {
      if Walk(net, s, p) && |p| > 1 {
        WalkSecond(net, s, p);
      }
    }
  }

  // Two BREAK nodes, 3 and 4, connect nodes 1 and 2. Each of the two relies on the other and quits. Node 1 stays
  // for its client 5, and node 2 because it outranks node 1.
  ghost function TwoBreakers(): Network {
    map[1 := Node(0, ConvertOther, {3, 4, 5}), 2 := Node(0, ConvertOther, {3, 4}),
        3 := Node(0, ConvertBreak, {1, 2}), 4 := Node(0, ConvertBreak, {1, 2}), 5 := Client(1)]
  }

  lemma BreakersMayDisconnect()
    ensures WellFormed(TwoBreakers())
    ensures var views := ViewsOf(TwoBreakers(), false);
            RoundOf(TwoBreakers(), views, false, true) && !RoundIsSafe(TwoBreakers(), views)
  {
    hide RoundOf, RoundIsSafe, Leavers, ViewsOf, KeepsPairs;
    var net := TwoBreakers();
    ViewsAreAccurate(net, false, true);
    BreakerKeepsPairs(3);
    BreakerKeepsPairs(4);
    QuitsByConditionTwo(net, 3, false);
    QuitsByConditionTwo(net, 4, false);
    assert ClientOf(net, 5, 1);
    StaysFor(net, 1, false);
    Node2DoesNotKeepPairs();
    StaysFor(net, 2, false);
    Separated(net, false, 1, 3, 2);
  }

  lemma Node2DoesNotKeepPairs()
    ensures !KeepsPairs(TwoBreakers(), 2, false)
  {
    var net := TwoBreakers();
    assert BnLink(net, 2, 3) && BnLink(net, 2, 4);
    assert forall x :: Between(net, x, 3, 4) ==> x in {1, 2};
    assert !Outlasts(net, 1, 2);
    assert !Kept(net, 2, false, 3, 4);
  }

  lemma BreakerKeepsPairs(u: Address)
    requires u == 3 || u == 4
    ensures KeepsPairs(TwoBreakers(), u, false)
  {
    var net := TwoBreakers();
    forall v, w | BnLink(net, u, v) && BnLink(net, u, w) && v != w
      ensures v in net && w in net && Kept(net, u, false, v, w)
    {
      assert Between(net, 7 - u, v, w) && Breaker(net, 7 - u);
    }
  }

  // Under rule 1, adjacent nodes 4 and 5 each rely on a detour or a connection over the other, and both quit. Nodes
  // 1 and 2, which they connect, stay for their clients 6 and 7.
  ghost function TwoDetours(): Network {
    map[1 := Node(2, ConvertOther, {4, 5, 6}), 2 := Node(2, ConvertOther, {3, 4, 5, 7}),
        3 := Node(2, ConvertOther, {2, 4, 5}),
        4 := Node(1, ConvertOther, {1, 2, 3, 5}), 5 := Node(0, ConvertOther, {1, 2, 3, 4}),
        6 := Client(1), 7 := Client(2)]
  }

  lemma Rule1MayDisconnect()
    ensures WellFormed(TwoDetours())
    ensures var views := ViewsOf(TwoDetours(), true);
            RoundOf(TwoDetours(), views, true, false) && !RoundIsSafe(TwoDetours(), views)
  {
    hide RoundOf, RoundIsSafe, Leavers, ViewsOf, KeepsPairs;
    var net := TwoDetours();
    ViewsAreAccurate(net, true, false);
    DetourKeepsAt4();
    DetourKeepsAt5();
    QuitsByConditionTwo(net, 4, true);
    QuitsByConditionTwo(net, 5, true);
    assert ClientOf(net, 6, 1) && ClientOf(net, 7, 2);
    StaysFor(net, 1, true);
    StaysFor(net, 2, true);
    Separated(net, true, 1, 4, 2);
  }

  lemma DetourKeepsAt5()
    ensures KeepsPairs(TwoDetours(), 5, true)
  {
    var net := TwoDetours();
    forall v, w | BnLink(net, 5, v) && BnLink(net, 5, w) && v != w
      ensures v in net && w in net && Kept(net, 5, true, v, w)
    {
      if !Adjacent(net, v, w) {
        assert Between(net, 4, v, w);
      }
    }
  }

  lemma DetourKeepsAt4()
    ensures KeepsPairs(TwoDetours(), 4, true)
  {
    var net := TwoDetours();
    assert DetourOver(net, 4, 1, 2, 3, 5) && DetourOver(net, 4, 2, 1, 5, 3);
    assert DetourOver(net, 4, 1, 3, 2, 5) && DetourOver(net, 4, 3, 1, 5, 2);
    forall v, w | BnLink(net, 4, v) && BnLink(net, 4, w) && v != w
      ensures v in net && w in net && Kept(net, 4, true, v, w)
    {
      if !Adjacent(net, v, w) {
        assert HasDetour(net, 4, v, w);
      }
    }
  }
}
