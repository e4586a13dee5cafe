/** Joining the backbone: what a round of joins achieves, and who may elect itself. */
module Joining {
  import opened Types
  import opened NeighborTuples
  import opened BackboneRules
  import opened Networks
  import opened Quitting

  // The network after the nodes of j have become backbone nodes.
  ghost function Promoted(net: Network, j: set<Address>): Network {
    map a | a in net :: if a in j then net[a].(status := NeighNode) else net[a]
  }

  // The nodes that join when every core node runs its long timer on its view.
  ghost function Joiners(net: Network, views: map<Address, LocalState>): set<Address> {
    set u | u in net && Is(net, u, Core) && u in views && Joins(views[u])
  }

  ghost predicate CommonCore(net: Network, c: Address, v: Address, w: Address) {
    Is(net, c, Core) && Adjacent(net, c, v) && Adjacent(net, c, w)
  }

  // v and w are at most two hops apart over the backbone, or at most three where rule 1 was used.
  ghost predicate Near(net: Network, rule1: bool, v: Address, w: Address) {
    || Adjacent(net, v, w)
    || (exists x :: Between(net, x, v, w))
    || (rule1 && exists x, y :: Between(net, x, w, y) && Between(net, y, v, x))
  }

  lemma LinkedOnNet(net: Network, u: Address, st: LocalState, v: Address, w: Address)
    requires WellFormed(net) && Accurate(net, u, st)
    requires BnLink(net, u, v) && BnLink(net, u, w) && Linked(st, v, w)
    ensures Near(net, st.rule1, v, w)
  {
    hide Detour, HasDetour;
    SeenOneHop(net, u, st, v, w);
    SeenBn(net, u, st, v);
    SeenBn(net, u, st, w);
    DetourOnNet(net, u, st, v, w);
    if !OneHop(st.list, v, w) {
      if TwoHops(st.list, v, w) {
        var x :| x in BnOf(st.list, v) && x in BnOf(st.list, w);
        assert Between(net, x, v, w);
      } else {
        NearByDetour(net, u, v, w);
      }
    }
  }

  lemma NearByDetour(net: Network, u: Address, v: Address, w: Address)
    requires WellFormed(net) && HasDetour(net, u, v, w)
    ensures Near(net, true, v, w)
  {
    var x, y :| DetourOver(net, u, v, w, x, y);
    assert Between(net, x, w, y) && Between(net, y, v, x);
  }

  // A core neighbour that blocks u connects the pair and has priority over u.
  lemma BlockerOnNet(net: Network, u: Address, st: LocalState, x: Address, v: Address, w: Address)
    requires WellFormed(net) && Accurate(net, u, st)
    requires BnLink(net, u, v) && BnLink(net, u, w)
    requires HasStatus(st.list, x, Core) && Connects(st, x, v, w)
    ensures CommonCore(net, x, v, w) && Above(net, x, u)
  {
    SeenStatus(net, u, st, x, Core);
    SeenOneHop(net, u, st, v, x);
    SeenOneHop(net, u, st, w, x);
    SeenPriority(net, u, st, x);
  }

  ghost predicate HighestCommonCore(net: Network, c: Address, v: Address, w: Address) {
    CommonCore(net, c, v, w) && forall x :: CommonCore(net, x, v, w) && x != c ==> Above(net, c, x)
  }

  lemma SomeHighestCommonCore(net: Network, v: Address, w: Address) returns (c: Address)
    requires exists x :: CommonCore(net, x, v, w)
    ensures HighestCommonCore(net, c, v, w)
  {
    var all := set x | x in net && CommonCore(net, x, v, w);
    var x :| CommonCore(net, x, v, w);
    assert x in all;
    c := Topmost(net, all);
  }

  // The highest common core neighbour of an unconnected pair cannot be blocked.
  lemma HighestCommonCoreJoins(net: Network, c: Address, st: LocalState, v: Address, w: Address)
    requires WellFormed(net) && Accurate(net, c, st) && Rule2Allows(st)
    requires Is(net, v, NeighNode) && Is(net, w, NeighNode) && v != w
    requires HighestCommonCore(net, c, v, w)
    ensures Joins(st) || Near(net, st.rule1, v, w)
  {
    hide Linked, Connects, Near;
    assert BnLink(net, c, v) && BnLink(net, c, w);
    if Linked(st, v, w) {
      LinkedOnNet(net, c, st, v, w);
    } else {
      forall x | HasStatus(st.list, x, Core)
        ensures !Connects(st, x, v, w)
      {
        if Connects(st, x, v, w) {
          BlockerOnNet(net, c, st, x, v, w);
          SeenStatus(net, c, st, x, Core);
          assert false;
        }
      }
      SeenStatus(net, c, st, v, NeighNode);
      SeenStatus(net, c, st, w, NeighNode);
      assert PairOf(st.list, v, w, NeighNode) && NeedsMe(st, v, w);
    }
  }

  // After all core nodes have run the join step at once on accurate views, any two backbone nodes that had
  // a common core neighbour are adjacent or have a common backbone neighbour; where rule 1 is on they may
  // instead be three hops apart.
  lemma JoinRoundConnects(net: Network, views: map<Address, LocalState>, rule1: bool, v: Address, w: Address)
    requires WellFormed(net)
    requires forall u :: Is(net, u, Core) ==>
      u in views && Accurate(net, u, views[u]) && Rule2Allows(views[u]) && (views[u].rule1 ==> rule1)
    requires Is(net, v, NeighNode) && Is(net, w, NeighNode) && v != w
    requires exists x :: CommonCore(net, x, v, w)
    ensures Near(Promoted(net, Joiners(net, views)), rule1, v, w)
  {
    hide Joins, Near, Accurate;
    var c := SomeHighestCommonCore(net, v, w);
    var j := Joiners(net, views);
    HighestCommonCoreJoins(net, c, views[c], v, w);
    if Joins(views[c]) {
      JoinerConnects(net, j, rule1, c, v, w);
    } else {
      NearRelaxes(net, views[c].rule1, rule1, v, w);
      NearGrows(net, j, rule1, v, w);
    }
  }

  lemma JoinerConnects(net: Network, j: set<Address>, rule1: bool, c: Address, v: Address, w: Address)
    requires WellFormed(net) && c in j && CommonCore(net, c, v, w)
    ensures Near(Promoted(net, j), rule1, v, w)
  {
    assert Between(Promoted(net, j), c, v, w);
  }

  lemma NearRelaxes(net: Network, rule1: bool, rule1': bool, v: Address, w: Address)
    requires Near(net, rule1, v, w) && (rule1 ==> rule1')
    ensures Near(net, rule1', v, w)
  {
  }

  lemma NearGrows(net: Network, j: set<Address>, rule1: bool, v: Address, w: Address)
    requires WellFormed(net) && Near(net, rule1, v, w)
    ensures Near(Promoted(net, j), rule1, v, w)
  {
    var after := Promoted(net, j);
    forall x, a, b | Between(net, x, a, b)
      ensures Between(after, x, a, b)
    {
    }
  }

  // Near nodes are joined along the backbone.
  lemma NearIsJoined(net: Network, rule1: bool, v: Address, w: Address)
    requires WellFormed(net) && Is(net, v, NeighNode) && Is(net, w, NeighNode) && Near(net, rule1, v, w)
    ensures Joined(net, BackboneOf(net), v, w)
  {
    var s := BackboneOf(net);
    if Adjacent(net, v, w) {
      JoinedEdge(net, s, v, w);
    } else if x :| Between(net, x, v, w) {
      JoinedTwoSteps(net, s, v, x, w);
    } else {
      var x, y :| Between(net, x, w, y) && Between(net, y, v, x);
      JoinedThreeSteps(net, s, v, y, x, w);
    }
  }

  // ---------- pairs over two core nodes ----------

  // All core nodes know their surroundings, and rule 2 lets them join.
  ghost predicate CoreReady(net: Network, views: map<Address, LocalState>) {
    forall u :: Is(net, u, Core) ==> u in views && Accurate(net, u, views[u]) && Rule2Allows(views[u])
  }

  ghost predicate JoinedAfter(net: Network, views: map<Address, LocalState>, v: Address, w: Address) {
    var after := Promoted(net, Joiners(net, views));
    Joined(after, BackboneOf(after), v, w)
  }

  lemma PromotedIsWellFormed(net: Network, j: set<Address>)
    requires WellFormed(net)
    ensures WellFormed(Promoted(net, j))
  {
  }

  lemma CommonCoreJoinsAfter(net: Network, views: map<Address, LocalState>, v: Address, w: Address)
    requires WellFormed(net) && CoreReady(net, views)
    requires Is(net, v, NeighNode) && Is(net, w, NeighNode) && exists x :: CommonCore(net, x, v, w)
    ensures JoinedAfter(net, views, v, w)
  {
    hide Joins, Near, Accurate, Joined, Rule2Allows;
    var after := Promoted(net, Joiners(net, views));
    PromotedIsWellFormed(net, Joiners(net, views));
    if v == w {
      JoinedHere(after, BackboneOf(after), v);
    } else {
      JoinRoundConnects(net, views, true, v, w);
      NearIsJoined(after, true, v, w);
    }
  }

  lemma BackboneLinkJoinsAfter(net: Network, views: map<Address, LocalState>, v: Address, w: Address)
    requires Is(net, v, NeighNode) && Is(net, w, NeighNode) && Adjacent(net, v, w)
    ensures JoinedAfter(net, views, v, w)
  {
    var after := Promoted(net, Joiners(net, views));
    JoinedEdge(after, BackboneOf(after), v, w);
  }

  // v - u - w - z from one backbone node to another over two core nodes.
  ghost predicate CorePath(net: Network, v: Address, u: Address, w: Address, z: Address) {
    && Is(net, v, NeighNode) && Is(net, u, Core) && Is(net, w, Core) && Is(net, z, NeighNode)
    && Adjacent(net, u, v) && Adjacent(net, u, w) && Adjacent(net, w, z)
  }

  // A backbone node joined to v that has the core node w as a neighbour is as good as a connection to z.
  lemma JoinedOverNext(net: Network, views: map<Address, LocalState>, v: Address, x: Address, w: Address, z: Address)
    requires WellFormed(net) && CoreReady(net, views)
    requires Is(net, w, Core) && Is(net, z, NeighNode) && Adjacent(net, w, z)
    requires Is(net, x, NeighNode) && Adjacent(net, w, x) && JoinedAfter(net, views, v, x)
    ensures JoinedAfter(net, views, v, z)
  {
    hide Joiners, Joined, WellFormed, CoreReady;
    var after := Promoted(net, Joiners(net, views));
    assert CommonCore(net, w, x, z);
    CommonCoreJoinsAfter(net, views, x, z);
    JoinedTransitive(after, BackboneOf(after), v, x, z);
  }

  // The first core node of a path joins, unless the round joins the ends anyway.
  lemma FirstCoreJoins(net: Network, views: map<Address, LocalState>, v: Address, u: Address, w: Address, z: Address)
    requires WellFormed(net) && CoreReady(net, views) && CorePath(net, v, u, w, z)
    ensures u in Joiners(net, views) || JoinedAfter(net, views, v, z)
  {
    hide Linked, ConnectsIndirectly, JoinedAfter, Joined, Rule2Allows, MustJoin, PushedToJoin;
    var st := views[u];
    SeenStatus(net, u, st, v, NeighNode);
    SeenStatus(net, u, st, w, Core);
    SeenBn(net, u, st, w);
    assert PairOf(st.list, v, w, Core) && z in BnOf(st.list, w);
    if Linked(st, v, w) {
      LinkedPathIsJoined(net, views, v, u, w, z);
    } else if x :| HasStatus(st.list, x, Core) && ConnectsIndirectly(st, x, v, w) {
      BlockedPathIsJoined(net, views, v, u, w, z, x);
    } else {
      assert NeedsMeIndirectly(st, v, w);
    }
  }

  lemma LinkedPathIsJoined(net: Network, views: map<Address, LocalState>, v: Address, u: Address, w: Address,
                           z: Address)
    requires WellFormed(net) && CoreReady(net, views) && CorePath(net, v, u, w, z) && Linked(views[u], v, w)
    ensures JoinedAfter(net, views, v, z)
  {
    hide Detour, HasDetour, JoinedAfter;
    var st := views[u];
    SeenOneHop(net, u, st, v, w);
    SeenBn(net, u, st, v);
    SeenBn(net, u, st, w);
    DetourOnNet(net, u, st, v, w);
    if OneHop(st.list, v, w) {
      assert CommonCore(net, w, v, z);
      CommonCoreJoinsAfter(net, views, v, z);
    } else if TwoHops(st.list, v, w) {
      var x :| x in BnOf(st.list, v) && x in BnOf(st.list, w);
      BackboneLinkJoinsAfter(net, views, v, x);
      JoinedOverNext(net, views, v, x, w, z);
    } else {
      DetouredPathIsJoined(net, views, v, u, w, z);
    }
  }

  lemma DetouredPathIsJoined(net: Network, views: map<Address, LocalState>, v: Address, u: Address, w: Address,
                             z: Address)
    requires WellFormed(net) && CoreReady(net, views) && CorePath(net, v, u, w, z) && HasDetour(net, u, v, w)
    ensures JoinedAfter(net, views, v, z)
  {
    hide Joiners, Joined;
    var after := Promoted(net, Joiners(net, views));
    var x, y :| DetourOver(net, u, v, w, x, y);
    BackboneLinkJoinsAfter(net, views, v, y);
    BackboneLinkJoinsAfter(net, views, y, x);
    JoinedTransitive(after, BackboneOf(after), v, y, x);
    JoinedOverNext(net, views, v, x, w, z);
  }

  lemma BlockedPathIsJoined(net: Network, views: map<Address, LocalState>, v: Address, u: Address, w: Address,
                            z: Address, x: Address)
    requires WellFormed(net) && CoreReady(net, views) && CorePath(net, v, u, w, z)
    requires HasStatus(views[u].list, x, Core) && ConnectsIndirectly(views[u], x, v, w)
    ensures JoinedAfter(net, views, v, z)
  {
    hide JoinedAfter, Rule2Allows;
    var st := views[u];
    SeenStatus(net, u, st, x, Core);
    SeenBn(net, u, st, x);
    SeenBn(net, u, st, w);
    var y :| y in BnOf(st.list, x) && y in BnOf(st.list, w);
    assert CommonCore(net, x, v, y);
    CommonCoreJoinsAfter(net, views, v, y);
    JoinedOverNext(net, views, v, y, w, z);
  }

  // So two backbone nodes at the ends of a path over two core nodes are joined after the round, whichever rule
  // makes the core nodes join.
  lemma JoinRoundConnectsOverTwo(net: Network, views: map<Address, LocalState>, v: Address, u: Address, w: Address,
                                 z: Address)
    requires WellFormed(net) && CoreReady(net, views) && CorePath(net, v, u, w, z)
    ensures JoinedAfter(net, views, v, z)
  {
    hide Joiners, Joined, CoreReady;
    var after := Promoted(net, Joiners(net, views));
    FirstCoreJoins(net, views, v, u, w, z);
    FirstCoreJoins(net, views, z, w, u, v);
    PromotedIsWellFormed(net, Joiners(net, views));
    if u in Joiners(net, views) && w in Joiners(net, views) {
      JoinedThreeSteps(after, BackboneOf(after), v, u, w, z);
    } else if !JoinedAfter(net, views, v, z) {
      JoinedBack(after, BackboneOf(after), z, v);
    }
  }

  // ---------- election ----------

  ghost predicate CoreAroundAdvertisesOther(net: Network, u: Address) {
    forall a :: Adjacent(net, u, a) && Is(net, a, Core) ==> net[a].indicator == ConvertOther
  }

  // Where its core neighbours advertise OTHER, a node that elects itself outranks every one of them.
  lemma ElectedIsHighest(net: Network, u: Address, st: LocalState)
    requires WellFormed(net) && Accurate(net, u, st) && CoreAroundAdvertisesOther(net, u) && ElectsItself(st)
    ensures forall a :: Adjacent(net, u, a) ==> !Is(net, a, NeighNode)
    ensures forall a :: Adjacent(net, u, a) && Is(net, a, Core) ==> Above(net, u, a)
  {
    hide AccurateBn;
    assert forall t :: t in st.list ==> AccurateTuple(net, u, t);
    BestIsHighest(st.list, Core, ConvertOther);
    forall a | Adjacent(net, u, a)
      ensures !Is(net, a, NeighNode) && (Is(net, a, Core) ==> Above(net, u, a))
    {
      SeenTuple(net, u, st, a);
      var t := Find(st.list, a).value;
      assert t in st.list;
    }
  }

  // The election has at most one winner among neighbours.
  lemma NoTwoAdjacentElected(net: Network, u: Address, st: LocalState, u': Address, st': LocalState)
    requires WellFormed(net) && CoreAroundAdvertisesOther(net, u) && CoreAroundAdvertisesOther(net, u')
    requires Is(net, u, Core) && Is(net, u', Core) && Adjacent(net, u, u')
    requires Accurate(net, u, st) && Accurate(net, u', st')
    ensures !(ElectsItself(st) && ElectsItself(st'))
  {
    hide ElectsItself, Accurate;
    if ElectsItself(st) && ElectsItself(st') {
      ElectedIsHighest(net, u, st);
      ElectedIsHighest(net, u', st');
      assert false;
    }
  }

  // And it can be won: among core nodes with no backbone neighbour and some core neighbour, the one that
  // outranks its core neighbours elects itself.
  lemma HighestElectsItself(net: Network, u: Address, st: LocalState)
    requires WellFormed(net) && Accurate(net, u, st)
    requires forall a :: Adjacent(net, u, a) ==> !Is(net, a, NeighNode)
    requires exists a :: Adjacent(net, u, a) && Is(net, a, Core)
    requires forall a :: Adjacent(net, u, a) && Is(net, a, Core) ==> Above(net, u, a)
    ensures ElectsItself(st)
  {
    hide AccurateBn;
    assert forall t :: t in st.list ==> AccurateTuple(net, u, t) && Adjacent(net, u, t.addr);
    assert forall t :: t in st.list ==> Is(net, t.addr, t.status);
    var a :| Adjacent(net, u, a) && Is(net, a, Core);
    SeenTuple(net, u, st, a);
    var t := Find(st.list, a).value;
    assert t in st.list && t.status == Core;
    var best := Best(st.list, Core).value;
    assert best in st.list && Adjacent(net, u, best.addr) && Is(net, best.addr, Core);
    assert Above(net, u, best.addr);
  }

  ghost predicate HasCoreNeighbor(net: Network, u: Address) {
    Is(net, u, Core) && exists a :: a in net[u].links && Is(net, a, Core)
  }

  // So in a network without a backbone, where every core node knows its surroundings and two core nodes are
  // adjacent, some core node elects itself.
  lemma ElectionHasWinner(net: Network, views: map<Address, LocalState>, c: Address, c': Address)
    requires WellFormed(net) && BackboneOf(net) == {}
    requires forall u :: Is(net, u, Core) ==> u in views && Accurate(net, u, views[u])
    requires Is(net, c, Core) && Is(net, c', Core) && Adjacent(net, c, c')
    ensures exists u :: Is(net, u, Core) && ElectsItself(views[u])
  {
    hide Accurate, ElectsItself;
    var all := set u | u in net && HasCoreNeighbor(net, u);
    assert c in all;
    var m := Topmost(net, all);
    var a :| a in net[m].links && Is(net, a, Core);
    assert Adjacent(net, m, a);
    forall b | Adjacent(net, m, b)
      ensures !Is(net, b, NeighNode) && (Is(net, b, Core) ==> Above(net, m, b))
    {
      assert b !in BackboneOf(net);
      if Is(net, b, Core) {
        assert m in net[b].links && b != m;
      }
    }
    HighestElectsItself(net, m, views[m]);
  }
}
