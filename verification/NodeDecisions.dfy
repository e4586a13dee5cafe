/** What a node decides when its long timer expires, read on the network around it. */
module NodeDecisions {
  import opened Types
  import opened NeighborTuples
  import opened BackboneRules
  import opened Networks
  import opened Quitting
  import opened Attachment
  import opened Joining

  // ---------- leaving the backbone ----------

  // A client of u that only u serves: a regular node, or a core node without another backbone neighbour.
  ghost predicate Dependent(net: Network, c: Address, u: Address) {
    && ClientOf(net, c, u)
    && (Is(net, c, RnNode) || (Is(net, c, Core) && forall b :: BnLink(net, c, b) ==> b == u))
  }

  ghost predicate HasDependent(net: Network, u: Address) {
    exists c :: Dependent(net, c, u)
  }

  ghost predicate PairsKept(net: Network, u: Address, rule1: bool)
    requires WellFormed(net) && u in net
  {
    forall v, w :: BnLink(net, u, v) && BnLink(net, u, w) && v != w ==>
      || (Adjacent(net, v, w) && (Outlasts(net, v, u) || Outlasts(net, w, u)))
      || KeptIndirect(net, u, v, w)
      || (rule1 && HasDetour(net, u, v, w))
  }

  ghost predicate CorePairsKept(net: Network, u: Address, rule1: bool)
    requires WellFormed(net) && u in net
  {
    forall v, w :: BnLink(net, u, v) && Adjacent(net, u, w) && Is(net, w, Core) ==>
      || (Adjacent(net, v, w) && Outlasts(net, v, u))
      || KeptIndirect(net, u, v, w)
      || (rule1 && HasDetour(net, u, v, w))
  }

  // A backbone node with two advertised backbone neighbours has one besides u.
  lemma OtherBackboneNeighbor(net: Network, u: Address, st: LocalState, c: Address)
    requires WellFormed(net) && Accurate(net, u, st) && Adjacent(net, u, c) && Is(net, c, Core) && Is(net, u, NeighNode)
    ensures Find(st.list, c).Some?
    ensures |Find(st.list, c).value.bnNeighbors| > 1 <==> exists b :: BnLink(net, c, b) && b != u
  {
    SeenTuple(net, u, st, c);
    var bn := Find(st.list, c).value.bnNeighbors;
    if |bn| > 1 {
      assert bn[0].addr != bn[1].addr;
      var e := if bn[0].addr != u then bn[0] else bn[1];
      assert e in bn && e.addr in Addresses(bn);
      assert BnLink(net, c, e.addr);
    }
    if b :| BnLink(net, c, b) && b != u {
      assert b in Addresses(bn) && u in BnLinks(net, c) && u in Addresses(bn);
      var e1 :| e1 in bn && e1.addr == b;
      var e2 :| e2 in bn && e2.addr == u;
    }
  }

  lemma ClientsServedIff(net: Network, u: Address, st: LocalState)
    requires WellFormed(net) && Accurate(net, u, st) && Is(net, u, NeighNode)
    ensures ClientsServed(st.list) <==> !HasDependent(net, u)
  {
    forall t | t in st.list
      ensures AccurateTuple(net, u, t) && Adjacent(net, u, t.addr) && Find(st.list, t.addr) == Some(t)
      ensures t.client <==> ClientOf(net, t.addr, u)
    {
      FindOfMember(st.list, t);
    }
    if c :| Dependent(net, c, u) {
      SeenTuple(net, u, st, c);
      var t := Find(st.list, c).value;
      assert t in st.list && t.client;
      if Is(net, c, Core) {
        OtherBackboneNeighbor(net, u, st, c);
      }
    }
    if !ClientsServed(st.list) {
      UnservedIsDependent(net, u, st);
    }
  }

  lemma UnservedIsDependent(net: Network, u: Address, st: LocalState)
    requires WellFormed(net) && Accurate(net, u, st) && Is(net, u, NeighNode) && !ClientsServed(st.list)
    ensures HasDependent(net, u)
  {
    hide AccurateBn;
    var t :| t in st.list && t.client && (t.status == RnNode || (t.status == Core && |t.bnNeighbors| <= 1));
    FindOfMember(st.list, t);
    assert AccurateTuple(net, u, t) && Adjacent(net, u, t.addr);
    if t.status == Core {
      OtherBackboneNeighbor(net, u, st, t.addr);
    }
    assert Dependent(net, t.addr, u);
  }

  lemma PairsKeptIff(net: Network, u: Address, st: LocalState)
    requires WellFormed(net) && Accurate(net, u, st)
    ensures BackboneStaysLinked(st) <==> PairsKept(net, u, st.rule1)
  {
    hide KeptIndirect, HasDetour;
    BackboneStaysLinkedOnNet(net, u, st);
  }

  lemma CorePairsKeptIff(net: Network, u: Address, st: LocalState)
    requires WellFormed(net) && Accurate(net, u, st)
    ensures CoreStaysLinked(st) <==> CorePairsKept(net, u, st.rule1)
  {
    hide StaysIndirect, KeptIndirect, Detour, HasDetour;
    forall v, w
      ensures PairOf(st.list, v, w, Core) <==> BnLink(net, u, v) && Adjacent(net, u, w) && Is(net, w, Core)
      ensures BnLink(net, u, v) && Adjacent(net, u, w) && Is(net, w, Core) ==>
        && (CoreStaysDirect(st, v, w) <==> Adjacent(net, v, w) && Outlasts(net, v, u))
        && (StaysIndirect(st, v, w) <==> KeptIndirect(net, u, v, w))
        && (Detour(st.list, v, w) <==> HasDetour(net, u, v, w))
    {
      SeenStatus(net, u, st, v, NeighNode);
      SeenStatus(net, u, st, w, Core);
      if BnLink(net, u, v) && Adjacent(net, u, w) && Is(net, w, Core) {
        SeenOneHop(net, u, st, v, w);
        SeenPriority(net, u, st, v);
        IndirectOnNet(net, u, st, v, w);
        DetourOnNet(net, u, st, v, w);
      }
    }
  }

  // A backbone node leaves exactly if nobody depends on it and its backbone and core neighbours stay connected
  // without it; it then advertises OTHER. If it stays, it advertises BREAK exactly if somebody depends on it, and ALLOW
  // otherwise.
  lemma QuitDecision(net: Network, u: Address, st: LocalState)
    requires WellFormed(net) && Accurate(net, u, st) && Is(net, u, NeighNode)
    ensures Decide(st).status == Core <==>
            !HasDependent(net, u) && PairsKept(net, u, st.rule1) && CorePairsKept(net, u, st.rule1)
    ensures Decide(st).status == Core ==> Decide(st).indicator == ConvertOther
    ensures Decide(st).status != Core ==>
            && Decide(st).status == NeighNode
            && (Decide(st).indicator == ConvertBreak <==> HasDependent(net, u))
            && (Decide(st).indicator == ConvertAllow <==> !HasDependent(net, u))
    ensures Decide(st).associated == st.associated
  {
    hide ClientsServed, BackboneStaysLinked, CoreStaysLinked, HasDependent, PairsKept, CorePairsKept;
    ClientsServedIff(net, u, st);
    PairsKeptIff(net, u, st);
    CorePairsKeptIff(net, u, st);
    assert st.status == NeighNode by {
      hide AccurateTuple, Distinct;
    }
  }

  // ---------- joining the backbone ----------

  ghost predicate Unlinked(net: Network, u: Address, rule1: bool, v: Address, w: Address) {
    && !Adjacent(net, v, w)
    && (forall x :: !Between(net, x, v, w))
    && !(rule1 && HasDetour(net, u, v, w))
  }

  // A core neighbour of u with priority over it, next to both v and w.
  ghost predicate Blocker(net: Network, u: Address, x: Address, v: Address, w: Address) {
    Adjacent(net, u, x) && Is(net, x, Core) && Above(net, x, u) && Adjacent(net, x, v) && Adjacent(net, x, w)
  }

  // A core neighbour of u with priority over it, next to v and to a backbone neighbour of w.
  ghost predicate FarBlocker(net: Network, u: Address, x: Address, v: Address, w: Address) {
    && Adjacent(net, u, x) && Is(net, x, Core) && Above(net, x, u) && x != w
    && Adjacent(net, x, v) && exists y :: Between(net, y, x, w)
  }

  ghost predicate WinsElection(net: Network, u: Address) {
    && (forall a :: Adjacent(net, u, a) ==> !Is(net, a, NeighNode))
    && (exists a :: Adjacent(net, u, a) && Is(net, a, Core))
    && (forall a :: Adjacent(net, u, a) && Is(net, a, Core) ==> Above(net, u, a))
  }

  ghost predicate HasClientNode(net: Network, u: Address) {
    exists c :: ClientOf(net, c, u) && (Is(net, c, Core) || Is(net, c, RnNode))
  }

  // Two backbone neighbours that nothing links and no other core node will.
  ghost predicate ConnectsPair(net: Network, u: Address, rule1: bool)
    requires WellFormed(net) && u in net
  {
    exists v, w :: BnLink(net, u, v) && BnLink(net, u, w) && v != w &&
      Unlinked(net, u, rule1, v, w) && forall x :: !Blocker(net, u, x, v, w)
  }

  // The same for a backbone neighbour and a core neighbour that has a backbone neighbour.
  ghost predicate ConnectsCorePair(net: Network, u: Address, rule1: bool)
    requires WellFormed(net) && u in net
  {
    exists v, w :: BnLink(net, u, v) && Adjacent(net, u, w) && Is(net, w, Core) &&
      Unlinked(net, u, rule1, v, w) && (exists z :: BnLink(net, w, z)) && forall x :: !FarBlocker(net, u, x, v, w)
  }

  lemma UnlinkedIff(net: Network, u: Address, st: LocalState, v: Address, w: Address)
    requires WellFormed(net) && Accurate(net, u, st)
    requires BnLink(net, u, v) && Adjacent(net, u, w) && w in net && net[w].status != RnNode
    ensures Linked(st, v, w) <==> !Unlinked(net, u, st.rule1, v, w)
  {
    hide Detour, HasDetour;
    SeenOneHop(net, u, st, v, w);
    SeenBn(net, u, st, v);
    SeenBn(net, u, st, w);
    DetourOnNet(net, u, st, v, w);
    assert forall x :: Between(net, x, v, w) <==> x in BnOf(st.list, v) && x in BnOf(st.list, w);
  }

  lemma BlockerIff(net: Network, u: Address, st: LocalState, x: Address, v: Address, w: Address)
    requires WellFormed(net) && Accurate(net, u, st) && BnLink(net, u, v) && BnLink(net, u, w)
    ensures HasStatus(st.list, x, Core) && Connects(st, x, v, w) <==> Blocker(net, u, x, v, w)
  {
    SeenStatus(net, u, st, x, Core);
    if Adjacent(net, u, x) && Is(net, x, Core) {
      SeenOneHop(net, u, st, v, x);
      SeenOneHop(net, u, st, w, x);
      SeenPriority(net, u, st, x);
    }
  }

  lemma FarBlockerIff(net: Network, u: Address, st: LocalState, x: Address, v: Address, w: Address)
    requires WellFormed(net) && Accurate(net, u, st)
    requires BnLink(net, u, v) && Adjacent(net, u, w) && Is(net, w, Core)
    ensures HasStatus(st.list, x, Core) && ConnectsIndirectly(st, x, v, w) <==> FarBlocker(net, u, x, v, w)
  {
    SeenStatus(net, u, st, x, Core);
    if Adjacent(net, u, x) && Is(net, x, Core) {
      SeenBn(net, u, st, x);
      SeenBn(net, u, st, w);
      SeenPriority(net, u, st, x);
      assert forall y :: Between(net, y, x, w) <==> y in BnOf(st.list, x) && y in BnOf(st.list, w);
    }
  }

  lemma PushedIff(net: Network, u: Address, st: LocalState)
    requires WellFormed(net) && Accurate(net, u, st)
    ensures PushedToJoin(st) <==> ConnectsPair(net, u, st.rule1)
  {
    hide Linked, Unlinked, Connects, Blocker, Accurate;
    forall v, w
      ensures PairOf(st.list, v, w, NeighNode) && NeedsMe(st, v, w) <==>
              && BnLink(net, u, v) && BnLink(net, u, w) && v != w
              && Unlinked(net, u, st.rule1, v, w) && forall x :: !Blocker(net, u, x, v, w)
    {
      SeenStatus(net, u, st, v, NeighNode);
      SeenStatus(net, u, st, w, NeighNode);
      KnownSelf(net, u, st);
      if BnLink(net, u, v) && BnLink(net, u, w) {
        UnlinkedIff(net, u, st, v, w);
        forall x
          ensures HasStatus(st.list, x, Core) && Connects(st, x, v, w) <==> Blocker(net, u, x, v, w)
        {
          BlockerIff(net, u, st, x, v, w);
        }
      }
    }
  }

  lemma KnownSelf(net: Network, u: Address, st: LocalState)
    requires Accurate(net, u, st)
    ensures u in net && st.me == u && st.weight == net[u].weight && st.status == net[u].status
  {
  }

  lemma PushedFarIff(net: Network, u: Address, st: LocalState)
    requires WellFormed(net) && Accurate(net, u, st)
    ensures PushedToJoinIndirectly(st) <==> ConnectsCorePair(net, u, st.rule1)
  {
    hide Linked, Unlinked, ConnectsIndirectly, FarBlocker, Accurate;
    forall v, w
      ensures PairOf(st.list, v, w, Core) && NeedsMeIndirectly(st, v, w) <==>
              && BnLink(net, u, v) && Adjacent(net, u, w) && Is(net, w, Core)
              && Unlinked(net, u, st.rule1, v, w) && (exists z :: BnLink(net, w, z))
              && forall x :: !FarBlocker(net, u, x, v, w)
    {
      KnownSelf(net, u, st);
      SeenStatus(net, u, st, v, NeighNode);
      SeenStatus(net, u, st, w, Core);
      if BnLink(net, u, v) && Adjacent(net, u, w) && Is(net, w, Core) {
        UnlinkedIff(net, u, st, v, w);
        SeenBn(net, u, st, w);
        assert forall z :: BnLink(net, w, z) <==> z in BnOf(st.list, w);
        forall x
          ensures HasStatus(st.list, x, Core) && ConnectsIndirectly(st, x, v, w) <==> FarBlocker(net, u, x, v, w)
        {
          FarBlockerIff(net, u, st, x, v, w);
        }
      }
    }
  }

  lemma ElectionIff(net: Network, u: Address, st: LocalState)
    requires WellFormed(net) && Accurate(net, u, st) && CoreAroundAdvertisesOther(net, u)
    ensures ElectsItself(st) <==> WinsElection(net, u)
  {
    if ElectsItself(st) {
      ElectedIsHighest(net, u, st);
      var best := Best(st.list, Core).value;
      assert best in st.list && AccurateTuple(net, u, best);
      assert Adjacent(net, u, best.addr) && Is(net, best.addr, Core);
    }
    if WinsElection(net, u) {
      HighestElectsItself(net, u, st);
    }
  }

  lemma ClientIff(net: Network, u: Address, st: LocalState)
    requires WellFormed(net) && Accurate(net, u, st)
    ensures HasClient(st.list, Core) || HasClient(st.list, RnNode) <==> HasClientNode(net, u)
  {
    hide AccurateBn;
    if t :| t in st.list && t.client && (t.status == Core || t.status == RnNode) {
      assert AccurateTuple(net, u, t);
      assert ClientOf(net, t.addr, u);
    }
    if c :| ClientOf(net, c, u) && (Is(net, c, Core) || Is(net, c, RnNode)) {
      SeenTuple(net, u, st, c);
      assert Find(st.list, c).value in st.list;
    }
  }

  // Where rule 2 allows it, a core node joins exactly if it wins the election, has a core or regular client, or
  // connects a pair of its neighbours that nothing links and no neighbour with priority connects; it joins for no other
  // reason. It becomes a backbone node with the indicator it had.
  lemma JoinDecision(net: Network, u: Address, st: LocalState)
    requires WellFormed(net) && Accurate(net, u, st) && Is(net, u, Core) && CoreAroundAdvertisesOther(net, u)
    ensures Decide(st).status == NeighNode <==>
            && (st.rule2 ==> st.currentBn <= st.lastBn)
            && (WinsElection(net, u) || HasClientNode(net, u)
                || ConnectsPair(net, u, st.rule1) || ConnectsCorePair(net, u, st.rule1))
    ensures Decide(st).status != NeighNode ==> Decide(st).status == Core
    ensures Decide(st).indicator == st.indicator
  {
    hide ElectsItself, HasClient, PushedToJoin, PushedToJoinIndirectly, Accurate;
    hide WinsElection, HasClientNode, ConnectsPair, ConnectsCorePair, Best;
    KnownSelf(net, u, st);
    var st' := Associate(st);
    AssociatingKeepsAccurate(net, u, st);
    ElectionIff(net, u, st');
    ClientIff(net, u, st');
    PushedIff(net, u, st');
    PushedFarIff(net, u, st');
  }

  lemma AssociatingKeepsAccurate(net: Network, u: Address, st: LocalState)
    requires Accurate(net, u, st)
    ensures Accurate(net, u, Associate(st)) && Associate(st) == st.(associated := Associate(st).associated)
  {
    hide Best, AccurateTuple, Distinct, Find;
  }

  // A node that knows no neighbour stays a core node.
  lemma AloneStaysCore(st: LocalState)
    requires st.status == Core && st.list == []
    ensures Decide(st) == st
  {
    AssociatesWithBest(st);
    hide Linked, NeedsMe, NeedsMeIndirectly, Associate, Best;
    assert forall a, status :: !HasStatus(st.list, a, status);
    assert !ElectsItself(st) && !MustJoin(st) && !PushedToJoin(st) && !PushedToJoinIndirectly(st);
    assert !Joins(st);
    assert Join(st) == st;
  }

  // ---------- associating ----------

  // A core or regular node that knows a neighbour associates with one that is a backbone node if any is, else a core
  // node if any is, and of these with one of the greatest weight, a BREAK node before others and then the one of the
  // greatest address. A backbone node associates with nobody new.
  lemma AssociationDecision(st: LocalState)
    ensures st.status == NeighNode || st.list == [] ==> Decide(st).associated == st.associated
    ensures st.status != NeighNode && st.list != [] ==>
              exists t :: t in st.list && Decide(st).associated == t.addr && FirstChoice(st.list, t)
    ensures st.status == RnNode ==> Decide(st).status == RnNode && Decide(st).indicator == st.indicator
    ensures Decide(st).list == st.list
  {
    hide Joins, Quits, ClientsServed, Best;
    AssociatesWithBest(st);
    if st.status != NeighNode && st.list != [] {
      var t :| Preferred(st.list, t) && Associate(st) == st.(associated := t.addr);
      assert FirstChoice(st.list, t);
    }
  }

  ghost predicate FirstChoice(list: seq<NeighborTuple>, t: NeighborTuple) {
    forall t' :: t' in list ==>
      && (t'.status == NeighNode ==> t.status == NeighNode)
      && (t'.status == Core ==> t.status != RnNode)
      && (t'.status == t.status ==> t'.weight <= t.weight)
      && (t'.status == t.status && t'.weight == t.weight && t'.indicator == ConvertBreak ==>
           t.indicator == ConvertBreak)
      && (t'.status == t.status && t'.weight == t.weight && t'.indicator == t.indicator ==> t'.addr <= t.addr)
  }
}
