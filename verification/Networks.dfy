/** A network of nodes, the view a node has of it, and the walks along its backbone. */
module Networks {
  import opened Types
  import opened NeighborTuples
  import opened BackboneRules

  // What a node is and advertises, and the nodes it hears.
  datatype NodeInfo = NodeInfo(
    status: NodeStatus,
    weight: U32,
    indicator: Indicator,
    associated: Address,
    links: set<Address>)

  type Network = map<Address, NodeInfo>

  // Links join two different nodes and work both ways.
  ghost predicate WellFormed(net: Network) {
    && (forall a :: a in net ==> a !in net[a].links)
    && (forall a, b :: a in net && b in net[a].links ==> b in net && a in net[b].links)
  }

  ghost predicate Adjacent(net: Network, a: Address, b: Address) {
    a in net && b in net[a].links
  }

  ghost predicate Is(net: Network, a: Address, status: NodeStatus) {
    a in net && net[a].status == status
  }

  ghost function BackboneOf(net: Network): set<Address> {
    set a | a in net && net[a].status == NeighNode
  }

  // The backbone neighbours of a node.
  ghost function BnLinks(net: Network, a: Address): set<Address>
    requires a in net
  {
    set b | b in net[a].links && Is(net, b, NeighNode)
  }

  ghost predicate Above(net: Network, a: Address, b: Address)
    requires a in net && b in net
  {
    Outranks(net[a].weight, a, net[b].weight, b)
  }

  ghost predicate Breaker(net: Network, a: Address) {
    a in net && net[a].indicator == ConvertBreak
  }

  // ---------- accurate views ----------

  // The tuple of a neighbour says what the neighbour is; a regular node advertises no backbone neighbour and
  // any other node advertises exactly the ones it has.
  ghost predicate AccurateTuple(net: Network, u: Address, t: NeighborTuple) {
    && t.addr in net
    && t.status == net[t.addr].status && t.weight == net[t.addr].weight && t.indicator == net[t.addr].indicator
    && (t.client <==> net[t.addr].associated == u)
    && AccurateBn(net, t)
  }

  ghost predicate AccurateBn(net: Network, t: NeighborTuple)
    requires t.addr in net
  {
    && (t.status == RnNode ==> t.bnNeighbors == [])
    && (t.status != RnNode ==> Addresses(t.bnNeighbors) == BnLinks(net, t.addr))
    && (forall e :: e in t.bnNeighbors ==>
         e.addr in net && e.weight == net[e.addr].weight && e.indicator == net[e.addr].indicator)
    && (forall i, j :: 0 <= i < j < |t.bnNeighbors| ==> t.bnNeighbors[i].addr != t.bnNeighbors[j].addr)
  }

  // The node knows itself and exactly its neighbours as they are.
  ghost predicate Accurate(net: Network, u: Address, st: LocalState) {
    && u in net && st.me == u && st.own == {u} && st.weight == net[u].weight && st.status == net[u].status
    && Distinct(st.list)
    && (forall t :: t in st.list ==> t.addr in net[u].links && AccurateTuple(net, u, t))
    && (forall a :: a in net[u].links ==> Find(st.list, a).Some?)
  }

  lemma SeenTuple(net: Network, u: Address, st: LocalState, a: Address)
    requires Accurate(net, u, st)
    ensures Find(st.list, a).Some? <==> a in net[u].links
    ensures a in net[u].links ==> AccurateTuple(net, u, Find(st.list, a).value)
  {
  }

  lemma SeenStatus(net: Network, u: Address, st: LocalState, a: Address, status: NodeStatus)
    requires Accurate(net, u, st)
    ensures HasStatus(st.list, a, status) <==> a in net[u].links && Is(net, a, status)
  {
    SeenTuple(net, u, st, a);
    StatusFound(st.list, a, status);
  }

  lemma SeenBn(net: Network, u: Address, st: LocalState, a: Address)
    requires Accurate(net, u, st) && a in net[u].links && a in net
    ensures BnOf(st.list, a) == if net[a].status == RnNode then {} else BnLinks(net, a)
  {
    SeenTuple(net, u, st, a);
  }

  // Between a backbone node and a backbone or core node, the lists tell adjacency.
  lemma SeenOneHop(net: Network, u: Address, st: LocalState, v: Address, w: Address)
    requires WellFormed(net) && Accurate(net, u, st)
    requires v in net[u].links && w in net[u].links && Is(net, v, NeighNode) && Is(net, w, net[w].status) &&
             net[w].status != RnNode
    ensures OneHop(st.list, v, w) <==> Adjacent(net, v, w)
    ensures OneHop(st.list, w, v) <==> Adjacent(net, v, w)
  {
    SeenBn(net, u, st, v);
    SeenBn(net, u, st, w);
  }

  lemma SeenPriority(net: Network, u: Address, st: LocalState, a: Address)
    requires WellFormed(net) && Accurate(net, u, st) && a in net[u].links
    ensures a in net && a != u
    ensures Higher(st, a) <==> Above(net, u, a)
    ensures Higher(st, a) <==> !Above(net, a, u)
    ensures IsBreaker(st.list, a) <==> Breaker(net, a)
  {
    SeenTuple(net, u, st, a);
  }

  // ---------- walks ----------

  // p is a walk over links inside s.
  ghost predicate Walk(net: Network, s: set<Address>, p: seq<Address>) {
    && p != [] && p[0] in s
    && (|p| > 1 ==> Adjacent(net, p[0], p[1]) && Walk(net, s, p[1..]))
  }

  ghost predicate WalkFromTo(net: Network, s: set<Address>, p: seq<Address>, a: Address, b: Address) {
    Walk(net, s, p) && p[0] == a && p[|p| - 1] == b
  }

  ghost predicate Joined(net: Network, s: set<Address>, a: Address, b: Address) {
    exists p :: WalkFromTo(net, s, p, a, b)
  }

  lemma JoinedHere(net: Network, s: set<Address>, a: Address)
    requires a in s
    ensures Joined(net, s, a, a)
  {
    assert WalkFromTo(net, s, [a], a, a);
  }

  lemma JoinedStep(net: Network, s: set<Address>, a: Address, b: Address, c: Address)
    requires a in s && Adjacent(net, a, b) && Joined(net, s, b, c)
    ensures Joined(net, s, a, c)
  {
    var p :| WalkFromTo(net, s, p, b, c);
    assert ([a] + p)[1..] == p;
    assert WalkFromTo(net, s, [a] + p, a, c);
  }

  lemma JoinedEdge(net: Network, s: set<Address>, a: Address, b: Address)
    requires a in s && b in s && Adjacent(net, a, b)
    ensures Joined(net, s, a, b)
  {
    JoinedHere(net, s, b);
    JoinedStep(net, s, a, b, b);
  }

  lemma JoinedTwoSteps(net: Network, s: set<Address>, a: Address, x: Address, b: Address)
    requires a in s && x in s && b in s && Adjacent(net, a, x) && Adjacent(net, x, b)
    ensures Joined(net, s, a, b)
  {
    JoinedEdge(net, s, x, b);
    JoinedStep(net, s, a, x, b);
  }

  lemma JoinedThreeSteps(net: Network, s: set<Address>, a: Address, x: Address, y: Address, b: Address)
    requires a in s && x in s && y in s && b in s && Adjacent(net, a, x) && Adjacent(net, x, y) && Adjacent(net, y, b)
    ensures Joined(net, s, a, b)
  {
    JoinedTwoSteps(net, s, x, y, b);
    JoinedStep(net, s, a, x, b);
  }

  lemma {:induction false} WalkThenJoined(net: Network, s: set<Address>, p: seq<Address>, a: Address, b: Address,
                                          c: Address)
    requires WalkFromTo(net, s, p, a, b) && Joined(net, s, b, c)
    ensures Joined(net, s, a, c)
    decreases |p|
  {
    if |p| > 1 {
      assert WalkFromTo(net, s, p[1..], p[1], b);
      WalkThenJoined(net, s, p[1..], p[1], b, c);
      JoinedStep(net, s, a, p[1], c);
    }
  }

  lemma JoinedTransitive(net: Network, s: set<Address>, a: Address, b: Address, c: Address)
    requires Joined(net, s, a, b) && Joined(net, s, b, c)
    ensures Joined(net, s, a, c)
  {
    var p :| WalkFromTo(net, s, p, a, b);
    WalkThenJoined(net, s, p, a, b, c);
  }

  lemma {:induction false} WalkInLarger(net: Network, s: set<Address>, s': set<Address>, p: seq<Address>)
    requires s <= s' && Walk(net, s, p)
    ensures Walk(net, s', p)
    decreases |p|
  {
    if |p| > 1 {
      WalkInLarger(net, s, s', p[1..]);
    }
  }

  lemma JoinedInLarger(net: Network, s: set<Address>, s': set<Address>, a: Address, b: Address)
    requires s <= s' && Joined(net, s, a, b)
    ensures Joined(net, s', a, b)
  {
    var p :| WalkFromTo(net, s, p, a, b);
    WalkInLarger(net, s, s', p);
    assert WalkFromTo(net, s', p, a, b);
  }

  // A walk from w into s has a last step out of w.
  lemma {:induction false} WalkLeaves(net: Network, s: set<Address>, w: Address, p: seq<Address>, a: Address,
                                      b: Address)
    returns (y: Address)
    requires WalkFromTo(net, s + {w}, p, a, b) && b in s && w !in s
    ensures y in s && Joined(net, s, y, b) && (y == a || Adjacent(net, w, y))
    decreases |p|
  {
    if |p| == 1 {
      JoinedHere(net, s, b);
      y := b;
    } else {
      assert WalkFromTo(net, s + {w}, p[1..], p[1], b);
      y := WalkLeaves(net, s, w, p[1..], p[1], b);
      if y == p[1] && a != w {
        JoinedStep(net, s, a, y, b);
        y := a;
      }
    }
  }

  lemma {:induction false} WalkBack(net: Network, s: set<Address>, p: seq<Address>, a: Address, b: Address)
    requires WellFormed(net) && WalkFromTo(net, s, p, a, b)
    ensures Joined(net, s, b, a)
    decreases |p|
  {
    if |p| == 1 {
      JoinedHere(net, s, a);
    } else {
      assert WalkFromTo(net, s, p[1..], p[1], b);
      WalkBack(net, s, p[1..], p[1], b);
      JoinedEdge(net, s, p[1], a);
      JoinedTransitive(net, s, b, p[1], a);
    }
  }

  lemma JoinedBack(net: Network, s: set<Address>, a: Address, b: Address)
    requires WellFormed(net) && Joined(net, s, a, b)
    ensures Joined(net, s, b, a)
  {
    var p :| WalkFromTo(net, s, p, a, b);
    WalkBack(net, s, p, a, b);
  }

  // The neighbours of m in s stay joined without m.
  ghost predicate Bypassed(net: Network, s: set<Address>, m: Address) {
    forall v, w :: v in s && w in s && v != m && w != m && v != w && Adjacent(net, m, v) && Adjacent(net, m, w) ==>
      Joined(net, s - {m}, v, w)
  }

  // Every walk through m can then be rerouted around it.
  lemma {:induction false} WalkAround(net: Network, s: set<Address>, m: Address, p: seq<Address>, a: Address,
                                      b: Address)
    requires WellFormed(net) && Bypassed(net, s, m)
    requires WalkFromTo(net, s, p, a, b) && a != m && b != m
    ensures Joined(net, s - {m}, a, b)
    decreases |p|
  {
    if |p| == 1 {
      JoinedHere(net, s - {m}, a);
    } else if p[1] != m {
      WalkAround(net, s, m, p[1..], p[1], b);
      JoinedStep(net, s - {m}, a, p[1], b);
    } else {
      var rest := p[1..];
      assert Walk(net, s, rest) && rest[0] == m && |rest| > 1;
      var c := rest[1];
      assert Adjacent(net, m, c) && Adjacent(net, m, a);
      WalkAround(net, s, m, rest[1..], c, b);
      if a != c {
        JoinedTransitive(net, s - {m}, a, c, b);
      }
    }
  }

  lemma JoinedAround(net: Network, s: set<Address>, m: Address, a: Address, b: Address)
    requires WellFormed(net) && Bypassed(net, s, m)
    requires Joined(net, s, a, b) && a != m && b != m
    ensures Joined(net, s - {m}, a, b)
  {
    var p :| WalkFromTo(net, s, p, a, b);
    WalkAround(net, s, m, p, a, b);
  }

  // Walks depend only on the links.
  lemma {:induction false} WalkSameLinks(net: Network, net': Network, s: set<Address>, p: seq<Address>)
    requires net.Keys == net'.Keys && forall a :: a in net ==> net[a].links == net'[a].links
    requires Walk(net, s, p)
    ensures Walk(net', s, p)
    decreases |p|
  {
    if |p| > 1 {
      WalkSameLinks(net, net', s, p[1..]);
    }
  }

  lemma JoinedSameLinks(net: Network, net': Network, s: set<Address>, a: Address, b: Address)
    requires net.Keys == net'.Keys && forall a :: a in net ==> net[a].links == net'[a].links
    requires Joined(net, s, a, b)
    ensures Joined(net', s, a, b)
  {
    var p :| WalkFromTo(net, s, p, a, b);
    WalkSameLinks(net, net', s, p);
    assert WalkFromTo(net', s, p, a, b);
  }
}
