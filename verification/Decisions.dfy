/** Nodes that decide one after the other: what any sequence of decisions keeps. */
module Decisions {
  import opened Types
  import opened NeighborTuples
  import opened BackboneRules
  import opened Networks
  import opened Quitting
  import opened Attachment

  // A decision of node u on a view, or a change of weights, indicators and associations alone.
  datatype Change = Decision(u: Address, view: LocalState) | Adjustment(net: Network)

  ghost predicate SameShape(net: Network, net': Network) {
    net.Keys == net'.Keys && forall a :: a in net ==> net'[a].links == net[a].links && net'[a].status == net[a].status
  }

  // A node decides on an accurate view of the network as it then is.
  ghost predicate Sound(net: Network, c: Change) {
    match c
    case Decision(u, view) => Accurate(net, u, view)
    case Adjustment(net') => SameShape(net, net')
  }

  ghost function After(net: Network, c: Change): Network {
    match c
    case Decision(u, view) =>
      var st := Decide(view);
      if u in net then
        net[u := net[u].(status := st.status, indicator := st.indicator, associated := st.associated)]
      else net
    case Adjustment(net') => net'
  }

  ghost predicate AllSound(net: Network, cs: seq<Change>)
    decreases |cs|
  {
    cs != [] ==> Sound(net, cs[0]) && AllSound(After(net, cs[0]), cs[1..])
  }

  ghost function AfterAll(net: Network, cs: seq<Change>): Network
    decreases |cs|
  {
    if cs == [] then net else AfterAll(After(net, cs[0]), cs[1..])
  }

  // v is a backbone node all along.
  ghost predicate StaysBackbone(net: Network, cs: seq<Change>, v: Address)
    decreases |cs|
  {
    Is(net, v, NeighNode) && (cs != [] ==> StaysBackbone(After(net, cs[0]), cs[1..], v))
  }

  // w reaches v over the backbone, and takes part in the protocol.
  ghost predicate Reaches(net: Network, w: Address, v: Address) {
    w in net && net[w].status != RnNode && Joined(net, BackboneOf(net) + {w}, w, v)
  }

  // ---------- one core node beside one leaver ----------

  // With conditions 2 and 3 a single node may leave, BREAK or not and rule 1 on or off, without cutting a core node
  // off from any other backbone node.
  lemma OneQuitKeepsCoreReaching(net: Network, u: Address, st: LocalState, w: Address, v: Address)
    requires WellFormed(net) && Accurate(net, u, st) && Quits(st)
    requires Is(net, w, Core) && w != u && v != u && Joined(net, BackboneOf(net) + {w}, w, v)
    ensures Joined(net, BackboneOf(net) - {u} + {w}, w, v)
  {
    hide Accurate, Quits, Joined;
    QuittingKeepsCoreAttached(net, u, st);
    var s := BackboneOf(net) + {w};
    assert s - {u} == BackboneOf(net) - {u} + {w};
    forall a, b | a in s && b in s && a != u && b != u && a != b && Adjacent(net, u, a) && Adjacent(net, u, b)
      ensures Joined(net, s - {u}, a, b)
    {
      PairSurvives(net, u, st, w, a, b);
    }
    JoinedAround(net, s, u, w, v);
  }

  lemma PairSurvives(net: Network, u: Address, st: LocalState, w: Address, a: Address, b: Address)
    requires WellFormed(net) && Accurate(net, u, st) && Quits(st) && Is(net, w, Core)
    requires a in BackboneOf(net) + {w} && b in BackboneOf(net) + {w}
    requires a != u && b != u && a != b && Adjacent(net, u, a) && Adjacent(net, u, b)
    ensures Joined(net, BackboneOf(net) - {u} + {w}, a, b)
  {
    hide Accurate, Joined;
    var s := BackboneOf(net) - {u} + {w};
    if a == w {
      CoreStaysLinkedOnNet(net, u, st, b, w);
    } else if b == w {
      CoreStaysLinkedOnNet(net, u, st, a, w);
      JoinedBack(net, s, w, a);
    } else {
      BackboneStaysLinkedOnNet(net, u, st);
      assert BnLink(net, u, a) && BnLink(net, u, b);
      KeptIsJoined(net, u, st.rule1, s, a, b);
    }
  }

  // ---------- one change ----------

  lemma AfterKeepsLinks(net: Network, c: Change)
    requires WellFormed(net) && Sound(net, c)
    ensures var net' := After(net, c);
            net'.Keys == net.Keys && (forall a :: a in net ==> net'[a].links == net[a].links) && WellFormed(net')
  {
    hide Accurate, Decide;
  }

  // What a decision does to the backbone.
  lemma DecisionOnBackbone(net: Network, u: Address, view: LocalState)
    requires Accurate(net, u, view)
    ensures u in net && Decide(view).status in {net[u].status, if net[u].status == Core then NeighNode else Core}
    ensures net[u].status == RnNode ==> Decide(view).status == RnNode
    ensures var b := BackboneOf(After(net, Decision(u, view)));
            b == if Decide(view).status == NeighNode then BackboneOf(net) + {u} else BackboneOf(net) - {u}
    ensures net[u].status == NeighNode && Decide(view).status != NeighNode ==> Quits(view)
  {
    hide Quits, Joins, ClientsServed, Distinct, AccurateTuple;
  }

  // w still reaches v, whoever decides, w itself included.
  lemma ChangeKeepsReaching(net: Network, c: Change, w: Address, v: Address)
    requires WellFormed(net) && Sound(net, c)
    requires Is(net, v, NeighNode) && Is(After(net, c), v, NeighNode) && Reaches(net, w, v)
    ensures Reaches(After(net, c), w, v)
  {
    hide Accurate, Decide, Joined, Quits;
    var net' := After(net, c);
    AfterKeepsLinks(net, c);
    match c
    case Adjustment(_) =>
      assert BackboneOf(net') == BackboneOf(net);
      JoinedSameLinks(net, net', BackboneOf(net) + {w}, w, v);
    case Decision(u, view) =>
      DecisionOnBackbone(net, u, view);
      var s, s' := BackboneOf(net) + {w}, BackboneOf(net') + {w};
      if u in BackboneOf(net) && u !in BackboneOf(net') && u != w {
        assert v != u;
        QuitKeepsReaching(net, u, view, w, v);
        assert s' == BackboneOf(net) - {u} + {w};
        JoinedSameLinks(net, net', s', w, v);
      } else {
        JoinedInLarger(net, s, s', w, v);
        JoinedSameLinks(net, net', s', w, v);
      }
  }

  lemma QuitKeepsReaching(net: Network, u: Address, st: LocalState, w: Address, v: Address)
    requires WellFormed(net) && Accurate(net, u, st) && Quits(st) && u != w && u != v && Reaches(net, w, v)
    ensures Joined(net, BackboneOf(net) - {u} + {w}, w, v)
  {
    hide Accurate, Joined;
    if net[w].status == Core {
      OneQuitKeepsCoreReaching(net, u, st, w, v);
    } else {
      assert BackboneOf(net) + {w} == BackboneOf(net);
      OneQuitKeepsBackboneJoined(net, u, st, w, v);
      assert BackboneOf(net) - {u} + {w} == BackboneOf(net) - {u};
    }
  }

  // ---------- any sequence ----------

  // Whatever sequence of nodes decides, each on an accurate view of the network as it then is, rule 1 on or off and
  // BREAK or not: a core or backbone node that reaches a backbone node over the backbone reaches it as long as that
  // one stays, even when it joins or leaves the backbone itself.
  lemma {:induction false} DecisionsKeepReaching(net: Network, cs: seq<Change>, w: Address, v: Address)
    requires WellFormed(net) && AllSound(net, cs) && StaysBackbone(net, cs, v) && Reaches(net, w, v)
    ensures Reaches(AfterAll(net, cs), w, v)
    decreases |cs|
  {
    hide Sound, After, Reaches;
    if cs != [] {
      AfterKeepsLinks(net, cs[0]);
      ChangeKeepsReaching(net, cs[0], w, v);
      DecisionsKeepReaching(After(net, cs[0]), cs[1..], w, v);
    }
  }

  // In particular two backbone nodes that stay and were joined still are.
  lemma DecisionsKeepJoined(net: Network, cs: seq<Change>, a: Address, b: Address)
    requires WellFormed(net) && AllSound(net, cs) && StaysBackbone(net, cs, a) && StaysBackbone(net, cs, b)
    requires Joined(net, BackboneOf(net), a, b)
    ensures var after := AfterAll(net, cs); Joined(after, BackboneOf(after), a, b)
  {
    hide Joined, AllSound;
    var after := AfterAll(net, cs);
    StaysToTheEnd(net, cs, a);
    assert BackboneOf(net) + {a} == BackboneOf(net) && BackboneOf(after) + {a} == BackboneOf(after);
    DecisionsKeepReaching(net, cs, a, b);
  }

  lemma {:induction false} StaysToTheEnd(net: Network, cs: seq<Change>, v: Address)
    requires StaysBackbone(net, cs, v)
    ensures Is(net, v, NeighNode) && Is(AfterAll(net, cs), v, NeighNode)
    decreases |cs|
  {
    if cs != [] {
      StaysToTheEnd(After(net, cs[0]), cs[1..], v);
    }
  }

  // And a core node at the end has a backbone neighbour that is joined to the one it reached.
  lemma DecisionsKeepCoreAttached(net: Network, cs: seq<Change>, w: Address, v: Address)
    requires WellFormed(net) && AllSound(net, cs) && StaysBackbone(net, cs, v) && Reaches(net, w, v)
    requires Is(AfterAll(net, cs), w, Core)
    ensures var after := AfterAll(net, cs); exists y :: BnLink(after, w, y) && Joined(after, BackboneOf(after), y, v)
  {
    hide AllSound, Joined;
    var after := AfterAll(net, cs);
    DecisionsKeepReaching(net, cs, w, v);
    StaysToTheEnd(net, cs, v);
    CoreReachesOverNeighbor(after, w, v);
  }

  lemma CoreReachesOverNeighbor(net: Network, w: Address, v: Address)
    requires Is(net, w, Core) && Is(net, v, NeighNode) && Joined(net, BackboneOf(net) + {w}, w, v)
    ensures exists y :: BnLink(net, w, y) && Joined(net, BackboneOf(net), y, v)
  {
    var p :| WalkFromTo(net, BackboneOf(net) + {w}, p, w, v);
    var y := WalkLeaves(net, BackboneOf(net), w, p, w, v);
  }
}
