/** What conditions 1 and 3 guarantee to the core nodes around a backbone node that leaves. */
module Attachment {
  import opened Types
  import opened NeighborTuples
  import opened BackboneRules
  import opened Networks
  import opened Quitting

  ghost predicate ClientOf(net: Network, c: Address, u: Address) {
    Adjacent(net, u, c) && c in net && net[c].associated == u
  }

  lemma ClientsServedOnNet(net: Network, u: Address, st: LocalState, c: Address)
    requires WellFormed(net) && Accurate(net, u, st) && ClientsServed(st.list)
    requires ClientOf(net, c, u)
    ensures net[c].status != RnNode
    ensures net[c].status == Core ==> exists b :: b != u && BnLink(net, c, b)
  {
    SeenTuple(net, u, st, c);
    var t := Find(st.list, c).value;
    assert t in st.list && t.client;
    if t.status == Core {
      assert |t.bnNeighbors| > 1;
      assert t.bnNeighbors[0].addr != t.bnNeighbors[1].addr;
      var e := if t.bnNeighbors[0].addr != u then t.bnNeighbors[0] else t.bnNeighbors[1];
      assert e in t.bnNeighbors;
      assert e.addr in Addresses(t.bnNeighbors);
      assert BnLink(net, c, e.addr);
    }
  }

  // A walk from w to v whose nodes, w itself aside, are backbone nodes other than u.
  ghost predicate Served(net: Network, u: Address, w: Address, v: Address) {
    Joined(net, (BackboneOf(net) - {u}) + {w}, w, v)
  }

  // Condition 3, read on the network.
  lemma CoreStaysKept(net: Network, u: Address, st: LocalState, v: Address, w: Address)
    requires WellFormed(net) && Accurate(net, u, st) && CoreStaysLinked(st)
    requires BnLink(net, u, v) && Adjacent(net, u, w) && Is(net, w, Core)
    ensures Adjacent(net, w, v) || KeptIndirect(net, u, v, w) || (st.rule1 && HasDetour(net, u, v, w))
  {
    hide Detour, HasDetour, StaysIndirect, KeptIndirect;
    SeenStatus(net, u, st, v, NeighNode);
    SeenStatus(net, u, st, w, Core);
    assert PairOf(st.list, v, w, Core);
    SeenOneHop(net, u, st, v, w);
    IndirectOnNet(net, u, st, v, w);
    DetourOnNet(net, u, st, v, w);
  }

  lemma CoreStaysLinkedOnNet(net: Network, u: Address, st: LocalState, v: Address, w: Address)
    requires WellFormed(net) && Accurate(net, u, st) && CoreStaysLinked(st)
    requires BnLink(net, u, v) && Adjacent(net, u, w) && Is(net, w, Core)
    ensures Served(net, u, w, v)
  {
    hide HasDetour, KeptIndirect;
    CoreStaysKept(net, u, st, v, w);
    if Adjacent(net, w, v) {
      JoinedEdge(net, (BackboneOf(net) - {u}) + {w}, w, v);
    } else if KeptIndirect(net, u, v, w) {
      ServedIndirectly(net, u, v, w);
    } else {
      ServedByDetour(net, u, v, w);
    }
  }

  lemma ServedIndirectly(net: Network, u: Address, v: Address, w: Address)
    requires WellFormed(net) && BnLink(net, u, v) && Is(net, w, Core) && KeptIndirect(net, u, v, w)
    ensures Served(net, u, w, v)
  {
    var x :| x != u && Between(net, x, v, w) && Outlasts(net, x, u);
    JoinedTwoSteps(net, (BackboneOf(net) - {u}) + {w}, w, x, v);
  }

  lemma ServedByDetour(net: Network, u: Address, v: Address, w: Address)
    requires WellFormed(net) && BnLink(net, u, v) && Is(net, w, Core) && HasDetour(net, u, v, w)
    ensures Served(net, u, w, v)
  {
    var x, y :| DetourOver(net, u, v, w, x, y);
    JoinedThreeSteps(net, (BackboneOf(net) - {u}) + {w}, w, x, y, v);
  }

  // A backbone node that quits has no regular client, leaves each core client another backbone
  // neighbour, and leaves every core neighbour a way to each of its backbone neighbours.
  lemma QuittingKeepsCoreAttached(net: Network, u: Address, st: LocalState)
    requires WellFormed(net) && Accurate(net, u, st) && Quits(st)
    ensures forall c :: ClientOf(net, c, u) ==>
      net[c].status != RnNode && (net[c].status == Core ==> exists b :: b != u && BnLink(net, c, b))
    ensures forall v, w :: BnLink(net, u, v) && Adjacent(net, u, w) && Is(net, w, Core) ==> Served(net, u, w, v)
  {
    hide ClientsServed, BackboneStaysLinked, CoreStaysLinked, Served;
    forall c | ClientOf(net, c, u)
      ensures net[c].status != RnNode && (net[c].status == Core ==> exists b :: b != u && BnLink(net, c, b))
    {
      ClientsServedOnNet(net, u, st, c);
    }
    forall v, w | BnLink(net, u, v) && Adjacent(net, u, w) && Is(net, w, Core)
      ensures Served(net, u, w, v)
    {
      CoreStaysLinkedOnNet(net, u, st, v, w);
    }
  }

  // ---------- any number of nodes leave at once ----------

  // Every leaver satisfies condition 3 too.
  ghost predicate MayQuit(net: Network, views: map<Address, LocalState>, q: set<Address>) {
    MayLeave(net, views, q) && forall u :: u in q ==> CoreStaysLinked(views[u])
  }

  // What condition 3 keeps is a walk among the nodes that stay at least as long as the highest leaver m.
  lemma CoreKeptIsJoined(net: Network, views: map<Address, LocalState>, q: set<Address>, m: Address, v: Address,
                         w: Address)
    requires WellFormed(net) && MayQuit(net, views, q)
    requires m in q && forall x :: x in q && x != m ==> Above(net, m, x)
    requires BnLink(net, m, v) && v !in q && Adjacent(net, m, w) && Is(net, w, Core)
    ensures Joined(net, BackboneOf(net) - q + {w}, w, v)
  {
    hide Accurate, BackboneStaysLinked, CoreStaysLinked;
    var s := BackboneOf(net) - q + {w};
    assert MayLeaveWith(net, q, m, views[m]);
    forall x | x in q
      ensures !Breaker(net, x)
    {
      assert MayLeaveWith(net, q, x, views[x]);
    }
    CoreStaysKept(net, m, views[m], v, w);
    if Adjacent(net, w, v) {
      JoinedEdge(net, s, w, v);
    } else if KeptIndirect(net, m, v, w) {
      var x :| x != m && Between(net, x, v, w) && Outlasts(net, x, m);
      JoinedTwoSteps(net, s, w, x, v);
    } else {
      var x, y :| DetourOver(net, m, v, w, x, y);
      assert x in net[m].links && y in net[m].links;
      JoinedThreeSteps(net, s, w, x, y, v);
    }
  }

  lemma TopmostIsBypassedAround(net: Network, views: map<Address, LocalState>, q: set<Address>, m: Address, w: Address)
    requires WellFormed(net) && MayQuit(net, views, q) && Is(net, w, Core)
    requires m in q && forall x :: x in q && x != m ==> Above(net, m, x)
    ensures Bypassed(net, BackboneOf(net) - (q - {m}) + {w}, m)
  {
    hide MayQuit, Joined;
    var s := BackboneOf(net) - (q - {m}) + {w};
    var b := BackboneOf(net) - (q - {m});
    MayLeaveOfMayQuit(net, views, q);
    TopmostIsBypassed(net, views, q, m);
    assert BackboneOf(net) - q + {w} == s - {m};
    forall a, c | a in s && c in s && a != m && c != m && a != c && Adjacent(net, m, a) && Adjacent(net, m, c)
      ensures Joined(net, s - {m}, a, c)
    {
      if a == w {
        CoreKeptIsJoined(net, views, q, m, c, w);
      } else if c == w {
        CoreKeptIsJoined(net, views, q, m, a, w);
        JoinedBack(net, s - {m}, w, a);
      } else {
        JoinedInLarger(net, b - {m}, s - {m}, a, c);
      }
    }
  }

  lemma MayLeaveOfMayQuit(net: Network, views: map<Address, LocalState>, q: set<Address>)
    requires MayQuit(net, views, q)
    ensures MayLeave(net, views, q)
    ensures forall u :: u in q ==> Is(net, u, NeighNode)
  {
    assert forall u :: u in q ==> MayLeaveWith(net, q, u, views[u]);
  }

  lemma MayQuitFewer(net: Network, views: map<Address, LocalState>, q: set<Address>, m: Address)
    requires MayQuit(net, views, q)
    ensures MayQuit(net, views, q - {m})
  {
    hide Accurate, BackboneStaysLinked, CoreStaysLinked;
    forall u | u in q - {m}
      ensures u in views && MayLeaveWith(net, q - {m}, u, views[u])
    {
      assert MayLeaveWith(net, q, u, views[u]);
    }
  }

  // A core node that reaches a staying node over the backbone still does when all of q leave at once.
  lemma {:induction false} LeavingTogetherKeepsCoreReaching(net: Network, views: map<Address, LocalState>,
                                                            q: set<Address>, w: Address, v: Address)
    requires WellFormed(net) && MayQuit(net, views, q)
    requires Is(net, w, Core) && v !in q && Joined(net, BackboneOf(net) + {w}, w, v)
    ensures Joined(net, BackboneOf(net) - q + {w}, w, v)
    decreases q
  {
    hide MayQuit, Joined;
    if q == {} {
      assert BackboneOf(net) - q == BackboneOf(net);
    } else {
      MayLeaveOfMayQuit(net, views, q);
      assert q <= net.Keys;
      var m := Topmost(net, q);
      MayQuitFewer(net, views, q, m);
      LeavingTogetherKeepsCoreReaching(net, views, q - {m}, w, v);
      TopmostIsBypassedAround(net, views, q, m, w);
      JoinedAround(net, BackboneOf(net) - (q - {m}) + {w}, m, w, v);
      assert BackboneOf(net) - (q - {m}) + {w} - {m} == BackboneOf(net) - q + {w};
    }
  }

  // So it keeps a backbone neighbour: one that stays and that is joined to that node along what is left.
  lemma LeavingTogetherKeepsCoreAttached(net: Network, views: map<Address, LocalState>, q: set<Address>, w: Address,
                                         v: Address)
    requires WellFormed(net) && MayQuit(net, views, q)
    requires Is(net, w, Core) && Is(net, v, NeighNode) && v !in q && Joined(net, BackboneOf(net) + {w}, w, v)
    ensures exists y :: BnLink(net, w, y) && y !in q && Joined(net, BackboneOf(net) - q, y, v)
  {
    hide MayQuit;
    LeavingTogetherKeepsCoreReaching(net, views, q, w, v);
    var s := BackboneOf(net) - q;
    var p :| WalkFromTo(net, s + {w}, p, w, v);
    var y := WalkLeaves(net, s, w, p, w, v);
  }
}
