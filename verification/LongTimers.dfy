/** What a long timer keeps of the neighbour list, and the weight and counts a node decides and advertises with. */
module LongTimers {
  import opened Types
  import opened Lists
  import opened NeighborTuples
  import opened NeighborLists
  import opened BackboneRules
  import opened Backbone
  import opened Networks

  // ---------- the neighbours kept ----------

  // Of the tuples, exactly those heard often enough, unexpired and open remain, and their counters start anew.
  lemma RoundKeeps(st: LocalState, minHello: U32, now: Time)
    ensures forall u :: u in LongTimer(st, minHello, now).list <==>
              exists t :: t in st.list && t.helloCounter >= minHello && t.expire >= now && !t.close
                          && u == t.(helloCounter := 0)
  {
    var kept := AtDecision(st, minHello, now).list;
    DecidingKeepsList(AtDecision(st, minHello, now));
    assert LongTimer(st, minHello, now).list == CountersReset(kept);
    forall t
      ensures t in kept <==> t in st.list && t.helloCounter >= minHello && t.expire >= now && !t.close
    {
      KeptIff(st, minHello, now, t);
    }
    hide AtDecision, LongTimer;
    ResetMembers(kept);
  }

  lemma DecidingKeepsList(st: LocalState)
    ensures Decide(st).list == st.list
  {
    hide Joins, Quits, ClientsServed, Best;
  }

  lemma KeptIff(st: LocalState, minHello: U32, now: Time, t: NeighborTuple)
    ensures t in AtDecision(st, minHello, now).list <==>
            t in st.list && t.helloCounter >= minHello && t.expire >= now && !t.close
  {
  }

  lemma ResetMembers(list: seq<NeighborTuple>)
    ensures forall u :: u in CountersReset(list) <==> exists t :: t in list && u == t.(helloCounter := 0)
  {
    var r := CountersReset(list);
    forall u | u in r
      ensures exists t :: t in list && u == t.(helloCounter := 0)
    {
      var i :| 0 <= i < |r| && r[i] == u;
      assert list[i] in list;
    }
    forall t | t in list
      ensures t.(helloCounter := 0) in r
    {
      var i :| 0 <= i < |list| && list[i] == t;
      assert r[i] == t.(helloCounter := 0);
    }
  }

  // ---------- other purges ----------

  // After a transmission error exactly the tuples that are not affected, unexpired and open remain.
  lemma TxErrorKeeps(list: seq<NeighborTuple>, affected: set<Address>, now: Time)
    ensures forall t :: t in Filter(Closed(list, affected), Open(now)) <==>
              t in list && t.addr !in affected && t.expire >= now && !t.close
  {
    hide Filter;
    var c := Closed(list, affected);
    forall t
      ensures t in c && !t.close <==> t in list && t.addr !in affected && !t.close
    {
      if t in c && !t.close {
        var i :| 0 <= i < |c| && c[i] == t;
        assert list[i] in list;
      }
      if t in list && t.addr !in affected {
        var i :| 0 <= i < |list| && list[i] == t;
        assert c[i] == t;
      }
    }
  }

  // An unknown neighbour enters the list as a core node of weight 0 that advertises OTHER, while the purge keeps
  // exactly the unexpired and open tuples.
  lemma UnknownEnters(list: seq<NeighborTuple>, a: Address, lifetime: Time, now: Time)
    requires IndexOf(list, a) == |list|
    ensures forall t :: t in Refreshed(list, a, lifetime, now) <==>
              && (t in list || t == NeighborTuple(a, now + lifetime, false, 0, 0xFFFF, 0, Core, UNSET_ADDRESS,
                                                  ConvertOther, false, []))
              && t.expire >= now && !t.close
  {
  }

  // ---------- weights and counts ----------

  ghost function AddressesOf(list: seq<NeighborTuple>): set<Address> {
    set t | t in list :: t.addr
  }

  lemma {:induction false} AddressCount(list: seq<NeighborTuple>)
    requires Distinct(list)
    ensures |AddressesOf(list)| == |list|
  {
    if list != [] {
      AddressCount(list[1..]);
      assert AddressesOf(list) == AddressesOf(list[1..]) + {list[0].addr};
      assert list[0].addr !in AddressesOf(list[1..]);
    }
  }

  // On an accurate view the neighbours are counted as they are.
  lemma CountsOnNet(net: Network, u: Address, st: LocalState)
    requires Accurate(net, u, st)
    ensures |st.list| == |net[u].links|
    ensures |Filter(st.list, HasNodeStatus(NeighNode))| == |BnLinks(net, u)|
  {
    hide AccurateBn;
    var bn := Filter(st.list, HasNodeStatus(NeighNode));
    AddressCount(st.list);
    FilterKeepsDistinct(st.list, HasNodeStatus(NeighNode));
    AddressCount(bn);
    forall a
      ensures a in AddressesOf(st.list) <==> a in net[u].links
      ensures a in AddressesOf(bn) <==> a in BnLinks(net, u)
    {
      SeenTuple(net, u, st, a);
      SeenStatus(net, u, st, a, NeighNode);
    }
    assert AddressesOf(st.list) == net[u].links && AddressesOf(bn) == BnLinks(net, u);
  }

  // The weight is the number of links, of backbone neighbours, or the address, as configured; the counts are the
  // number of backbone neighbours now and the one counted before.
  ghost predicate CountedOnNet(net: Network, u: Address, before: LocalState, st: LocalState)
    requires u in net
  {
    && (st.weightFunction == NodeDegree ==> st.weight == |net[u].links| % 0x1_0000_0000)
    && (st.weightFunction == NodeBnDegree ==> st.weight == |BnLinks(net, u)| % 0x1_0000_0000)
    && (st.weightFunction == NodeIp ==> st.weight == u)
    && (st.weightFunction == NodeRandom ==> st.weight == before.weight)
    && st.currentBn as nat == |BnLinks(net, u)| % 0x1_0000
    && st.lastBn == before.currentBn
    && st.weightFunction == before.weightFunction
  }

  // What a node decides with.
  lemma DecidesWithCounts(net: Network, u: Address, st: LocalState, minHello: U32, now: Time)
    requires Accurate(net, u, AtDecision(st, minHello, now))
    ensures CountedOnNet(net, u, st, AtDecision(st, minHello, now))
  {
    hide Accurate, Filter;
    var r := AtDecision(st, minHello, now);
    CountsOnNet(net, u, r);
    AccurateSelf(net, u, r);
  }

  // What it advertises after its short timer.
  lemma AdvertisesCounts(net: Network, u: Address, st: LocalState, sequenceNumber: U16)
    requires Accurate(net, u, Weighed(Recounted(st)))
    ensures CountedOnNet(net, u, st, Weighed(Recounted(st)))
    ensures Greeting(Weighed(Recounted(st)), sequenceNumber).weight == Weighed(Recounted(st)).weight
  {
    hide Accurate, Filter;
    var r := Weighed(Recounted(st));
    CountsOnNet(net, u, r);
    AccurateSelf(net, u, r);
  }

  lemma AccurateSelf(net: Network, u: Address, st: LocalState)
    requires Accurate(net, u, st)
    ensures u in net && st.me == u
  {
  }
}
