/** Every network admits accurate views, so the results that assume them are about something. */
module Views {
  import opened Types
  import opened Lists
  import opened NeighborTuples
  import opened BackboneRules
  import opened Networks

  ghost function EntriesFor(net: Network, bns: seq<Address>): (r: seq<TwoHop>)
    requires forall b :: b in bns ==> b in net
    ensures |r| == |bns|
    ensures forall i :: 0 <= i < |bns| ==> r[i] == TwoHop(bns[i], net[bns[i]].weight, net[bns[i]].indicator, 0)
  {
    if bns == [] then []
    else [TwoHop(bns[0], net[bns[0]].weight, net[bns[0]].indicator, 0)] + EntriesFor(net, bns[1..])
  }

  ghost function TupleFor(net: Network, u: Address, a: Address): NeighborTuple
    requires a in net
  {
    var bn := if net[a].status == RnNode then [] else EntriesFor(net, Ascending(BnLinks(net, a)));
    NeighborTuple(a, 0, false, 0, 0, net[a].weight, net[a].status, net[a].associated, net[a].indicator,
                  net[a].associated == u, bn)
  }

  ghost function TuplesFor(net: Network, u: Address, ks: seq<Address>): (r: seq<NeighborTuple>)
    requires forall k :: k in ks ==> k in net
    ensures |r| == |ks|
    ensures forall i :: 0 <= i < |ks| ==> r[i] == TupleFor(net, u, ks[i])
  {
    if ks == [] then [] else [TupleFor(net, u, ks[0])] + TuplesFor(net, u, ks[1..])
  }

  ghost function ViewOf(net: Network, u: Address, rule1: bool): LocalState
    requires u in net && net[u].links <= net.Keys
  {
    LocalState(u, {u}, net[u].weight, NodeRandom, net[u].status, net[u].indicator, net[u].associated, rule1, false,
               0, 0, TuplesFor(net, u, Ascending(net[u].links)))
  }

  lemma EntriesForAddresses(net: Network, bns: seq<Address>)
    requires forall b :: b in bns ==> b in net
    ensures forall x :: x in Addresses(EntriesFor(net, bns)) <==> x in bns
  {
    var r := EntriesFor(net, bns);
    forall x | x in bns
      ensures x in Addresses(r)
    {
      var i :| 0 <= i < |bns| && bns[i] == x;
      assert r[i] in r && r[i].addr == x;
    }
  }

  lemma TupleForAccurate(net: Network, u: Address, a: Address)
    requires WellFormed(net) && a in net
    ensures AccurateTuple(net, u, TupleFor(net, u, a))
  {
    var bns := Ascending(BnLinks(net, a));
    AscendingIncreases(BnLinks(net, a));
    EntriesForAddresses(net, bns);
    if net[a].status != RnNode {
      assert Addresses(EntriesFor(net, bns)) == BnLinks(net, a);
    }
  }

  lemma TuplesForAccurate(net: Network, u: Address, ks: seq<Address>)
    requires WellFormed(net) && forall k :: k in ks ==> k in net
    ensures forall t :: t in TuplesFor(net, u, ks) ==> t.addr in ks && AccurateTuple(net, u, t)
  {
    var list := TuplesFor(net, u, ks);
    forall t | t in list
      ensures t.addr in ks && AccurateTuple(net, u, t)
    {
      var i :| 0 <= i < |list| && list[i] == t;
      TupleForAccurate(net, u, ks[i]);
    }
  }

  lemma TuplesForDistinct(net: Network, u: Address, ks: seq<Address>)
    requires Increasing(ks) && forall k :: k in ks ==> k in net
    ensures Distinct(TuplesFor(net, u, ks))
    ensures forall k :: k in ks ==> Find(TuplesFor(net, u, ks), k).Some?
  {
    var list := TuplesFor(net, u, ks);
    forall k | k in ks
      ensures Find(list, k).Some?
    {
      var i :| 0 <= i < |ks| && ks[i] == k;
      assert list[i] in list && list[i].addr == k;
    }
  }

  lemma ViewOfRule1(net: Network, u: Address, rule1: bool)
    requires WellFormed(net) && u in net
    ensures ViewOf(net, u, rule1).rule1 == rule1
  {
    hide TuplesFor;
  }

  lemma ViewOfAccurate(net: Network, u: Address, rule1: bool)
    requires WellFormed(net) && u in net
    ensures Accurate(net, u, ViewOf(net, u, rule1))
  {
    hide AccurateTuple, Distinct, Find, TuplesFor, Ascending;
    var ks := Ascending(net[u].links);
    AscendingIncreases(net[u].links);
    TuplesForAccurate(net, u, ks);
    TuplesForDistinct(net, u, ks);
  }
}
