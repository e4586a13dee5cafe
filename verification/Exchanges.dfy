/** Two exchanges of HELLOs give every node an accurate view. */
module Exchanges {
  import opened Types
  import opened Lists
  import opened NeighborTuples
  import opened NeighborLists
  import opened BackboneRules
  import opened Backbone
  import opened HelloHeaders
  import opened Networks
  import opened NetworkRun
  import opened LongTimers
  import opened HelloDelivery

  // A node's own state is what the network says of it, and it lists only neighbours, each once.
  ghost predicate KnowsItself(net: Network, v: Address, st: LocalState) {
    && v in net && st.me == v && st.own == {v} && st.weight == net[v].weight && st.status == net[v].status
    && st.indicator == net[v].indicator && st.associated == net[v].associated
    && Distinct(st.list) && forall t :: t in st.list ==> t.addr in net[v].links
  }

  // What a tuple says of the neighbour itself is right.
  ghost predicate RightTuple(net: Network, u: Address, t: NeighborTuple) {
    && t.addr in net
    && t.status == net[t.addr].status && t.weight == net[t.addr].weight && t.indicator == net[t.addr].indicator
    && (t.client <==> net[t.addr].associated == u)
  }

  // The node lists all its neighbours, each as it is.
  ghost predicate SeesNeighbors(net: Network, v: Address, st: LocalState) {
    && KnowsItself(net, v, st)
    && (forall t :: t in st.list ==> RightTuple(net, v, t))
    && forall a :: a in net[v].links ==> Find(st.list, a).Some?
  }

  // A HELLO of neighbour from, sent in the given state.
  datatype Arrival = Arrival(from: Address, sequenceNumber: U16, stamp: Time, enabled: bool, longInterval: Time,
                             lifetime: Time, now: Time)

  ghost function Heard(st: LocalState, view: LocalState, m: Arrival): LocalState {
    Greet(st, OnAir(Greeting(view, m.sequenceNumber), m.stamp), m.enabled, m.longInterval, m.lifetime, m.now)
  }

  // ---------- one arrival ----------

  lemma HeardHolds(st: LocalState, view: LocalState, m: Arrival)
    requires Distinct(st.list) && view.me == m.from
    ensures var hello := OnAir(Greeting(view, m.sequenceNumber), m.stamp);
            var after := Heard(st, view, m);
            && after == st.(list := after.list) && Distinct(after.list)
            && Find(after.list, m.from).Some? && hello.origin == m.from
            && Tells(Find(after.list, m.from).value, hello, st.own, m.longInterval + m.now)
            && (forall a :: a != m.from ==> Find(after.list, a) == Find(st.list, a))
  {
    hide Greet, Tells, BnSet, GoesOn;
    GreetHolds(st, OnAir(Greeting(view, m.sequenceNumber), m.stamp), m.enabled, m.longInterval, m.lifetime, m.now);
  }

  lemma HeardTupleIsRight(net: Network, u: Address, st: LocalState, view: LocalState, m: Arrival)
    requires KnowsItself(net, u, st) && KnowsItself(net, m.from, view) && m.from in net[u].links
    ensures KnowsItself(net, u, Heard(st, view, m))
    ensures Find(Heard(st, view, m).list, m.from).Some?
    ensures RightTuple(net, u, Find(Heard(st, view, m).list, m.from).value)
    ensures forall a :: a != m.from ==> Find(Heard(st, view, m).list, a) == Find(st.list, a)
  {
    hide Heard, BnSet, SameEntries, SortedBy, Find;
    HeardHolds(st, view, m);
    var after := Heard(st, view, m);
    forall t | t in after.list
      ensures t.addr in net[u].links
    {
      FindOfMember(after.list, t);
      if t.addr != m.from {
        FindSome(st.list, t.addr);
      }
    }
  }

  lemma FindSome(list: seq<NeighborTuple>, a: Address)
    ensures Find(list, a).Some? ==> Find(list, a).value in list && Find(list, a).value.addr == a
  {
  }

  // ---------- the list in a HELLO ----------

  // The backbone neighbours a node advertises are those it has.
  lemma AdvertisesBackbone(net: Network, v: Address, view: LocalState)
    requires WellFormed(net) && SeesNeighbors(net, v, view)
    ensures var bn := BnSet(view.list);
            && Addresses(bn) == BnLinks(net, v) && |bn| == |BnLinks(net, v)| && DistinctBy(bn, TwoHopAddrOf())
            && forall e :: e in bn ==>
                 e.addr in net && e.weight == net[e.addr].weight && e.indicator == net[e.addr].indicator
  {
    hide SortBy, Find;
    AdvertisedIsBn(view.list);
    var ad := Advertised(view.list);
    var bn := BnSet(view.list);
    SortByDistinct(ad, TwoHopAddrOf());
    assert forall e :: e in bn <==> e in ad;
    forall a
      ensures a in Addresses(bn) <==> a in BnLinks(net, v)
    {
      FindSome(view.list, a);
      if a in Addresses(bn) {
        var e :| e in bn && e.addr == a;
        var t :| t in view.list && t.status == NeighNode && e == TwoHop(t.addr, t.weight, t.indicator, t.expire);
        assert RightTuple(net, v, t);
      }
      if a in BnLinks(net, v) {
        var t := Find(view.list, a).value;
        assert RightTuple(net, v, t);
        assert TwoHop(t.addr, t.weight, t.indicator, t.expire) in ad;
      }
    }
    EntryCount(bn);
  }

  lemma {:induction false} EntryCount(bn: seq<TwoHop>)
    requires DistinctBy(bn, TwoHopAddrOf())
    ensures |Addresses(bn)| == |bn|
  {
    if bn != [] {
      EntryCount(bn[1..]);
      assert Addresses(bn) == Addresses(bn[1..]) + {bn[0].addr};
      forall e | e in bn[1..]
        ensures e.addr != bn[0].addr
      {
        var i :| 1 <= i < |bn| && bn[i] == e;
        assert TwoHopAddrOf()(bn[0]) != TwoHopAddrOf()(bn[i]);
      }
    }
  }

  // On the air the list is whole when it has at most 255 entries.
  lemma OnAirKeepsList(h: Hello, stamp: Time)
    requires |h.bnNeighbors| <= 255
    ensures OnAir(h, stamp).bnNeighbors == if h.status == RnNode then [] else Stamped(h.bnNeighbors, stamp)
  {
    if h.status != RnNode {
      assert Made(h).bnNeighbors == h.bnNeighbors;
      assert h.bnNeighbors[..|h.bnNeighbors|] == h.bnNeighbors;
    }
  }

  lemma TellsBackbone(net: Network, t: NeighborTuple, bn: seq<TwoHop>, stamp: Time, timeout: Time)
    requires t.addr in net && SameEntries(t.bnNeighbors, Stamped(bn, stamp), timeout) && DistinctBy(bn, TwoHopAddrOf())
    requires Addresses(bn) == BnLinks(net, t.addr) && t.status != RnNode
    requires forall e :: e in bn ==>
               e.addr in net && e.weight == net[e.addr].weight && e.indicator == net[e.addr].indicator
    ensures AccurateBn(net, t)
  {
    var s := Stamped(bn, stamp);
    forall a
      ensures a in Addresses(t.bnNeighbors) <==> a in Addresses(bn)
    {
      if a in Addresses(bn) {
        var i :| 0 <= i < |bn| && bn[i].addr == a;
        assert s[i] in s && TwoHop(s[i].addr, s[i].weight, s[i].indicator, timeout) in t.bnNeighbors;
      }
      if a in Addresses(t.bnNeighbors) {
        var e :| e in t.bnNeighbors && e.addr == a;
        EntryFrom(t.bnNeighbors, bn, stamp, timeout, e);
      }
    }
    forall e | e in t.bnNeighbors
      ensures e.addr in net && e.weight == net[e.addr].weight && e.indicator == net[e.addr].indicator
    {
      EntryFrom(t.bnNeighbors, bn, stamp, timeout, e);
    }
    EntryCount(bn);
    DistinctByCount(t.bnNeighbors);
  }

  lemma EntryFrom(r: seq<TwoHop>, bn: seq<TwoHop>, stamp: Time, timeout: Time, e: TwoHop)
    requires SameEntries(r, Stamped(bn, stamp), timeout) && e in r
    ensures exists b :: b in bn && e == b.(timeout := timeout)
  {
    var s := Stamped(bn, stamp);
    var h :| h in s && e == TwoHop(h.addr, h.weight, h.indicator, timeout);
    var i :| 0 <= i < |s| && s[i] == h;
    assert bn[i] in bn;
  }

  // As many addresses as entries: no address twice.
  lemma {:induction false} DistinctByCount(bn: seq<TwoHop>)
    ensures |Addresses(bn)| <= |bn|
    ensures |Addresses(bn)| == |bn| ==> forall i, j :: 0 <= i < j < |bn| ==> bn[i].addr != bn[j].addr
  {
    if bn != [] {
      var rest := bn[1..];
      DistinctByCount(rest);
      assert Addresses(bn) == Addresses(rest) + {bn[0].addr};
      if |Addresses(bn)| == |bn| {
        assert bn[0].addr !in Addresses(rest);
        forall i, j | 0 <= i < j < |bn|
          ensures bn[i].addr != bn[j].addr
        {
          if i == 0 {
            assert bn[j] in rest;
          } else {
            assert rest[i - 1].addr != rest[j - 1].addr;
          }
        }
      }
    }
  }

  lemma HeardEntries(st: LocalState, view: LocalState, m: Arrival)
    requires Distinct(st.list) && view.me == m.from && |BnSet(view.list)| <= 255
    ensures Find(Heard(st, view, m).list, m.from).Some?
    ensures var t := Find(Heard(st, view, m).list, m.from).value;
            && t.status == view.status && t.addr == m.from
            && SameEntries(t.bnNeighbors, if view.status == RnNode then [] else Stamped(BnSet(view.list), m.stamp),
                           m.longInterval + m.now)
  {
    hide Heard, BnSet, Find, SortedBy, SameEntries, OnAir, Stamped, Distinct;
    HeardHolds(st, view, m);
    var h := Greeting(view, m.sequenceNumber);
    OnAirKeepsList(h, m.stamp);
    OnAirKeepsFields(h, m.stamp);
  }

  // The HELLO of a node that sees its neighbours makes its tuple accurate, list and all.
  lemma HeardTupleIsAccurate(net: Network, u: Address, st: LocalState, view: LocalState, m: Arrival)
    requires WellFormed(net) && KnowsItself(net, u, st) && SeesNeighbors(net, m.from, view) && m.from in net[u].links
    requires |BnLinks(net, m.from)| <= 255
    ensures Find(Heard(st, view, m).list, m.from).Some?
    ensures AccurateTuple(net, u, Find(Heard(st, view, m).list, m.from).value)
  {
    hide Heard, BnSet, Find, SameEntries, Stamped, WellFormed, Addresses, BnLinks;
    HeardTupleIsRight(net, u, st, view, m);
    AdvertisesBackbone(net, m.from, view);
    HeardEntries(st, view, m);
    var t := Find(Heard(st, view, m).list, m.from).value;
    if t.status == RnNode {
      EmptyEntries(t.bnNeighbors, m.longInterval + m.now);
    } else {
      TellsBackbone(net, t, BnSet(view.list), m.stamp, m.longInterval + m.now);
    }
  }

  lemma EmptyEntries(bn: seq<TwoHop>, timeout: Time)
    requires SameEntries(bn, [], timeout)
    ensures bn == []
  {
  }

  lemma OnAirKeepsFields(h: Hello, stamp: Time)
    ensures OnAir(h, stamp) == h.(bnNeighbors := OnAir(h, stamp).bnNeighbors)
  {
  }

  // ---------- an exchange ----------

  ghost function HeardAll(st: LocalState, views: map<Address, LocalState>, ms: seq<Arrival>): LocalState
    requires forall m :: m in ms ==> m.from in views
    decreases |ms|
  {
    if ms == [] then st else HeardAll(Heard(st, views[ms[0].from], ms[0]), views, ms[1..])
  }

  // What u knows of the senders in from.
  ghost predicate RightAbout(net: Network, u: Address, st: LocalState, from: set<Address>) {
    forall a :: a in from ==> Find(st.list, a).Some? && RightTuple(net, u, Find(st.list, a).value)
  }

  ghost predicate AccurateAbout(net: Network, u: Address, st: LocalState, from: set<Address>) {
    forall a :: a in from ==> Find(st.list, a).Some? && AccurateTuple(net, u, Find(st.list, a).value)
  }

  ghost function Senders(ms: seq<Arrival>): set<Address> {
    set m | m in ms :: m.from
  }

  lemma {:induction false} HeardAllIsRight(net: Network, u: Address, st: LocalState, views: map<Address, LocalState>,
                                           ms: seq<Arrival>, known: set<Address>)
    requires KnowsItself(net, u, st) && RightAbout(net, u, st, known)
    requires forall m :: m in ms ==>
               m.from in views && m.from in net[u].links && KnowsItself(net, m.from, views[m.from])
    ensures KnowsItself(net, u, HeardAll(st, views, ms))
    ensures RightAbout(net, u, HeardAll(st, views, ms), known + Senders(ms))
    decreases |ms|
  {
    hide Heard, KnowsItself, RightTuple, Find;
    if ms != [] {
      var m := ms[0];
      assert m in ms;
      var next := Heard(st, views[m.from], m);
      LinksOf(net, u, st);
      HeardTupleIsRight(net, u, st, views[m.from], m);
      HeardAllIsRight(net, u, next, views, ms[1..], known + {m.from});
      assert known + Senders(ms) == known + {m.from} + Senders(ms[1..]);
    } else {
      assert known + Senders(ms) == known;
    }
  }

  lemma LinksOf(net: Network, u: Address, st: LocalState)
    requires KnowsItself(net, u, st)
    ensures u in net
  {
  }

  lemma {:induction false} HeardAllIsAccurate(net: Network, u: Address, st: LocalState, views: map<Address, LocalState>,
                                              ms: seq<Arrival>, known: set<Address>)
    requires WellFormed(net) && KnowsItself(net, u, st) && AccurateAbout(net, u, st, known)
    requires forall m :: m in ms ==>
      && m.from in views && m.from in net[u].links && SeesNeighbors(net, m.from, views[m.from])
      && |BnLinks(net, m.from)| <= 255
    ensures KnowsItself(net, u, HeardAll(st, views, ms))
    ensures AccurateAbout(net, u, HeardAll(st, views, ms), known + Senders(ms))
    decreases |ms|
  {
    hide Heard, RightTuple, AccurateTuple, Find, Distinct;
    if ms != [] {
      var m := ms[0];
      assert m in ms;
      var next := Heard(st, views[m.from], m);
      HeardTupleIsRight(net, u, st, views[m.from], m);
      HeardTupleIsAccurate(net, u, st, views[m.from], m);
      HeardAllIsAccurate(net, u, next, views, ms[1..], known + {m.from});
      assert known + Senders(ms) == known + {m.from} + Senders(ms[1..]);
    } else {
      assert known + Senders(ms) == known;
    }
  }

  // Every node hears each of its neighbours at least once, in any order, as they were when the exchange began.
  ghost predicate IsExchange(net: Network, arrivals: map<Address, seq<Arrival>>) {
    arrivals.Keys == net.Keys && forall u :: u in net ==> Senders(arrivals[u]) == net[u].links
  }

  ghost function Exchanged(net: Network, views: map<Address, LocalState>,
                           arrivals: map<Address, seq<Arrival>>): map<Address, LocalState>
    requires WellFormed(net) && views.Keys == net.Keys && IsExchange(net, arrivals)
  {
    map u | u in net :: HeardAll(views[u], views, InNetwork(net, arrivals, u))
  }

  ghost function InNetwork(net: Network, arrivals: map<Address, seq<Arrival>>, u: Address): (ms: seq<Arrival>)
    requires WellFormed(net) && IsExchange(net, arrivals) && u in net
    ensures ms == arrivals[u] && forall m :: m in ms ==> m.from in net[u].links && m.from in net
  {
    assert forall m :: m in arrivals[u] ==> m.from in Senders(arrivals[u]);
    arrivals[u]
  }

  ghost predicate AllKnowThemselves(net: Network, views: map<Address, LocalState>) {
    views.Keys == net.Keys && forall u :: u in net ==> KnowsItself(net, u, views[u])
  }

  ghost predicate AllSeeNeighbors(net: Network, views: map<Address, LocalState>) {
    views.Keys == net.Keys && forall u :: u in net ==> SeesNeighbors(net, u, views[u])
  }

  lemma FirstExchange(net: Network, views: map<Address, LocalState>, arrivals: map<Address, seq<Arrival>>)
    requires WellFormed(net) && AllKnowThemselves(net, views) && IsExchange(net, arrivals)
    ensures AllSeeNeighbors(net, Exchanged(net, views, arrivals))
  {
    hide KnowsItself, SeesNeighbors, HeardAll;
    forall u | u in net
      ensures SeesNeighbors(net, u, Exchanged(net, views, arrivals)[u])
    {
      SeesAfterFirst(net, views, arrivals, u);
    }
  }

  lemma SeesAfterFirst(net: Network, views: map<Address, LocalState>, arrivals: map<Address, seq<Arrival>>, u: Address)
    requires WellFormed(net) && AllKnowThemselves(net, views) && IsExchange(net, arrivals) && u in net
    ensures SeesNeighbors(net, u, Exchanged(net, views, arrivals)[u])
  {
    hide KnowsItself, SeesNeighbors, RightTuple, HeardAll, Heard, Find;
    var ms := InNetwork(net, arrivals, u);
    HeardAllIsRight(net, u, views[u], views, ms, {});
    hide Exchanged;
    SeesWhomItHeard(net, u, HeardAll(views[u], views, ms));
    ExchangedAt(net, views, arrivals, u);
  }

  lemma ExchangedAt(net: Network, views: map<Address, LocalState>, arrivals: map<Address, seq<Arrival>>, u: Address)
    requires WellFormed(net) && views.Keys == net.Keys && IsExchange(net, arrivals) && u in net
    ensures Exchanged(net, views, arrivals).Keys == net.Keys
    ensures Exchanged(net, views, arrivals)[u] == HeardAll(views[u], views, InNetwork(net, arrivals, u))
  {
    hide HeardAll, IsExchange, WellFormed;
  }

  lemma SeesWhomItHeard(net: Network, u: Address, st: LocalState)
    requires KnowsItself(net, u, st) && RightAbout(net, u, st, net[u].links)
    ensures SeesNeighbors(net, u, st)
  {
    hide RightTuple;
    forall t | t in st.list
      ensures RightTuple(net, u, t)
    {
      FindOfMember(st.list, t);
    }
  }

  lemma AccurateOfWhomItHeard(net: Network, u: Address, st: LocalState)
    requires KnowsItself(net, u, st) && AccurateAbout(net, u, st, net[u].links)
    ensures Accurate(net, u, st)
  {
    hide AccurateTuple;
    forall t | t in st.list
      ensures AccurateTuple(net, u, t)
    {
      FindOfMember(st.list, t);
    }
  }

  // From nodes that know themselves and have heard only neighbours, however outdated what they heard may be, two
  // exchanges make every view accurate, provided no node has more than 255 backbone neighbours.
  lemma TwoExchangesMakeAccurate(net: Network, views: map<Address, LocalState>, first: map<Address, seq<Arrival>>,
                                 second: map<Address, seq<Arrival>>)
    requires WellFormed(net) && AllKnowThemselves(net, views) && IsExchange(net, first) && IsExchange(net, second)
    requires ShortLists(net)
    ensures Exchanged(net, views, first).Keys == net.Keys
    ensures forall u :: u in net ==>
              Accurate(net, u, Exchanged(net, Exchanged(net, views, first), second)[u])
  {
    hide AllSeeNeighbors, Accurate, HeardAll, BnLinks, KnowsItself;
    FirstExchange(net, views, first);
    var seen := Exchanged(net, views, first);
    SeenKeys(net, seen);
    forall u | u in net
      ensures Accurate(net, u, Exchanged(net, seen, second)[u])
    {
      SecondExchange(net, seen, second, u);
    }
  }

  lemma SeenKeys(net: Network, views: map<Address, LocalState>)
    requires AllSeeNeighbors(net, views)
    ensures views.Keys == net.Keys
  {
  }

  lemma SecondExchange(net: Network, seen: map<Address, LocalState>, second: map<Address, seq<Arrival>>, u: Address)
    requires WellFormed(net) && AllSeeNeighbors(net, seen) && IsExchange(net, second) && u in net
    ensures ShortLists(net) ==> Accurate(net, u, Exchanged(net, seen, second)[u])
  {
    hide SeesNeighbors, Accurate, HeardAll, KnowsItself, BnLinks, AccurateTuple, Find;
    if ShortLists(net) {
      var ms := InNetwork(net, second, u);
      SeesImpliesKnows(net, u, seen[u]);
      HeardAllIsAccurate(net, u, seen[u], seen, ms, {});
      AccurateOfWhomItHeard(net, u, HeardAll(seen[u], seen, ms));
      ExchangedAt(net, seen, second, u);
    }
  }

  // Every list of backbone neighbours fits a HELLO.
  ghost predicate ShortLists(net: Network) {
    forall u :: u in net ==> |BnLinks(net, u)| <= 255
  }

  lemma SeesImpliesKnows(net: Network, u: Address, st: LocalState)
    requires SeesNeighbors(net, u, st)
    ensures KnowsItself(net, u, st)
  {
  }
}
