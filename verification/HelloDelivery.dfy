/** What taking in HELLOs does to a neighbour list, and how exchanging them makes views accurate. */
module HelloDelivery {
  import opened Types
  import opened Lists
  import opened NeighborTuples
  import opened NeighborLists
  import opened BackboneRules
  import opened Backbone
  import opened HelloHeaders
  import opened Networks
  import opened NetworkRun
  import opened LongTimers

  // ---------- one HELLO ----------

  // The entries of a HELLO with a new expiry.
  ghost predicate SameEntries(bn: seq<TwoHop>, from: seq<TwoHop>, timeout: Time) {
    && |bn| == |from|
    && forall e :: e in bn <==> exists h :: h in from && e == TwoHop(h.addr, h.weight, h.indicator, timeout)
  }

  // The tuple of the sender says what the HELLO says.
  ghost predicate Tells(t: NeighborTuple, hello: Hello, own: set<Address>, timeout: Time) {
    && t.addr == hello.origin
    && t.status == hello.status && t.weight == hello.weight && t.indicator == hello.indicator
    && t.associated == hello.associated && t.sequenceNumber == hello.sequenceNumber
    && (t.client <==> hello.associated in own)
    && SameEntries(t.bnNeighbors, hello.bnNeighbors, timeout)
    && SortedBy(t.bnNeighbors, TwoHopAddrOf())
  }

  lemma StampedEntries(bn: seq<TwoHop>, timeout: Time)
    ensures SameEntries(SortBy(Stamped(bn, timeout), TwoHopAddrOf()), bn, timeout)
  {
    var r := Stamped(bn, timeout);
    forall e
      ensures e in r <==> exists h :: h in bn && e == TwoHop(h.addr, h.weight, h.indicator, timeout)
    {
      if e in r {
        var i :| 0 <= i < |r| && r[i] == e;
        assert bn[i] in bn;
      }
      if h :| h in bn && e == TwoHop(h.addr, h.weight, h.indicator, timeout) {
        var i :| 0 <= i < |bn| && bn[i] == h;
        assert r[i] == e;
      }
    }
  }

  // The counter, the closing mark and the expiry of the sender's tuple go on from those of the tuple it had, if any.
  ghost predicate GoesOn(t: NeighborTuple, had: Option<NeighborTuple>, enabled: bool, lifetime: Time, now: Time) {
    var expire := if had.Some? then had.value.expire else now;
    && t.helloCounter as nat == ((if had.Some? then had.value.helloCounter as nat else 0) + 1) % 0x1_0000
    && t.close == (had.Some? && had.value.close)
    && t.expire == (if enabled && lifetime + now > expire then lifetime + now else expire)
  }

  // l' holds t for a, and otherwise what l holds.
  ghost predicate Changed(l: seq<NeighborTuple>, l': seq<NeighborTuple>, a: Address, t: NeighborTuple) {
    t.addr == a && Distinct(l) && Distinct(l') && forall u :: u in l' <==> u == t || (u in l && u.addr != a)
  }

  lemma ChangedFinds(l: seq<NeighborTuple>, l': seq<NeighborTuple>, a: Address, t: NeighborTuple)
    requires Changed(l, l', a, t)
    ensures Find(l', a) == Some(t)
    ensures forall b :: b != a ==> Find(l', b) == Find(l, b)
  {
    FindOfMember(l', t);
    forall b | b != a
      ensures Find(l', b) == Find(l, b)
    {
      if Find(l, b).Some? {
        FindOfMember(l', Find(l, b).value);
      }
    }
  }

  lemma ChangedTwice(l: seq<NeighborTuple>, l': seq<NeighborTuple>, l'': seq<NeighborTuple>, a: Address,
                     t: NeighborTuple, t': NeighborTuple)
    requires Changed(l, l', a, t) && Changed(l', l'', a, t')
    ensures Changed(l, l'', a, t')
  {
  }

  lemma BnAppliedHolds(l: seq<NeighborTuple>, hello: Hello, t: NeighborTuple, nextTime: Time, now: Time)
    requires Distinct(l) && Find(l, hello.origin) == Some(t)
    ensures Changed(l, BnApplied(l, hello, nextTime, now), hello.origin,
                    t.(bnNeighbors := SortBy(Stamped(hello.bnNeighbors, nextTime + now), TwoHopAddrOf())))
  {
    hide SortBy, Stamped;
    var i := IndexOf(l, hello.origin);
    var t' := t.(bnNeighbors := SortBy(Stamped(hello.bnNeighbors, nextTime + now), TwoHopAddrOf()));
    ReplacedKeepsDistinct(l, i, t');
    ReplacedMembers(l, i, t', hello.origin);
  }

  lemma RefreshedHolds(l: seq<NeighborTuple>, a: Address, t: NeighborTuple, lifetime: Time, now: Time)
    requires Distinct(l) && Find(l, a) == Some(t)
    ensures Changed(l, Refreshed(l, a, lifetime, now), a, t.(expire := Max(lifetime + now, t.expire)))
  {
    var i := IndexOf(l, a);
    var t' := t.(expire := Max(lifetime + now, t.expire));
    ReplacedKeepsDistinct(l, i, t');
    ReplacedMembers(l, i, t', a);
  }

  lemma HelloAppliedChanges(l: seq<NeighborTuple>, hello: Hello, client: bool, now: Time)
    requires Distinct(l)
    ensures Changed(l, HelloApplied(l, hello, client, now), hello.origin,
                    Greeted(Receiving(l, hello, now), hello, client))
  {
    hide HelloApplied;
    HelloAppliedKeepsDistinct(l, hello, client, now);
    HelloAppliedHolds(l, hello, client, now);
  }

  ghost function Updated(st: LocalState, hello: Hello, enabled: bool, longInterval: Time, lifetime: Time,
                         now: Time): NeighborTuple {
    var t := Greeted(Receiving(st.list, hello, now), hello, hello.associated in st.own).(
      bnNeighbors := SortBy(Stamped(hello.bnNeighbors, longInterval + now), TwoHopAddrOf()));
    if enabled then t.(expire := Max(lifetime + now, t.expire)) else t
  }

  lemma GreetChanges(st: LocalState, hello: Hello, enabled: bool, longInterval: Time, lifetime: Time, now: Time)
    requires Distinct(st.list)
    ensures Changed(st.list, Greet(st, hello, enabled, longInterval, lifetime, now).list, hello.origin,
                    Updated(st, hello, enabled, longInterval, lifetime, now))
  {
    hide HelloApplied, BnApplied, Refreshed, SortBy, Stamped, Changed, Find;
    var a, client := hello.origin, hello.associated in st.own;
    var l1, t1 := HelloApplied(st.list, hello, client, now), Greeted(Receiving(st.list, hello, now), hello, client);
    HelloAppliedChanges(st.list, hello, client, now);
    ChangedFinds(st.list, l1, a, t1);
    HelloAppliedKeepsDistinct(st.list, hello, client, now);
    var l2 := BnApplied(l1, hello, longInterval, now);
    var t2 := t1.(bnNeighbors := SortBy(Stamped(hello.bnNeighbors, longInterval + now), TwoHopAddrOf()));
    BnAppliedHolds(l1, hello, t1, longInterval, now);
    ChangedTwice(st.list, l1, l2, a, t1, t2);
    if enabled {
      ChangedFinds(st.list, l2, a, t2);
      BnAppliedKeepsDistinct(l1, hello, longInterval, now);
      var t3 := t2.(expire := Max(lifetime + now, t2.expire));
      RefreshedHolds(l2, a, t2, lifetime, now);
      ChangedTwice(st.list, l2, Refreshed(l2, a, lifetime, now), a, t2, t3);
    }
  }

  // After a HELLO the tuple of its sender says what the HELLO says, one more HELLO is counted for it, and nothing else
  // of the node changes.
  lemma GreetHolds(st: LocalState, hello: Hello, enabled: bool, longInterval: Time, lifetime: Time, now: Time)
    requires Distinct(st.list)
    ensures var after := Greet(st, hello, enabled, longInterval, lifetime, now);
            && after == st.(list := after.list) && Distinct(after.list)
            && Find(after.list, hello.origin).Some?
            && Tells(Find(after.list, hello.origin).value, hello, st.own, longInterval + now)
            && GoesOn(Find(after.list, hello.origin).value, Find(st.list, hello.origin), enabled, lifetime, now)
            && (forall a :: a != hello.origin ==> Find(after.list, a) == Find(st.list, a))
  {
    hide HelloApplied, BnApplied, Refreshed, SortBy, Stamped, Find, SortedBy;
    var after := Greet(st, hello, enabled, longInterval, lifetime, now);
    var t := Updated(st, hello, enabled, longInterval, lifetime, now);
    GreetChanges(st, hello, enabled, longInterval, lifetime, now);
    ChangedFinds(st.list, after.list, hello.origin, t);
    StampedEntries(hello.bnNeighbors, longInterval + now);
    SortBySorts(Stamped(hello.bnNeighbors, longInterval + now), TwoHopAddrOf());
    ReceivingAddress(st.list, hello, now);
  }

  lemma ReceivingAddress(list: seq<NeighborTuple>, hello: Hello, now: Time)
    ensures Receiving(list, hello, now).addr == hello.origin
  {
  }
}
