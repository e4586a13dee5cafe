/** What a received reply leaves in the routing table. */
module ReplyEffects {
  import opened Types
  import opened RoutingTables
  import opened RouteMemory
  import opened Replies

  // ---------- the route to the destination ----------

  function HopsOf(rrep: Rrep): nat {
    (rrep.hopCount as nat + 1) % 0x100
  }

  // The number is ahead by less than half the circle.
  predicate Newer(a: U32, b: U32) {
    0 < (a as int - b as int) % 0x1_0000_0000 < 0x8000_0000
  }

  // When the existing route gives way to the reply.
  predicate GivesWay(rrep: Rrep, r: Route) {
    || !r.validSeqNo
    || Newer(rrep.dstSeqNo, r.seqNo)
    || (rrep.dstSeqNo == r.seqNo && !r.flag.ValidRoute?)
    || (rrep.dstSeqNo == r.seqNo && HopsOf(rrep) < r.hops as nat)
  }

  // The originator also takes any reply for a destination it searches for.
  predicate Takes(p: Table, rrep: Rrep, own: set<Address>) {
    || rrep.dst !in p
    || GivesWay(rrep, p[rrep.dst])
    || (rrep.origin in own && p[rrep.dst].flag.InSearch?)
  }

  ghost predicate LeadsToSender(r: Route, rrep: Rrep, iface: Address, sender: Address, now: Time) {
    && r.dst == rrep.dst && r.flag.ValidRoute? && r.validSeqNo && r.seqNo == rrep.dstSeqNo
    && r.nextHop == sender && r.hops as nat == HopsOf(rrep) && r.iface == iface && r.lifeTime == now + rrep.lifeTime
    && r.reqCount == 0
  }

  ghost predicate SameButPrecursors(r: Route, r': Route) {
    r' == r.(precursors := r'.precursors) && r.precursors <= r'.precursors
  }

  lemma StoredHolds(p: Table, rrep: Rrep, iface: Address, sender: Address, now: Time)
    ensures var after := Stored(p, EntryOf(rrep, iface, sender, now), rrep);
            && after.Keys == p.Keys + {rrep.dst}
            && (forall k :: k in p && k != rrep.dst ==> after[k] == p[k])
            && (if rrep.dst !in p || GivesWay(rrep, p[rrep.dst]) then
                  LeadsToSender(after[rrep.dst], rrep, iface, sender, now) && after[rrep.dst].precursors == []
                else after[rrep.dst] == p[rrep.dst])
  {
  }

  // No entry but that of the originator changes in more than its precursors when a reply is relayed.
  ghost predicate OnlyNotes(t: Table, t': Table, origin: Address) {
    && t'.Keys == t.Keys && WellKept(t')
    && forall k :: k in t && k != UNSET_ADDRESS && k != origin ==> SameButPrecursors(t[k], t'[k])
  }

  lemma SameTwice(r: Route, r': Route, r'': Route)
    requires SameButPrecursors(r, r') && SameButPrecursors(r', r'')
    ensures SameButPrecursors(r, r'')
  {
  }

  lemma NoteOnlyNotes(t: Table, t': Table, origin: Address, a: Address, p: Address, now: Time)
    requires OnlyNotes(t, t', origin)
    ensures OnlyNotes(t, Updated(t', WithPrecursor(Get(t', a, now), p)), origin)
  {
    var r := WithPrecursor(Get(t', a, now), p);
    var t'' := Updated(t', r);
    if a in t' {
      assert r.dst == a && SameButPrecursors(t'[a], r);
      forall k | k in t && k != UNSET_ADDRESS && k != origin
        ensures SameButPrecursors(t[k], t''[k])
      {
        if k == a {
          SameTwice(t[k], t'[k], r);
        }
      }
    } else {
      assert r.dst == UNSET_ADDRESS;
    }
  }

  lemma WriteOnlyNotes(t: Table, t': Table, r: Route)
    requires OnlyNotes(t, t', r.dst)
    ensures OnlyNotes(t, Updated(t', r), r.dst)
  {
  }

  lemma ForwardedOnlyNotes(t: Table, rrep: Rrep, activeRouteTimeout: Time, now: Time)
    requires WellKept(t)
    ensures OnlyNotes(t, Forwarded(t, rrep, activeRouteTimeout, now), rrep.origin)
  {
    hide Updated, Noted;
    assert OnlyNotes(t, t, rrep.origin);
    if rrep.origin in t && !t[rrep.origin].flag.InSearch? {
      var toOrigin := t[rrep.origin].(lifeTime := Max(activeRouteTimeout, LifeTime(t[rrep.origin], now)) + now);
      assert toOrigin.dst == rrep.origin;
      WriteOnlyNotes(t, t, toOrigin);
      var t1 := Updated(t, toOrigin);
      hide OnlyNotes, WellKept;
      if rrep.dst in t1 && t1[rrep.dst].flag.ValidRoute? {
        NotedOnlyNotes(t, t1, rrep.dst, toOrigin, now);
      }
    }
  }

  lemma NotedOnlyNotes(t: Table, t1: Table, dst: Address, toOrigin: Route, now: Time)
    requires OnlyNotes(t, t1, toOrigin.dst) && dst in t1
    ensures OnlyNotes(t, Noted(t1, dst, toOrigin, now), toOrigin.dst)
  {
    hide OnlyNotes, Updated, WellKept;
    var origin := toOrigin.dst;
    assert Get(t1, dst, now) == t1[dst];
    NoteOnlyNotes(t, t1, origin, dst, toOrigin.nextHop, now);
    var toDst := WithPrecursor(t1[dst], toOrigin.nextHop);
    var t2 := Updated(t1, toDst);
    NoteOnlyNotes(t, t2, origin, toDst.nextHop, toOrigin.nextHop, now);
    var t3 := Updated(t2, WithPrecursor(Get(t2, toDst.nextHop, now), toOrigin.nextHop));
    WriteOnlyNotes(t, t3, WithPrecursor(toOrigin, toDst.nextHop));
    var t4 := Updated(t3, WithPrecursor(toOrigin, toDst.nextHop));
    NoteOnlyNotes(t, t4, origin, toOrigin.nextHop, toDst.nextHop, now);
  }

  // A reply that is taken leaves a valid route over its sender, with the reply's number, one hop more than it says, and
  // its lifetime. One that is not taken leaves the route as it was, but for precursors.
  lemma ReplyStoresRoute(t: Table, c: Config, rrep: Rrep, iface: Address, sender: Address, now: Time)
    requires WellKept(t) && rrep.dst != rrep.origin && rrep.dst != UNSET_ADDRESS
    ensures var p := Purged(t, c.bad, now);
            var after := Received(t, c, ReplyEvent(rrep, iface, sender, now));
            if Takes(p, rrep, c.own) then
              rrep.dst in after && LeadsToSender(after[rrep.dst], rrep, iface, sender, now)
            else rrep.dst in after && SameButPrecursors(p[rrep.dst], after[rrep.dst])
  {
    hide Stored, Forwarded, GivesWay;
    var p := Purged(t, c.bad, now);
    assert WellKept(p);
    StoredHolds(p, rrep, iface, sender, now);
    var stored := Stored(p, EntryOf(rrep, iface, sender, now), rrep);
    if rrep.origin !in c.own {
      hide Purged;
      StoredWellKept(p, rrep, iface, sender, now);
      ForwardedOnlyNotes(stored, rrep, c.activeRouteTimeout, now);
    }
  }

  lemma StoredWellKept(p: Table, rrep: Rrep, iface: Address, sender: Address, now: Time)
    requires WellKept(p)
    ensures WellKept(Stored(p, EntryOf(rrep, iface, sender, now), rrep))
  {
    hide Fresher;
  }

  // ---------- what a relayed reply notes ----------

  ghost predicate Lists(t: Table, k: Address, p: Address) {
    k in t && p in t[k].precursors
  }

  lemma NoteLists(t: Table, a: Address, p: Address, now: Time)
    requires WellKept(t) && UNSET_ADDRESS !in t
    ensures var t' := Updated(t, WithPrecursor(Get(t, a, now), p));
            && WellKept(t') && t'.Keys == t.Keys
            && (a in t ==> Lists(t', a, p))
            && (forall k, q :: Lists(t, k, q) ==> Lists(t', k, q))
            && (forall k :: k in t ==> t'[k].nextHop == t[k].nextHop)
  {
  }


  // The stale copy of the originator's route that is written back may lose precursors noted in between.
  lemma StaleWriteLists(t: Table, r: Route, p: Address)
    requires WellKept(t) && r.dst in t && t[r.dst].nextHop == r.nextHop
    ensures var t' := Updated(t, WithPrecursor(r, p));
            && WellKept(t') && t'.Keys == t.Keys
            && Lists(t', r.dst, p)
            && (forall k, q :: k != r.dst && Lists(t, k, q) ==> Lists(t', k, q))
            && (forall k :: k in t ==> t'[k].nextHop == t[k].nextHop)
  {
  }

  // Each direction of the path learns of the other: the routes to the destination and to the originator, and those to
  // their next hops, list the other's next hop as a precursor. The exception is a destination reached over the
  // originator itself, whose entry is written back from an earlier copy.
  lemma RelayNotesPrecursors(t: Table, dst: Address, toOrigin: Route, now: Time)
    requires WellKept(t) && UNSET_ADDRESS !in t && dst in t && dst != toOrigin.dst
    requires toOrigin.dst in t && toOrigin == t[toOrigin.dst]
    ensures var after := Noted(t, dst, toOrigin, now);
            var there, back := t[dst].nextHop, toOrigin.nextHop;
            && Lists(after, dst, back) && Lists(after, toOrigin.dst, there)
            && (back in t ==> Lists(after, back, there))
            && (there in t && there != toOrigin.dst ==> Lists(after, there, back))
  {
    hide Updated, WellKept;
    var there, back := t[dst].nextHop, toOrigin.nextHop;
    assert Get(t, dst, now) == t[dst];
    NoteLists(t, dst, back, now);
    var toDst := WithPrecursor(t[dst], back);
    var t1 := Updated(t, toDst);
    NoteLists(t1, there, back, now);
    var t2 := Updated(t1, WithPrecursor(Get(t1, there, now), back));
    StaleWriteLists(t2, toOrigin, there);
    var t3 := Updated(t2, WithPrecursor(toOrigin, there));
    NoteLists(t3, back, there, now);
  }

  // For a reply a node relays over a known route to its originator: that route lives on, and the precursors are noted.
  lemma ReplyNotesPrecursors(t: Table, c: Config, rrep: Rrep, iface: Address, sender: Address, now: Time)
    requires WellKept(t) && rrep.dst != rrep.origin && rrep.origin !in c.own
    requires var p := Purged(t, c.bad, now);
             rrep.origin in p && !p[rrep.origin].flag.InSearch? && UNSET_ADDRESS !in p && rrep.dst != UNSET_ADDRESS
    ensures var after := Received(t, c, ReplyEvent(rrep, iface, sender, now));
            && rrep.dst in after && rrep.origin in after
            && LifeTime(after[rrep.origin], now) >= c.activeRouteTimeout
            && var there, back := after[rrep.dst].nextHop, after[rrep.origin].nextHop;
               after[rrep.dst].flag.ValidRoute? ==>
                 && Lists(after, rrep.dst, back) && Lists(after, rrep.origin, there)
                 && (back in after ==> Lists(after, back, there))
                 && (there in after && there != rrep.origin ==> Lists(after, there, back))
  {
    hide Stored, GivesWay, LeadsToSender;
    var p := Purged(t, c.bad, now);
    assert WellKept(p);
    hide Purged;
    StoredHolds(p, rrep, iface, sender, now);
    StoredWellKept(p, rrep, iface, sender, now);
    var stored := Stored(p, EntryOf(rrep, iface, sender, now), rrep);
    RelayHolds(stored, rrep, c.activeRouteTimeout, now);
  }

  lemma RelayHolds(t: Table, rrep: Rrep, activeRouteTimeout: Time, now: Time)
    requires WellKept(t) && UNSET_ADDRESS !in t && rrep.dst in t && rrep.dst != rrep.origin
    requires rrep.origin in t && !t[rrep.origin].flag.InSearch?
    ensures var after := Forwarded(t, rrep, activeRouteTimeout, now);
            && rrep.dst in after && rrep.origin in after
            && LifeTime(after[rrep.origin], now) >= activeRouteTimeout
            && var there, back := after[rrep.dst].nextHop, after[rrep.origin].nextHop;
               after[rrep.dst].flag.ValidRoute? ==>
                 && Lists(after, rrep.dst, back) && Lists(after, rrep.origin, there)
                 && (back in after ==> Lists(after, back, there))
                 && (there in after && there != rrep.origin ==> Lists(after, there, back))
  {
    hide Noted;
    var toOrigin := t[rrep.origin].(lifeTime := Max(activeRouteTimeout, LifeTime(t[rrep.origin], now)) + now);
    var t1 := Updated(t, toOrigin);
    assert t1 == t[rrep.origin := toOrigin];
    NotedKeeps(t1, rrep.dst, toOrigin, now);
    RelayNotesPrecursors(t1, rrep.dst, toOrigin, now);
  }

  // Noting changes no next hop and no flag, and no lifetime.
  lemma NotedKeeps(t: Table, dst: Address, toOrigin: Route, now: Time)
    requires WellKept(t) && UNSET_ADDRESS !in t && dst in t && toOrigin.dst in t && toOrigin == t[toOrigin.dst]
    ensures var after := Noted(t, dst, toOrigin, now);
            && after.Keys == t.Keys
            && forall k :: k in t ==>
                 after[k].nextHop == t[k].nextHop && after[k].flag == t[k].flag && after[k].lifeTime == t[k].lifeTime
  {
    hide Updated, WellKept, SameFacts;
    var there, back := t[dst].nextHop, toOrigin.nextHop;
    SameFactsHere(t);
    assert Get(t, dst, now) == t[dst];
    NoteSame(t, t, dst, back, now);
    var t1 := Updated(t, WithPrecursor(t[dst], back));
    NoteSame(t, t1, there, back, now);
    var t2 := Updated(t1, WithPrecursor(Get(t1, there, now), back));
    WriteSame(t, t2, toOrigin, there);
    var t3 := Updated(t2, WithPrecursor(toOrigin, there));
    NoteSame(t, t3, back, there, now);
    SameFactsMean(t, Noted(t, dst, toOrigin, now));
  }

  ghost predicate SameFacts(t: Table, t': Table) {
    && t'.Keys == t.Keys && WellKept(t')
    && forall k :: k in t ==>
         t'[k].nextHop == t[k].nextHop && t'[k].flag == t[k].flag && t'[k].lifeTime == t[k].lifeTime
  }

  lemma SameFactsHere(t: Table)
    requires WellKept(t)
    ensures SameFacts(t, t)
  {
  }

  lemma SameFactsMean(t: Table, t': Table)
    requires SameFacts(t, t')
    ensures t'.Keys == t.Keys
    ensures forall k :: k in t ==>
              t'[k].nextHop == t[k].nextHop && t'[k].flag == t[k].flag && t'[k].lifeTime == t[k].lifeTime
  {
  }

  lemma NoteSame(t: Table, t': Table, a: Address, p: Address, now: Time)
    requires SameFacts(t, t') && UNSET_ADDRESS !in t
    ensures SameFacts(t, Updated(t', WithPrecursor(Get(t', a, now), p)))
  {
  }

  lemma WriteSame(t: Table, t': Table, r: Route, p: Address)
    requires SameFacts(t, t') && r.dst in t && r == t[r.dst]
    ensures SameFacts(t, Updated(t', WithPrecursor(r, p)))
  {
  }
}
