/** The route a message gives to the neighbour it comes from (model/aodv-routing-protocol.cc). */
module NeighborRoutes {
  import opened Types
  import opened RoutingTables
  import opened RouteMemory
  import opened RerrHeaders
  import opened RouteErrors

  // ---------- any message ----------

  // The output device of a route is identified by the interface address stored with it.
  predicate KnownDirectly(t: Table, sender: Address, iface: Address) {
    sender in t && t[sender].validSeqNo && t[sender].hops == 1 && t[sender].iface == iface
  }

  // UpdateRouteToNeighbor, which every message runs first. For a sender known to be direct the source prolongs
  // only its copy of the entry.
  function RouteByMessage(t: Table, sender: Address, iface: Address, activeRouteTimeout: Time, bad: Time,
                          now: Time): Table {
    var p := Purged(t, bad, now);
    if sender !in p then Added(p, NewRoute(sender, false, 0, iface, 1, sender, activeRouteTimeout, now), bad, now)
    else if KnownDirectly(p, sender, iface) then p
    else
      var lifetime := Max(activeRouteTimeout, LifeTime(p[sender], now));
      Updated(p, NewRoute(sender, false, 0, iface, 1, sender, lifetime, now))
  }

  // Afterwards the sender has a route of one hop. Either it had one over this interface with a valid sequence number,
  // and nothing has changed, or it has a new one that leads to it directly, without a valid number.
  lemma MessageGivesRoute(t: Table, sender: Address, iface: Address, activeRouteTimeout: Time, bad: Time, now: Time)
    requires bad >= 0 && WellKept(t)
    ensures var p := Purged(t, bad, now);
            var after := RouteByMessage(t, sender, iface, activeRouteTimeout, bad, now);
            && after.Keys == p.Keys + {sender} && WellKept(after)
            && (forall k :: k in p && k != sender ==> after[k] == p[k])
            && after[sender].hops == 1 && after[sender].iface == iface
            && if KnownDirectly(p, sender, iface) then after == p
               else
                 && after[sender].nextHop == sender && after[sender].flag.ValidRoute? && !after[sender].validSeqNo
                 && LifeTime(after[sender], now) ==
                    if sender in p && LifeTime(p[sender], now) > activeRouteTimeout then LifeTime(p[sender], now)
                    else activeRouteTimeout
  {
    PurgedTwice(t, bad, now);
  }

  lemma MessageRouteFitsOneRerr(t: Table, sender: Address, iface: Address, activeRouteTimeout: Time, bad: Time,
                                now: Time)
    requires bad >= 0 && WellKept(t) && FitsOneRerr(t)
    ensures FitsOneRerr(RouteByMessage(t, sender, iface, activeRouteTimeout, bad, now))
  {
    hide RouteByMessage;
    var p := Purged(t, bad, now);
    var after := RouteByMessage(t, sender, iface, activeRouteTimeout, bad, now);
    MessageGivesRoute(t, sender, iface, activeRouteTimeout, bad, now);
    PurgeFitsOneRerr(t, bad, now);
    NeighborRouteFits(p, after, sender);
  }

  // A route of a neighbour to itself adds nothing to what the loss of a neighbour makes unreachable.
  lemma NeighborRouteFits(p: Table, after: Table, sender: Address)
    requires FitsOneRerr(p)
    requires forall k :: k in after && k != sender ==> k in p && after[k].nextHop == p[k].nextHop
    requires sender in after &&
             (after[sender].nextHop == sender || (sender in p && after[sender].nextHop == p[sender].nextHop))
    ensures FitsOneRerr(after)
  {
    forall h: Address
      ensures |DestinationsVia(after, h).Keys + {h}| <= MAX_DESTINATIONS
    {
      SubsetSize(DestinationsVia(after, h).Keys + {h}, DestinationsVia(p, h).Keys + {h});
    }
  }

  method UpdateRouteToNeighbor(table: RoutingTable, sender: Address, iface: Address, activeRouteTimeout: Time,
                               now: Time)
    modifies table`entries
    ensures table.entries == RouteByMessage(old(table.entries), sender, iface, activeRouteTimeout,
                                            table.badLinkLifetime, now)
  {
    hide Purged, Updated, Added;
    var found, toNeighbor := table.LookupRoute(sender, now);
    if !found {
      var newEntry := NewRoute(sender, false, 0, iface, 1, sender, activeRouteTimeout, now);
      var added := table.AddRoute(newEntry, now);
    } else if toNeighbor.validSeqNo && toNeighbor.hops == 1 && toNeighbor.iface == iface {
      toNeighbor := toNeighbor.(lifeTime := Max(activeRouteTimeout, LifeTime(toNeighbor, now)) + now);
    } else {
      var lifetime := Max(activeRouteTimeout, LifeTime(toNeighbor, now));
      var newEntry := NewRoute(sender, false, 0, iface, 1, sender, lifetime, now);
      var updated := table.Update(newEntry);
    }
  }

  // ---------- a HELLO ----------

  // RecvHello: a known route is renewed in place; an unknown sender becomes a neighbour one hop away.
  function Renewed(r: Route, sequenceNumber: U16, iface: Address, lifetime: Time, now: Time): Route {
    r.(lifeTime := Max(lifetime, LifeTime(r, now)) + now, seqNo := sequenceNumber, validSeqNo := true,
       flag := ValidRoute, iface := iface)
  }

  function RouteByHello(t: Table, origin: Address, sequenceNumber: U16, iface: Address, longInterval: Time,
                        lifetime: Time, bad: Time, now: Time): Table {
    var p := Purged(t, bad, now);
    if origin in p then Updated(p, Renewed(p[origin], sequenceNumber, iface, lifetime, now))
    else Added(p, NewRoute(origin, true, sequenceNumber, iface, 1, origin, longInterval, now), bad, now)
  }

  // Afterwards the sender has a valid route with the HELLO's number, for at least the time given to it, and no other
  // route has changed. Its next hop is the one that was known.
  lemma HelloGivesRoute(t: Table, origin: Address, sequenceNumber: U16, iface: Address, longInterval: Time,
                        lifetime: Time, bad: Time, now: Time)
    requires bad >= 0 && WellKept(t)
    ensures var p := Purged(t, bad, now);
            var after := RouteByHello(t, origin, sequenceNumber, iface, longInterval, lifetime, bad, now);
            && after.Keys == p.Keys + {origin} && WellKept(after)
            && (forall k :: k in p && k != origin ==> after[k] == p[k])
            && after[origin].flag.ValidRoute? && after[origin].validSeqNo && after[origin].seqNo == sequenceNumber
            && after[origin].iface == iface
            && LifeTime(after[origin], now) ==
               (if origin !in p then longInterval
                else if LifeTime(p[origin], now) > lifetime then LifeTime(p[origin], now) else lifetime)
            && after[origin].precursors == (if origin in p then p[origin].precursors else [])
            && after[origin].nextHop == (if origin in p then p[origin].nextHop else origin)
            && after[origin].hops == (if origin in p then p[origin].hops else 1)
  {
    PurgedTwice(t, bad, now);
  }

  lemma HelloRouteFitsOneRerr(t: Table, origin: Address, sequenceNumber: U16, iface: Address, longInterval: Time,
                              lifetime: Time, bad: Time, now: Time)
    requires bad >= 0 && WellKept(t) && FitsOneRerr(t)
    ensures FitsOneRerr(RouteByHello(t, origin, sequenceNumber, iface, longInterval, lifetime, bad, now))
  {
    hide RouteByHello;
    var after := RouteByHello(t, origin, sequenceNumber, iface, longInterval, lifetime, bad, now);
    HelloGivesRoute(t, origin, sequenceNumber, iface, longInterval, lifetime, bad, now);
    PurgeFitsOneRerr(t, bad, now);
    NeighborRouteFits(Purged(t, bad, now), after, origin);
  }

  function RouteByHelloMessage(t: Table, sender: Address, origin: Address, sequenceNumber: U16, iface: Address,
                               activeRouteTimeout: Time, longInterval: Time, lifetime: Time, bad: Time,
                               now: Time): Table {
    RouteByHello(RouteByMessage(t, sender, iface, activeRouteTimeout, bad, now), origin, sequenceNumber, iface,
                 longInterval, lifetime, bad, now)
  }

  // A HELLO sent from its originator's own address leaves a valid route of one hop, and one that leads directly to the
  // originator unless a route of one hop over another address was already known, with a valid sequence number and
  // over the same interface.
  lemma HelloRouteIsDirectIff(t: Table, origin: Address, sequenceNumber: U16, iface: Address, activeRouteTimeout: Time,
                              longInterval: Time, lifetime: Time, bad: Time, now: Time)
    requires bad >= 0 && WellKept(t)
    ensures var p := Purged(t, bad, now);
            var after := RouteByHelloMessage(t, origin, origin, sequenceNumber, iface, activeRouteTimeout, longInterval,
                                             lifetime, bad, now);
            && origin in after && after[origin].hops == 1 && after[origin].flag.ValidRoute?
            && after[origin].validSeqNo && after[origin].seqNo == sequenceNumber
            && (after[origin].nextHop == origin <==> !(KnownDirectly(p, origin, iface) && p[origin].nextHop != origin))
  {
    hide RouteByMessage, RouteByHello;
    var t1 := RouteByMessage(t, origin, iface, activeRouteTimeout, bad, now);
    MessageGivesRoute(t, origin, iface, activeRouteTimeout, bad, now);
    HelloGivesRoute(t1, origin, sequenceNumber, iface, longInterval, lifetime, bad, now);
    PurgedTwice(t, bad, now);
  }

  method RouteToSender(table: RoutingTable, origin: Address, sequenceNumber: U16, iface: Address, longInterval: Time,
                       lifetime: Time, now: Time)
    modifies table`entries
    ensures table.entries == RouteByHello(old(table.entries), origin, sequenceNumber, iface, longInterval, lifetime,
                                          table.badLinkLifetime, now)
  {
    hide Purged, Updated, Added;
    var found, toNeighbor := table.LookupRoute(origin, now);
    if !found {
      var newEntry := NewRoute(origin, true, sequenceNumber, iface, 1, origin, longInterval, now);
      var added := table.AddRoute(newEntry, now);
    } else {
      toNeighbor := toNeighbor.(lifeTime := Max(lifetime, LifeTime(toNeighbor, now)) + now);
      toNeighbor := toNeighbor.(seqNo := sequenceNumber, validSeqNo := true);
      toNeighbor := toNeighbor.(flag := ValidRoute, iface := iface);
      var updated := table.Update(toNeighbor);
    }
  }
}
