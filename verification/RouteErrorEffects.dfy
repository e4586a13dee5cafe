/** What the route-error handlers achieve. */
module RouteErrorEffects {
  import opened Types
  import opened Lists
  import opened RoutingTables
  import opened RouteMemory
  import opened RerrHeaders
  import opened RouteErrors

  // ---------- a received RERR ----------

  ghost predicate Concerns(t: Table, rerr: Unreachable, src: Address, d: Address) {
    d in rerr && d in t && t[d].nextHop == src
  }

  // Exactly the valid routes that go through the sender to a reported destination become invalid, for
  // badLinkLifetime from now; every other route is as purging leaves it.
  lemma RecvErrorExactEffect(s: RepairState, bad: Time, limit: U16, rerr: Unreachable, src: Address, now: Time)
    ensures var before := Purged(s.table, bad, now);
            var after := ErrorReceived(s, bad, limit, rerr, src, now).table;
            && after.Keys == before.Keys
            && forall k :: k in after ==>
                 if Concerns(before, rerr, src, k) && before[k].flag.ValidRoute? then
                   after[k] == before[k].(flag := InvalidRoute, reqCount := 0, lifeTime := now + bad)
                 else after[k] == before[k]
  {
    var before := Purged(s.table, bad, now);
    assert forall k :: k in Affected(before, rerr, src) <==> Concerns(before, rerr, src, k);
  }

  // The forwarded RERRs list exactly those destinations with the sequence numbers received.
  lemma RecvErrorForwards(s: RepairState, bad: Time, limit: U16, rerr: Unreachable, src: Address, now: Time)
    ensures var before := Purged(s.table, bad, now);
            var after := ErrorReceived(s, bad, limit, rerr, src, now);
            && s.sent <= after.sent
            && forall i :: |s.sent| <= i < |after.sent| ==>
                 forall d :: (d in after.sent[i].unreachable <==> Concerns(before, rerr, src, d))
                             && (d in after.sent[i].unreachable ==> after.sent[i].unreachable[d] == rerr[d])
  {
    var t := Purged(s.table, bad, now);
    var affected := Affected(t, rerr, src);
    SendsCarry(t, s.rerrCount == limit, PrecursorsOf(t, [], Ascending(affected.Keys)), affected);
  }

  lemma {:induction false} BroadcastsCarry(ifaces: seq<Address>, unreachable: Unreachable)
    ensures forall i :: 0 <= i < |ifaces| ==> Broadcasts(ifaces, unreachable)[i] == Broadcast(ifaces[i], unreachable)
  {
    if ifaces != [] {
      BroadcastsCarry(ifaces[..|ifaces| - 1], unreachable);
    }
  }

  lemma SendsCarry(t: Table, limited: bool, precursors: seq<Address>, unreachable: Unreachable)
    ensures forall i :: 0 <= i < |Sends(t, limited, precursors, unreachable)| ==>
              Sends(t, limited, precursors, unreachable)[i].unreachable == unreachable
  {
    BroadcastsCarry(Interfaces(t, precursors), unreachable);
  }

  lemma {:induction false} PrecursorsOfIsUnion(t: Table, prec: seq<Address>, dsts: seq<Address>)
    requires forall d :: d in dsts ==> d in t
    ensures forall p :: p in PrecursorsOf(t, prec, dsts) <==> p in prec || exists d :: d in dsts && p in t[d].precursors
    ensures NoRepeats(prec) ==> NoRepeats(PrecursorsOf(t, prec, dsts))
    decreases |dsts|
  {
    if dsts != [] {
      var next := MergePrecursors(prec, t[dsts[0]].precursors);
      MergePrecursorsIsUnion(prec, t[dsts[0]].precursors);
      PrecursorsOfIsUnion(t, next, dsts[1..]);
      assert forall d :: d in dsts <==> d == dsts[0] || d in dsts[1..];
    }
  }

  // A valid route leads to p.
  predicate KnowsWay(t: Table, p: Address) {
    p in t && t[p].flag.ValidRoute?
  }

  lemma {:induction false} InterfacesAreTowardsPrecursors(t: Table, precursors: seq<Address>)
    ensures forall i :: i in Interfaces(t, precursors) <==>
            exists p :: p in precursors && KnowsWay(t, p) && t[p].iface == i
    ensures NoRepeats(Interfaces(t, precursors))
  {
    if precursors != [] {
      var front, last := precursors[..|precursors| - 1], precursors[|precursors| - 1];
      InterfacesAreTowardsPrecursors(t, front);
      assert forall p :: p in precursors <==> p in front || p == last;
    }
  }

  ghost predicate Reaches(t: Table, send: Send, p: Address) {
    match send
    case Unicast(to, _) => to == p
    case Broadcast(iface, _) => KnowsWay(t, p) && t[p].iface == iface
  }

  // Unless the rate limit is met, a RERR reaches precisely the precursors a valid route leads to.
  lemma EveryReachablePrecursorIsTold(t: Table, precursors: seq<Address>, unreachable: Unreachable, p: Address)
    requires p in precursors
    ensures (exists send :: send in Sends(t, false, precursors, unreachable) && Reaches(t, send, p)) <==>
            KnowsWay(t, p)
  {
    var sends := Sends(t, false, precursors, unreachable);
    var ifaces := Interfaces(t, precursors);
    BroadcastsCarry(ifaces, unreachable);
    InterfacesAreTowardsPrecursors(t, precursors);
    if KnowsWay(t, p) {
      if |precursors| == 1 {
        assert precursors == [p];
        assert sends[0] == Unicast(p, unreachable) && Reaches(t, sends[0], p);
      } else {
        assert t[p].iface in ifaces;
        var i :| 0 <= i < |ifaces| && ifaces[i] == t[p].iface;
        assert sends[i] == Broadcast(t[p].iface, unreachable) && Reaches(t, sends[i], p);
      }
    } else if |precursors| != 1 {
      assert forall send :: send in sends ==> send.Broadcast?;
    }
  }

  // A single precursor is written to; several are told by one broadcast on each interface towards them.
  lemma SendsForm(t: Table, precursors: seq<Address>, unreachable: Unreachable)
    ensures var sends := Sends(t, false, precursors, unreachable);
            && (|precursors| == 1 ==>
                 sends == if KnowsWay(t, precursors[0]) then [Unicast(precursors[0], unreachable)] else [])
            && (|precursors| != 1 ==>
                 && (forall send :: send in sends ==> send.Broadcast?)
                 && forall i, j :: 0 <= i < j < |sends| ==> sends[i].iface != sends[j].iface)
  {
    BroadcastsCarry(Interfaces(t, precursors), unreachable);
    InterfacesAreTowardsPrecursors(t, precursors);
  }

  // So a RERR relayed below the rate limit reaches those precursors of the affected destinations, and only
  // those, that a valid route leads to.
  lemma RecvErrorTellsPrecursors(s: RepairState, bad: Time, limit: U16, rerr: Unreachable, src: Address, now: Time,
                                 d: Address, p: Address)
    requires s.rerrCount != limit
    requires var t := Purged(s.table, bad, now); Concerns(t, rerr, src, d) && p in t[d].precursors
    ensures var t := Purged(s.table, bad, now);
            var after := ErrorReceived(s, bad, limit, rerr, src, now);
            && s.sent <= after.sent
            && ((exists send :: send in after.sent[|s.sent|..] && Reaches(t, send, p)) <==> KnowsWay(t, p))
  {
    hide Sends, Reaches, KnowsWay, Invalidated;
    var t := Purged(s.table, bad, now);
    var affected := Affected(t, rerr, src);
    var dsts := Ascending(affected.Keys);
    assert d in affected.Keys && d in dsts;
    PrecursorsOfIsUnion(t, [], dsts);
    var precursors := PrecursorsOf(t, [], dsts);
    EveryReachablePrecursorIsTold(t, precursors, affected, p);
    var sends := Sends(t, false, precursors, affected);
    assert (s.sent + sends)[|s.sent|..] == sends;
  }

  // ---------- lost links ----------

  // After a link failure no valid route uses the neighbour, except in one case: the neighbour itself
  // had no table entry while some valid route went through it.
  lemma LinkBrokenSeversRoutes(s: RepairState, bad: Time, limit: U16, h: Address, now: Time)
    ensures var before := Purged(s.table, bad, now);
            Through(LinkBroken(s, bad, limit, h, now).table, h) <==> h !in before && Through(before, h)
  {
    var before := Purged(s.table, bad, now);
    if h in before {
      assert forall k :: k in before && before[k].nextHop == h ==> k in LostVia(before, h);
    }
  }

  // A run from an empty table in order of time, in which a route is only added when its next hop is known.
  ghost predicate Plausible(t: Table, bad: Time, events: seq<TableEvent>)
    decreases |events|
  {
    events != [] ==>
      var e := events[0];
      && (e.op.AddOp? ==> e.op.rt.nextHop == e.op.rt.dst || e.op.rt.nextHop in Purged(t, bad, e.at))
      && (|events| > 1 ==> e.at <= events[1].at)
      && Plausible(RouteMemory.Apply(t, bad, e), bad, events[1..])
  }

  lemma RunStep(t: Table, bad: Time, e: TableEvent, rest: seq<TableEvent>)
    ensures RouteMemory.Run(t, bad, [e] + rest) == RouteMemory.Run(RouteMemory.Apply(t, bad, e), bad, rest)
    ensures Plausible(t, bad, [e] + rest) <==>
            && (e.op.AddOp? ==> e.op.rt.nextHop == e.op.rt.dst || e.op.rt.nextHop in Purged(t, bad, e.at))
            && (rest != [] ==> e.at <= rest[0].at)
            && Plausible(RouteMemory.Apply(t, bad, e), bad, rest)
  {
    assert ([e] + rest)[1..] == rest;
  }

  // A neighbour 1 heard of once, for 3, and a route to 2 over it for much longer.
  function Direct(start: Time): Route {
    NewRoute(1, true, 7, 9, 1, 1, 3, start)
  }

  function Over(bad: Time, start: Time): Route {
    NewRoute(2, true, 7, 9, 2, 1, Max(bad, 0) + 100, start)
  }

  function Ageing(bad: Time, start: Time): seq<TableEvent> {
    [TableEvent(start, AddOp(Direct(start)))] +
    ([TableEvent(start, AddOp(Over(bad, start)))] +
     ([TableEvent(start + 4, LookupOp(1))] + ([TableEvent(start + 5 + Max(bad, 0), LookupOp(1))] + [])))
  }

  // The neighbour's entry becomes invalid and is then deleted; the route over it stays.
  lemma AgeingForgetsNeighbour(bad: Time, start: Time)
    ensures Plausible(map[], bad, Ageing(bad, start))
    ensures RouteMemory.Run(map[], bad, Ageing(bad, start)) == map[2 := Over(bad, start)]
  {
    var es := Ageing(bad, start);
    var t1: Table := map[1 := Direct(start)];
    var t2: Table := map[1 := Direct(start), 2 := Over(bad, start)];
    var t3: Table := map[1 := Invalidate(Direct(start), bad, start + 4), 2 := Over(bad, start)];
    var t4: Table := map[2 := Over(bad, start)];
    assert RouteMemory.Apply(map[], bad, es[0]) == t1;
    assert RouteMemory.Apply(t1, bad, es[1]) == t2;
    assert RouteMemory.Apply(t2, bad, es[2]) == t3;
    assert RouteMemory.Apply(t3, bad, es[3]) == t4;
    assert 1 in Purged(t1, bad, start);
    hide RouteMemory.Apply, Purged, Direct, Over;
    RunStep(t3, bad, es[3], []);
    RunStep(t2, bad, es[2], [es[3]] + []);
    RunStep(t1, bad, es[1], [es[2]] + ([es[3]] + []));
    RunStep(map[], bad, es[0], [es[1]] + ([es[2]] + ([es[3]] + [])));
  }

  // That case does arise: the entry of the neighbour is given up while a route over it is valid for longer.
  lemma UnknownNeighbourKeepsRoutes(bad: Time, limit: U16, now: Time)
    ensures exists events: seq<TableEvent>, h ::
      && Plausible(map[], bad, events) && (forall e :: e in events ==> e.at <= now)
      && Through(LinkBroken(RepairState(RouteMemory.Run(map[], bad, events), 0, []), bad, limit, h, now).table, h)
  {
    var start := now - 5 - Max(bad, 0);
    var events := Ageing(bad, start);
    AgeingForgetsNeighbour(bad, start);
    var t := RouteMemory.Run(map[], bad, events);
    assert forall e :: e in events ==> e.at <= now;
    assert Purged(t, bad, now)[2] == Over(bad, start);
    hide Plausible, RouteMemory.Run;
    LinkBrokenSeversRoutes(RepairState(t, 0, []), bad, limit, 1, now);
    assert Through(LinkBroken(RepairState(t, 0, []), bad, limit, 1, now).table, 1);
  }

  // A known neighbour h is lost with everything reached through it: exactly those routes that were valid become
  // invalid, for badLinkLifetime from now, and every other route is as purging leaves it. Without an entry for h
  // nothing is lost.
  lemma LinkBrokenExactEffect(s: RepairState, bad: Time, limit: U16, h: Address, now: Time)
    ensures var before := Purged(s.table, bad, now);
            var after := LinkBroken(s, bad, limit, h, now).table;
            && after.Keys == before.Keys
            && forall k :: k in after ==>
                 if h in before && LostWith(before, h, k) && before[k].flag.ValidRoute? then
                   after[k] == before[k].(flag := InvalidRoute, reqCount := 0, lifeTime := now + bad)
                 else after[k] == before[k]
  {
    var before := Purged(s.table, bad, now);
    assert h in before ==> forall k :: k in before ==> (k in LostVia(before, h) <==> LostWith(before, h, k));
  }

  ghost predicate LostWith(t: Table, h: Address, d: Address) {
    d in t && (d == h || t[d].nextHop == h)
  }

  // The RERRs sent for it list exactly what is lost, with the numbers of the table.
  lemma LinkBrokenForwards(s: RepairState, bad: Time, limit: U16, h: Address, now: Time)
    ensures var before := Purged(s.table, bad, now);
            var after := LinkBroken(s, bad, limit, h, now);
            && s.sent <= after.sent
            && (h !in before ==> after.sent == s.sent)
            && forall i :: |s.sent| <= i < |after.sent| ==>
                 forall d :: (d in after.sent[i].unreachable <==> LostWith(before, h, d))
                             && (d in after.sent[i].unreachable ==> after.sent[i].unreachable[d] == before[d].seqNo)
  {
    var t := Purged(s.table, bad, now);
    if h in t {
      hide LostPrecursors;
      SendsCarry(t, s.rerrCount == limit, LostPrecursors(t, h), LostVia(t, h));
      assert forall d :: d in LostVia(t, h) <==> LostWith(t, h, d);
      assert forall d :: d in LostVia(t, h) ==> LostVia(t, h)[d] == t[d].seqNo;
    }
  }

  lemma LostPrecursorsAreUnion(t: Table, h: Address)
    requires h in t
    ensures forall p :: p in LostPrecursors(t, h) <==> exists d :: LostWith(t, h, d) && p in t[d].precursors
  {
    var own := MergePrecursors([], t[h].precursors);
    var dsts := Ascending(DestinationsVia(t, h).Keys);
    MergePrecursorsIsUnion([], t[h].precursors);
    PrecursorsOfIsUnion(t, own, dsts);
    assert forall d :: LostWith(t, h, d) <==> d == h || d in dsts;
  }

  // Below the rate limit, a precursor of what is lost is told of it exactly if a valid route leads to it.
  lemma LinkBrokenTellsPrecursors(s: RepairState, bad: Time, limit: U16, h: Address, now: Time, d: Address, p: Address)
    requires s.rerrCount != limit
    requires var t := Purged(s.table, bad, now); h in t && LostWith(t, h, d) && p in t[d].precursors
    ensures var t := Purged(s.table, bad, now);
            var after := LinkBroken(s, bad, limit, h, now);
            && s.sent <= after.sent
            && ((exists send :: send in after.sent[|s.sent|..] && Reaches(t, send, p)) <==> KnowsWay(t, p))
  {
    hide Sends, Reaches, KnowsWay, Invalidated, LostPrecursors, PrecursorsOf;
    var t := Purged(s.table, bad, now);
    LostPrecursorsAreUnion(t, h);
    EveryReachablePrecursorIsTold(t, LostPrecursors(t, h), LostVia(t, h), p);
    assert h in LostVia(t, h);
    var sends := Sends(t, false, LostPrecursors(t, h), LostVia(t, h));
    assert (s.sent + sends)[|s.sent|..] == sends;
  }

  // Every RERR sent is counted, in sixteen bits, and none is sent while the counter stands at the limit.
  ghost predicate CountsRerrs(s: RepairState, after: RepairState, limit: U16) {
    && s.sent <= after.sent
    && after.rerrCount as nat == (s.rerrCount as nat + |after.sent| - |s.sent|) % 0x1_0000
    && (s.rerrCount == limit ==> after.sent == s.sent)
  }

  lemma ReportedCounts(s: RepairState, bad: Time, limit: U16, precursors: seq<Address>, lost: Unreachable, now: Time)
    ensures CountsRerrs(s, Reported(s, bad, limit, precursors, lost, now), limit)
  {
    hide Interfaces, Broadcasts, Invalidated;
  }

  lemma RerrsAreCounted(s: RepairState, bad: Time, limit: U16, rerr: Unreachable, h: Address, now: Time)
    ensures CountsRerrs(s, LinkBroken(s, bad, limit, h, now), limit)
    ensures CountsRerrs(s, ErrorReceived(s, bad, limit, rerr, h, now), limit)
  {
    hide Reported, PrecursorsOf, LostPrecursors;
    var t := Purged(s.table, bad, now);
    hide Purged;
    var affected := Affected(t, rerr, h);
    ReportedCounts(s.(table := t), bad, limit, PrecursorsOf(t, [], Ascending(affected.Keys)), affected, now);
    if h in t {
      ReportedCounts(s.(table := t), bad, limit, LostPrecursors(t, h), LostVia(t, h), now);
    }
  }

  lemma LinkBrokenAddsNoRoute(s: RepairState, bad: Time, limit: U16, h: Address, now: Time, g: Address)
    requires !Through(s.table, g)
    ensures !Through(LinkBroken(s, bad, limit, h, now).table, g)
  {
    var before := Purged(s.table, bad, now);
    var after := LinkBroken(s, bad, limit, h, now).table;
    if k :| k in after && after[k].nextHop == g && after[k].flag.ValidRoute? {
      assert k in before && before[k].flag.ValidRoute? && before[k].nextHop == g;
      assert k in s.table && s.table[k].flag.ValidRoute?;
    }
  }

  lemma SubTableFitsOneRerr(t: Table, t': Table)
    requires FitsOneRerr(t)
    requires forall k :: k in t' ==> k in t && t'[k].nextHop == t[k].nextHop
    ensures FitsOneRerr(t')
  {
    forall g: Address
      ensures |DestinationsVia(t', g).Keys + {g}| <= MAX_DESTINATIONS
    {
      SubsetSize(DestinationsVia(t', g).Keys + {g}, DestinationsVia(t, g).Keys + {g});
    }
  }

  // The link failures of one pass over the neighbour list, in order.
  ghost function LinksBroken(s: RepairState, bad: Time, limit: U16, hs: seq<Address>, now: Time): RepairState {
    if hs == [] then s
    else LinkBroken(LinksBroken(s, bad, limit, hs[..|hs| - 1], now), bad, limit, hs[|hs| - 1], now)
  }

  lemma LinksBrokenAppend(s: RepairState, bad: Time, limit: U16, hs: seq<Address>, h: Address, now: Time)
    ensures LinksBroken(s, bad, limit, hs + [h], now) ==
            LinkBroken(LinksBroken(s, bad, limit, hs, now), bad, limit, h, now)
  {
    assert (hs + [h])[..|hs|] == hs;
  }

  // Each neighbour of hs that is known now can be reported in one RERR.
  ghost predicate LossesFit(t: Table, hs: seq<Address>, bad: Time, now: Time) {
    forall h :: h in hs ==> LossFitsOneRerr(Purged(t, bad, now), h)
  }

  lemma LinkBrokenKeepsLossesFit(s: RepairState, bad: Time, limit: U16, h: Address, now: Time, hs: seq<Address>)
    requires LossesFit(s.table, hs, bad, now)
    ensures LossesFit(LinkBroken(s, bad, limit, h, now).table, hs, bad, now)
  {
    var t := Purged(s.table, bad, now);
    var t' := Purged(LinkBroken(s, bad, limit, h, now).table, bad, now);
    assert forall k :: k in t' ==> k in t && t'[k].nextHop == t[k].nextHop;
    forall g | g in hs
      ensures LossFitsOneRerr(t', g)
    {
      if g in t' {
        SubsetSize(DestinationsVia(t', g).Keys + {g}, DestinationsVia(t, g).Keys + {g});
      }
    }
  }

  lemma {:induction false} LinksBrokenKeepLossesFit(s: RepairState, bad: Time, limit: U16, gs: seq<Address>, now: Time,
                                                    hs: seq<Address>)
    requires LossesFit(s.table, hs, bad, now)
    ensures LossesFit(LinksBroken(s, bad, limit, gs, now).table, hs, bad, now)
    decreases |gs|
  {
    hide LinkBroken, LossesFit;
    if gs != [] {
      var front := gs[..|gs| - 1];
      LinksBrokenKeepLossesFit(s, bad, limit, front, now, hs);
      LinkBrokenKeepsLossesFit(LinksBroken(s, bad, limit, front, now), bad, limit, gs[|gs| - 1], now, hs);
    }
  }

  // Where every loss fits one RERR, any losses do, and this stays so.
  lemma {:induction false} LossesKeepFitting(s: RepairState, bad: Time, limit: U16, hs: seq<Address>, now: Time)
    requires FitsOneRerr(s.table)
    ensures LossesFit(s.table, hs, bad, now)
    ensures FitsOneRerr(LinksBroken(s, bad, limit, hs, now).table)
    decreases |hs|
  {
    hide FitsOneRerr;
    PurgeFitsOneRerr(s.table, bad, now);
    EachLossFits(Purged(s.table, bad, now));
    if hs != [] {
      var before := LinksBroken(s, bad, limit, hs[..|hs| - 1], now);
      LossesKeepFitting(s, bad, limit, hs[..|hs| - 1], now);
      SubTableFitsOneRerr(before.table, LinkBroken(before, bad, limit, hs[|hs| - 1], now).table);
    }
  }

  lemma EachLossFits(t: Table)
    requires FitsOneRerr(t)
    ensures forall h :: LossFitsOneRerr(t, h)
  {
  }

  // The table the i-th callback of the pass works on.
  ghost function TableAt(s: RepairState, bad: Time, limit: U16, hs: seq<Address>, now: Time, i: nat): Table
    requires i < |hs|
  {
    Purged(LinksBroken(s, bad, limit, hs[..i], now).table, bad, now)
  }

  // Through any number of removals in one pass: a neighbour that had a table entry when its callback ran
  // is no valid route's next hop at the end.
  lemma {:induction false} LostNeighboursCarryNoRoute(s: RepairState, bad: Time, limit: U16, hs: seq<Address>,
                                                      now: Time, i: nat)
    requires i < |hs|
    requires hs[i] in TableAt(s, bad, limit, hs, now, i)
    ensures !Through(LinksBroken(s, bad, limit, hs, now).table, hs[i])
    decreases |hs|
  {
    var front, last := hs[..|hs| - 1], hs[|hs| - 1];
    var before := LinksBroken(s, bad, limit, front, now);
    if i == |hs| - 1 {
      LinkBrokenSeversRoutes(before, bad, limit, last, now);
    } else {
      assert front[..i] == hs[..i];
      LostNeighboursCarryNoRoute(s, bad, limit, front, now, i);
      LinkBrokenAddsNoRoute(before, bad, limit, last, now, hs[i]);
    }
  }
}
