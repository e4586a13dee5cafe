/** Route-error handling: the part of model/aodv-routing-protocol.cc that reacts to broken links and RERR messages. */
module RouteErrors {
  import opened Types
  import opened Lists
  import opened RoutingTables
  import opened RouteMemory
  import opened RerrHeaders

  // A RERR handed to a socket: to one precursor, or to everybody on an interface.
  datatype Send = Unicast(to: Address, unreachable: Unreachable) | Broadcast(iface: Address, unreachable: Unreachable)

  // ---------- what is sent ----------

  predicate HasValidRoute(t: Table, a: Address) {
    a in t && t[a].flag.ValidRoute?
  }

  // The distinct interfaces towards precursors with a valid route.
  function Interfaces(t: Table, precursors: seq<Address>): seq<Address> {
    if precursors == [] then [] else
      var rest := Interfaces(t, precursors[..|precursors| - 1]);
      var last := precursors[|precursors| - 1];
      if HasValidRoute(t, last) && t[last].iface !in rest then rest + [t[last].iface] else rest
  }

  function Broadcasts(ifaces: seq<Address>, unreachable: Unreachable): (r: seq<Send>)
    ensures |r| == |ifaces|
  {
    if ifaces == [] then []
    else Broadcasts(ifaces[..|ifaces| - 1], unreachable) + [Broadcast(ifaces[|ifaces| - 1], unreachable)]
  }

  function Sends(t: Table, limited: bool, precursors: seq<Address>, unreachable: Unreachable): seq<Send> {
    if precursors == [] || limited then []
    else if |precursors| == 1 then
      if HasValidRoute(t, precursors[0]) then [Unicast(precursors[0], unreachable)] else []
    else Broadcasts(Interfaces(t, precursors), unreachable)
  }

  // The precursors of a list of destinations, merged in order.
  function PrecursorsOf(t: Table, prec: seq<Address>, dsts: seq<Address>): seq<Address>
    requires forall d :: d in dsts ==> d in t
    decreases |dsts|
  {
    if dsts == [] then prec
    else PrecursorsOf(t, MergePrecursors(prec, t[dsts[0]].precursors), dsts[1..])
  }

  // ---------- effects on values ----------

  // The routing table together with the record of RERRs sent.
  datatype RepairState = RepairState(table: Table, rerrCount: U16, sent: seq<Send>)

  function Counted(s: RepairState, limit: U16, precursors: seq<Address>, unreachable: Unreachable): RepairState {
    var sends := Sends(s.table, s.rerrCount == limit, precursors, unreachable);
    s.(rerrCount := (s.rerrCount + |sends|) % 0x1_0000, sent := s.sent + sends)
  }

  // The RERR destinations that this node reaches through the sender, with the received sequence numbers.
  function Affected(t: Table, rerr: Unreachable, src: Address): Unreachable {
    map d | d in rerr && d in t && t[d].nextHop == src :: rerr[d]
  }

  // The RERR goes out, then the destinations become invalid.
  function Reported(s: RepairState, bad: Time, limit: U16, precursors: seq<Address>, lost: Unreachable,
                    now: Time): RepairState {
    var sent := if lost == map[] then s else Counted(s, limit, precursors, lost);
    sent.(table := Invalidated(s.table, lost.Keys, bad, now))
  }

  ghost function ErrorReceived(s: RepairState, bad: Time, limit: U16, rerr: Unreachable, src: Address,
                               now: Time): RepairState {
    var t := Purged(s.table, bad, now);
    var affected := Affected(t, rerr, src);
    Reported(s.(table := t), bad, limit, PrecursorsOf(t, [], Ascending(affected.Keys)), affected, now)
  }

  // What a broken link makes unreachable: everything reached through the neighbour, and the neighbour.
  function LostVia(t: Table, h: Address): Unreachable
    requires h in t
  {
    DestinationsVia(t, h)[h := t[h].seqNo]
  }

  // The precursors of the neighbour, then those of what is reached through it.
  ghost function LostPrecursors(t: Table, h: Address): seq<Address>
    requires h in t
  {
    PrecursorsOf(t, MergePrecursors([], t[h].precursors), Ascending(DestinationsVia(t, h).Keys))
  }

  ghost function LinkBroken(s: RepairState, bad: Time, limit: U16, h: Address, now: Time): RepairState {
    var t := Purged(s.table, bad, now);
    if h !in t then s.(table := t)
    else Reported(s.(table := t), bad, limit, LostPrecursors(t, h), LostVia(t, h), now)
  }

  // What the loss of a known neighbour makes unreachable fits one RERR.
  ghost predicate LossFitsOneRerr(t: Table, h: Address) {
    h in t ==> |DestinationsVia(t, h).Keys + {h}| <= MAX_DESTINATIONS
  }

  // Every broken link fits one RERR.
  ghost predicate FitsOneRerr(t: Table) {
    forall h :: |DestinationsVia(t, h).Keys + {h}| <= MAX_DESTINATIONS
  }

  ghost predicate Through(t: Table, h: Address) {
    exists k :: k in t && t[k].nextHop == h && t[k].flag.ValidRoute?
  }

  lemma SubsetSize(a: set<Address>, b: set<Address>)
    requires a <= b
    ensures |a| <= |b|
  {
    if a != {} {
      var x :| x in a;
      SubsetSize(a - {x}, b - {x});
    }
  }

  lemma RoomForOneMore(m: Unreachable, bound: set<Address>, k: Address)
    requires m.Keys <= bound && k in bound && |bound| <= MAX_DESTINATIONS
    ensures k in m || DestCount(m) < 255
  {
    if k !in m {
      SubsetSize(m.Keys + {k}, bound);
      assert |m.Keys + {k}| == |m| + 1;
    }
  }

  lemma PurgeFitsOneRerr(t: Table, bad: Time, now: Time)
    requires FitsOneRerr(t)
    ensures FitsOneRerr(Purged(t, bad, now))
  {
    forall h: Address
      ensures |DestinationsVia(Purged(t, bad, now), h).Keys + {h}| <= MAX_DESTINATIONS
    {
      SubsetSize(DestinationsVia(Purged(t, bad, now), h).Keys + {h}, DestinationsVia(t, h).Keys + {h});
    }
  }

  lemma LostViaKeys(t: Table, h: Address)
    requires h in t && LossFitsOneRerr(t, h)
    ensures DestinationsVia(t, h) + map[h := t[h].seqNo] == LostVia(t, h)
    ensures LostVia(t, h).Keys == DestinationsVia(t, h).Keys + {h}
    ensures |LostVia(t, h).Keys| <= MAX_DESTINATIONS
  {
    LostViaSum(t, h);
    hide LostVia, DestinationsVia;
  }

  lemma LostViaSum(t: Table, h: Address)
    requires h in t
    ensures DestinationsVia(t, h) + map[h := t[h].seqNo] == LostVia(t, h)
    ensures LostVia(t, h).Keys == DestinationsVia(t, h).Keys + {h}
  {
    var via := DestinationsVia(t, h);
    hide DestinationsVia;
    assert via + map[h := t[h].seqNo] == via[h := t[h].seqNo];
  }

  // The header while the destinations in todo are still to be added to what it held before.
  ghost predicate Filled(m: Unreachable, lost: Unreachable, before: Unreachable, todo: set<Address>) {
    && (forall d :: d in m <==> (d in lost && d !in todo) || d in before)
    && (forall d :: d in m ==> m[d] == if d in before then before[d] else lost[d])
  }

  lemma FilledStep(m: Unreachable, lost: Unreachable, before: Unreachable, todo: set<Address>, i: Address)
    requires Filled(m, lost, before, todo) && i in todo && i in lost
    ensures Filled(Inserted(m, i, lost[i]), lost, before, todo - {i})
    ensures m.Keys <= lost.Keys + before.Keys
  {
  }

  lemma FilledAll(m: Unreachable, lost: Unreachable, before: Unreachable)
    requires Filled(m, lost, before, {})
    ensures m == lost + before
  {
  }

  // ---------- the handlers ----------

  class RouteRepair {
    const table: RoutingTable
    var rerrCount: U16
    var rerrRateLimit: U16
    ghost var sent: seq<Send>

    constructor (table: RoutingTable, rerrRateLimit: U16)
      ensures this.table == table && rerrCount == 0 && this.rerrRateLimit == rerrRateLimit && sent == []
    {
      this.table := table;
      this.rerrRateLimit := rerrRateLimit;
      rerrCount, sent := 0, [];
    }

    ghost function State(): RepairState
      reads this, table
    {
      RepairState(table.entries, rerrCount, sent)
    }

    // Sends one RERR to the precursors. The table was purged at this instant by the caller.
    method SendRerrMessage(unreachable: Unreachable, precursors: seq<Address>, now: Time)
      requires Purged(table.entries, table.badLinkLifetime, now) == table.entries
      modifies this`rerrCount, this`sent, table`entries
      ensures State() == Counted(old(State()), rerrRateLimit, precursors, unreachable)
    {
      hide Interfaces, Broadcasts, Purged;
      if precursors == [] {
        return;
      }
      if rerrCount == rerrRateLimit {
        return;
      }
      if |precursors| == 1 {
        SendToOnly(precursors[0], unreachable, now);
        return;
      }
      var ifaces := InterfacesTowards(precursors, now);
      BroadcastOn(ifaces, unreachable);
    }

    // SendRerrMessage to a single precursor.
    method SendToOnly(precursor: Address, unreachable: Unreachable, now: Time)
      requires Purged(table.entries, table.badLinkLifetime, now) == table.entries
      modifies this`rerrCount, this`sent, table`entries
      ensures table.entries == old(table.entries)
      ensures sent == old(sent) +
              if HasValidRoute(table.entries, precursor) then [Unicast(precursor, unreachable)] else []
      ensures rerrCount == (old(rerrCount) + |sent| - |old(sent)|) % 0x1_0000
    {
      var found, toPrecursor := table.LookupValidRoute(precursor, now);
      if found {
        sent := sent + [Unicast(precursor, unreachable)];
        rerrCount := (rerrCount + 1) % 0x1_0000;
      }
    }

    // The loop of SendRerrMessage that collects interfaces.
    method InterfacesTowards(precursors: seq<Address>, now: Time) returns (ifaces: seq<Address>)
      requires Purged(table.entries, table.badLinkLifetime, now) == table.entries
      modifies table`entries
      ensures table.entries == old(table.entries)
      ensures ifaces == Interfaces(table.entries, precursors)
    {
      ifaces := [];
      for i := 0 to |precursors|
        invariant table.entries == old(table.entries)
        invariant ifaces == Interfaces(table.entries, precursors[..i])
      {
        var found, toPrecursor := table.LookupValidRoute(precursors[i], now);
        if found && toPrecursor.iface !in ifaces {
          ifaces := ifaces + [toPrecursor.iface];
        }
        assert precursors[..i + 1][..i] == precursors[..i];
      }
      assert precursors[..|precursors|] == precursors;
    }

    // The loop of SendRerrMessage that sends.
    method BroadcastOn(ifaces: seq<Address>, unreachable: Unreachable)
      modifies this`rerrCount, this`sent
      ensures sent == old(sent) + Broadcasts(ifaces, unreachable)
      ensures rerrCount == (old(rerrCount) + |ifaces|) % 0x1_0000
    {
      for i := 0 to |ifaces|
        invariant sent == old(sent) + Broadcasts(ifaces[..i], unreachable)
        invariant rerrCount == (old(rerrCount) + i) % 0x1_0000
      {
        sent := sent + [Broadcast(ifaces[i], unreachable)];
        rerrCount := (rerrCount + 1) % 0x1_0000;
        assert ifaces[..i + 1][..i] == ifaces[..i];
      }
      assert ifaces[..|ifaces|] == ifaces;
    }

    // The inner loop of RecvError over the destinations reached through the sender.
    method KeepIfListed(kept: Unreachable, dst: Address, seqNo: U32, listed: map<Address, U32>) returns (r: Unreachable)
      ensures r == if dst in listed then Inserted(kept, dst, seqNo) else kept
    {
      r := kept;
      var todo := listed.Keys;
      while todo != {}
        invariant todo <= listed.Keys
        invariant r == if dst in listed && dst !in todo then Inserted(kept, dst, seqNo) else kept
        decreases todo
      {
        var i :| i in todo;
        if i == dst && dst !in r {
          r := r[dst := seqNo];
        }
        todo := todo - {i};
      }
    }

    // The drain loop of RecvError: empties the header and keeps the listed destinations.
    method DrainHeader(rerr: RerrHeader, listed: map<Address, U32>) returns (kept: Unreachable)
      modifies rerr`unreachable
      ensures rerr.unreachable == map[]
      ensures kept == map d | d in old(rerr.unreachable) && d in listed :: old(rerr.unreachable)[d]
    {
      ghost var before := rerr.unreachable;
      kept := map[];
      var removed, dst, seqNo := rerr.RemoveUnDestination();
      while removed
        invariant rerr.unreachable.Keys <= before.Keys
        invariant forall d :: d in rerr.unreachable ==> rerr.unreachable[d] == before[d]
        invariant removed ==> dst in before && dst !in rerr.unreachable && seqNo == before[dst]
        invariant !removed ==> rerr.unreachable == map[]
        invariant forall d :: d in kept <==>
          d in before && d !in rerr.unreachable && !(removed && d == dst) && d in listed
        invariant forall d :: d in kept ==> kept[d] == before[d]
        decreases rerr.unreachable.Keys, removed
      {
        kept := KeepIfListed(kept, dst, seqNo, listed);
        removed, dst, seqNo := rerr.RemoveUnDestination();
      }
    }

    // The loop that puts the lost destinations into a RERR and gathers their precursors. A header always
    // has room for them, so the branch that sends a full one is never taken.
    method FillHeader(rerr: RerrHeader, lost: Unreachable, prec: seq<Address>, now: Time)
      returns (precursors: seq<Address>)
      requires Purged(table.entries, table.badLinkLifetime, now) == table.entries
      requires lost.Keys <= table.entries.Keys
      requires |lost.Keys + rerr.unreachable.Keys| <= MAX_DESTINATIONS
      modifies rerr`unreachable, table`entries
      ensures table.entries == old(table.entries)
      ensures rerr.unreachable == lost + old(rerr.unreachable)
      ensures precursors == PrecursorsOf(table.entries, prec, Ascending(lost.Keys))
    {
      precursors := prec;
      var todo := lost.Keys;
      ghost var before := rerr.unreachable;
      while todo != {}
        invariant todo <= lost.Keys
        invariant table.entries == old(table.entries)
        invariant Filled(rerr.unreachable, lost, before, todo)
        invariant PrecursorsOf(table.entries, precursors, Ascending(todo)) ==
                  PrecursorsOf(table.entries, prec, Ascending(lost.Keys))
        decreases todo
      {
        var i := Begin(todo);
        FilledStep(rerr.unreachable, lost, before, todo, i);
        precursors := AddLost(rerr, lost.Keys + before.Keys, i, lost[i], precursors, now);
        AscendingStep(todo);
        todo := todo - {i};
      }
      FilledAll(rerr.unreachable, lost, before);
    }

    // One round of that loop.
    method AddLost(rerr: RerrHeader, ghost bound: set<Address>, dst: Address, seqNo: U32, prec: seq<Address>, now: Time)
      returns (precursors: seq<Address>)
      requires Purged(table.entries, table.badLinkLifetime, now) == table.entries && dst in table.entries
      requires rerr.unreachable.Keys <= bound && dst in bound && |bound| <= MAX_DESTINATIONS
      modifies rerr`unreachable, table`entries
      ensures table.entries == old(table.entries)
      ensures rerr.unreachable == Inserted(old(rerr.unreachable), dst, seqNo)
      ensures precursors == MergePrecursors(prec, table.entries[dst].precursors)
    {
      RoomForOneMore(rerr.unreachable, bound, dst);
      var ok := rerr.AddUnDestination(dst, seqNo);
      assert ok;
      var found, toDst := table.LookupRoute(dst, now);
      precursors := GetPrecursors(toDst, prec);
    }

    // The common end of both handlers.
    method Report(rerr: RerrHeader, lost: Unreachable, prec: seq<Address>, invalid: map<Address, U32>, now: Time)
      requires Purged(table.entries, table.badLinkLifetime, now) == table.entries
      requires lost.Keys <= table.entries.Keys
      requires invalid.Keys == lost.Keys + rerr.unreachable.Keys && |invalid.Keys| <= MAX_DESTINATIONS
      modifies rerr`unreachable, this`rerrCount, this`sent, table`entries
      ensures State() == Reported(old(State()), table.badLinkLifetime, rerrRateLimit,
                                  PrecursorsOf(old(table.entries), prec, Ascending(lost.Keys)),
                                  lost + old(rerr.unreachable), now)
    {
      var precursors := FillHeader(rerr, lost, prec, now);
      SendAndInvalidate(rerr.unreachable, precursors, invalid, now);
    }

    method SendAndInvalidate(lost: Unreachable, precursors: seq<Address>, invalid: map<Address, U32>, now: Time)
      requires Purged(table.entries, table.badLinkLifetime, now) == table.entries
      requires invalid.Keys == lost.Keys && |lost.Keys| <= MAX_DESTINATIONS
      modifies this`rerrCount, this`sent, table`entries
      ensures State() == Reported(old(State()), table.badLinkLifetime, rerrRateLimit, precursors, lost, now)
    {
      assert |lost.Keys| == |lost|;
      if DestCount(lost) != 0 {
        SendRerrMessage(lost, precursors, now);
        assert State().table == old(table.entries);
      }
      table.InvalidateRoutesWithDst(invalid, now);
    }

    method RecvError(rerr: RerrHeader, src: Address, now: Time)
      requires table.badLinkLifetime >= 0
      requires |rerr.unreachable| <= MAX_DESTINATIONS
      modifies rerr, this`rerrCount, this`sent, table`entries
      ensures State() == ErrorReceived(old(State()), table.badLinkLifetime, rerrRateLimit, old(rerr.unreachable),
                                       src, now)
    {
      var viaSrc := table.GetListOfDestinationWithNextHop(src, now);
      PurgedTwice(old(table.entries), table.badLinkLifetime, now);
      var unreachable := DrainHeader(rerr, viaSrc);
      assert unreachable == Affected(table.entries, old(rerr.unreachable), src);
      SubsetSize(unreachable.Keys, old(rerr.unreachable).Keys);
      assert unreachable + rerr.unreachable == unreachable;
      Report(rerr, unreachable, [], unreachable, now);
    }

    method SendRerrWhenBreaksLinkToNextHop(nextHop: Address, now: Time)
      requires table.badLinkLifetime >= 0
      requires LossFitsOneRerr(Purged(table.entries, table.badLinkLifetime, now), nextHop)
      modifies this`rerrCount, this`sent, table`entries
      ensures State() == LinkBroken(old(State()), table.badLinkLifetime, rerrRateLimit, nextHop, now)
    {
      var found, toNextHop := table.LookupRoute(nextHop, now);
      if !found {
        return;
      }
      PurgedTwice(old(table.entries), table.badLinkLifetime, now);
      ReportLoss(nextHop, toNextHop, now);
    }

    // SendRerrWhenBreaksLinkToNextHop once the neighbour's entry is found.
    method ReportLoss(nextHop: Address, toNextHop: Route, now: Time)
      requires Purged(table.entries, table.badLinkLifetime, now) == table.entries &&
               LossFitsOneRerr(table.entries, nextHop)
      requires nextHop in table.entries && table.entries[nextHop] == toNextHop
      modifies this`rerrCount, this`sent, table`entries
      ensures State() == Reported(old(State()), table.badLinkLifetime, rerrRateLimit,
                                  LostPrecursors(old(table.entries), nextHop),
                                  LostVia(old(table.entries), nextHop), now)
    {
      var rerr := new RerrHeader();
      var precursors := GetPrecursors(toNextHop, []);
      var ok := rerr.AddUnDestination(nextHop, toNextHop.seqNo);
      var unreachable := table.GetListOfDestinationWithNextHop(nextHop, now);
      LostViaKeys(table.entries, nextHop);
      var invalid := if nextHop in unreachable then unreachable else unreachable[nextHop := toNextHop.seqNo];
      Report(rerr, unreachable, precursors, invalid, now);
    }
  }
}
