/** Receiving route replies: the table update of RecvReply and the freshness it keeps. */
module Replies {
  import opened Types
  import opened RoutingTables
  import opened NeighborRoutes

  const MODULUS := 0x1_0000_0000
  const HALF := 0x8000_0000

  // ---------- the circular order of sequence numbers ----------

  // How far a lies ahead of b, counted upwards modulo 2^32.
  function Ahead(a: U32, b: U32): (d: U32) {
    (a as int - b as int) % MODULUS
  }

  // The value of a 32-bit difference read as a signed number.
  function Signed(d: U32): int {
    if d < HALF then d else d - MODULUS
  }

  predicate Fresher(a: U32, b: U32) {
    Signed(Ahead(a, b)) > 0
  }

  lemma AheadBack(a: U32, b: U32)
    ensures Ahead(b, a) == if a == b then 0 else MODULUS - Ahead(a, b)
    ensures Ahead(a, b) == 0 <==> a == b
  {
    if a > b {
      assert Ahead(a, b) == a - b;
    } else if a < b {
      assert Ahead(b, a) == b - a;
    }
  }

  // The order is antisymmetric, and total except for numbers exactly half the range apart.
  lemma FresherIsAntisymmetric(a: U32, b: U32)
    ensures Fresher(a, b) ==> !Fresher(b, a)
    ensures Fresher(a, b) || Fresher(b, a) || a == b <==> Ahead(a, b) != HALF
  {
    AheadBack(a, b);
  }

  lemma SumOfRemainders(x: int, y: int)
    ensures (x % MODULUS + y % MODULUS) % MODULUS == (x + y) % MODULUS
  {
    assert x == x / MODULUS * MODULUS + x % MODULUS;
    assert y == y / MODULUS * MODULUS + y % MODULUS;
  }

  lemma AheadAdds(a: U32, b: U32, c: U32)
    ensures Ahead(a, c) == (Ahead(a, b) + Ahead(b, c)) % MODULUS
  {
    var x, y := a as int - b as int, b as int - c as int;
    SumOfRemainders(x, y);
    assert x + y == a as int - c as int;
  }

  // It is transitive exactly within a half-range window.
  lemma FresherIsTransitiveWithin(a: U32, b: U32, c: U32)
    requires Fresher(a, b) && Fresher(b, c)
    ensures Fresher(a, c) <==> Ahead(a, b) + Ahead(b, c) < HALF
  {
    AheadAdds(a, b, c);
  }

  // ---------- the effect of a reply ----------

  datatype Rrep = Rrep(dst: Address, dstSeqNo: U32, origin: Address, hopCount: U8, lifeTime: Time, ackRequired: bool)

  function Hop(rrep: Rrep): U8 {
    (rrep.hopCount as nat + 1) % 0x100
  }

  function EntryOf(rrep: Rrep, iface: Address, sender: Address, now: Time): Route {
    NewRoute(rrep.dst, true, rrep.dstSeqNo, iface, Hop(rrep), sender, rrep.lifeTime, now)
  }

  // The four cases in which an existing entry gives way.
  predicate Replaces(rrep: Rrep, toDst: Route) {
    || !toDst.validSeqNo
    || Fresher(rrep.dstSeqNo, toDst.seqNo)
    || (rrep.dstSeqNo == toDst.seqNo && toDst.flag != ValidRoute)
    || (rrep.dstSeqNo == toDst.seqNo && Hop(rrep) < toDst.hops)
  }

  function WithPrecursor(r: Route, p: Address): Route {
    if p in r.precursors then r else r.(precursors := r.precursors + [p])
  }

  function Get(t: Table, a: Address, now: Time): Route {
    if a in t then t[a] else DefaultRoute(now)
  }

  // The table after the entry for the destination has been created or updated.
  function Stored(t: Table, entry: Route, rrep: Rrep): Table {
    if rrep.dst !in t then t[rrep.dst := entry]
    else if Replaces(rrep, t[rrep.dst]) then t[rrep.dst := entry]
    else t
  }

  // The table after the precursors of both directions have been noted.
  function Noted(t: Table, dst: Address, toOrigin: Route, now: Time): Table
    requires dst in t
  {
    var toDst := WithPrecursor(t[dst], toOrigin.nextHop);
    var t1 := Updated(t, toDst);
    var t2 := Updated(t1, WithPrecursor(Get(t1, toDst.nextHop, now), toOrigin.nextHop));
    var origin := WithPrecursor(toOrigin, toDst.nextHop);
    var t3 := Updated(t2, origin);
    Updated(t3, WithPrecursor(Get(t3, origin.nextHop, now), toDst.nextHop))
  }

  function Forwarded(t: Table, rrep: Rrep, activeRouteTimeout: Time, now: Time): Table {
    if rrep.origin !in t || t[rrep.origin].flag.InSearch? then t else
      var toOrigin := t[rrep.origin].(lifeTime := Max(activeRouteTimeout, LifeTime(t[rrep.origin], now)) + now);
      var t1 := Updated(t, toOrigin);
      if rrep.dst in t1 && t1[rrep.dst].flag.ValidRoute? then Noted(t1, rrep.dst, toOrigin, now) else t1
  }

  // RecvReply on the table, which has been purged at this instant; the destination is not the originator.
  function ReplyEffect(t: Table, rrep: Rrep, iface: Address, sender: Address, own: set<Address>,
                       activeRouteTimeout: Time, now: Time): Table {
    var entry := EntryOf(rrep, iface, sender, now);
    var stored := Stored(t, entry, rrep);
    if rrep.origin in own then
      if rrep.dst in t && t[rrep.dst].flag.InSearch? then stored[rrep.dst := entry] else stored
    else Forwarded(stored, rrep, activeRouteTimeout, now)
  }

  // ---------- freshness ----------

  // A valid route with a valid sequence number.
  predicate Trusted(t: Table, k: Address) {
    k in t && t[k].flag.ValidRoute? && t[k].validSeqNo
  }

  // From r to r' the sequence number advances, or stays while the hop count falls, or both stay.
  predicate Improves(r: Route, r': Route) {
    || Fresher(r'.seqNo, r.seqNo)
    || (r'.seqNo == r.seqNo && r'.hops <= r.hops)
  }

  // Every trusted entry of t' is a trusted entry of t with the same number and hops.
  ghost predicate OnlyOldFacts(t: Table, t': Table) {
    forall k :: Trusted(t', k) ==> Trusted(t, k) && t'[k].seqNo == t[k].seqNo && t'[k].hops == t[k].hops
  }

  ghost predicate KeyedByDst(t: Table) {
    forall k :: k in t ==> t[k].dst == k
  }

  // r says nothing about its destination that base does not.
  ghost predicate OldFact(base: Table, r: Route) {
    r.flag.ValidRoute? && r.validSeqNo ==>
      Trusted(base, r.dst) && base[r.dst].seqNo == r.seqNo && base[r.dst].hops == r.hops
  }

  lemma UpdateKeepsFacts(base: Table, t: Table, r: Route)
    requires OnlyOldFacts(base, t) && OldFact(base, r) && KeyedByDst(t)
    ensures OnlyOldFacts(base, Updated(t, r)) && KeyedByDst(Updated(t, r))
  {
  }

  lemma GetIsOldFact(base: Table, t: Table, a: Address, p: Address, now: Time)
    requires OnlyOldFacts(base, t) && KeyedByDst(t)
    ensures OldFact(base, WithPrecursor(Get(t, a, now), p))
  {
  }

  // The precursor updates write back copies of entries, one of them stale, and change no number or hop count.
  lemma NotedKeepsFacts(t: Table, dst: Address, toOrigin: Route, now: Time)
    requires KeyedByDst(t) && dst in t && OldFact(t, toOrigin)
    ensures OnlyOldFacts(t, Noted(t, dst, toOrigin, now)) && KeyedByDst(Noted(t, dst, toOrigin, now))
  {
    hide OnlyOldFacts, KeyedByDst, OldFact, Updated, Get, WithPrecursor;
    NothingChanged(t);
    var toDst := WithPrecursor(t[dst], toOrigin.nextHop);
    CopyIsOldFact(t, dst, toOrigin.nextHop);
    UpdateKeepsFacts(t, t, toDst);
    var t1 := Updated(t, toDst);
    var r2 := WithPrecursor(Get(t1, toDst.nextHop, now), toOrigin.nextHop);
    GetIsOldFact(t, t1, toDst.nextHop, toOrigin.nextHop, now);
    UpdateKeepsFacts(t, t1, r2);
    var t2 := Updated(t1, r2);
    var origin := WithPrecursor(toOrigin, toDst.nextHop);
    StaleIsOldFact(t, toOrigin, toDst.nextHop);
    UpdateKeepsFacts(t, t2, origin);
    var t3 := Updated(t2, origin);
    GetIsOldFact(t, t3, origin.nextHop, toDst.nextHop, now);
    UpdateKeepsFacts(t, t3, WithPrecursor(Get(t3, origin.nextHop, now), toDst.nextHop));
  }

  lemma NothingChanged(t: Table)
    ensures OnlyOldFacts(t, t)
  {
  }

  lemma CopyIsOldFact(t: Table, k: Address, p: Address)
    requires KeyedByDst(t) && k in t
    ensures OldFact(t, WithPrecursor(t[k], p))
  {
  }

  lemma StaleIsOldFact(t: Table, r: Route, p: Address)
    requires OldFact(t, r)
    ensures OldFact(t, WithPrecursor(r, p))
  {
  }

  lemma ForwardedKeepsFacts(t: Table, rrep: Rrep, activeRouteTimeout: Time, now: Time)
    requires KeyedByDst(t)
    ensures OnlyOldFacts(t, Forwarded(t, rrep, activeRouteTimeout, now))
    ensures KeyedByDst(Forwarded(t, rrep, activeRouteTimeout, now))
  {
    hide Noted;
    if rrep.origin in t && !t[rrep.origin].flag.InSearch? {
      var toOrigin := t[rrep.origin].(lifeTime := Max(activeRouteTimeout, LifeTime(t[rrep.origin], now)) + now);
      UpdateKeepsFacts(t, t, toOrigin);
      var t1 := Updated(t, toOrigin);
      if rrep.dst in t1 && t1[rrep.dst].flag.ValidRoute? {
        NotedKeepsFacts(t1, rrep.dst, toOrigin, now);
      }
    }
  }

  // Whatever a reply says, a route that was valid with a valid sequence number before it and is so after it
  // has a fresher number, or the same number and no more hops.
  lemma ReplyImproves(t: Table, rrep: Rrep, iface: Address, sender: Address, own: set<Address>,
                      activeRouteTimeout: Time, now: Time, k: Address)
    requires KeyedByDst(t)
    requires Trusted(t, k) && Trusted(ReplyEffect(t, rrep, iface, sender, own, activeRouteTimeout, now), k)
    ensures Improves(t[k], ReplyEffect(t, rrep, iface, sender, own, activeRouteTimeout, now)[k])
  {
    hide Forwarded, Fresher;
    var stored := Stored(t, EntryOf(rrep, iface, sender, now), rrep);
    ForwardedKeepsFacts(stored, rrep, activeRouteTimeout, now);
  }

  // ---------- runs of replies ----------

  // Every message, of whatever kind, first gives a route to the neighbour it comes from; a reply is then handled.
  datatype Event =
    | MessageEvent(iface: Address, sender: Address, now: Time)
    | ReplyEvent(rrep: Rrep, iface: Address, sender: Address, now: Time)

  datatype Config = Config(own: set<Address>, activeRouteTimeout: Time, bad: Time)

  // A reply about its own originator is ignored before the table is touched.
  function Received(t: Table, c: Config, e: Event): Table {
    match e
    case MessageEvent(iface, sender, now) => RouteByMessage(t, sender, iface, c.activeRouteTimeout, c.bad, now)
    case ReplyEvent(rrep, iface, sender, now) =>
      if rrep.dst == rrep.origin then t
      else ReplyEffect(Purged(t, c.bad, now), rrep, iface, sender, c.own, c.activeRouteTimeout, now)
  }

  function Run(t: Table, c: Config, events: seq<Event>): Table
    decreases |events|
  {
    if events == [] then t else Run(Received(t, c, events[0]), c, events[1..])
  }

  // The route to k is valid, with a valid sequence number, all along the run.
  ghost predicate StaysTrusted(t: Table, c: Config, events: seq<Event>, k: Address)
    decreases |events|
  {
    && Trusted(t, k)
    && (events != [] && LooksUp(events[0]) ==> Trusted(Purged(t, c.bad, events[0].now), k))
    && (events != [] ==> StaysTrusted(Received(t, c, events[0]), c, events[1..], k))
  }

  predicate LooksUp(e: Event) {
    e.ReplyEvent? ==> e.rrep.dst != e.rrep.origin
  }

  function NumberOf(t: Table, k: Address): U32 {
    if k in t then t[k].seqNo else 0
  }

  // How far the sequence number of k advances in all.
  ghost function Advance(t: Table, c: Config, events: seq<Event>, k: Address): nat
    requires StaysTrusted(t, c, events, k)
    decreases |events|
  {
    if events == [] then 0 else
      var next := Received(t, c, events[0]);
      Ahead(NumberOf(next, k), NumberOf(t, k)) + Advance(next, c, events[1..], k)
  }

  lemma ReceivedKeyed(t: Table, c: Config, e: Event)
    requires KeyedByDst(t)
    ensures KeyedByDst(Received(t, c, e))
  {
    hide Forwarded, Fresher;
    if e.ReplyEvent? {
      var p := Purged(t, c.bad, e.now);
      var stored := Stored(p, EntryOf(e.rrep, e.iface, e.sender, e.now), e.rrep);
      ForwardedKeepsFacts(stored, e.rrep, c.activeRouteTimeout, e.now);
    }
  }

  // The route to a neighbour is replaced by one without a valid number, or not at all.
  lemma MessageKeepsFacts(t: Table, c: Config, e: Event, k: Address)
    requires e.MessageEvent? && KeyedByDst(t) && Trusted(t, k) && Trusted(Received(t, c, e), k)
    requires Trusted(Purged(t, c.bad, e.now), k)
    ensures Received(t, c, e)[k].seqNo == t[k].seqNo && Received(t, c, e)[k].hops == t[k].hops
  {
  }

  lemma ReceivedImproves(t: Table, c: Config, e: Event, k: Address)
    requires KeyedByDst(t) && Trusted(t, k) && Trusted(Received(t, c, e), k)
    requires LooksUp(e) ==> Trusted(Purged(t, c.bad, e.now), k)
    ensures Improves(t[k], Received(t, c, e)[k])
    ensures Ahead(Received(t, c, e)[k].seqNo, t[k].seqNo) < HALF
  {
    hide ReplyEffect, RouteByMessage;
    var p := Purged(t, c.bad, e.now);
    if e.MessageEvent? {
      MessageKeepsFacts(t, c, e, k);
    } else if LooksUp(e) {
      assert p[k] == t[k];
      ReplyImproves(p, e.rrep, e.iface, e.sender, c.own, c.activeRouteTimeout, e.now, k);
    }
    AheadBack(t[k].seqNo, Received(t, c, e)[k].seqNo);
  }

  lemma WrapTwice(s: U32, x: nat, y: nat)
    ensures ((s as int + x) % MODULUS + y) % MODULUS == (s as int + x + y) % MODULUS
  {
  }

  // Over a whole run of messages the number only moves forward, by the sum of the steps, and while it does not move the
  // hop count never grows.
  lemma {:induction false} RunMovesForward(t: Table, c: Config, events: seq<Event>, k: Address)
    requires KeyedByDst(t) && StaysTrusted(t, c, events, k)
    ensures k in Run(t, c, events)
    ensures var r, r', advance := t[k], Run(t, c, events)[k], Advance(t, c, events, k);
            && r'.seqNo as int == (r.seqNo as int + advance) % MODULUS
            && (advance == 0 ==> r'.seqNo == r.seqNo && r'.hops <= r.hops)
    decreases |events|
  {
    hide Received, Purged, Improves;
    if events != [] {
      var next := Received(t, c, events[0]);
      ReceivedKeyed(t, c, events[0]);
      ReceivedImproves(t, c, events[0], k);
      RunMovesForward(next, c, events[1..], k);
      StepForward(t[k], next[k], Advance(next, c, events[1..], k), Run(t, c, events)[k]);
    }
  }

  lemma StepForward(r: Route, m: Route, rest: nat, r': Route)
    requires Improves(r, m)
    requires r'.seqNo as int == (m.seqNo as int + rest) % MODULUS
    requires rest == 0 ==> r'.seqNo == m.seqNo && r'.hops <= m.hops
    ensures r'.seqNo as int == (r.seqNo as int + Ahead(m.seqNo, r.seqNo) + rest) % MODULUS
    ensures Ahead(m.seqNo, r.seqNo) + rest == 0 ==> r'.seqNo == r.seqNo && r'.hops <= r.hops
  {
    AheadBack(m.seqNo, r.seqNo);
    assert (r.seqNo as int + Ahead(m.seqNo, r.seqNo)) % MODULUS == m.seqNo;
    WrapTwice(r.seqNo, Ahead(m.seqNo, r.seqNo), rest);
  }

  // So, within half the number range, the route held at the end is never older than the one at the start.
  lemma RunNeverGoesBack(t: Table, c: Config, events: seq<Event>, k: Address)
    requires KeyedByDst(t) && StaysTrusted(t, c, events, k)
    requires Advance(t, c, events, k) < HALF
    ensures k in Run(t, c, events) && Improves(t[k], Run(t, c, events)[k])
  {
    hide Run, Advance;
    RunMovesForward(t, c, events, k);
    var r, r', advance := t[k], Run(t, c, events)[k], Advance(t, c, events, k);
    assert Ahead(r'.seqNo, r.seqNo) == advance by {
      AheadOfWrapped(r.seqNo, advance);
    }
  }

  lemma AheadOfWrapped(s: U32, advance: nat)
    requires advance < HALF
    ensures ((s as int + advance) % MODULUS - s as int) % MODULUS == advance
  {
  }

  // ---------- the handler ----------

  // No lookup at this instant changes the table.
  ghost predicate Settled(t: Table, now: Time) {
    forall k :: k in t ==> t[k].flag.InSearch? || LifeTime(t[k], now) >= 0
  }

  lemma SettledIsPurged(t: Table, bad: Time, now: Time)
    ensures Settled(t, now) ==> Purged(t, bad, now) == t
    ensures bad >= 0 ==> Settled(Purged(t, bad, now), now)
  {
  }

  class ReplyHandler {
    const table: RoutingTable
    var ownAddresses: set<Address>
    var activeRouteTimeout: Time

    constructor (table: RoutingTable, ownAddresses: set<Address>, activeRouteTimeout: Time)
      ensures this.table == table && this.ownAddresses == ownAddresses && this.activeRouteTimeout == activeRouteTimeout
    {
      this.table, this.ownAddresses, this.activeRouteTimeout := table, ownAddresses, activeRouteTimeout;
    }

    method RecvReply(rrep: Rrep, iface: Address, sender: Address, now: Time)
      requires table.badLinkLifetime >= 0 && KeyedByDst(table.entries)
      requires rrep.lifeTime >= 0 && now >= 0
      modifies table`entries
      ensures table.entries == Received(old(table.entries),
                                        Config(ownAddresses, activeRouteTimeout, table.badLinkLifetime),
                                        ReplyEvent(rrep, iface, sender, now))
    {
      hide Stored, Forwarded;
      if rrep.dst == rrep.origin {
        return;
      }
      SettledIsPurged(table.entries, table.badLinkLifetime, now);
      var newEntry := EntryOf(rrep, iface, sender, now);
      var found, toDst := table.LookupRoute(rrep.dst, now);
      ghost var t := table.entries;
      StoreReply(rrep, newEntry, found, toDst, now);
      if rrep.origin in ownAddresses {
        if found && toDst.flag == InSearch {
          var updated := table.Update(newEntry);
        }
        StoredSettled(t, newEntry, rrep, now);
        SettledIsPurged(table.entries, table.badLinkLifetime, now);
        var again, route := table.LookupRoute(rrep.dst, now);
        return;
      }
      StoredSettled(t, newEntry, rrep, now);
      Forward(rrep, now);
    }

    // The table update for the destination.
    method StoreReply(rrep: Rrep, newEntry: Route, found: bool, toDst: Route, now: Time)
      requires Settled(table.entries, now)
      requires newEntry.dst == rrep.dst && newEntry.hops == Hop(rrep) && newEntry.flag.ValidRoute? &&
               newEntry.reqCount == 0
      requires found <==> rrep.dst in table.entries
      requires found ==> toDst == table.entries[rrep.dst]
      modifies table`entries
      ensures table.entries == Stored(old(table.entries), newEntry, rrep)
    {
      SettledIsPurged(table.entries, table.badLinkLifetime, now);
      if found {
        if !toDst.validSeqNo {
          var updated := table.Update(newEntry);
        } else if Fresher(rrep.dstSeqNo, toDst.seqNo) {
          var updated := table.Update(newEntry);
        } else {
          if rrep.dstSeqNo == toDst.seqNo && toDst.flag != ValidRoute {
            var updated := table.Update(newEntry);
          } else if rrep.dstSeqNo == toDst.seqNo && newEntry.hops < toDst.hops {
            var updated := table.Update(newEntry);
          }
        }
      } else {
        var added := table.AddRoute(newEntry, now);
      }
    }

    // The rest of the handler at a node that only relays the reply.
    method Forward(rrep: Rrep, now: Time)
      requires Settled(table.entries, now) && KeyedByDst(table.entries) && now >= 0
      modifies table`entries
      ensures table.entries == Forwarded(old(table.entries), rrep, activeRouteTimeout, now)
    {
      hide Noted;
      SettledIsPurged(table.entries, table.badLinkLifetime, now);
      var found, toOrigin := table.LookupRoute(rrep.origin, now);
      if !found || toOrigin.flag == InSearch {
        return;
      }
      toOrigin := toOrigin.(lifeTime := Max(activeRouteTimeout, LifeTime(toOrigin, now)) + now);
      UpdatedSettled(table.entries, toOrigin, now);
      var updated := table.Update(toOrigin);
      SettledIsPurged(table.entries, table.badLinkLifetime, now);
      var valid, toDst := table.LookupValidRoute(rrep.dst, now);
      if valid {
        Note(toDst, toOrigin, now);
      }
    }

    method Note(toDst: Route, toOrigin: Route, now: Time)
      requires Settled(table.entries, now) && KeyedByDst(table.entries) && now >= 0
      requires toDst.dst in table.entries && toDst == table.entries[toDst.dst]
      requires LifeTime(toOrigin, now) >= 0
      modifies table`entries
      ensures table.entries == Noted(old(table.entries), toDst.dst, toOrigin, now)
    {
      hide Updated;
      var dst := WithPrecursor(toDst, toOrigin.nextHop);
      WriteBack(dst, now);
      var toNextHopToDst := Fetch(dst.nextHop, now);
      WriteBack(WithPrecursor(toNextHopToDst, toOrigin.nextHop), now);
      var origin := WithPrecursor(toOrigin, dst.nextHop);
      WriteBack(origin, now);
      var toNextHopToOrigin := Fetch(origin.nextHop, now);
      WriteBack(WithPrecursor(toNextHopToOrigin, dst.nextHop), now);
    }

    method Fetch(a: Address, now: Time) returns (r: Route)
      requires Settled(table.entries, now) && now >= 0
      modifies table`entries
      ensures table.entries == old(table.entries) && r == Get(table.entries, a, now)
      ensures r.flag.InSearch? || LifeTime(r, now) >= 0
    {
      SettledIsPurged(table.entries, table.badLinkLifetime, now);
      var found: bool;
      found, r := table.LookupRoute(a, now);
    }

    method WriteBack(r: Route, now: Time)
      requires Settled(table.entries, now) && (r.flag.InSearch? || LifeTime(r, now) >= 0)
      modifies table`entries
      ensures table.entries == Updated(old(table.entries), r) && Settled(table.entries, now)
    {
      UpdatedSettled(table.entries, r, now);
      var updated := table.Update(r);
    }
  }

  lemma UpdatedSettled(t: Table, r: Route, now: Time)
    requires Settled(t, now) && (r.flag.InSearch? || LifeTime(r, now) >= 0)
    ensures Settled(Updated(t, r), now)
  {
  }

  lemma StoredSettled(t: Table, entry: Route, rrep: Rrep, now: Time)
    requires Settled(t, now) && LifeTime(entry, now) >= 0 && KeyedByDst(t) && entry.dst == rrep.dst
    ensures Settled(Stored(t, entry, rrep), now) && KeyedByDst(Stored(t, entry, rrep))
    ensures Settled(Stored(t, entry, rrep)[rrep.dst := entry], now)
    ensures rrep.dst in Stored(t, entry, rrep)
  {
  }
}
