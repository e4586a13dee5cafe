/** Route discovery: sending, retrying and giving up on route requests. */
module Discovery {
  import opened Types
  import opened Lists
  import opened RoutingTables
  import RouteMemory
  import opened RequestQueues

  // The part of a node that takes part in discovery. timers holds, for each destination sought, when its
  // retry timer fires; requests and deferred record the requests broadcast and put off, and forwarded the packets sent
  // from the queue.
  datatype DiscoveryState = DiscoveryState(
    table: Table,
    queue: QueueState,
    timers: map<Address, Time>,
    rreqCount: U16,
    requests: seq<Address>,
    deferred: seq<Address>,
    forwarded: seq<QueueEntry>)

  datatype Config = Config(rreqRetries: U32, rreqRateLimit: U16, netTraversalTime: Time, bad: Time)

  // ---------- effects on values ----------

  function NewSearch(dst: Address, now: Time): Route {
    NewRoute(dst, false, 0, UNSET_ADDRESS, 0, UNSET_ADDRESS, 0, now).(flag := InSearch)
  }

  // The table once the destination is being searched for.
  function Searching(t: Table, bad: Time, dst: Address, now: Time): Table {
    var p := RoutingTables.Purged(t, bad, now);
    p[dst := if dst in p then p[dst].(flag := InSearch) else NewSearch(dst, now)]
  }

  // ScheduleRreqRetry: one more request counted, in eight bits, and the timer set in proportion.
  function Scheduled(s: DiscoveryState, c: Config, dst: Address, now: Time): DiscoveryState
    requires dst in s.table
  {
    var rt := s.table[dst].(reqCount := (s.table[dst].reqCount as nat + 1) % 0x100);
    s.(table := s.table[dst := rt], timers := s.timers[dst := now + rt.reqCount * c.netTraversalTime])
  }

  function Requested(s: DiscoveryState, c: Config, dst: Address, now: Time): DiscoveryState {
    if s.rreqCount == c.rreqRateLimit then s.(deferred := s.deferred + [dst])
    else
      Scheduled(s.(rreqCount := (s.rreqCount as nat + 1) % 0x1_0000,
                   table := Searching(s.table, c.bad, dst, now),
                   requests := s.requests + [dst]), c, dst, now)
  }

  function GivenUp(s: DiscoveryState, dst: Address, now: Time): DiscoveryState {
    s.(timers := s.timers - {dst}, table := s.table - {dst}, queue := DroppedFor(s.queue, dst, now))
  }

  function Expired(s: DiscoveryState, c: Config, dst: Address, routeOif: int, now: Time): DiscoveryState {
    var t := RoutingTables.Purged(s.table, c.bad, now);
    var p := s.(table := t);
    var toDst := if dst in t then t[dst] else DefaultRoute(now);
    if dst in t && toDst.flag.ValidRoute? then
      var q := RequestQueues.Purged(s.queue, now);
      var r := Sent(q.queue, dst, routeOif);
      p.(queue := q.(queue := r.left), forwarded := s.forwarded + r.forwarded)
    else if toDst.reqCount as nat == c.rreqRetries then GivenUp(p, dst, now)
    else if toDst.flag.InSearch? then Requested(p, c, dst, now)
    else GivenUp(p, dst, now)
  }

  // ---------- the methods ----------

  class RouteDiscovery {
    const table: RoutingTable
    const queue: RequestQueue
    var timers: map<Address, Time>
    var rreqCount: U16
    var rreqRetries: U32
    var rreqRateLimit: U16
    var netTraversalTime: Time
    ghost var requests: seq<Address>
    ghost var deferred: seq<Address>
    ghost var forwarded: seq<QueueEntry>

    constructor (table: RoutingTable, queue: RequestQueue, rreqRetries: U32, rreqRateLimit: U16, netTraversalTime: Time)
      ensures this.table == table && this.queue == queue
      ensures State() == DiscoveryState(table.entries, queue.State(), map[], 0, [], [], [])
      ensures Parameters() == Config(rreqRetries, rreqRateLimit, netTraversalTime, table.badLinkLifetime)
    {
      this.table, this.queue := table, queue;
      timers, rreqCount := map[], 0;
      this.rreqRetries, this.rreqRateLimit, this.netTraversalTime := rreqRetries, rreqRateLimit, netTraversalTime;
      requests, deferred, forwarded := [], [], [];
    }

    ghost function State(): DiscoveryState
      reads this, table, queue
    {
      DiscoveryState(table.entries, queue.State(), timers, rreqCount, requests, deferred, forwarded)
    }

    ghost function Parameters(): Config
      reads this, table
    {
      Config(rreqRetries, rreqRateLimit, netTraversalTime, table.badLinkLifetime)
    }

    ghost predicate Valid()
      reads this, table
    {
      table.badLinkLifetime >= 0 && RouteMemory.WellKept(table.entries)
    }

    // Beyond the rate limit the request is put off.
    method SendRequest(dst: Address, now: Time)
      requires Valid()
      modifies this`rreqCount, this`requests, this`deferred, this`timers, table`entries
      ensures State() == Requested(old(State()), old(Parameters()), dst, now)
      ensures Valid() && Parameters() == old(Parameters())
    {
      hide RoutingTables.Purged;
      if rreqCount == rreqRateLimit {
        deferred := deferred + [dst];
        return;
      }
      rreqCount := (rreqCount as nat + 1) % 0x1_0000;
      StartSearch(dst, now);
      requests := requests + [dst];
      ScheduleRreqRetry(dst, now);
    }

    // The table update of SendRequest.
    method StartSearch(dst: Address, now: Time)
      requires Valid()
      modifies table`entries
      ensures table.entries == Searching(old(table.entries), table.badLinkLifetime, dst, now)
      ensures Valid() && dst in table.entries && table.entries[dst].flag.InSearch?
      ensures RoutingTables.Purged(table.entries, table.badLinkLifetime, now) == table.entries
    {
      SearchingSettled(table.entries, table.badLinkLifetime, dst, now);
      var found, rt := table.LookupRoute(dst, now);
      if found {
        rt := rt.(flag := InSearch);
        var updated := table.Update(rt);
      } else {
        var newEntry := NewRoute(dst, false, 0, UNSET_ADDRESS, 0, UNSET_ADDRESS, 0, now);
        newEntry := newEntry.(flag := InSearch);
        RouteMemory.PurgedTwice(old(table.entries), table.badLinkLifetime, now);
        var added := table.AddRoute(newEntry, now);
      }
    }

    method ScheduleRreqRetry(dst: Address, now: Time)
      requires Valid() && dst in table.entries && table.entries[dst].flag.InSearch?
      requires RoutingTables.Purged(table.entries, table.badLinkLifetime, now) == table.entries
      modifies this`timers, table`entries
      ensures State() == Scheduled(old(State()), old(Parameters()), dst, now)
      ensures Valid()
    {
      hide RoutingTables.Purged;
      var found, rt := table.LookupRoute(dst, now);
      rt := rt.(reqCount := (rt.reqCount as nat + 1) % 0x100);
      var updated := table.Update(rt);
      timers := timers[dst := now + rt.reqCount * netTraversalTime];
    }

    method RouteRequestTimerExpire(dst: Address, routeOif: int, now: Time)
      requires Valid()
      modifies this`rreqCount, this`requests, this`deferred, this`timers, this`forwarded, table`entries,
               queue`queue, queue`dropped
      ensures State() == Expired(old(State()), old(Parameters()), dst, routeOif, now)
      ensures Valid()
    {
      hide Searching, Sent, DroppedFor, Scheduled;
      RouteMemory.PurgedTwice(table.entries, table.badLinkLifetime, now);
      var valid, toDst := table.LookupValidRoute(dst, now);
      hide RoutingTables.Purged;
      if valid {
        ghost var sent := queue.SendPacketFromQueue(dst, routeOif, now);
        forwarded := forwarded + sent;
        return;
      }
      if toDst.reqCount as nat == rreqRetries {
        GiveUp(dst, now);
        return;
      }
      if toDst.flag == InSearch {
        SendRequest(dst, now);
      } else {
        GiveUp(dst, now);
      }
    }

    method GiveUp(dst: Address, now: Time)
      requires Valid() && RoutingTables.Purged(table.entries, table.badLinkLifetime, now) == table.entries
      modifies this`timers, table`entries, queue`queue, queue`dropped
      ensures State() == GivenUp(old(State()), dst, now)
      ensures Valid()
    {
      hide RoutingTables.Purged, DroppedFor;
      timers := timers - {dst};
      var deleted := table.DeleteRoute(dst, now);
      queue.DropPacketWithDst(dst, now);
    }

    method RreqRateLimitTimerExpire()
      modifies this`rreqCount
      ensures State() == old(State()).(rreqCount := 0)
    {
      rreqCount := 0;
    }
  }

  lemma SearchingSettled(t: Table, bad: Time, dst: Address, now: Time)
    requires bad >= 0 && RouteMemory.WellKept(t)
    ensures var u := Searching(t, bad, dst, now);
            RoutingTables.Purged(u, bad, now) == u && RouteMemory.WellKept(u)
  {
    RouteMemory.PurgedTwice(t, bad, now);
    var p := RoutingTables.Purged(t, bad, now);
    assert RouteMemory.WellKept(p);
    SearchingAt(p, bad, dst, now);
    hide RoutingTables.Purged;
  }

  lemma SearchingAt(p: Table, bad: Time, dst: Address, now: Time)
    requires RoutingTables.Purged(p, bad, now) == p && RouteMemory.WellKept(p)
    ensures var u := p[dst := if dst in p then p[dst].(flag := InSearch) else NewSearch(dst, now)];
            RoutingTables.Purged(u, bad, now) == u && RouteMemory.WellKept(u)
  {
    assert forall k :: k in p ==> !RoutingTables.Deletable(p[k], now) && RoutingTables.Aged(p[k], bad, now) == p[k];
  }

  // ---------- one discovery ----------

  // dst is being searched for, with count requests counted.
  ghost predicate Seeking(s: DiscoveryState, dst: Address, count: nat) {
    dst in s.table && s.table[dst].flag.InSearch? && s.table[dst].reqCount as nat == count && dst in s.timers
  }

  // The search is over: no route, no timer, nothing queued for the destination.
  ghost predicate Over(s: DiscoveryState, dst: Address) {
    dst !in s.table && dst !in s.timers && forall e :: e in s.queue.queue ==> e.dst != dst
  }

  // The first request of a discovery, with no request counted for the destination.
  lemma FirstRequest(s: DiscoveryState, c: Config, dst: Address, now: Time)
    requires s.rreqCount != c.rreqRateLimit && c.bad >= 0 && RouteMemory.WellKept(s.table)
    requires dst in s.table ==> !s.table[dst].flag.InSearch?
    ensures var r := Requested(s, c, dst, now);
            Seeking(r, dst, 1) && r.timers[dst] == now + c.netTraversalTime && r.requests == s.requests + [dst]
  {
    var p := RoutingTables.Purged(s.table, c.bad, now);
    assert dst in p ==> p[dst].reqCount == 0;
  }

  // The timer of a search fires: the search ends when the count has reached the limit, and otherwise one
  // more request goes out and the next wait is longer in proportion.
  lemma TimerFires(s: DiscoveryState, c: Config, dst: Address, routeOif: int, now: Time, count: nat)
    requires Seeking(s, dst, count) && s.rreqCount != c.rreqRateLimit
    ensures var r := Expired(s, c, dst, routeOif, now);
            if count == c.rreqRetries then Over(r, dst) && r.requests == s.requests
            else
              var next := (count + 1) % 0x100;
              Seeking(r, dst, next) && r.timers[dst] == now + next * c.netTraversalTime &&
                r.requests == s.requests + [dst]
  {
    hide Sent;
    var p := RoutingTables.Purged(s.table, c.bad, now);
    assert dst in p && p[dst] == s.table[dst];
    assert RoutingTables.Purged(p, c.bad, now)[dst] == s.table[dst];
  }

  // If a route has been found, the timer sends what waits for the destination, in order of arrival, and leaves the
  // rest of the node as it is: everything goes out exactly if no packet is tagged for another interface, and the
  // packets for other destinations stay.
  lemma TimerFindsRoute(s: DiscoveryState, c: Config, dst: Address, routeOif: int, now: Time)
    requires var p := RoutingTables.Purged(s.table, c.bad, now); dst in p && p[dst].flag.ValidRoute?
    ensures var r := Expired(s, c, dst, routeOif, now);
            var q := RequestQueues.Purged(s.queue, now).queue;
            && r.table == RoutingTables.Purged(s.table, c.bad, now)
            && r.timers == s.timers && r.requests == s.requests && r.deferred == s.deferred &&
               r.rreqCount == s.rreqCount
            && s.forwarded <= r.forwarded && r.forwarded[|s.forwarded|..] <= Filter(q, For(dst))
            && (r.forwarded[|s.forwarded|..] == Filter(q, For(dst)) <==>
                forall e :: e in q && e.dst == dst ==> e.oif.None? || e.oif.value == -1 || e.oif.value == routeOif)
            && Filter(r.queue.queue, NotFor(dst)) == Filter(q, NotFor(dst))
  {
    hide Sent, Filter, RoutingTables.Purged;
    var q := RequestQueues.Purged(s.queue, now).queue;
    SentInOrder(q, dst, routeOif);
    var r := Expired(s, c, dst, routeOif, now);
    assert r.forwarded[|s.forwarded|..] == Sent(q, dst, routeOif).forwarded;
  }

  // A search that is given up deletes no route but that of its destination, and reports no packet of another
  // destination before its time.
  lemma GivingUpTouchesNoOther(s: DiscoveryState, c: Config, dst: Address, routeOif: int, now: Time)
    requires Seeking(s, dst, c.rreqRetries as nat)
    ensures var r := Expired(s, c, dst, routeOif, now);
            && r.table == RoutingTables.Purged(s.table, c.bad, now) - {dst}
            && r.timers == s.timers - {dst} && r.forwarded == s.forwarded && r.rreqCount == s.rreqCount
            && (forall e :: e in r.queue.queue <==> e in s.queue.queue && e.expire >= now && e.dst != dst)
            && Reports(s.queue, r.queue, (e: QueueEntry) => e.expire < now || e.dst == dst)
  {
    hide DroppedFor, Sent, Reports;
    DropReports(s.queue, dst, now);
    var p := RoutingTables.Purged(s.table, c.bad, now);
    assert dst in p && p[dst] == s.table[dst];
  }

  // A request that is sent touches no other route, timer or packet.
  lemma RequestTouchesNoOther(s: DiscoveryState, c: Config, dst: Address, now: Time)
    ensures var r := Requested(s, c, dst, now);
            && r.queue == s.queue && r.forwarded == s.forwarded
            && (s.rreqCount == c.rreqRateLimit ==> r == s.(deferred := s.deferred + [dst]))
            && (s.rreqCount != c.rreqRateLimit ==>
                 var p := RoutingTables.Purged(s.table, c.bad, now);
                 && r.table.Keys == p.Keys + {dst} && (forall k :: k in p && k != dst ==> r.table[k] == p[k])
                 && r.timers.Keys == s.timers.Keys + {dst}
                 && (forall k :: k in s.timers && k != dst ==> r.timers[k] == s.timers[k]))
  {
    hide RoutingTables.Purged;
  }

  // Whatever else happens between two firings, it is no reply for dst: the entry and the timer stay, and the
  // rate limit is not met when the timer fires.
  ghost predicate Undisturbed(s: DiscoveryState, s': DiscoveryState, c: Config, dst: Address) {
    && dst in s.table && dst in s'.table && s'.table[dst] == s.table[dst]
    && dst in s.timers && dst in s'.timers && s'.timers[dst] == s.timers[dst]
    && s'.rreqCount != c.rreqRateLimit
  }

  // rounds[i] is the state in which the timer fires for the i-th time after first.
  ghost predicate IsDiscovery(first: DiscoveryState, rounds: seq<DiscoveryState>, c: Config, dst: Address,
                              routeOif: int)
    decreases |rounds|
  {
    rounds != [] ==>
      && Undisturbed(first, rounds[0], c, dst)
      && IsDiscovery(Expired(rounds[0], c, dst, routeOif, rounds[0].timers[dst]), rounds[1..], c, dst, routeOif)
  }

  // The waits after requests from+1, .., from+n, as counted in eight bits.
  function Waits(from: nat, n: nat): nat
    decreases n
  {
    if n == 0 then 0 else (from + 1) % 0x100 + Waits(from + 1, n - 1)
  }

  // The i-th firing finds i + 1 more requests counted, in eight bits, and comes after the waits for them.
  lemma {:induction false} RoundOfDiscovery(first: DiscoveryState, rounds: seq<DiscoveryState>, c: Config, dst: Address,
                                            routeOif: int, from: nat, start: Time, i: nat)
    requires i < |rounds| && IsDiscovery(first, rounds, c, dst, routeOif)
    requires Seeking(first, dst, (from + 1) % 0x100) &&
             first.timers[dst] == start + ((from + 1) % 0x100) * c.netTraversalTime
    ensures Seeking(rounds[i], dst, (from + i + 1) % 0x100) && rounds[i].rreqCount != c.rreqRateLimit
    ensures rounds[i].timers[dst] == start + Waits(from, i + 1) * c.netTraversalTime
    decreases i
  {
    hide Expired;
    var s := rounds[0];
    assert Waits(from, 1) == (from + 1) % 0x100;
    if i > 0 {
      var at := s.timers[dst];
      var next := Expired(s, c, dst, routeOif, at);
      TimerFires(s, c, dst, routeOif, at, (from + 1) % 0x100);
      assert dst in next.table;
      NextCount(from);
      RoundOfDiscovery(next, rounds[1..], c, dst, routeOif, from + 1, at, i - 1);
      WaitsAddUp(start, (from + 1) % 0x100, Waits(from + 1, i), c.netTraversalTime);
    }
  }

  lemma NextCount(from: nat)
    ensures ((from + 1) % 0x100 + 1) % 0x100 == (from + 2) % 0x100
  {
  }

  lemma WaitsAddUp(start: Time, a: nat, b: nat, unit: Time)
    ensures start + a * unit + b * unit == start + (a + b) * unit
  {
  }

  lemma {:induction false} WaitsSum(from: nat, n: nat)
    requires from + n < 0x100
    ensures 2 * Waits(from, n) == n * (2 * from + n + 1)
    decreases n
  {
    if n > 0 {
      WaitsSum(from + 1, n - 1);
      assert (from + 1) % 0x100 == from + 1;
      var b := 2 * from + n + 1;
      assert 2 * (from + 1) + (n - 1) + 1 == b + 1;
      assert (n - 1) * (b + 1) == n * b + n - b - 1;
    }
  }

  // How many requests a discovery makes before it gives up, when it does.
  function Bound(rreqRetries: U32): nat {
    if rreqRetries == 0 then 0x100 else rreqRetries
  }

  // After a round that ends the search there is no next one.
  lemma {:induction false} NoRoundAfterTheLast(first: DiscoveryState, rounds: seq<DiscoveryState>, c: Config,
                                               dst: Address, routeOif: int, i: nat)
    requires IsDiscovery(first, rounds, c, dst, routeOif) && i < |rounds|
    requires dst in rounds[i].timers && dst !in Expired(rounds[i], c, dst, routeOif, rounds[i].timers[dst]).table
    ensures |rounds| == i + 1
    decreases i
  {
    hide Expired;
    if i > 0 {
      NoRoundAfterTheLast(Expired(rounds[0], c, dst, routeOif, rounds[0].timers[dst]), rounds[1..], c, dst, routeOif,
                          i - 1);
    }
  }

  lemma AllRounds(s: DiscoveryState, c: Config, dst: Address, routeOif: int, start: Time, rounds: seq<DiscoveryState>)
    requires s.rreqCount != c.rreqRateLimit && c.bad >= 0 && RouteMemory.WellKept(s.table)
    requires dst in s.table ==> !s.table[dst].flag.InSearch?
    requires IsDiscovery(Requested(s, c, dst, start), rounds, c, dst, routeOif)
    ensures forall i :: 0 <= i < |rounds| ==>
      && Seeking(rounds[i], dst, (i + 1) % 0x100) && rounds[i].rreqCount != c.rreqRateLimit
      && rounds[i].timers[dst] == start + Waits(0, i + 1) * c.netTraversalTime
  {
    hide Requested, Expired, IsDiscovery;
    FirstRequest(s, c, dst, start);
    forall i | 0 <= i < |rounds|
      ensures Seeking(rounds[i], dst, (i + 1) % 0x100) && rounds[i].rreqCount != c.rreqRateLimit
      ensures rounds[i].timers[dst] == start + Waits(0, i + 1) * c.netTraversalTime
    {
      RoundOfDiscovery(Requested(s, c, dst, start), rounds, c, dst, routeOif, 0, start, i);
    }
  }

  // The firing in state s either ends the search or sends one more request.
  ghost predicate RoundOutcome(s: DiscoveryState, c: Config, dst: Address, routeOif: int, last: bool) {
    && dst in s.timers
    && var after := Expired(s, c, dst, routeOif, s.timers[dst]);
       if last then Over(after, dst) && after.requests == s.requests else after.requests == s.requests + [dst]
  }

  lemma Scaled(w: nat, r: nat, unit: Time)
    requires 2 * w == r * (r + 1)
    ensures 2 * (w * unit) == r * (r + 1) * unit
  {
    assert 2 * (w * unit) == (2 * w) * unit;
  }

  // A discovery without a reply makes RreqRetries requests: its timer fires no more than R times, and every
  // firing but the R-th sends one request. With RreqRetries 0 the eight-bit count makes it 256 requests instead.
  lemma DiscoveryBound(s: DiscoveryState, c: Config, dst: Address, routeOif: int, start: Time,
                       rounds: seq<DiscoveryState>)
    requires s.rreqCount != c.rreqRateLimit && c.bad >= 0 && RouteMemory.WellKept(s.table)
    requires dst in s.table ==> !s.table[dst].flag.InSearch?
    requires c.rreqRetries <= 255
    requires IsDiscovery(Requested(s, c, dst, start), rounds, c, dst, routeOif)
    ensures |rounds| <= Bound(c.rreqRetries)
    ensures forall i :: 0 <= i < |rounds| ==> RoundOutcome(rounds[i], c, dst, routeOif, i + 1 == Bound(c.rreqRetries))
  {
    hide Requested, Expired, IsDiscovery;
    AllRounds(s, c, dst, routeOif, start, rounds);
    var bound := Bound(c.rreqRetries);
    forall i | 0 <= i < |rounds| && i < bound
      ensures RoundOutcome(rounds[i], c, dst, routeOif, i + 1 == bound)
    {
      TimerFires(rounds[i], c, dst, routeOif, rounds[i].timers[dst], (i + 1) % 0x100);
    }
    if |rounds| >= bound {
      assert RoundOutcome(rounds[bound - 1], c, dst, routeOif, true);
      NoRoundAfterTheLast(Requested(s, c, dst, start), rounds, c, dst, routeOif, bound - 1);
    }
  }

  // The last firing comes NetTraversalTime * R * (R + 1) / 2 after the first request.
  lemma DiscoveryWait(s: DiscoveryState, c: Config, dst: Address, routeOif: int, start: Time,
                      rounds: seq<DiscoveryState>)
    requires s.rreqCount != c.rreqRateLimit && c.bad >= 0 && RouteMemory.WellKept(s.table)
    requires dst in s.table ==> !s.table[dst].flag.InSearch?
    requires 1 <= c.rreqRetries <= 255 && |rounds| == c.rreqRetries
    requires IsDiscovery(Requested(s, c, dst, start), rounds, c, dst, routeOif)
    ensures var last := rounds[|rounds| - 1];
            && dst in last.timers
            && 2 * (last.timers[dst] - start) == c.rreqRetries * (c.rreqRetries + 1) * c.netTraversalTime
  {
    hide Requested, Expired, IsDiscovery;
    AllRounds(s, c, dst, routeOif, start, rounds);
    WaitsSum(0, |rounds|);
    Scaled(Waits(0, |rounds|), |rounds|, c.netTraversalTime);
  }

  // The search is given up at the end of a run of firings exactly when RreqRetries fits the eight-bit count
  // and that many requests have been made; with a larger RreqRetries it is never given up.
  lemma GivesUpIff(s: DiscoveryState, c: Config, dst: Address, routeOif: int, start: Time, rounds: seq<DiscoveryState>)
    requires s.rreqCount != c.rreqRateLimit && c.bad >= 0 && RouteMemory.WellKept(s.table)
    requires dst in s.table ==> !s.table[dst].flag.InSearch?
    requires IsDiscovery(Requested(s, c, dst, start), rounds, c, dst, routeOif)
    ensures rounds != [] ==>
              var last := rounds[|rounds| - 1];
              && dst in last.timers
              && (Over(Expired(last, c, dst, routeOif, last.timers[dst]), dst) <==>
                  c.rreqRetries <= 255 && |rounds| == Bound(c.rreqRetries))
  {
    hide Requested, Expired, IsDiscovery;
    AllRounds(s, c, dst, routeOif, start, rounds);
    if c.rreqRetries <= 255 {
      DiscoveryBound(s, c, dst, routeOif, start, rounds);
    }
    if rounds != [] {
      var last := rounds[|rounds| - 1];
      TimerFires(last, c, dst, routeOif, last.timers[dst], |rounds| % 0x100);
    }
  }

  // ---------- discoveries exist ----------

  // n more rounds, in each of which the rate limit is reset and nothing else happens before the timer fires.
  lemma {:induction false} SomeRounds(first: DiscoveryState, c: Config, dst: Address, routeOif: int, from: nat, n: nat)
    returns (rounds: seq<DiscoveryState>)
    requires c.rreqRetries <= 255 && c.rreqRateLimit != 0 && n > 0 && from + n == Bound(c.rreqRetries)
    requires Seeking(first, dst, (from + 1) % 0x100)
    ensures |rounds| == n && IsDiscovery(first, rounds, c, dst, routeOif)
    ensures NoOtherRequests(first, rounds, c, dst, routeOif)
    decreases n
  {
    hide Expired;
    var s := first.(rreqCount := 0);
    if n == 1 {
      rounds := [s];
    } else {
      TimerFires(s, c, dst, routeOif, s.timers[dst], (from + 1) % 0x100);
      NextCount(from);
      var rest := SomeRounds(Expired(s, c, dst, routeOif, s.timers[dst]), c, dst, routeOif, from + 1, n - 1);
      rounds := [s] + rest;
      assert rounds[1..] == rest;
    }
  }

  // Every discovery that is not cut short can take its full number of rounds.
  lemma DiscoveryExists(s: DiscoveryState, c: Config, dst: Address, routeOif: int, start: Time)
    requires s.rreqCount != c.rreqRateLimit && c.bad >= 0 && RouteMemory.WellKept(s.table)
    requires dst in s.table ==> !s.table[dst].flag.InSearch?
    requires c.rreqRetries <= 255 && c.rreqRateLimit != 0
    ensures exists rounds :: FullDiscovery(Requested(s, c, dst, start), rounds, c, dst, routeOif)
  {
    hide Requested, IsDiscovery, NoOtherRequests;
    FirstRequest(s, c, dst, start);
    var first := Requested(s, c, dst, start);
    var rounds := SomeRounds(first, c, dst, routeOif, 0, Bound(c.rreqRetries));
    assert FullDiscovery(first, rounds, c, dst, routeOif);
  }

  ghost predicate FullDiscovery(first: DiscoveryState, rounds: seq<DiscoveryState>, c: Config, dst: Address,
                                routeOif: int) {
    && |rounds| == Bound(c.rreqRetries)
    && IsDiscovery(first, rounds, c, dst, routeOif) && NoOtherRequests(first, rounds, c, dst, routeOif)
  }

  // ---------- how many requests a discovery makes ----------

  function RequestsFor(s: DiscoveryState, dst: Address): nat {
    multiset(s.requests)[dst]
  }

  // Between two firings nothing else requests dst.
  ghost predicate NoOtherRequests(first: DiscoveryState, rounds: seq<DiscoveryState>, c: Config, dst: Address,
                                  routeOif: int)
    decreases |rounds|
  {
    rounds != [] ==>
      && RequestsFor(rounds[0], dst) == RequestsFor(first, dst) && dst in rounds[0].timers
      && NoOtherRequests(Expired(rounds[0], c, dst, routeOif, rounds[0].timers[dst]), rounds[1..], c, dst, routeOif)
  }

  lemma {:induction false} RequestsAddUp(first: DiscoveryState, rounds: seq<DiscoveryState>, c: Config, dst: Address,
                                         routeOif: int, count: nat)
    requires rounds != [] && IsDiscovery(first, rounds, c, dst, routeOif) &&
             NoOtherRequests(first, rounds, c, dst, routeOif)
    requires Seeking(first, dst, count)
    ensures var last := rounds[|rounds| - 1];
            && dst in last.timers
            && var after := Expired(last, c, dst, routeOif, last.timers[dst]);
               RequestsFor(after, dst) + (if Over(after, dst) then 1 else 0) == RequestsFor(first, dst) + |rounds|
    decreases |rounds|
  {
    hide Expired;
    var s := rounds[0];
    var next := Expired(s, c, dst, routeOif, s.timers[dst]);
    TimerFires(s, c, dst, routeOif, s.timers[dst], count);
    if |rounds| > 1 {
      assert dst in next.table;
      RequestsAddUp(next, rounds[1..], c, dst, routeOif, (count + 1) % 0x100);
    }
  }

  // A discovery whose timer has fired n times has made n + 1 requests, and no other after the firing that gives
  // it up: for RreqRetries from 1 to 255 that is RreqRetries requests in all.
  lemma DiscoveryRequests(s: DiscoveryState, c: Config, dst: Address, routeOif: int, start: Time,
                          rounds: seq<DiscoveryState>)
    requires s.rreqCount != c.rreqRateLimit && c.bad >= 0 && RouteMemory.WellKept(s.table)
    requires dst in s.table ==> !s.table[dst].flag.InSearch?
    requires var first := Requested(s, c, dst, start);
             rounds != [] && IsDiscovery(first, rounds, c, dst, routeOif) &&
               NoOtherRequests(first, rounds, c, dst, routeOif)
    ensures var last := rounds[|rounds| - 1];
            && dst in last.timers
            && RequestsFor(Expired(last, c, dst, routeOif, last.timers[dst]), dst) - RequestsFor(s, dst) ==
               if c.rreqRetries <= 255 && |rounds| == Bound(c.rreqRetries) then Bound(c.rreqRetries) else |rounds| + 1
  {
    hide Requested, Expired, IsDiscovery, NoOtherRequests;
    FirstRequest(s, c, dst, start);
    RequestsAddUp(Requested(s, c, dst, start), rounds, c, dst, routeOif, 1);
    GivesUpIff(s, c, dst, routeOif, start, rounds);
  }

  // ---------- the rate limit ----------

  datatype DiscoveryEvent =
    | RequestEvent(dst: Address, now: Time)
    | TimerEvent(dst: Address, routeOif: int, now: Time)
    | ResetEvent

  function Apply(s: DiscoveryState, c: Config, e: DiscoveryEvent): DiscoveryState {
    match e
    case RequestEvent(dst, now) => Requested(s, c, dst, now)
    case TimerEvent(dst, routeOif, now) => Expired(s, c, dst, routeOif, now)
    case ResetEvent => s.(rreqCount := 0)
  }

  function Run(s: DiscoveryState, c: Config, events: seq<DiscoveryEvent>): DiscoveryState
    decreases |events|
  {
    if events == [] then s else Run(Apply(s, c, events[0]), c, events[1..])
  }

  function Resets(events: seq<DiscoveryEvent>): nat {
    if events == [] then 0 else (if events[0].ResetEvent? then 1 else 0) + Resets(events[1..])
  }

  // The counter never exceeds a fixed limit, so between two resets no more requests go out than it allows.
  lemma {:induction false} RateIsLimited(s: DiscoveryState, c: Config, events: seq<DiscoveryEvent>)
    requires s.rreqCount <= c.rreqRateLimit
    ensures Run(s, c, events).rreqCount <= c.rreqRateLimit
    ensures |Run(s, c, events).requests| - |s.requests| <=
            (Resets(events) + 1) * c.rreqRateLimit as int - s.rreqCount
    decreases |events|
  {
    if events != [] {
      var next := Apply(s, c, events[0]);
      ApplyIsLimited(s, c, events[0]);
      RateIsLimited(next, c, events[1..]);
      OneMore(Resets(events[1..]), c.rreqRateLimit);
    }
  }

  lemma OneMore(n: nat, limit: nat)
    ensures (n + 1 + 1) * limit == (n + 1) * limit + limit
  {
  }

  lemma ApplyIsLimited(s: DiscoveryState, c: Config, e: DiscoveryEvent)
    requires s.rreqCount <= c.rreqRateLimit
    ensures Apply(s, c, e).rreqCount <= c.rreqRateLimit
    ensures e.ResetEvent? ==> Apply(s, c, e).rreqCount == 0 && Apply(s, c, e).requests == s.requests
    ensures !e.ResetEvent? ==>
      |Apply(s, c, e).requests| - |s.requests| == Apply(s, c, e).rreqCount as int - s.rreqCount as int
  {
    hide RoutingTables.Purged, DroppedFor, Sent;
  }
}
