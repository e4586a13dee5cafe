/** What the routing table keeps over whole runs of its operations. */
module RouteMemory {
  import opened Types
  import opened RoutingTables

  datatype TableOp =
    | LookupOp(id: Address)
    | AddOp(rt: Route)
    | ListViaOp(nextHop: Address)
    | InvalidateOp(unreachable: map<Address, U32>)
    | UpdateOp(rt: Route)
    | DeleteOp(dst: Address)
    | SetStateOp(id: Address, state: RouteFlag)
    | DeleteInterfaceOp(iface: Address)
    | BlacklistOp(neighbor: Address, timeout: Time)
    | ClearOp

  datatype TableEvent = TableEvent(at: Time, op: TableOp)

  function Apply(t: Table, bad: Time, e: TableEvent): Table {
    match e.op
    case LookupOp(_) => Purged(t, bad, e.at)
    case AddOp(rt) => Added(t, rt, bad, e.at)
    case ListViaOp(_) => Purged(t, bad, e.at)
    case InvalidateOp(unreachable) => Invalidated(Purged(t, bad, e.at), unreachable.Keys, bad, e.at)
    case UpdateOp(rt) => Updated(t, rt)
    case DeleteOp(dst) => Purged(t, bad, e.at) - {dst}
    case SetStateOp(id, state) => WithState(t, id, state)
    case DeleteInterfaceOp(iface) => WithoutInterface(t, iface)
    case BlacklistOp(neighbor, timeout) => Blacklisted(t, neighbor, timeout)
    case ClearOp => map[]
  }

  function Run(t: Table, bad: Time, events: seq<TableEvent>): Table
    decreases |events|
  {
    if events == [] then t else Run(Apply(t, bad, events[0]), bad, events[1..])
  }

  // ---------- purging ----------

  lemma PurgedTwice(t: Table, bad: Time, now: Time)
    requires bad >= 0
    ensures Purged(Purged(t, bad, now), bad, now) == Purged(t, bad, now)
  {
  }

  // Purging is idempotent at a fixed time exactly when invalid routes are kept for a non-negative time.
  lemma PurgeIdempotentIff(bad: Time, now: Time)
    ensures (forall t: Table :: Purged(Purged(t, bad, now), bad, now) == Purged(t, bad, now)) <==> bad >= 0
  {
    if bad >= 0 {
      forall t: Table
        ensures Purged(Purged(t, bad, now), bad, now) == Purged(t, bad, now)
      {
        PurgedTwice(t, bad, now);
      }
    } else {
      var stale := NewRoute(1, true, 1, 1, 1, 1, -1, now);
      var t: Table := map[1 := stale];
      assert 1 in Purged(t, bad, now) && 1 !in Purged(Purged(t, bad, now), bad, now);
    }
  }

  // ---------- table invariants ----------

  // Keys are destinations, and only an entry being searched for counts requests.
  ghost predicate WellKept(t: Table) {
    forall k :: k in t ==> t[k].dst == k && (t[k].flag.InSearch? || t[k].reqCount == 0)
  }

  lemma ApplyKeepsTableInvariant(t: Table, bad: Time, e: TableEvent)
    requires WellKept(t)
    ensures WellKept(Apply(t, bad, e))
  {
    assert WellKept(Purged(t, bad, e.at));
    match e.op
    case LookupOp(_) =>
    case AddOp(rt) =>
    case ListViaOp(_) =>
    case InvalidateOp(unreachable) =>
    case UpdateOp(rt) =>
    case DeleteOp(dst) =>
    case SetStateOp(id, state) =>
    case DeleteInterfaceOp(iface) =>
    case BlacklistOp(neighbor, timeout) =>
    case ClearOp =>
  }

  lemma {:induction false} RunKeepsTableInvariant(t: Table, bad: Time, events: seq<TableEvent>)
    requires WellKept(t)
    ensures WellKept(Run(t, bad, events))
    decreases |events|
  {
    if events != [] {
      var next := Apply(t, bad, events[0]);
      ApplyKeepsTableInvariant(t, bad, events[0]);
      RunKeepsTableInvariant(next, bad, events[1..]);
    }
  }

  // ---------- broken routes are remembered ----------

  predicate Remembers(op: TableOp) {
    op.LookupOp? || op.AddOp? || op.ListViaOp? || op.InvalidateOp?
  }

  ghost predicate KnownSince(t: Table, k: Address, since: Time, bad: Time) {
    k in t && (t[k].flag.ValidRoute? || (t[k].flag.InvalidRoute? && t[k].lifeTime >= since + bad))
  }

  // A route that is valid at some moment stays in the table, valid or invalid, for badLinkLifetime more.
  lemma {:induction false} BrokenRoutesAreRemembered(t: Table, bad: Time, events: seq<TableEvent>, k: Address,
                                                     since: Time)
    requires KnownSince(t, k, since, bad)
    requires forall i :: 0 <= i < |events| ==> Remembers(events[i].op) && since <= events[i].at <= since + bad
    ensures KnownSince(Run(t, bad, events), k, since, bad)
    decreases |events|
  {
    if events != [] {
      var next := Apply(t, bad, events[0]);
      assert Remembers(events[0].op) && since <= events[0].at <= since + bad;
      assert KnownSince(next, k, since, bad);
      BrokenRoutesAreRemembered(next, bad, events[1..], k, since);
    }
  }

  // An invalid route is forgotten by the first purge after its deletion time, and by no purge before it.
  lemma ForgottenExactlyWhenDue(t: Table, bad: Time, k: Address, now: Time)
    requires k in t
    ensures k !in Purged(t, bad, now) <==> t[k].flag.InvalidRoute? && t[k].lifeTime < now
  {
  }

  // A route under discovery is untouched by purging and invalidation, however much time passes.
  lemma {:induction false} SearchSurvives(t: Table, bad: Time, events: seq<TableEvent>, k: Address)
    requires k in t && t[k].flag.InSearch?
    requires forall i :: 0 <= i < |events| ==> Remembers(events[i].op)
    ensures k in Run(t, bad, events) && Run(t, bad, events)[k] == t[k]
    decreases |events|
  {
    if events != [] {
      var next := Apply(t, bad, events[0]);
      assert Remembers(events[0].op);
      assert k in next && next[k] == t[k];
      SearchSurvives(next, bad, events[1..], k);
    }
  }

  // ---------- what one operation does to the entries ----------

  // Until its time is up, and while it is searched for, an entry is not touched by purging; a valid one then becomes
  // invalid for bad more, and an invalid one is deleted.
  lemma PurgedEntry(t: Table, bad: Time, k: Address, now: Time)
    requires k in t
    ensures t[k].lifeTime >= now || t[k].flag.InSearch? ==> k in Purged(t, bad, now) && Purged(t, bad, now)[k] == t[k]
    ensures t[k].lifeTime < now && t[k].flag.ValidRoute? ==>
              && k in Purged(t, bad, now)
              && Purged(t, bad, now)[k] == t[k].(flag := InvalidRoute, reqCount := 0, lifeTime := now + bad)
    ensures t[k].lifeTime < now && t[k].flag.InvalidRoute? ==> k !in Purged(t, bad, now)
  {
  }

  // A valid route stays exactly as it is up to its deadline, over any run that does not invalidate it by name.
  lemma {:induction false} ValidUntilDue(t: Table, bad: Time, events: seq<TableEvent>, k: Address)
    requires k in t && t[k].flag.ValidRoute?
    requires forall i :: 0 <= i < |events| ==>
      && Remembers(events[i].op) && events[i].at <= t[k].lifeTime
      && (events[i].op.InvalidateOp? ==> k !in events[i].op.unreachable)
    ensures k in Run(t, bad, events) && Run(t, bad, events)[k] == t[k]
    decreases |events|
  {
    if events != [] {
      var next := Apply(t, bad, events[0]);
      assert Remembers(events[0].op) && events[0].at <= t[k].lifeTime;
      PurgedEntry(t, bad, k, events[0].at);
      assert k in next && next[k] == t[k];
      ValidUntilDue(next, bad, events[1..], k);
    }
  }

  // An entry as it is stored: requests are counted only for a destination that is searched for.
  function AsStored(r: Route): Route {
    if r.flag == InSearch then r else r.(reqCount := 0)
  }

  // Each operation changes one entry, or none; an addition never replaces an entry, and an update never adds one.
  lemma EntryEffects(t: Table, bad: Time, now: Time, rt: Route, id: Address, state: RouteFlag, iface: Address,
                     timeout: Time)
    ensures var p, a := Purged(t, bad, now), Added(t, rt, bad, now);
            a == if rt.dst in p then p else p[rt.dst := AsStored(rt)]
    ensures var u := Updated(t, rt);
            u.Keys == t.Keys && forall k :: k in t ==> u[k] == if k == rt.dst then AsStored(rt) else t[k]
    ensures var u := WithState(t, id, state);
            u.Keys == t.Keys && forall k :: k in t ==>
              u[k] == if k == id then t[k].(flag := state, reqCount := 0) else t[k]
    ensures var u := WithoutInterface(t, iface);
            forall k :: (k in u <==> k in t && t[k].iface != iface) && (k in u ==> u[k] == t[k])
    ensures var u := Blacklisted(t, id, timeout);
            && u.Keys == t.Keys
            && forall k :: k in t ==>
                 u[k] == if k == id then t[k].(unidirectional := true, blackListTimeout := timeout,
                                               reqCount := 0) else t[k]
  {
  }
}
