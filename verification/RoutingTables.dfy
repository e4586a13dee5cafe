/** The routing table (model/aodv-rtable.h and model/aodv-rtable.cc). */
module RoutingTables {
  import opened Types

  datatype RouteFlag = ValidRoute | InvalidRoute | InSearch

  // A routing table entry; lifeTime is the absolute expiry of a valid route and the absolute
  // deletion time of an invalid one.
  datatype Route = Route(
    dst: Address,
    validSeqNo: bool,
    seqNo: U32,
    iface: Address,
    hops: U16,
    nextHop: Address,
    lifeTime: Time,
    flag: RouteFlag,
    precursors: seq<Address>,
    reqCount: U8,
    unidirectional: bool,
    blackListTimeout: Time)

  type Table = map<Address, Route>

  function NewRoute(dst: Address, validSeqNo: bool, seqNo: U32, iface: Address, hops: U16, nextHop: Address,
                    lifeTime: Time, now: Time): Route {
    Route(dst, validSeqNo, seqNo, iface, hops, nextHop, lifeTime + now, ValidRoute, [], 0, false, now)
  }

  // What a caller's entry variable holds before a lookup has filled it.
  function DefaultRoute(now: Time): Route {
    NewRoute(UNSET_ADDRESS, false, 0, UNSET_ADDRESS, 0, UNSET_ADDRESS, now, now)
  }

  function Invalidate(r: Route, badLinkLifetime: Time, now: Time): Route {
    if r.flag.InvalidRoute? then r
    else r.(flag := InvalidRoute, reqCount := 0, lifeTime := badLinkLifetime + now)
  }

  function LifeTime(r: Route, now: Time): Time {
    r.lifeTime - now
  }

  function ResetCount(r: Route): Route {
    if r.flag.InSearch? then r else r.(reqCount := 0)
  }

  // GetPrecursors: the addresses of own that prec does not hold yet, appended in order.
  function MergePrecursors(prec: seq<Address>, own: seq<Address>): seq<Address>
    decreases |own|
  {
    if own == [] then prec
    else MergePrecursors(if own[0] in prec then prec else prec + [own[0]], own[1..])
  }

  ghost predicate NoRepeats(s: seq<Address>) {
    forall i, j :: 0 <= i < j < |s| ==> s[i] != s[j]
  }

  // The duplicate-free union.
  lemma {:induction false} MergePrecursorsIsUnion(prec: seq<Address>, own: seq<Address>)
    ensures prec <= MergePrecursors(prec, own)
    ensures forall a :: a in MergePrecursors(prec, own) <==> a in prec || a in own
    ensures NoRepeats(prec) ==> NoRepeats(MergePrecursors(prec, own))
    decreases |own|
  {
    if own != [] {
      MergePrecursorsIsUnion(if own[0] in prec then prec else prec + [own[0]], own[1..]);
      assert forall a :: a in own <==> a == own[0] || a in own[1..];
    }
  }

  // The inner loop of GetPrecursors.
  method IsNew(prec: seq<Address>, a: Address) returns (result: bool)
    ensures result <==> a !in prec
  {
    result := true;
    for j := 0 to |prec|
      invariant result <==> a !in prec[..j]
    {
      if prec[j] == a {
        result := false;
      }
    }
    assert prec[..|prec|] == prec;
  }

  method GetPrecursors(rt: Route, prec: seq<Address>) returns (r: seq<Address>)
    ensures r == MergePrecursors(prec, rt.precursors)
  {
    r := prec;
    if rt.precursors == [] {
      return;
    }
    for i := 0 to |rt.precursors|
      invariant MergePrecursors(r, rt.precursors[i..]) == MergePrecursors(prec, rt.precursors)
    {
      assert rt.precursors[i..][1..] == rt.precursors[i + 1..];
      var result := IsNew(r, rt.precursors[i]);
      if result {
        r := r + [rt.precursors[i]];
      }
    }
  }

  // ---------- the table as a value ----------

  // Purge deletes an expired invalid entry and invalidates an expired valid one.
  predicate Deletable(r: Route, now: Time) {
    LifeTime(r, now) < 0 && r.flag.InvalidRoute?
  }

  function Aged(r: Route, badLinkLifetime: Time, now: Time): Route {
    if LifeTime(r, now) < 0 && r.flag.ValidRoute? then Invalidate(r, badLinkLifetime, now) else r
  }

  function Purged(t: Table, badLinkLifetime: Time, now: Time): Table {
    map k | k in t && !Deletable(t[k], now) :: Aged(t[k], badLinkLifetime, now)
  }

  // The destinations whose next hop is h, with their sequence numbers.
  function DestinationsVia(t: Table, h: Address): map<Address, U32> {
    map k | k in t && t[k].nextHop == h :: t[k].seqNo
  }

  function Invalidated(t: Table, dsts: set<Address>, badLinkLifetime: Time, now: Time): Table {
    map k | k in t :: if k in dsts && t[k].flag.ValidRoute? then Invalidate(t[k], badLinkLifetime, now) else t[k]
  }

  function Added(t: Table, rt: Route, badLinkLifetime: Time, now: Time): Table {
    var purged := Purged(t, badLinkLifetime, now);
    if rt.dst in purged then purged else purged[rt.dst := ResetCount(rt)]
  }

  function Updated(t: Table, rt: Route): Table {
    if rt.dst in t then t[rt.dst := ResetCount(rt)] else t
  }

  function WithState(t: Table, id: Address, state: RouteFlag): Table {
    if id in t then t[id := t[id].(flag := state, reqCount := 0)] else t
  }

  function WithoutInterface(t: Table, iface: Address): Table {
    map k | k in t && t[k].iface != iface :: t[k]
  }

  function Blacklisted(t: Table, id: Address, timeout: Time): Table {
    if id in t then t[id := t[id].(unidirectional := true, blackListTimeout := timeout, reqCount := 0)] else t
  }

  // ---------- the table ----------

  class RoutingTable {
    var entries: Table
    var badLinkLifetime: Time

    constructor (t: Time)
      ensures entries == map[] && badLinkLifetime == t
    {
      entries := map[];
      badLinkLifetime := t;
    }

    method Purge(now: Time)
      modifies this`entries
      ensures entries == Purged(old(entries), badLinkLifetime, now)
    {
      ghost var before := entries;
      var todo := entries.Keys;
      while todo != {}
        invariant todo <= entries.Keys <= before.Keys
        invariant forall k :: k in todo ==> entries[k] == before[k]
        invariant forall k :: k in before && k !in todo ==>
          (k in entries <==> !Deletable(before[k], now))
        invariant forall k :: k in entries && k !in todo ==>
          entries[k] == Aged(before[k], badLinkLifetime, now)
        decreases todo
      {
        var k :| k in todo;
        if LifeTime(entries[k], now) < 0 {
          if entries[k].flag == InvalidRoute {
            entries := entries - {k};
          } else if entries[k].flag == ValidRoute {
            entries := entries[k := Invalidate(entries[k], badLinkLifetime, now)];
          }
        }
        todo := todo - {k};
      }
    }

    // The copy of the entry, if there is one; the caller's variable is unchanged otherwise.
    method LookupRoute(id: Address, now: Time) returns (found: bool, rt: Route)
      modifies this`entries
      ensures entries == Purged(old(entries), badLinkLifetime, now)
      ensures found <==> id in entries
      ensures rt == if found then entries[id] else DefaultRoute(now)
    {
      Purge(now);
      rt := DefaultRoute(now);
      found := id in entries;
      if found {
        rt := entries[id];
      }
    }

    method LookupValidRoute(id: Address, now: Time) returns (found: bool, rt: Route)
      modifies this`entries
      ensures entries == Purged(old(entries), badLinkLifetime, now)
      ensures found <==> id in entries && entries[id].flag.ValidRoute?
      ensures rt == if id in entries then entries[id] else DefaultRoute(now)
      ensures found ==> LifeTime(rt, now) >= 0
    {
      found, rt := LookupRoute(id, now);
      found := found && rt.flag == ValidRoute;
    }

    method DeleteRoute(dst: Address, now: Time) returns (deleted: bool)
      modifies this`entries
      ensures deleted <==> dst in Purged(old(entries), badLinkLifetime, now)
      ensures entries == Purged(old(entries), badLinkLifetime, now) - {dst}
    {
      Purge(now);
      deleted := dst in entries;
      entries := entries - {dst};
    }

    // std::map::insert: an existing entry is kept.
    method AddRoute(rt: Route, now: Time) returns (added: bool)
      modifies this`entries
      ensures added == (rt.dst !in Purged(old(entries), badLinkLifetime, now))
      ensures entries == Added(old(entries), rt, badLinkLifetime, now)
    {
      Purge(now);
      var r := rt;
      if r.flag != InSearch {
        r := r.(reqCount := 0);
      }
      added := r.dst !in entries;
      if added {
        entries := entries[r.dst := r];
      }
    }

    method Update(rt: Route) returns (updated: bool)
      modifies this`entries
      ensures updated == (rt.dst in old(entries))
      ensures entries == Updated(old(entries), rt)
    {
      if rt.dst !in entries {
        return false;
      }
      entries := entries[rt.dst := rt];
      if entries[rt.dst].flag != InSearch {
        entries := entries[rt.dst := entries[rt.dst].(reqCount := 0)];
      }
      return true;
    }

    method SetEntryState(id: Address, state: RouteFlag) returns (found: bool)
      modifies this`entries
      ensures found == (id in old(entries))
      ensures entries == WithState(old(entries), id, state)
    {
      if id !in entries {
        return false;
      }
      entries := entries[id := entries[id].(flag := state)];
      entries := entries[id := entries[id].(reqCount := 0)];
      return true;
    }

    method GetListOfDestinationWithNextHop(nextHop: Address, now: Time) returns (unreachable: map<Address, U32>)
      modifies this`entries
      ensures entries == Purged(old(entries), badLinkLifetime, now)
      ensures unreachable == DestinationsVia(entries, nextHop)
    {
      Purge(now);
      unreachable := map[];
      var todo := entries.Keys;
      while todo != {}
        invariant todo <= entries.Keys
        invariant forall k :: k in unreachable <==> k in entries && k !in todo && entries[k].nextHop == nextHop
        invariant forall k :: k in unreachable ==> unreachable[k] == entries[k].seqNo
        decreases todo
      {
        var k :| k in todo;
        if entries[k].nextHop == nextHop {
          unreachable := unreachable[k := entries[k].seqNo];
        }
        todo := todo - {k};
      }
    }

    // The inner loop of InvalidateRoutesWithDst: one entry against the whole list.
    method InvalidateIfListed(i: Address, unreachable: map<Address, U32>, now: Time)
      requires i in entries
      modifies this`entries
      ensures entries == old(entries)[i :=
        if i in unreachable && old(entries)[i].flag.ValidRoute? then Invalidate(old(entries)[i], badLinkLifetime, now)
        else old(entries)[i]]
    {
      var todo := unreachable.Keys;
      while todo != {}
        invariant todo <= unreachable.Keys
        invariant entries == old(entries)[i :=
          if i in unreachable && i !in todo && old(entries)[i].flag.ValidRoute?
          then Invalidate(old(entries)[i], badLinkLifetime, now) else old(entries)[i]]
        decreases todo
      {
        var j :| j in todo;
        if i == j && entries[i].flag == ValidRoute {
          entries := entries[i := Invalidate(entries[i], badLinkLifetime, now)];
        }
        todo := todo - {j};
      }
    }

    method InvalidateRoutesWithDst(unreachable: map<Address, U32>, now: Time)
      modifies this`entries
      ensures entries == Invalidated(Purged(old(entries), badLinkLifetime, now), unreachable.Keys, badLinkLifetime, now)
    {
      Purge(now);
      ghost var before := entries;
      ghost var after := Invalidated(before, unreachable.Keys, badLinkLifetime, now);
      var todo := entries.Keys;
      while todo != {}
        invariant todo <= entries.Keys == before.Keys
        invariant forall k :: k in entries ==> entries[k] == if k in todo then before[k] else after[k]
        decreases todo
      {
        var i :| i in todo;
        InvalidateIfListed(i, unreachable, now);
        todo := todo - {i};
      }
    }

    method DeleteAllRoutesFromInterface(iface: Address)
      modifies this`entries
      ensures entries == WithoutInterface(old(entries), iface)
    {
      ghost var before := entries;
      var todo := entries.Keys;
      while todo != {}
        invariant todo <= entries.Keys <= before.Keys
        invariant forall k :: k in entries ==> entries[k] == before[k]
        invariant forall k :: k in before && k !in todo ==> (k in entries <==> before[k].iface != iface)
        decreases todo
      {
        var k :| k in todo;
        if entries[k].iface == iface {
          entries := entries - {k};
        }
        todo := todo - {k};
      }
    }

    method MarkLinkAsUnidirectional(neighbor: Address, blacklistTimeout: Time) returns (found: bool)
      modifies this`entries
      ensures found == (neighbor in old(entries))
      ensures entries == Blacklisted(old(entries), neighbor, blacklistTimeout)
    {
      if neighbor !in entries {
        return false;
      }
      var rt := entries[neighbor].(unidirectional := true);
      rt := rt.(blackListTimeout := blacklistTimeout);
      entries := entries[neighbor := rt.(reqCount := 0)];
      return true;
    }
  }
}
