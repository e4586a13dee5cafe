/** The neighbour list of a node (class Neighbors of model/aodv-neighbor.cc). */
module NeighborLists {
  import opened Types
  import opened Lists
  import opened NeighborTuples
  import opened RoutingTables
  import opened RouteErrors
  import opened RouteErrorEffects
  import opened BackboneRules

  // ---------- the list as a value ----------

  function AddrOf(): NeighborTuple -> int {
    (t: NeighborTuple) => t.addr
  }

  function TwoHopAddrOf(): TwoHop -> int {
    (e: TwoHop) => e.addr
  }

  function NewTuple(a: Address, expire: Time): NeighborTuple {
    NeighborTuple(a, expire, false, 0, 0xFFFF, 0, Core, UNSET_ADDRESS, ConvertOther, false, [])
  }

  function Erased(list: seq<NeighborTuple>, a: Address): seq<NeighborTuple> {
    var i := IndexOf(list, a);
    if i < |list| then list[..i] + list[i + 1..] else list
  }

  function Placed(list: seq<NeighborTuple>, t: NeighborTuple): seq<NeighborTuple> {
    SortBy(Erased(list, t.addr) + [t], AddrOf())
  }

  function Greeted(t: NeighborTuple, hello: Hello, client: bool): NeighborTuple {
    t.(helloCounter := (t.helloCounter + 1) % 0x1_0000,
       sequenceNumber := hello.sequenceNumber,
       associated := hello.associated,
       weight := hello.weight,
       status := hello.status,
       indicator := hello.indicator,
       client := client)
  }

  // UpdateNeighborTuple: the list after a HELLO has been taken into account.
  function HelloApplied(list: seq<NeighborTuple>, hello: Hello, client: bool, now: Time): seq<NeighborTuple> {
    var known := IndexOf(list, hello.origin) < |list|;
    var l := if known then list
             else Placed(list, NewTuple(hello.origin, now).(sequenceNumber := hello.sequenceNumber));
    var i := IndexOf(l, hello.origin);
    if i < |l| then l[i := Greeted(l[i], hello, client)] else l
  }

  // UpdateMulticastNeighborTuple: the sender's backbone neighbours are replaced and sorted.
  function BnApplied(list: seq<NeighborTuple>, hello: Hello, nextTime: Time, now: Time): seq<NeighborTuple> {
    var i := IndexOf(list, hello.origin);
    if i < |list| then
      list[i := list[i].(bnNeighbors := SortBy(Stamped(hello.bnNeighbors, nextTime + now), TwoHopAddrOf()))]
    else list
  }

  lemma StampedStep(bn: seq<TwoHop>, k: nat, timeout: Time)
    requires k < |bn|
    ensures Stamped(bn[..0], timeout) == []
    ensures Stamped(bn[..k + 1], timeout) == Stamped(bn[..k], timeout) + [bn[k].(timeout := timeout)]
  {
  }

  function Open(now: Time): NeighborTuple -> bool {
    (t: NeighborTuple) => !(t.expire < now || t.close)
  }

  function Heard(minHello: U32): NeighborTuple -> bool {
    (t: NeighborTuple) => t.helloCounter >= minHello
  }

  // The neighbours that do not satisfy keep, in list order.
  function Lost(list: seq<NeighborTuple>, keep: NeighborTuple -> bool): seq<Address> {
    if list == [] then [] else
      var last := list[|list| - 1];
      Lost(list[..|list| - 1], keep) + if keep(last) then [] else [last.addr]
  }

  // Update: a known neighbour lives longer; an unknown one is appended and the list purged.
  function Refreshed(list: seq<NeighborTuple>, a: Address, expire: Time, now: Time): seq<NeighborTuple> {
    var i := IndexOf(list, a);
    if i < |list| then list[i := list[i].(expire := Max(expire + now, list[i].expire))]
    else Filter(list + [NewTuple(a, expire + now)], Open(now))
  }

  function LostByUpdate(list: seq<NeighborTuple>, a: Address, expire: Time, now: Time): seq<Address> {
    if IndexOf(list, a) < |list| then [] else Lost(list + [NewTuple(a, expire + now)], Open(now))
  }

  function CountersReset(list: seq<NeighborTuple>): (r: seq<NeighborTuple>)
    ensures |r| == |list|
  {
    seq(|list|, i requires 0 <= i < |list| => list[i].(helloCounter := 0))
  }

  function Closed(list: seq<NeighborTuple>, affected: set<Address>): (r: seq<NeighborTuple>)
    ensures |r| == |list|
  {
    seq(|list|, i requires 0 <= i < |list| => if list[i].addr in affected then list[i].(close := true) else list[i])
  }

  // ---------- addresses stay distinct ----------

  lemma ErasedMembers(list: seq<NeighborTuple>, a: Address)
    requires Distinct(list)
    ensures forall t :: t in Erased(list, a) <==> t in list && t.addr != a
  {
    var i := IndexOf(list, a);
    if i < |list| {
      assert list == list[..i] + [list[i]] + list[i + 1..];
      assert forall t :: t in list[i + 1..] ==> t.addr != a;
      assert forall t :: t in list[..i] ==> t.addr != a;
    }
  }

  lemma ErasedKeepsDistinct(list: seq<NeighborTuple>, a: Address)
    requires Distinct(list)
    ensures Distinct(Erased(list, a))
  {
  }

  lemma PlacedKeepsDistinct(list: seq<NeighborTuple>, t: NeighborTuple)
    requires Distinct(list)
    ensures Distinct(Placed(list, t))
    ensures SortedBy(Placed(list, t), AddrOf())
    ensures forall t' :: t' in Placed(list, t) <==> t' == t || (t' in list && t'.addr != t.addr)
  {
    var before := Erased(list, t.addr) + [t];
    ErasedMembers(list, t.addr);
    ErasedKeepsDistinct(list, t.addr);
    SortByDistinct(before, AddrOf());
    SortBySorts(before, AddrOf());
    var after := Placed(list, t);
    forall i, j | 0 <= i < j < |after|
      ensures after[i].addr != after[j].addr
    {
      assert AddrOf()(after[i]) != AddrOf()(after[j]);
    }
  }

  lemma {:induction false} FilterKeepsDistinct(list: seq<NeighborTuple>, keep: NeighborTuple -> bool)
    requires Distinct(list)
    ensures Distinct(Filter(list, keep))
  {
    if list != [] {
      FilterKeepsDistinct(list[1..], keep);
      assert forall t :: t in Filter(list[1..], keep) ==> t.addr != list[0].addr;
    }
  }

  lemma ReplacedKeepsDistinct(list: seq<NeighborTuple>, i: nat, t: NeighborTuple)
    requires Distinct(list) && i < |list| && t.addr == list[i].addr
    ensures Distinct(list[i := t])
    ensures IndexOf(list[i := t], t.addr) == i
  {
    var r := list[i := t];
    assert r[i].addr == t.addr;
    assert Distinct(r);
  }

  lemma HelloAppliedKeepsDistinct(list: seq<NeighborTuple>, hello: Hello, client: bool, now: Time)
    requires Distinct(list)
    ensures Distinct(HelloApplied(list, hello, client, now))
    ensures IndexOf(HelloApplied(list, hello, client, now), hello.origin) < |HelloApplied(list, hello, client, now)|
  {
    hide Placed;
    var t := NewTuple(hello.origin, now).(sequenceNumber := hello.sequenceNumber);
    PlacedKeepsDistinct(list, t);
    var l := if IndexOf(list, hello.origin) < |list| then list else Placed(list, t);
    assert l == list || t in l;
    var i := IndexOf(l, hello.origin);
    ReplacedKeepsDistinct(l, i, Greeted(l[i], hello, client));
  }

  lemma ReplacedMembers(list: seq<NeighborTuple>, i: nat, t: NeighborTuple, a: Address)
    requires Distinct(list) && i < |list| && list[i].addr == a && t.addr == a
    ensures forall u :: u in list[i := t] <==> u == t || (u in list && u.addr != a)
  {
    var r := list[i := t];
    forall u | u in list && u.addr != a
      ensures u in r
    {
      var j :| 0 <= j < |list| && list[j] == u;
      assert r[j] == u;
    }
    assert r[i] == t;
  }

  // The tuple a HELLO updates: the known one, or a new one.
  function Receiving(list: seq<NeighborTuple>, hello: Hello, now: Time): NeighborTuple {
    match Find(list, hello.origin)
    case Some(t) => t
    case None => NewTuple(hello.origin, now).(sequenceNumber := hello.sequenceNumber)
  }

  // After a HELLO its sender's tuple holds what the HELLO says and the other tuples are unchanged.
  lemma HelloAppliedHolds(list: seq<NeighborTuple>, hello: Hello, client: bool, now: Time)
    requires Distinct(list)
    ensures forall u :: u in HelloApplied(list, hello, client, now) <==>
              u == Greeted(Receiving(list, hello, now), hello, client) || (u in list && u.addr != hello.origin)
  {
    var i := IndexOf(list, hello.origin);
    if i < |list| {
      ReplacedMembers(list, i, Greeted(list[i], hello, client), hello.origin);
    } else {
      var added := Receiving(list, hello, now);
      var l := Placed(list, added);
      PlacedKeepsDistinct(list, added);
      assert added in l;
      i := IndexOf(l, hello.origin);
      UniqueTuple(l, l[i], added);
      ReplacedMembers(l, i, Greeted(added, hello, client), hello.origin);
    }
  }

  lemma BnAppliedKeepsDistinct(list: seq<NeighborTuple>, hello: Hello, nextTime: Time, now: Time)
    requires Distinct(list)
    ensures Distinct(BnApplied(list, hello, nextTime, now))
    ensures var r := BnApplied(list, hello, nextTime, now);
            IndexOf(list, hello.origin) < |list| ==> IndexOf(r, hello.origin) < |r|
  {
    hide SortBy, Stamped;
    var i := IndexOf(list, hello.origin);
    if i < |list| {
      var t := list[i].(bnNeighbors := SortBy(Stamped(hello.bnNeighbors, nextTime + now), TwoHopAddrOf()));
      ReplacedKeepsDistinct(list, i, t);
    }
  }

  lemma RefreshedKeepsDistinct(list: seq<NeighborTuple>, a: Address, expire: Time, now: Time)
    requires Distinct(list)
    ensures Distinct(Refreshed(list, a, expire, now))
  {
    if IndexOf(list, a) == |list| {
      FilterKeepsDistinct(list + [NewTuple(a, expire + now)], Open(now));
    }
  }

  // ---------- one pass of a purge ----------

  lemma {:induction false} NothingLost(list: seq<NeighborTuple>, keep: NeighborTuple -> bool)
    requires forall t :: t in list ==> keep(t)
    ensures Lost(list, keep) == []
  {
    if list != [] {
      NothingLost(list[..|list| - 1], keep);
    }
  }

  // A second purge at the same instant removes no neighbour and reports no failure, so IsNeighbor is a
  // plain lookup while the long timer runs.
  lemma SecondPurgeChangesNothing(list: seq<NeighborTuple>, now: Time)
    ensures Filter(Filter(list, Open(now)), Open(now)) == Filter(list, Open(now))
    ensures Lost(Filter(list, Open(now)), Open(now)) == []
  {
    FilterAll(Filter(list, Open(now)), Open(now));
    NothingLost(Filter(list, Open(now)), Open(now));
  }

  ghost predicate Passing(before: seq<NeighborTuple>, keep: NeighborTuple -> bool, j: nat, newset: seq<NeighborTuple>,
                          s0: RepairState, s: RepairState, bad: Time, limit: U16, now: Time) {
    && j <= |before|
    && newset == Filter(before[..j], keep)
    && s == LinksBroken(s0, bad, limit, Lost(before[..j], keep), now)
    && LossesFit(s.table, Lost(before, keep), bad, now)
  }

  // The failures reported by a purge are those of exactly the neighbours it removes.
  lemma {:induction false} LostAreRemoved(list: seq<NeighborTuple>, keep: NeighborTuple -> bool)
    ensures forall a :: a in Lost(list, keep) <==> exists t :: t in list && t.addr == a && !keep(t)
  {
    if list != [] {
      var front, last := list[..|list| - 1], list[|list| - 1];
      LostAreRemoved(front, keep);
      assert forall t :: t in list <==> t in front || t == last;
    }
  }

  // After a purge, a removed neighbour that had a table entry when its failure was reported is no valid
  // route's next hop.
  lemma PurgedNeighbourCarriesNoRoute(list: seq<NeighborTuple>, keep: NeighborTuple -> bool, t: NeighborTuple,
                                      s: RepairState, bad: Time, limit: U16, now: Time)
    requires t in list && !keep(t)
    requires forall i :: 0 <= i < |Lost(list, keep)| && Lost(list, keep)[i] == t.addr ==>
               Lost(list, keep)[i] in TableAt(s, bad, limit, Lost(list, keep), now, i)
    ensures !Through(LinksBroken(s, bad, limit, Lost(list, keep), now).table, t.addr)
  {
    var lost := Lost(list, keep);
    LostAreRemoved(list, keep);
    assert t.addr in lost;
    var i :| 0 <= i < |lost| && lost[i] == t.addr;
    LostNeighboursCarryNoRoute(s, bad, limit, lost, now, i);
  }

  lemma LostAppend(list: seq<NeighborTuple>, t: NeighborTuple, keep: NeighborTuple -> bool)
    ensures Lost(list + [t], keep) == if keep(t) then Lost(list, keep) else Lost(list, keep) + [t.addr]
  {
    assert (list + [t])[..|list|] == list;
  }

  lemma PassingStart(before: seq<NeighborTuple>, keep: NeighborTuple -> bool, s: RepairState, bad: Time, limit: U16,
                     now: Time)
    requires LossesFit(s.table, Lost(before, keep), bad, now)
    ensures Passing(before, keep, 0, [], s, s, bad, limit, now)
    ensures LinksBroken(s, bad, limit, [], now) == s
  {
  }

  lemma PassingStep(before: seq<NeighborTuple>, keep: NeighborTuple -> bool, j: nat, newset: seq<NeighborTuple>,
                    s0: RepairState, s: RepairState, bad: Time, limit: U16, now: Time)
    requires j < |before| && Passing(before, keep, j, newset, s0, s, bad, limit, now)
    ensures if keep(before[j]) then Passing(before, keep, j + 1, newset + [before[j]], s0, s, bad, limit, now)
            else Passing(before, keep, j + 1, newset, s0, LinkBroken(s, bad, limit, before[j].addr, now), bad, limit,
                         now)
    ensures !keep(before[j]) ==> LossFitsOneRerr(Purged(s.table, bad, now), before[j].addr)
  {
    hide Filter, LossFitsOneRerr, LinkBroken;
    var lost := Lost(before[..j], keep);
    assert before[..j + 1] == before[..j] + [before[j]];
    FilterAppend(before[..j], before[j], keep);
    LostAppend(before[..j], before[j], keep);
    LinksBrokenAppend(s0, bad, limit, lost, before[j].addr, now);
    LostAreRemoved(before, keep);
    assert before[j] in before;
    LinkBrokenKeepsLossesFit(s, bad, limit, before[j].addr, now, Lost(before, keep));
  }

  // ---------- queries ----------

  function Unexpired(now: Time): TwoHop -> bool {
    (e: TwoHop) => !(e.timeout < now)
  }

  function HasNodeStatus(status: NodeStatus): NeighborTuple -> bool {
    (t: NeighborTuple) => t.status == status
  }

  function IsClient(status: NodeStatus): NeighborTuple -> bool {
    (t: NeighborTuple) => t.client && t.status == status
  }

  function ValueOf(): Address -> int {
    (a: Address) => a
  }

  // The entries of the backbone neighbours, in list order.
  function Advertised(list: seq<NeighborTuple>): seq<TwoHop> {
    if list == [] then [] else
      var t := list[|list| - 1];
      Advertised(list[..|list| - 1]) +
      if t.status == NeighNode then [TwoHop(t.addr, t.weight, t.indicator, t.expire)] else []
  }

  function BnSet(list: seq<NeighborTuple>): seq<TwoHop> {
    SortBy(Advertised(list), TwoHopAddrOf())
  }

  lemma {:induction false} AdvertisedIsBn(list: seq<NeighborTuple>)
    ensures forall e :: e in Advertised(list) <==>
              exists t :: t in list && t.status == NeighNode && e == TwoHop(t.addr, t.weight, t.indicator, t.expire)
    ensures Distinct(list) ==> DistinctBy(Advertised(list), TwoHopAddrOf())
  {
    if list != [] {
      var front, last := list[..|list| - 1], list[|list| - 1];
      AdvertisedIsBn(front);
      assert forall t :: t in list <==> t in front || t == last;
      if Distinct(list) && last.status == NeighNode {
        assert forall e :: e in Advertised(front) ==> e.addr != last.addr;
      }
    }
  }

  // ---------- the class ----------

  class Neighbors {
    var list: seq<NeighborTuple>
    var minHello: U32
    // The object behind the link failure callback, which the protocol sets when it is constructed.
    const failures: RouteRepair

    constructor (failures: RouteRepair, minHello: U32)
      ensures list == [] && this.failures == failures && this.minHello == minHello
    {
      list := [];
      this.failures := failures;
      this.minHello := minHello;
    }

    // What the failures of the links to these neighbours need of the routing table.
    ghost predicate CanLose(lost: seq<Address>, now: Time)
      reads failures, failures.table
    {
      var bad := failures.table.badLinkLifetime;
      bad >= 0 && LossesFit(failures.table.entries, lost, bad, now)
    }

    ghost function FailuresAfter(lost: seq<Address>, now: Time): RepairState
      reads this, failures, failures.table
    {
      LinksBroken(failures.State(), failures.table.badLinkLifetime, failures.rerrRateLimit, lost, now)
    }

    method FindNeighborTuple(a: Address) returns (i: nat)
      ensures i == IndexOf(list, a)
    {
      i := 0;
      while i < |list|
        invariant i <= |list|
        invariant IndexOf(list, a) == i + IndexOf(list[i..], a)
      {
        if list[i].addr == a {
          return;
        }
        i := i + 1;
      }
    }

    method EraseNeighborTuple(a: Address)
      // the source asserts on a 16-bit size when it erases
      requires IndexOf(list, a) < |list| ==> |list| < 0x1_0000
      modifies this`list
      ensures list == Erased(old(list), a)
    {
      var size := |list| % 0x1_0000;
      var i := FindNeighborTuple(a);
      if i < |list| {
        list := list[..i] + list[i + 1..];
        assert size == 1 + |list|;
      }
    }

    method InsertNeighborTuple(t: NeighborTuple)
      requires IndexOf(list, t.addr) < |list| ==> |list| < 0x1_0000
      modifies this`list
      ensures list == Placed(old(list), t)
    {
      EraseNeighborTuple(t.addr);
      list := list + [t];
      list := SortBy(list, AddrOf());
    }

    method UpdateNeighborTuple(hello: Hello, client: bool, now: Time)
      requires Distinct(list)
      modifies this`list
      ensures list == HelloApplied(old(list), hello, client, now)
      ensures Distinct(list) && IndexOf(list, hello.origin) < |list|
    {
      hide Placed;
      HelloAppliedKeepsDistinct(list, hello, client, now);
      var i := FindNeighborTuple(hello.origin);
      if i == |list| {
        i := OpenEntry(hello, now);
      }
      var tp := list[i].(helloCounter := (list[i].helloCounter + 1) % 0x1_0000);
      tp := tp.(sequenceNumber := hello.sequenceNumber, associated := hello.associated);
      tp := tp.(weight := hello.weight, status := hello.status);
      tp := tp.(indicator := hello.indicator, client := client);
      list := list[i := tp];
    }

    // Its branch for an unknown neighbour.
    method OpenEntry(hello: Hello, now: Time) returns (i: nat)
      requires Distinct(list) && IndexOf(list, hello.origin) == |list|
      modifies this`list
      ensures list == Placed(old(list), NewTuple(hello.origin, now).(sequenceNumber := hello.sequenceNumber))
      ensures i == IndexOf(list, hello.origin) < |list|
    {
      var t := NewTuple(hello.origin, now);
      t := t.(sequenceNumber := hello.sequenceNumber);
      PlacedKeepsDistinct(list, t);
      InsertNeighborTuple(t);
      assert t in list;
      i := FindNeighborTuple(hello.origin);
    }

    // The source uses the tuple without a null check.
    method UpdateMulticastNeighborTuple(hello: Hello, nextTime: Time, now: Time)
      requires IndexOf(list, hello.origin) < |list|
      modifies this`list
      ensures list == BnApplied(old(list), hello, nextTime, now)
    {
      hide SortBy, Stamped;
      var i := FindNeighborTuple(hello.origin);
      hide IndexOf;
      list := list[i := list[i].(bnNeighbors := [])];
      var k := 0;
      while k < |hello.bnNeighbors|
        invariant 0 <= k <= |hello.bnNeighbors|
        invariant list == old(list)[i := old(list)[i].(bnNeighbors := Stamped(hello.bnNeighbors[..k], nextTime + now))]
      {
        var twohop := hello.bnNeighbors[k].(timeout := nextTime + now);
        list := list[i := list[i].(bnNeighbors := list[i].bnNeighbors + [twohop])];
        StampedStep(hello.bnNeighbors, k, nextTime + now);
        k := k + 1;
      }
      assert hello.bnNeighbors[..k] == hello.bnNeighbors;
      list := list[i := list[i].(bnNeighbors := SortBy(list[i].bnNeighbors, TwoHopAddrOf()))];
    }

    // Drops the neighbours heard less often than the minimum, reporting each to the failure handler.
    method PurgeHello(now: Time)
      requires CanLose(Lost(list, Heard(minHello)), now)
      modifies this`list, failures`rerrCount, failures`sent, failures.table`entries
      ensures list == Filter(old(list), Heard(minHello))
      ensures failures.State() == old(FailuresAfter(Lost(list, Heard(minHello)), now))
    {
      hide LinkBroken, LinksBroken, LossesFit, LossFitsOneRerr;
      PassingStart(list, Heard(minHello), failures.State(), failures.table.badLinkLifetime, failures.rerrRateLimit,
                   now);
      if list == [] {
        return;
      }
      var newset: seq<NeighborTuple> := [];
      var j := 0;
      while j < |list|
        invariant 0 <= j <= |list| && list == old(list)
        invariant failures.table.badLinkLifetime >= 0
        invariant Passing(list, Heard(minHello), j, newset, old(failures.State()), failures.State(),
                          failures.table.badLinkLifetime, failures.rerrRateLimit, now)
      {
        PassingStep(list, Heard(minHello), j, newset, old(failures.State()), failures.State(),
                    failures.table.badLinkLifetime, failures.rerrRateLimit, now);
        if list[j].helloCounter < minHello {
          failures.SendRerrWhenBreaksLinkToNextHop(list[j].addr, now);
        } else {
          newset := newset + [list[j]];
        }
        j := j + 1;
      }
      assert list[..j] == list;
      list := newset;
    }

    // Drops the neighbours whose link is closed or expired. A surviving tuple is copied before its
    // expired two-hop entries are erased from the original, so survivors keep theirs.
    method Purge(now: Time)
      requires CanLose(Lost(list, Open(now)), now)
      modifies this`list, failures`rerrCount, failures`sent, failures.table`entries
      ensures list == Filter(old(list), Open(now))
      ensures failures.State() == old(FailuresAfter(Lost(list, Open(now)), now))
    {
      hide LinkBroken, LinksBroken, LossesFit, LossFitsOneRerr;
      PassingStart(list, Open(now), failures.State(), failures.table.badLinkLifetime, failures.rerrRateLimit, now);
      if list == [] {
        return;
      }
      var newset: seq<NeighborTuple> := [];
      var j := 0;
      while j < |list|
        invariant 0 <= j <= |list| == |old(list)|
        invariant forall n :: j <= n < |list| ==> list[n] == old(list)[n]
        invariant failures.table.badLinkLifetime >= 0
        invariant Passing(old(list), Open(now), j, newset, old(failures.State()), failures.State(),
                          failures.table.badLinkLifetime, failures.rerrRateLimit, now)
      {
        PassingStep(old(list), Open(now), j, newset, old(failures.State()), failures.State(),
                    failures.table.badLinkLifetime, failures.rerrRateLimit, now);
        var t := list[j];
        if t.expire < now || t.close {
          failures.SendRerrWhenBreaksLinkToNextHop(t.addr, now);
        } else {
          newset := newset + [t];
          list := list[j := t.(bnNeighbors := Filter(t.bnNeighbors, Unexpired(now)))];
        }
        j := j + 1;
      }
      assert old(list)[..j] == old(list);
      list := newset;
    }

    method Update(a: Address, expire: Time, now: Time)
      requires CanLose(LostByUpdate(list, a, expire, now), now)
      modifies this`list, failures`rerrCount, failures`sent, failures.table`entries
      ensures list == Refreshed(old(list), a, expire, now)
      ensures failures.State() == old(FailuresAfter(LostByUpdate(list, a, expire, now), now))
    {
      var i := FindNeighborTuple(a);
      if i < |list| {
        list := list[i := list[i].(expire := Max(expire + now, list[i].expire))];
        return;
      }
      var neighbor := NewTuple(a, expire + now);
      list := list + [neighbor];
      Purge(now);
    }

    // A transmission error closes the links to the neighbours with the failed hardware address.
    method ProcessTxError(affected: set<Address>, now: Time)
      requires CanLose(Lost(Closed(list, affected), Open(now)), now)
      modifies this`list, failures`rerrCount, failures`sent, failures.table`entries
      ensures list == Filter(Closed(old(list), affected), Open(now))
      ensures failures.State() == old(FailuresAfter(Lost(Closed(list, affected), Open(now)), now))
    {
      CloseLinks(affected);
      Purge(now);
    }

    // Its loop.
    method CloseLinks(affected: set<Address>)
      modifies this`list
      ensures list == Closed(old(list), affected)
    {
      var k := 0;
      while k < |list|
        invariant 0 <= k <= |list| == |old(list)|
        invariant forall i :: 0 <= i < |list| ==>
                    list[i] == if i < k then Closed(old(list), affected)[i] else old(list)[i]
      {
        if list[k].addr in affected {
          list := list[k := list[k].(close := true)];
        }
        k := k + 1;
      }
    }

    // Where nothing is left to purge, as after an earlier purge of the same instant, it only looks.
    method IsNeighbor(a: Address, now: Time) returns (known: bool)
      requires CanLose(Lost(list, Open(now)), now)
      modifies this`list, failures`rerrCount, failures`sent, failures.table`entries
      ensures list == Filter(old(list), Open(now))
      ensures failures.State() == old(FailuresAfter(Lost(list, Open(now)), now))
      ensures (exists before :: old(list) == Filter(before, Open(now))) ==>
                list == old(list) && failures.State() == old(failures.State())
      ensures known <==> IndexOf(list, a) < |list|
    {
      if before :| list == Filter(before, Open(now)) {
        SecondPurgeChangesNothing(before, now);
      }
      Purge(now);
      var i := FindNeighborTuple(a);
      known := i < |list|;
    }

    method ResetHelloCounter()
      modifies this`list
      ensures list == CountersReset(old(list))
    {
      var k := 0;
      while k < |list|
        invariant 0 <= k <= |list| == |old(list)|
        invariant forall i :: 0 <= i < |list| ==>
          list[i] == if i < k then old(list)[i].(helloCounter := 0) else old(list)[i]
      {
        list := list[k := list[k].(helloCounter := 0)];
        k := k + 1;
      }
    }

    // ---------- queries ----------

    // A sorted enumeration of exactly the backbone neighbours.
    method GetBnNeighbors() returns (tset: seq<TwoHop>)
      ensures forall e :: e in tset <==>
        exists t :: t in list && t.status == NeighNode && e == TwoHop(t.addr, t.weight, t.indicator, t.expire)
      ensures SortedBy(tset, TwoHopAddrOf())
      ensures Distinct(list) ==> DistinctBy(tset, TwoHopAddrOf())
      ensures tset == BnSet(list)
    {
      tset := [];
      var k := 0;
      while k < |list|
        invariant 0 <= k <= |list|
        invariant tset == Advertised(list[..k])
      {
        assert list[..k + 1][..k] == list[..k];
        if list[k].status == NeighNode {
          tset := tset + [TwoHop(list[k].addr, list[k].weight, list[k].indicator, list[k].expire)];
        }
        k := k + 1;
      }
      assert list[..k] == list;
      AdvertisedIsBn(list);
      SortBySorts(tset, TwoHopAddrOf());
      if Distinct(list) {
        SortByDistinct(tset, TwoHopAddrOf());
      }
      tset := SortBy(tset, TwoHopAddrOf());
    }

    method GetBestNeighbor(status: NodeStatus) returns (best: Option<NeighborTuple>)
      ensures best == Best(list, status)
    {
      best := None;
      var k := 0;
      while k < |list|
        invariant 0 <= k <= |list|
        invariant best == Best(list[..k], status)
      {
        assert list[..k + 1][..k] == list[..k];
        if list[k].status == status && (best.None? || Exceeds(list[k], best.value)) {
          best := Some(list[k]);
        }
        k := k + 1;
      }
      assert list[..k] == list;
    }

    method GetNeighborhoodSize(status: NodeStatus) returns (size: nat)
      ensures size == |Filter(list, HasNodeStatus(status))|
    {
      hide Filter;
      size := 0;
      var k := 0;
      while k < |list|
        invariant 0 <= k <= |list|
        invariant size == |Filter(list[..k], HasNodeStatus(status))|
      {
        FilterStep(list, k, HasNodeStatus(status));
        if list[k].status == status {
          size := size + 1;
        }
        k := k + 1;
      }
      assert list[..k] == list;
    }

    method GetOneHopNeighbors(status: NodeStatus) returns (ns: seq<NeighborTuple>)
      ensures ns == Filter(list, HasNodeStatus(status))
    {
      ns := [];
      var k := 0;
      while k < |list|
        invariant 0 <= k <= |list|
        invariant ns == Filter(list[..k], HasNodeStatus(status))
      {
        FilterStep(list, k, HasNodeStatus(status));
        if list[k].status == status {
          ns := ns + [list[k]];
        }
        k := k + 1;
      }
      assert list[..k] == list;
    }

    method GetClients(status: NodeStatus) returns (ns: seq<NeighborTuple>)
      ensures ns == Filter(list, IsClient(status))
    {
      ns := [];
      var k := 0;
      while k < |list|
        invariant 0 <= k <= |list|
        invariant ns == Filter(list[..k], IsClient(status))
      {
        FilterStep(list, k, IsClient(status));
        if list[k].client && list[k].status == status {
          ns := ns + [list[k]];
        }
        k := k + 1;
      }
      assert list[..k] == list;
    }

    // The addresses a neighbour advertises, sorted. The source asserts that the neighbour is known.
    method GetMulticastNeighbors(a: Address) returns (twoHopBn: seq<Address>)
      requires IndexOf(list, a) < |list|
      ensures forall x :: x in twoHopBn <==> exists e :: e in list[IndexOf(list, a)].bnNeighbors && e.addr == x
      ensures SortedBy(twoHopBn, ValueOf())
      ensures |twoHopBn| == |list[IndexOf(list, a)].bnNeighbors|
    {
      var i := FindNeighborTuple(a);
      var bn := list[i].bnNeighbors;
      twoHopBn := [];
      for k := 0 to |bn|
        invariant |twoHopBn| == k
        invariant forall j :: 0 <= j < k ==> twoHopBn[j] == bn[j].addr
      {
        twoHopBn := twoHopBn + [bn[k].addr];
      }
      assert forall x :: x in twoHopBn <==> exists e :: e in bn && e.addr == x;
      SortBySorts(twoHopBn, ValueOf());
      twoHopBn := SortBy(twoHopBn, ValueOf());
    }

    method IntersectionOfSets(set1: seq<Address>, set2: seq<Address>) returns (result: seq<Address>)
      ensures forall x :: x in result <==> x in set1 && x in set2
      ensures result != [] <==> exists x :: x in set1 && x in set2
    {
      result := [];
      for i := 0 to |set1|
        invariant forall x :: x in result <==> x in set1[..i] && x in set2
      {
        var more := IntersectionWithAddress(set2, set1[i]);
        result := result + more;
      }
      assert result != [] ==> result[0] in result;
    }

    method IntersectionWithAddress(set1: seq<Address>, a: Address) returns (result: seq<Address>)
      ensures forall x :: x in result <==> x == a && a in set1
      ensures result != [] <==> a in set1
    {
      result := [];
      for i := 0 to |set1|
        invariant forall x :: x in result <==> x == a && a in set1[..i]
      {
        if set1[i] == a {
          result := result + [set1[i]];
        }
      }
      assert a in set1 ==> a in result;
      assert result != [] ==> result[0] in result;
    }

    method GetCommonBN(pair: NeighborPair) returns (common: seq<Address>)
      requires IndexOf(list, pair.first) < |list| && IndexOf(list, pair.second) < |list|
      ensures forall x :: x in common <==> x in BnOf(list, pair.first) && x in BnOf(list, pair.second)
    {
      var v := GetMulticastNeighbors(pair.first);
      var w := GetMulticastNeighbors(pair.second);
      common := IntersectionOfSets(v, w);
    }

    // FindMulticastBnNeighborTuple: one entry of one neighbour's list.
    method FindMulticastBnNeighborTuple(neighbor: Address, twoHop: Address) returns (r: Option<TwoHop>)
      ensures r == match Find(list, neighbor)
                   case Some(t) => FindTwoHop(t.bnNeighbors, twoHop)
                   case None => None
    {
      var i := FindNeighborTuple(neighbor);
      if i == |list| {
        return None;
      }
      var bn := list[i].bnNeighbors;
      var k := 0;
      while k < |bn|
        invariant 0 <= k <= |bn|
        invariant FindTwoHop(bn, twoHop) == FindTwoHop(bn[k..], twoHop)
      {
        if bn[k].addr == twoHop {
          return Some(bn[k]);
        }
        k := k + 1;
      }
      return None;
    }
  }
}
