/** The ordering of neighbour tuples and the searches over a neighbour list (model/aodv-neighbor.h). */
module NeighborTuples {
  import opened Types

  // operator> on neighbour tuples.
  predicate Exceeds(a: NeighborTuple, b: NeighborTuple) {
    || a.weight > b.weight
    || (a.weight == b.weight && a.indicator == ConvertBreak && b.indicator != ConvertBreak)
    || (a.weight == b.weight && a.indicator == b.indicator && a.addr > b.addr)
  }

  // HigherWeight: the (weight, address) priority of one node over another.
  predicate Outranks(weight: U32, addr: Address, otherWeight: U32, other: Address) {
    weight > otherWeight || (weight == otherWeight && addr > other)
  }

  // No two tuples describe the same neighbour.
  ghost predicate Distinct(list: seq<NeighborTuple>) {
    forall i, j :: 0 <= i < j < |list| ==> list[i].addr != list[j].addr
  }

  // FindNeighborTuple: the position of the first tuple of a neighbour; the length of the list is the null pointer.
  function IndexOf(list: seq<NeighborTuple>, a: Address): (i: nat)
    ensures i <= |list|
    ensures i < |list| ==> list[i].addr == a
    ensures forall j :: 0 <= j < i ==> list[j].addr != a
  {
    if list == [] || list[0].addr == a then 0 else 1 + IndexOf(list[1..], a)
  }

  function Find(list: seq<NeighborTuple>, a: Address): (r: Option<NeighborTuple>)
    ensures r.Some? ==> r.value in list && r.value.addr == a
    ensures r.None? ==> forall t :: t in list ==> t.addr != a
  {
    if IndexOf(list, a) < |list| then Some(list[IndexOf(list, a)]) else None
  }

  lemma FindOfMember(list: seq<NeighborTuple>, t: NeighborTuple)
    requires Distinct(list) && t in list
    ensures Find(list, t.addr) == Some(t)
  {
    var i :| 0 <= i < |list| && list[i] == t;
    assert IndexOf(list, t.addr) == i;
  }

  lemma UniqueTuple(list: seq<NeighborTuple>, t: NeighborTuple, t': NeighborTuple)
    requires Distinct(list) && t in list && t' in list && t.addr == t'.addr
    ensures t == t'
  {
    FindOfMember(list, t);
    FindOfMember(list, t');
  }

  ghost predicate HasStatus(list: seq<NeighborTuple>, a: Address, status: NodeStatus) {
    exists t :: t in list && t.addr == a && t.status == status
  }

  lemma StatusFound(list: seq<NeighborTuple>, a: Address, status: NodeStatus)
    requires Distinct(list)
    ensures HasStatus(list, a, status) <==> Find(list, a).Some? && Find(list, a).value.status == status
  {
    if HasStatus(list, a, status) {
      var t :| t in list && t.addr == a && t.status == status;
      FindOfMember(list, t);
    }
  }

  lemma ExceedsIsStrictOrder(a: NeighborTuple, b: NeighborTuple, c: NeighborTuple)
    ensures !Exceeds(a, a)
    ensures Exceeds(a, b) ==> !Exceeds(b, a)
    ensures Exceeds(a, b) && Exceeds(b, c) ==> Exceeds(a, c)
  {
  }

  // The order is total except between an ALLOW and an OTHER tuple of equal weight.
  lemma ExceedsIsTotalExceptAllowOther(a: NeighborTuple, b: NeighborTuple)
    requires a.addr != b.addr
    ensures Exceeds(a, b) || Exceeds(b, a) <==>
            !(a.weight == b.weight && a.indicator != b.indicator && !a.indicator.ConvertBreak? &&
              !b.indicator.ConvertBreak?)
  {
  }

  // GetBestNeighbor: the tuple a left-to-right scan keeps.
  function Best(list: seq<NeighborTuple>, status: NodeStatus): (r: Option<NeighborTuple>)
    ensures r.Some? ==> r.value in list && r.value.status == status
    ensures r.None? ==> forall t :: t in list ==> t.status != status
  {
    if list == [] then None else
      var best := Best(list[..|list| - 1], status);
      var t := list[|list| - 1];
      assert list == list[..|list| - 1] + [t];
      if t.status == status && (best.None? || Exceeds(t, best.value)) then Some(t) else best
  }

  // Whatever the list, no tuple of the requested status exceeds the one the scan returns.
  lemma {:induction false} BestIsMaximal(list: seq<NeighborTuple>, status: NodeStatus)
    ensures Best(list, status).Some? ==>
              forall t :: t in list && t.status == status ==> !Exceeds(t, Best(list, status).value)
  {
    if list != [] {
      var front := list[..|list| - 1];
      var last := list[|list| - 1];
      BestIsMaximal(front, status);
      assert forall t :: t in list ==> t in front || t == last;
    }
  }

  // In fields: the answer has the greatest weight, is a BREAK node if any of that weight is, and has the greatest
  // address among those of its weight and indicator.
  lemma BestInFields(list: seq<NeighborTuple>, status: NodeStatus, t: NeighborTuple)
    requires t in list && t.status == status
    ensures Best(list, status).Some?
    ensures var best := Best(list, status).value;
            && t.weight <= best.weight
            && (t.weight == best.weight && t.indicator == ConvertBreak ==> best.indicator == ConvertBreak)
            && (t.weight == best.weight && t.indicator == best.indicator ==> t.addr <= best.addr)
  {
    BestIsMaximal(list, status);
    var best := Best(list, status).value;
    hide Best;
    assert !Exceeds(t, best);
  }

  // t is the tuple of its status with the greatest (weight, address).
  ghost predicate IsHighest(list: seq<NeighborTuple>, t: NeighborTuple) {
    && t in list
    && forall t' :: t' in list && t'.status == t.status && t' != t ==> Outranks(t.weight, t.addr, t'.weight, t'.addr)
  }

  // When the tuples of a status all carry the same indicator, the scan's answer does not depend on
  // the order of the list: it is the unique (weight, address) maximum.
  lemma BestIsHighest(list: seq<NeighborTuple>, status: NodeStatus, indicator: Indicator)
    requires Distinct(list)
    requires forall t :: t in list && t.status == status ==> t.indicator == indicator
    ensures Best(list, status).Some? ==> IsHighest(list, Best(list, status).value)
    ensures forall t: NeighborTuple :: t.status == status && IsHighest(list, t) ==> Best(list, status) == Some(t)
  {
    BestIsMaximal(list, status);
    if Best(list, status).Some? {
      var best := Best(list, status).value;
      forall t | t in list && t.status == status && t != best
        ensures Outranks(best.weight, best.addr, t.weight, t.addr)
      {
        if t.addr == best.addr {
          UniqueTuple(list, t, best);
        }
        assert !Exceeds(t, best);
      }
    }
  }
}
