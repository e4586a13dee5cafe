/** The queue of packets waiting for a route (model/aodv-rqueue.h and model/aodv-rqueue.cc). */
module RequestQueues {
  import opened Types
  import opened Lists

  // A queued packet: its uid, its destination, the output interface it is tagged with, if any, and the time
  // at which it expires.
  datatype QueueEntry = QueueEntry(uid: nat, dst: Address, oif: Option<int>, expire: Time)

  // ---------- the queue as a value ----------

  // The entries, and those reported to their error callback, in order.
  datatype QueueState = QueueState(queue: seq<QueueEntry>, dropped: seq<QueueEntry>)

  function Live(now: Time): QueueEntry -> bool {
    (e: QueueEntry) => !(e.expire - now < 0)
  }

  function Outdated(now: Time): QueueEntry -> bool {
    (e: QueueEntry) => e.expire - now < 0
  }

  function For(dst: Address): QueueEntry -> bool {
    (e: QueueEntry) => e.dst == dst
  }

  function NotFor(dst: Address): QueueEntry -> bool {
    (e: QueueEntry) => e.dst != dst
  }

  function Purged(s: QueueState, now: Time): QueueState {
    QueueState(Filter(s.queue, Live(now)), s.dropped + Filter(s.queue, Outdated(now)))
  }

  predicate SamePacket(a: QueueEntry, b: QueueEntry) {
    a.uid == b.uid && a.dst == b.dst
  }

  predicate Holds(queue: seq<QueueEntry>, e: QueueEntry) {
    exists i :: 0 <= i < |queue| && SamePacket(queue[i], e)
  }

  function Accepts(s: QueueState, e: QueueEntry, now: Time): bool {
    !Holds(Purged(s, now).queue, e)
  }

  // A packet that is taken finds a free place or a front to give up.
  predicate HasRoom(s: QueueState, e: QueueEntry, maxLen: nat, now: Time) {
    maxLen > 0 || Purged(s, now).queue != [] || !Accepts(s, e, now)
  }

  // A full queue gives up its front; a packet already queued for the destination is refused.
  function Enqueued(s: QueueState, e: QueueEntry, maxLen: nat, timeout: Time, now: Time): QueueState
    requires HasRoom(s, e, maxLen, now)
  {
    var p := Purged(s, now);
    var added := e.(expire := timeout + now);
    if Holds(p.queue, e) then p
    else if |p.queue| == maxLen then QueueState(p.queue[1..] + [added], p.dropped + [p.queue[0]])
    else QueueState(p.queue + [added], p.dropped)
  }

  // The first entry for a destination; the length of the queue when there is none.
  function FirstFor(queue: seq<QueueEntry>, dst: Address): (i: nat)
    ensures i <= |queue|
    ensures i < |queue| ==> queue[i].dst == dst
    ensures forall j :: 0 <= j < i ==> queue[j].dst != dst
  {
    if queue == [] || queue[0].dst == dst then 0 else 1 + FirstFor(queue[1..], dst)
  }

  function Removed(queue: seq<QueueEntry>, i: nat): seq<QueueEntry> {
    if i < |queue| then queue[..i] + queue[i + 1..] else queue
  }

  function Dequeued(s: QueueState, dst: Address, now: Time): QueueState {
    var p := Purged(s, now);
    p.(queue := Removed(p.queue, FirstFor(p.queue, dst)))
  }

  function DroppedFor(s: QueueState, dst: Address, now: Time): QueueState {
    var p := Purged(s, now);
    QueueState(Filter(p.queue, NotFor(dst)), p.dropped + Filter(p.queue, For(dst)))
  }

  // ---------- the queue ----------

  class RequestQueue {
    var queue: seq<QueueEntry>
    var maxLen: nat
    var queueTimeout: Time
    ghost var dropped: seq<QueueEntry>

    constructor (maxLen: nat, routeToQueueTimeout: Time)
      ensures State() == QueueState([], []) && this.maxLen == maxLen && queueTimeout == routeToQueueTimeout
    {
      queue, this.maxLen, queueTimeout := [], maxLen, routeToQueueTimeout;
      dropped := [];
    }

    ghost function State(): QueueState
      reads this
    {
      QueueState(queue, dropped)
    }

    // Calls the error callback of an entry.
    method Drop(e: QueueEntry)
      modifies this`dropped
      ensures dropped == old(dropped) + [e]
    {
      dropped := dropped + [e];
    }

    method Purge(now: Time)
      modifies this`queue, this`dropped
      ensures State() == Purged(old(State()), now)
    {
      var k := 0;
      while k < |queue|
        invariant 0 <= k <= |queue| && queue == old(queue)
        invariant dropped == old(dropped) + Filter(queue[..k], Outdated(now))
      {
        FilterStep(queue, k, Outdated(now));
        if queue[k].expire - now < 0 {
          Drop(queue[k]);
        }
        k := k + 1;
      }
      assert queue[..k] == queue;
      queue := Filter(queue, Live(now));
    }

    method GetSize(now: Time) returns (size: nat)
      modifies this`queue, this`dropped
      ensures State() == Purged(old(State()), now) && size == |queue|
    {
      Purge(now);
      size := |queue|;
    }

    // Without room the source would evict from an empty queue.
    method Enqueue(entry: QueueEntry, now: Time) returns (accepted: bool)
      requires HasRoom(State(), entry, maxLen, now)
      modifies this`queue, this`dropped
      ensures accepted == Accepts(old(State()), entry, now)
      ensures State() == Enqueued(old(State()), entry, maxLen, queueTimeout, now)
    {
      Purge(now);
      var k := 0;
      while k < |queue|
        invariant 0 <= k <= |queue|
        invariant forall j :: 0 <= j < k ==> !SamePacket(queue[j], entry)
      {
        if queue[k].uid == entry.uid && queue[k].dst == entry.dst {
          assert SamePacket(queue[k], entry);
          return false;
        }
        k := k + 1;
      }
      var e := entry.(expire := queueTimeout + now);
      if |queue| == maxLen {
        Drop(queue[0]);
        queue := queue[1..];
      }
      queue := queue + [e];
      return true;
    }

    method Dequeue(dst: Address, now: Time) returns (found: bool, entry: QueueEntry)
      modifies this`queue, this`dropped
      ensures State() == Dequeued(old(State()), dst, now)
      ensures var p := Purged(old(State()), now).queue;
              && (found <==> FirstFor(p, dst) < |p|)
              && (found ==> entry == p[FirstFor(p, dst)])
    {
      Purge(now);
      entry := QueueEntry(0, 0, None, 0);
      var k := 0;
      while k < |queue|
        invariant 0 <= k <= |queue|
        invariant forall j :: 0 <= j < k ==> queue[j].dst != dst
      {
        if queue[k].dst == dst {
          entry := queue[k];
          queue := queue[..k] + queue[k + 1..];
          return true, entry;
        }
        k := k + 1;
      }
      return false, entry;
    }

    method DropPacketWithDst(dst: Address, now: Time)
      modifies this`queue, this`dropped
      ensures State() == DroppedFor(old(State()), dst, now)
    {
      Purge(now);
      ReportAllFor(dst);
      queue := Filter(queue, NotFor(dst));
    }

    // Its loop.
    method ReportAllFor(dst: Address)
      modifies this`dropped
      ensures dropped == old(dropped) + Filter(queue, For(dst))
    {
      var k := 0;
      while k < |queue|
        invariant 0 <= k <= |queue|
        invariant dropped == old(dropped) + Filter(queue[..k], For(dst))
      {
        FilterStep(queue, k, For(dst));
        if queue[k].dst == dst {
          Drop(queue[k]);
        }
        k := k + 1;
      }
      assert queue[..k] == queue;
    }

    method Find(dst: Address) returns (found: bool)
      ensures found <==> exists e :: e in queue && e.dst == dst
    {
      var k := 0;
      while k < |queue|
        invariant 0 <= k <= |queue|
        invariant forall j :: 0 <= j < k ==> queue[j].dst != dst
      {
        if queue[k].dst == dst {
          assert queue[k] in queue;
          return true;
        }
        k := k + 1;
      }
      return false;
    }

    // Forwards the packets waiting for dst over a route with the given output interface. A packet tagged for
    // another interface is taken out, not forwarded and not reported, and ends the loop.
    method SendPacketFromQueue(dst: Address, routeOif: int, now: Time) returns (ghost forwarded: seq<QueueEntry>)
      modifies this`queue, this`dropped
      ensures queue == Sent(Purged(old(State()), now).queue, dst, routeOif).left
      ensures forwarded == Sent(Purged(old(State()), now).queue, dst, routeOif).forwarded
      ensures dropped == Purged(old(State()), now).dropped
    {
      hide Filter;
      forwarded := [];
      var found, entry := Dequeue(dst, now);
      ghost var start := Purged(old(State()), now);
      PurgedIsLive(old(State()), now);
      ghost var left := start.queue;
      while found
        invariant State() == QueueState(Removed(left, FirstFor(left, dst)), start.dropped)
        invariant found <==> FirstFor(left, dst) < |left|
        invariant found ==> entry == left[FirstFor(left, dst)]
        invariant forall e :: e in left ==> Live(now)(e)
        invariant Sent(start.queue, dst, routeOif).left == Sent(left, dst, routeOif).left
        invariant Sent(start.queue, dst, routeOif).forwarded == forwarded + Sent(left, dst, routeOif).forwarded
        decreases |left|
      {
        if Mismatched(entry, routeOif) {
          return;
        }
        ghost var rest := Sent(Removed(left, FirstFor(left, dst)), dst, routeOif).forwarded;
        assert forwarded + ([entry] + rest) == (forwarded + [entry]) + rest;
        forwarded := forwarded + [entry];
        left := Removed(left, FirstFor(left, dst));
        PurgeOfLive(State(), now);
        found, entry := Dequeue(dst, now);
      }
    }
  }

  // ---------- sending from the queue ----------

  predicate Mismatched(e: QueueEntry, routeOif: int) {
    e.oif.Some? && e.oif.value != -1 && e.oif.value != routeOif
  }

  datatype SendResult = SendResult(left: seq<QueueEntry>, forwarded: seq<QueueEntry>)

  function Sent(queue: seq<QueueEntry>, dst: Address, routeOif: int): SendResult
    decreases |queue|
  {
    var i := FirstFor(queue, dst);
    if i == |queue| then SendResult(queue, [])
    else if Mismatched(queue[i], routeOif) then SendResult(Removed(queue, i), [])
    else
      var rest := Sent(Removed(queue, i), dst, routeOif);
      SendResult(rest.left, [queue[i]] + rest.forwarded)
  }

  lemma PurgedIsLive(s: QueueState, now: Time)
    ensures forall e :: e in Purged(s, now).queue ==> Live(now)(e)
  {
  }

  lemma {:induction false} NoneOutdated(queue: seq<QueueEntry>, now: Time)
    requires forall e :: e in queue ==> Live(now)(e)
    ensures Filter(queue, Outdated(now)) == []
  {
    if queue != [] {
      NoneOutdated(queue[1..], now);
    }
  }

  lemma PurgeOfLive(s: QueueState, now: Time)
    requires forall e :: e in s.queue ==> Live(now)(e)
    ensures Purged(s, now) == s
  {
    FilterAll(s.queue, Live(now));
    NoneOutdated(s.queue, now);
  }

  lemma SplitAtFirst(queue: seq<QueueEntry>, dst: Address)
    requires FirstFor(queue, dst) < |queue|
    ensures var i := FirstFor(queue, dst);
            && queue == queue[..i] + [queue[i]] + queue[i + 1..]
            && Removed(queue, i) == queue[..i] + queue[i + 1..]
            && queue[i].dst == dst
            && Filter(queue[..i], For(dst)) == [] && Filter(queue[..i], NotFor(dst)) == queue[..i]
  {
    hide Filter;
    NoneFor(queue[..FirstFor(queue, dst)], dst);
  }

  lemma FilterRemoved(queue: seq<QueueEntry>, dst: Address)
    requires FirstFor(queue, dst) < |queue|
    ensures var i := FirstFor(queue, dst);
            && Filter(queue, For(dst)) == [queue[i]] + Filter(Removed(queue, i), For(dst))
            && Filter(queue, NotFor(dst)) == Filter(Removed(queue, i), NotFor(dst))
  {
    hide Filter, FirstFor, Removed;
    var i := FirstFor(queue, dst);
    SplitAtFirst(queue, dst);
    FilterAtFirst(queue[..i], queue[i], queue[i + 1..], For(dst));
    FilterSkips(queue[..i], queue[i], queue[i + 1..], NotFor(dst));
  }

  lemma FilterAtFirst(before: seq<QueueEntry>, e: QueueEntry, after: seq<QueueEntry>, p: QueueEntry -> bool)
    requires Filter(before, p) == [] && p(e)
    ensures Filter(before + [e] + after, p) == [e] + Filter(before + after, p)
  {
    hide Filter;
    FilterAppend(before, e, p);
    FilterConcat(before + [e], after, p);
    FilterConcat(before, after, p);
    assert [] + Filter(after, p) == Filter(after, p);
  }

  lemma FilterSkips(before: seq<QueueEntry>, e: QueueEntry, after: seq<QueueEntry>, p: QueueEntry -> bool)
    requires !p(e)
    ensures Filter(before + [e] + after, p) == Filter(before + after, p)
  {
    hide Filter;
    FilterAppend(before, e, p);
    FilterConcat(before + [e], after, p);
    FilterConcat(before, after, p);
    assert Filter(before, p) + [] == Filter(before, p);
  }

  // Everything waiting for the destination is forwarded, in arrival order, and nothing is left for it,
  // exactly when none of those packets is tagged for another interface.
  lemma {:induction false} SentInOrder(queue: seq<QueueEntry>, dst: Address, routeOif: int)
    ensures var r := Sent(queue, dst, routeOif);
            && r.forwarded <= Filter(queue, For(dst))
            && (r.forwarded == Filter(queue, For(dst)) <==>
               forall e :: e in queue && e.dst == dst ==> e.oif.None? || e.oif.value == -1 || e.oif.value == routeOif)
            && Filter(r.left, NotFor(dst)) == Filter(queue, NotFor(dst))
            && (r.forwarded == Filter(queue, For(dst)) ==> r.left == Filter(queue, NotFor(dst)))
    decreases |queue|
  {
    var i := FirstFor(queue, dst);
    if i == |queue| {
      NoneFor(queue, dst);
    } else {
      FilterRemoved(queue, dst);
      var rest := Removed(queue, i);
      assert forall e :: e in queue <==> e == queue[i] || e in rest;
      if !Mismatched(queue[i], routeOif) {
        SentInOrder(rest, dst, routeOif);
      } else {
        assert queue[i] in queue;
      }
    }
  }

  lemma NoneFor(queue: seq<QueueEntry>, dst: Address)
    requires forall e :: e in queue ==> e.dst != dst
    ensures Filter(queue, For(dst)) == [] && Filter(queue, NotFor(dst)) == queue
  {
    FilterAll(queue, NotFor(dst));
    if Filter(queue, For(dst)) != [] {
      assert Filter(queue, For(dst))[0] in Filter(queue, For(dst));
    }
  }

  // ---------- what is refused, kept and reported ----------

  // A packet is refused exactly if one with its uid and destination is queued and has not expired. A packet that is
  // taken goes to the end, to expire the timeout from now.
  lemma AcceptsIff(s: QueueState, e: QueueEntry, maxLen: nat, timeout: Time, now: Time)
    requires HasRoom(s, e, maxLen, now)
    ensures Accepts(s, e, now) <==> !exists q :: q in s.queue && q.uid == e.uid && q.dst == e.dst && q.expire >= now
    ensures var r := Enqueued(s, e, maxLen, timeout, now);
            Accepts(s, e, now) ==>
              r.queue != [] && r.queue[|r.queue| - 1] == QueueEntry(e.uid, e.dst, e.oif, now + timeout)
  {
    hide Filter;
    var p := Purged(s, now).queue;
    if q :| q in s.queue && q.uid == e.uid && q.dst == e.dst && q.expire >= now {
      assert q in p;
      var i :| 0 <= i < |p| && p[i] == q;
      assert SamePacket(p[i], e);
    }
    if Holds(p, e) {
      var i :| 0 <= i < |p| && SamePacket(p[i], e);
      assert p[i] in p;
    }
  }

  // The entries reported between two states.
  ghost predicate Reports(s: QueueState, s': QueueState, which: QueueEntry -> bool) {
    && s.dropped <= s'.dropped
    && forall e :: e in s'.dropped[|s.dropped|..] <==> e in s.queue && which(e)
  }

  // A purge reports exactly the packets whose time is over and keeps exactly the others.
  lemma PurgeReports(s: QueueState, now: Time)
    ensures Reports(s, Purged(s, now), (e: QueueEntry) => e.expire < now)
    ensures forall e :: e in Purged(s, now).queue <==> e in s.queue && e.expire >= now
  {
    hide Filter;
    assert Purged(s, now).dropped[|s.dropped|..] == Filter(s.queue, Outdated(now));
  }

  // Dropping a destination reports also exactly the packets for it, and keeps exactly the unexpired ones for others.
  lemma DropReports(s: QueueState, dst: Address, now: Time)
    ensures Reports(s, DroppedFor(s, dst, now), (e: QueueEntry) => e.expire < now || e.dst == dst)
    ensures forall e :: e in DroppedFor(s, dst, now).queue <==> e in s.queue && e.expire >= now && e.dst != dst
  {
    hide Filter;
    var p := Purged(s, now);
    assert DroppedFor(s, dst, now).dropped[|s.dropped|..] == Filter(s.queue, Outdated(now)) + Filter(p.queue, For(dst));
  }
}
