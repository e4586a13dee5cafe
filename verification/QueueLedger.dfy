/** Whole runs of the request queue: every accepted packet is accounted for. */
module QueueLedger {
  import opened Types
  import opened Lists
  import opened RequestQueues

  datatype QueueOp = EnqueueOp(e: QueueEntry) | DequeueOp(dst: Address) | DropOp(dst: Address) | SizeOp

  datatype QueueEvent = QueueEvent(at: Time, op: QueueOp)

  // The queue with its error log, and the packets it has accepted and handed out.
  datatype Ledger = Ledger(state: QueueState, accepted: seq<QueueEntry>, delivered: seq<QueueEntry>)

  function Apply(l: Ledger, maxLen: nat, timeout: Time, e: QueueEvent): Ledger
    requires maxLen > 0
  {
    match e.op
    case EnqueueOp(entry) =>
      Ledger(Enqueued(l.state, entry, maxLen, timeout, e.at),
             if Accepts(l.state, entry, e.at) then l.accepted + [entry.(expire := timeout + e.at)] else l.accepted,
             l.delivered)
    case DequeueOp(dst) =>
      var p := Purged(l.state, e.at).queue;
      var i := FirstFor(p, dst);
      Ledger(Dequeued(l.state, dst, e.at), l.accepted, if i < |p| then l.delivered + [p[i]] else l.delivered)
    case DropOp(dst) => l.(state := DroppedFor(l.state, dst, e.at))
    case SizeOp => l.(state := Purged(l.state, e.at))
  }

  function Run(l: Ledger, maxLen: nat, timeout: Time, events: seq<QueueEvent>): Ledger
    requires maxLen > 0
    decreases |events|
  {
    if events == [] then l else Run(Apply(l, maxLen, timeout, events[0]), maxLen, timeout, events[1..])
  }

  ghost predicate InOrder(events: seq<QueueEvent>, from: Time)
    decreases |events|
  {
    events == [] || (from <= events[0].at && InOrder(events[1..], events[0].at))
  }

  // ---------- what every reachable ledger satisfies ----------

  // Oldest first, and no packet twice for the same destination.
  ghost predicate Orderly(queue: seq<QueueEntry>) {
    forall i, j :: 0 <= i < j < |queue| ==> queue[i].expire <= queue[j].expire && !SamePacket(queue[i], queue[j])
  }

  ghost predicate Bounded(queue: seq<QueueEntry>, bound: Time) {
    forall e :: e in queue ==> e.expire <= bound
  }

  // Every accepted packet is queued, handed out or reported, and exactly once.
  ghost predicate Balanced(l: Ledger) {
    multiset(l.accepted) == multiset(l.state.queue) + multiset(l.delivered) + multiset(l.state.dropped)
  }

  ghost predicate Sound(l: Ledger, maxLen: nat, timeout: Time, last: Time) {
    Balanced(l) && Orderly(l.state.queue) && |l.state.queue| <= maxLen && Bounded(l.state.queue, last + timeout)
  }

  lemma OrderlyCons(x: QueueEntry, queue: seq<QueueEntry>)
    requires Orderly(queue) && forall e :: e in queue ==> x.expire <= e.expire && !SamePacket(x, e)
    ensures Orderly([x] + queue)
  {
    assert forall i :: 0 <= i < |queue| ==> queue[i] in queue;
  }

  lemma {:induction false} FilterOrderly(queue: seq<QueueEntry>, p: QueueEntry -> bool)
    requires Orderly(queue)
    ensures Orderly(Filter(queue, p))
  {
    if queue != [] {
      FilterOrderly(queue[1..], p);
      assert forall e :: e in queue[1..] ==> queue[0].expire <= e.expire && !SamePacket(queue[0], e);
      OrderlyCons(queue[0], Filter(queue[1..], p));
      assert [] + Filter(queue[1..], p) == Filter(queue[1..], p);
    }
  }

  lemma {:induction false} FilterParts(queue: seq<QueueEntry>, p: QueueEntry -> bool, q: QueueEntry -> bool)
    requires forall e :: p(e) <==> !q(e)
    ensures multiset(Filter(queue, p)) + multiset(Filter(queue, q)) == multiset(queue)
  {
    if queue != [] {
      FilterParts(queue[1..], p, q);
      PartsStep(queue[0], Filter(queue[1..], p), Filter(queue[1..], q), queue[1..]);
      assert queue == [queue[0]] + queue[1..];
    }
  }

  lemma PartsStep(x: QueueEntry, a: seq<QueueEntry>, b: seq<QueueEntry>, rest: seq<QueueEntry>)
    requires multiset(a) + multiset(b) == multiset(rest)
    ensures multiset([x] + a) + multiset(b) == multiset([x] + rest)
    ensures multiset(a) + multiset([x] + b) == multiset([x] + rest)
    ensures [] + a == a && [] + b == b
  {
  }

  lemma PurgedSound(l: Ledger, maxLen: nat, timeout: Time, last: Time, now: Time)
    requires Sound(l, maxLen, timeout, last) && last <= now
    ensures Sound(l.(state := Purged(l.state, now)), maxLen, timeout, now)
  {
    hide Filter;
    FilterOrderly(l.state.queue, Live(now));
    FilterParts(l.state.queue, Live(now), Outdated(now));
  }

  lemma RemovedOrderly(queue: seq<QueueEntry>, i: nat)
    requires Orderly(queue) && i < |queue|
    ensures Orderly(Removed(queue, i))
    ensures forall e :: e in Removed(queue, i) ==> e in queue
    ensures multiset(Removed(queue, i)) + multiset{queue[i]} == multiset(queue)
  {
    assert queue == queue[..i] + [queue[i]] + queue[i + 1..];
  }

  lemma RemovedSound(l: Ledger, maxLen: nat, timeout: Time, last: Time, i: nat)
    requires Sound(l, maxLen, timeout, last) && i < |l.state.queue|
    ensures var q := l.state.queue;
            Sound(Ledger(l.state.(queue := Removed(q, i)), l.accepted, l.delivered + [q[i]]), maxLen, timeout, last)
    ensures var q := l.state.queue;
            Sound(l.(state := QueueState(Removed(q, i), l.state.dropped + [q[i]])), maxLen, timeout, last)
  {
    hide Orderly;
    RemovedOrderly(l.state.queue, i);
  }

  lemma AppendSound(l: Ledger, maxLen: nat, timeout: Time, now: Time, e: QueueEntry)
    requires Sound(l, maxLen, timeout, now) && |l.state.queue| < maxLen
    requires e.expire == timeout + now && forall i :: 0 <= i < |l.state.queue| ==> !SamePacket(l.state.queue[i], e)
    ensures Sound(Ledger(l.state.(queue := l.state.queue + [e]), l.accepted + [e], l.delivered), maxLen, timeout, now)
  {
    var q := l.state.queue;
    forall i | 0 <= i < |q|
      ensures q[i].expire <= e.expire
    {
      assert q[i] in q;
    }
  }

  lemma EnqueueSound(l: Ledger, maxLen: nat, timeout: Time, now: Time, entry: QueueEntry)
    requires maxLen > 0 && Sound(l.(state := Purged(l.state, now)), maxLen, timeout, now)
    ensures Sound(Apply(l, maxLen, timeout, QueueEvent(now, EnqueueOp(entry))), maxLen, timeout, now)
  {
    hide Sound, Purged;
    var p := l.(state := Purged(l.state, now));
    var q := p.state.queue;
    var e := entry.(expire := timeout + now);
    if Accepts(l.state, entry, now) {
      assert forall i :: 0 <= i < |q| ==> !SamePacket(q[i], e);
      if |q| == maxLen {
        RemovedSound(p, maxLen, timeout, now, 0);
        assert Removed(q, 0) == q[1..];
        AppendSound(p.(state := QueueState(q[1..], p.state.dropped + [q[0]])), maxLen, timeout, now, e);
      } else {
        SoundFits(p, maxLen, timeout, now);
        AppendSound(p, maxLen, timeout, now, e);
      }
    }
  }

  lemma SoundFits(l: Ledger, maxLen: nat, timeout: Time, now: Time)
    requires Sound(l, maxLen, timeout, now)
    ensures |l.state.queue| <= maxLen
  {
  }

  lemma DroppedSound(l: Ledger, maxLen: nat, timeout: Time, now: Time, dst: Address)
    requires Sound(l, maxLen, timeout, now)
    ensures Sound(l.(state := QueueState(Filter(l.state.queue, NotFor(dst)),
                                         l.state.dropped + Filter(l.state.queue, For(dst)))),
                  maxLen, timeout, now)
  {
    hide Filter;
    FilterOrderly(l.state.queue, NotFor(dst));
    FilterParts(l.state.queue, NotFor(dst), For(dst));
  }

  lemma ApplySound(l: Ledger, maxLen: nat, timeout: Time, last: Time, e: QueueEvent)
    requires maxLen > 0 && Sound(l, maxLen, timeout, last) && last <= e.at
    ensures Sound(Apply(l, maxLen, timeout, e), maxLen, timeout, e.at)
  {
    hide Sound, Purged;
    PurgedSound(l, maxLen, timeout, last, e.at);
    var p := l.(state := Purged(l.state, e.at));
    match e.op
    case EnqueueOp(entry) => EnqueueSound(l, maxLen, timeout, e.at, entry);
    case DequeueOp(dst) =>
      var i := FirstFor(p.state.queue, dst);
      if i < |p.state.queue| {
        RemovedSound(p, maxLen, timeout, e.at, i);
      }
    case DropOp(dst) => DroppedSound(p, maxLen, timeout, e.at, dst);
    case SizeOp =>
  }

  ghost function LastTime(events: seq<QueueEvent>, from: Time): Time {
    if events == [] then from else events[|events| - 1].at
  }

  // Over any run at nondecreasing times with a fixed positive length and a fixed timeout, the queue keeps
  // its bound, its order and its packets.
  lemma {:induction false} RunSound(l: Ledger, maxLen: nat, timeout: Time, last: Time, events: seq<QueueEvent>)
    requires maxLen > 0 && Sound(l, maxLen, timeout, last) && InOrder(events, last)
    ensures Sound(Run(l, maxLen, timeout, events), maxLen, timeout, LastTime(events, last))
    decreases |events|
  {
    hide Sound, Apply;
    if events != [] {
      ApplySound(l, maxLen, timeout, last, events[0]);
      RunSound(Apply(l, maxLen, timeout, events[0]), maxLen, timeout, events[0].at, events[1..]);
    }
  }

  // What that means for a queue that starts empty.
  lemma PacketsAreConserved(maxLen: nat, timeout: Time, start: Time, events: seq<QueueEvent>)
    requires maxLen > 0 && InOrder(events, start)
    ensures var l := Run(Ledger(QueueState([], []), [], []), maxLen, timeout, events);
            && Balanced(l) && Orderly(l.state.queue) && |l.state.queue| <= maxLen
  {
    hide Run;
    RunSound(Ledger(QueueState([], []), [], []), maxLen, timeout, start, events);
  }

  // When a full queue takes a packet, the one it gives up is the one that would expire first.
  lemma EvictsOldest(l: Ledger, maxLen: nat, timeout: Time, last: Time, now: Time, entry: QueueEntry)
    requires maxLen > 0 && Sound(l, maxLen, timeout, last) && last <= now
    requires Accepts(l.state, entry, now) && |Purged(l.state, now).queue| == maxLen
    ensures var p := Purged(l.state, now);
            var after := Enqueued(l.state, entry, maxLen, timeout, now);
            && |after.dropped| == |p.dropped| + 1
            && forall e :: e in after.queue ==> after.dropped[|p.dropped|].expire <= e.expire
  {
    hide Purged;
    PurgedSound(l, maxLen, timeout, last, now);
    var q := Purged(l.state, now).queue;
    assert q[0] in q;
    assert forall e :: e in q[1..] ==> q[0].expire <= e.expire;
  }

  // With the length set below the current size the bound is lost: the source tests for equality only.
  lemma ShrunkQueueOverflows(s: QueueState, e: QueueEntry, maxLen: nat, timeout: Time, now: Time)
    requires maxLen > 0 && Accepts(s, e, now)
    ensures |Enqueued(s, e, maxLen, timeout, now).queue| <= maxLen <==> |Purged(s, now).queue| <= maxLen
  {
    hide Purged;
  }
}
