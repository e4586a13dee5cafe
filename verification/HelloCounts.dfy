/** How many HELLOs keep a neighbour in the list: the counter of a tuple over whole runs. */
module HelloCounts {
  import opened Types
  import opened Lists
  import opened NeighborTuples
  import opened NeighborLists
  import opened BackboneRules
  import opened Backbone
  import opened NetworkRun
  import opened LongTimers
  import opened HelloDelivery

  ghost predicate Knows(s: RunState, n: Address, a: Address) {
    n in s.nodes && Find(s.nodes[n].local.list, a).Some?
  }

  // The HELLOs of a that n has taken in since its long timer last expired, or since it last did not know a: how one
  // step changes their number.
  ghost function Counted(s: RunState, step: Step, n: Address, a: Address, count: nat): nat {
    if !Knows(Next(s, step), n, a) then 0
    else if !Enabled(s, step) || step.n != n then count
    else if step.LongTimerStep? then 0
    else (if Knows(s, n, a) then count else 0) + if step.DeliverStep? && step.hello.origin == a then 1 else 0
  }

  ghost function Hellos(s: RunState, steps: seq<Step>, n: Address, a: Address, count: nat): nat
    decreases |steps|
  {
    if steps == [] then count else Hellos(Next(s, steps[0]), steps[1..], n, a, Counted(s, steps[0], n, a, count))
  }

  // The counter of the tuple is that number, in sixteen bits.
  ghost predicate CounterIs(s: RunState, n: Address, a: Address, count: nat) {
    Knows(s, n, a) ==> Find(s.nodes[n].local.list, a).value.helloCounter as nat == count % 0x1_0000
  }

  // ---------- one step at the node ----------

  ghost function CounterOf(list: seq<NeighborTuple>, a: Address): nat {
    match Find(list, a)
    case Some(t) => t.helloCounter as nat
    case None => 0
  }

  lemma FindOfList(list: seq<NeighborTuple>, a: Address)
    ensures Find(list, a).Some? ==> Find(list, a).value in list && Find(list, a).value.addr == a
  {
  }

  lemma LongTimerCounter(st: LocalState, minHello: U32, now: Time, a: Address)
    ensures CounterOf(LongTimer(st, minHello, now).list, a) == 0
  {
    hide LongTimer, Find;
    RoundKeeps(st, minHello, now);
    FindOfList(LongTimer(st, minHello, now).list, a);
  }

  lemma DeliveredCounter(st: LocalState, hello: Hello, enabled: bool, longInterval: Time, lifetime: Time, now: Time,
                         a: Address)
    requires Distinct(st.list)
    ensures var list := Greet(st, hello, enabled, longInterval, lifetime, now).list;
            if hello.origin == a then Find(list, a).Some? &&
              CounterOf(list, a) == (CounterOf(st.list, a) + 1) % 0x1_0000
            else Find(list, a) == Find(st.list, a)
  {
    hide Greet, Tells, Find;
    GreetHolds(st, hello, enabled, longInterval, lifetime, now);
  }

  lemma FilteredCounter(list: seq<NeighborTuple>, keep: NeighborTuple -> bool, a: Address)
    requires Distinct(list)
    ensures Find(Filter(list, keep), a).Some? ==> Find(Filter(list, keep), a) == Find(list, a)
  {
    hide Find;
    FindOfList(Filter(list, keep), a);
    if Find(Filter(list, keep), a).Some? {
      FindOfMember(list, Find(Filter(list, keep), a).value);
    }
  }

  lemma RefreshedCounter(list: seq<NeighborTuple>, b: Address, lifetime: Time, now: Time, a: Address)
    requires Distinct(list)
    ensures Find(Refreshed(list, b, lifetime, now), a).Some? ==>
              CounterOf(Refreshed(list, b, lifetime, now), a) == CounterOf(list, a)
  {
    hide Filter;
    var i := IndexOf(list, b);
    if i < |list| {
      hide Refreshed, Find;
      KnownAt(list, b);
      RefreshedHolds(list, b, list[i], lifetime, now);
      ChangedFinds(list, Refreshed(list, b, lifetime, now), b, list[i].(expire := Max(lifetime + now, list[i].expire)));
    } else {
      var l := list + [NewTuple(b, lifetime + now)];
      assert Distinct(l);
      FilteredCounter(l, Open(now), a);
      AppendedCounter(list, NewTuple(b, lifetime + now), a);
    }
  }

  lemma KnownAt(list: seq<NeighborTuple>, b: Address)
    requires IndexOf(list, b) < |list|
    ensures Find(list, b) == Some(list[IndexOf(list, b)])
  {
  }

  lemma AppendedCounter(list: seq<NeighborTuple>, t: NeighborTuple, a: Address)
    requires Distinct(list + [t]) && t.helloCounter == 0
    ensures CounterOf(list + [t], a) == CounterOf(list, a)
  {
    hide Find;
    var l := list + [t];
    FindOfList(l, a);
    FindOfList(list, a);
    if Find(list, a).Some? {
      FindOfMember(l, Find(list, a).value);
    } else if Find(l, a).Some? && Find(l, a).value != t {
      MissingStays(list, a);
    }
  }

  lemma MissingStays(list: seq<NeighborTuple>, a: Address)
    requires Find(list, a).None?
    ensures forall t :: t in list ==> t.addr != a
  {
  }

  lemma ClosedCounter(list: seq<NeighborTuple>, affected: set<Address>, now: Time, a: Address)
    requires Distinct(list)
    ensures var l := Filter(Closed(list, affected), Open(now));
            Find(l, a).Some? ==> CounterOf(l, a) == CounterOf(list, a)
  {
    hide Find, Filter;
    var c := Closed(list, affected);
    assert Distinct(c);
    FilteredCounter(c, Open(now), a);
    FindOfList(c, a);
    if Find(c, a).Some? {
      var i :| 0 <= i < |c| && c[i] == Find(c, a).value;
      assert list[i] in list && list[i].helloCounter == c[i].helloCounter && list[i].addr == a;
      FindOfMember(list, list[i]);
    }
  }

  lemma StepCounts(st: LocalState, minHello: U32, step: Step, a: Address)
    requires Distinct(st.list) && Find(LocalStep(st, minHello, step).list, a).Some?
    ensures var after := CounterOf(LocalStep(st, minHello, step).list, a);
            if step.LongTimerStep? then after == 0
            else if step.DeliverStep? && step.hello.origin == a then after == (CounterOf(st.list, a) + 1) % 0x1_0000
            else after == CounterOf(st.list, a)
  {
    hide LongTimer, Greet, Refreshed, Closed, Filter, Find, Distinct;
    match step
    case ShortTimerStep(_, _, _) =>
    case LongTimerStep(_, now) => LongTimerCounter(st, minHello, now, a);
    case DeliverStep(_, hello, enabled, longInterval, lifetime, now) =>
      DeliveredCounter(st, hello, enabled, longInterval, lifetime, now, a);
    case RefreshStep(_, neighbor, lifetime, now) => RefreshedCounter(st.list, neighbor, lifetime, now, a);
    case LinkErrorStep(_, affected, now) => ClosedCounter(st.list, affected, now, a);
    case InterfaceDownStep(_) => FindOfList([], a);
  }

  // ---------- runs ----------

  lemma NextCounts(s: RunState, step: Step, n: Address, a: Address, count: nat)
    requires Calm(s) && CounterIs(s, n, a, count)
    ensures CounterIs(Next(s, step), n, a, Counted(s, step, n, a, count))
  {
    hide LocalStep, Find, CalmTuple;
    if Enabled(s, step) && step.n == n && Knows(Next(s, step), n, a) {
      var node := s.nodes[n];
      assert Distinct(node.local.list);
      StepCounts(node.local, node.minHello, step, a);
    }
  }

  lemma {:induction false} RunCounts(s: RunState, steps: seq<Step>, n: Address, a: Address, count: nat)
    requires Calm(s) && CounterIs(s, n, a, count)
    ensures CounterIs(Run(s, steps), n, a, Hellos(s, steps, n, a, count))
    decreases |steps|
  {
    hide Calm, CounterIs, Next, Counted;
    if steps != [] {
      NextKeepsCalm(s, steps[0]);
      NextCounts(s, steps[0], n, a, count);
      RunCounts(Next(s, steps[0]), steps[1..], n, a, Counted(s, steps[0], n, a, count));
    }
  }

  // In every reachable state, a neighbour stays in the list when the long timer expires exactly if enough of its
  // HELLOs were taken in since that timer last expired, and it is neither expired nor closed.
  lemma KeptIffHeardEnough(s: RunState, steps: seq<Step>, n: Address, a: Address, now: Time)
    requires Initial(s) && n in Run(s, steps).nodes
    ensures var node := Run(s, steps).nodes[n];
            Find(LongTimer(node.local, node.minHello, now).list, a).Some? <==>
              && Find(node.local.list, a).Some?
              && Hellos(s, steps, n, a, 0) % 0x1_0000 >= node.minHello as nat
              && Find(node.local.list, a).value.expire >= now && !Find(node.local.list, a).value.close
  {
    hide Run, LongTimer, Hellos, Find;
    InitiallyUnknown(s, n, a);
    RunStaysCalm(s, steps);
    RunCounts(s, steps, n, a, 0);
    var node := Run(s, steps).nodes[n];
    KeptHere(node.local, node.minHello, now, a);
  }

  lemma InitiallyUnknown(s: RunState, n: Address, a: Address)
    requires Initial(s)
    ensures !Knows(s, n, a)
  {
  }

  lemma KeptHere(st: LocalState, minHello: U32, now: Time, a: Address)
    requires Distinct(st.list)
    ensures Find(LongTimer(st, minHello, now).list, a).Some? <==>
            && Find(st.list, a).Some? && Find(st.list, a).value.helloCounter >= minHello
            && Find(st.list, a).value.expire >= now && !Find(st.list, a).value.close
  {
    hide LongTimer, Find;
    var after := LongTimer(st, minHello, now).list;
    RoundKeeps(st, minHello, now);
    FindOfList(after, a);
    FindOfList(st.list, a);
    if Find(after, a).Some? {
      var t :| t in st.list && t.helloCounter >= minHello && t.expire >= now && !t.close
               && Find(after, a).value == t.(helloCounter := 0);
      FindOfMember(st.list, t);
    } else {
      MissingStays(after, a);
      if Find(st.list, a).Some? {
        var t := Find(st.list, a).value;
        assert t.(helloCounter := 0) !in after;
      }
    }
  }
}
