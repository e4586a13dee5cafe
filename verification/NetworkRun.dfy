/** Whole runs of a network of nodes: what every reachable state keeps, and what it means for the election. */
module NetworkRun {
  import opened Types
  import opened Lists
  import opened NeighborTuples
  import opened NeighborLists
  import opened BackboneRules
  import opened Backbone
  import opened HelloHeaders
  import opened Networks
  import opened Joining

  datatype NodeState = NodeState(local: LocalState, minHello: U32)

  // The nodes, and every HELLO sent so far as a receiver reads it. A message may be delivered at any
  // later time, to any node, any number of times or never.
  datatype RunState = RunState(nodes: map<Address, NodeState>, hellos: set<Hello>)

  datatype Step =
    | ShortTimerStep(n: Address, sequenceNumber: U16, stamp: Time)
    | LongTimerStep(n: Address, now: Time)
    | DeliverStep(n: Address, hello: Hello, enabled: bool, longInterval: Time, lifetime: Time, now: Time)
    | RefreshStep(n: Address, neighbor: Address, lifetime: Time, now: Time)
    | LinkErrorStep(n: Address, affected: set<Address>, now: Time)
    | InterfaceDownStep(n: Address)

  // A HELLO as it arrives: made into a header, written and read back.
  ghost function OnAir(h: Hello, stamp: Time): Hello {
    h.(bnNeighbors := Stamped(
         if ListSize(h.status, h.bnNeighbors) as nat <= |Made(h).bnNeighbors|
         then Made(h).bnNeighbors[..ListSize(h.status, h.bnNeighbors)] else [], stamp))
  }

  // It is what the codec gives.
  lemma OnAirIsDecoded(h: Hello, stamp: Time)
    ensures var read := HelloAt(HelloBytes(Made(h), ListSize(h.status, h.bnNeighbors)), 0, stamp);
            read.Some? && read.value.hello == OnAir(h, stamp)
  {
    hide HelloAt, HelloBytes;
    MadeRoundTrip([], h, [], stamp);
    var bytes := HelloBytes(Made(h), ListSize(h.status, h.bnNeighbors));
    assert [] + bytes + [] == bytes;
  }

  ghost function LocalStep(st: LocalState, minHello: U32, step: Step): LocalState {
    match step
    case ShortTimerStep(_, _, _) => Weighed(Recounted(st))
    case LongTimerStep(_, now) => LongTimer(st, minHello, now)
    case DeliverStep(_, hello, enabled, longInterval, lifetime, now) =>
      Greet(st, hello, enabled, longInterval, lifetime, now)
    case RefreshStep(_, neighbor, lifetime, now) => st.(list := Refreshed(st.list, neighbor, lifetime, now))
    case LinkErrorStep(_, affected, now) => st.(list := Filter(Closed(st.list, affected), Open(now)))
    case InterfaceDownStep(_) => st.(list := [])
  }

  ghost predicate Enabled(s: RunState, step: Step) {
    step.n in s.nodes && (step.DeliverStep? ==> step.hello in s.hellos)
  }

  ghost function Next(s: RunState, step: Step): RunState {
    if !Enabled(s, step) then s else
      var node := s.nodes[step.n];
      var local := LocalStep(node.local, node.minHello, step);
      RunState(s.nodes[step.n := node.(local := local)],
               if step.ShortTimerStep? then s.hellos + {OnAir(Greeting(local, step.sequenceNumber), step.stamp)}
               else s.hellos)
  }

  ghost function Run(s: RunState, steps: seq<Step>): RunState
    decreases |steps|
  {
    if steps == [] then s else Run(Next(s, steps[0]), steps[1..])
  }

  // ---------- the invariant ----------

  // Only backbone nodes carry an indicator other than OTHER, and regular nodes list no neighbour.
  ghost predicate CalmTuple(t: NeighborTuple) {
    (t.status != NeighNode ==> t.indicator == ConvertOther) && (t.status == RnNode ==> t.bnNeighbors == [])
  }

  ghost predicate CalmList(list: seq<NeighborTuple>) {
    Distinct(list) && forall t :: t in list ==> CalmTuple(t)
  }

  ghost predicate CalmNode(st: LocalState) {
    (st.status != NeighNode ==> st.indicator == ConvertOther) && CalmList(st.list)
  }

  ghost predicate CalmHello(h: Hello) {
    (h.status != NeighNode ==> h.indicator == ConvertOther) && (h.status == RnNode ==> h.bnNeighbors == [])
  }

  ghost predicate Calm(s: RunState) {
    && (forall n :: n in s.nodes ==> CalmNode(s.nodes[n].local))
    && (forall h :: h in s.hellos ==> CalmHello(h))
  }

  // How a network starts: nobody knows anybody, and every node has the indicator it is constructed with.
  ghost predicate Initial(s: RunState) {
    s.hellos == {} && forall n :: n in s.nodes ==>
      s.nodes[n].local.list == [] && s.nodes[n].local.indicator == ConvertOther
  }

  lemma FilterKeepsCalm(list: seq<NeighborTuple>, keep: NeighborTuple -> bool)
    requires CalmList(list)
    ensures CalmList(Filter(list, keep))
  {
    FilterKeepsDistinct(list, keep);
  }

  lemma DecideKeepsCalm(st: LocalState)
    requires CalmNode(st)
    ensures CalmNode(Decide(st)) && Decide(st).list == st.list
  {
    hide Joins, Quits, ClientsServed, Best;
  }

  lemma AtDecisionIsCalm(st: LocalState, minHello: U32, now: Time)
    requires CalmNode(st)
    ensures CalmNode(AtDecision(st, minHello, now))
  {
    hide Filter;
    FilterKeepsCalm(st.list, Heard(minHello));
    FilterKeepsCalm(Filter(st.list, Heard(minHello)), Open(now));
  }

  lemma LongTimerKeepsCalm(st: LocalState, minHello: U32, now: Time)
    requires CalmNode(st)
    ensures CalmNode(LongTimer(st, minHello, now))
  {
    hide Decide, AtDecision;
    AtDecisionIsCalm(st, minHello, now);
    DecideKeepsCalm(AtDecision(st, minHello, now));
    CountersResetKeepsCalm(AtDecision(st, minHello, now).list);
  }

  lemma CountersResetKeepsCalm(list: seq<NeighborTuple>)
    requires CalmList(list)
    ensures CalmList(CountersReset(list))
  {
    var r := CountersReset(list);
    forall t | t in r
      ensures CalmTuple(t)
    {
      var i :| 0 <= i < |r| && r[i] == t;
      assert list[i] in list && t == list[i].(helloCounter := 0);
    }
  }

  lemma ClosedKeepsCalm(list: seq<NeighborTuple>, affected: set<Address>)
    requires CalmList(list)
    ensures CalmList(Closed(list, affected))
  {
    var r := Closed(list, affected);
    forall t | t in r
      ensures CalmTuple(t)
    {
      var i :| 0 <= i < |r| && r[i] == t;
      assert list[i] in list;
    }
  }

  lemma RefreshedKeepsCalm(list: seq<NeighborTuple>, a: Address, lifetime: Time, now: Time)
    requires CalmList(list)
    ensures CalmList(Refreshed(list, a, lifetime, now))
  {
    hide Filter;
    RefreshedKeepsDistinct(list, a, lifetime, now);
    var i := IndexOf(list, a);
    if i < |list| {
      assert CalmTuple(list[i]);
      ReplacedMembers(list, i, list[i].(expire := Max(lifetime + now, list[i].expire)), a);
    }
  }

  // Between the two updates of a delivery the sender's tuple may have its new status and its old list, but
  // addresses are distinct and only backbone nodes carry an indicator other than OTHER.
  lemma BetweenUpdates(list: seq<NeighborTuple>, hello: Hello, client: bool, now: Time)
    requires CalmList(list) && CalmHello(hello)
    ensures var l := HelloApplied(list, hello, client, now);
            Distinct(l) && forall t :: t in l && t.status != NeighNode ==> t.indicator == ConvertOther
  {
    hide HelloApplied;
    HelloAppliedKeepsDistinct(list, hello, client, now);
    HelloAppliedHolds(list, hello, client, now);
  }

  lemma GreetKeepsCalm(st: LocalState, hello: Hello, enabled: bool, longInterval: Time, lifetime: Time, now: Time)
    requires CalmNode(st) && CalmHello(hello)
    ensures CalmNode(Greet(st, hello, enabled, longInterval, lifetime, now))
  {
    hide HelloApplied, Refreshed, SortBy;
    var client := hello.associated in st.own;
    var greeted := HelloApplied(st.list, hello, client, now);
    HelloAppliedKeepsDistinct(st.list, hello, client, now);
    HelloAppliedHolds(st.list, hello, client, now);
    var i := IndexOf(greeted, hello.origin);
    assert greeted[i] in greeted;
    var t := greeted[i].(bnNeighbors := SortBy(Stamped(hello.bnNeighbors, longInterval + now), TwoHopAddrOf()));
    BnAppliedKeepsDistinct(greeted, hello, longInterval, now);
    ReplacedMembers(greeted, i, t, hello.origin);
    assert hello.status == RnNode ==> |t.bnNeighbors| == 0;
    RefreshedKeepsCalm(BnApplied(greeted, hello, longInterval, now), hello.origin, lifetime, now);
  }

  lemma LocalStepKeepsCalm(st: LocalState, minHello: U32, step: Step)
    requires CalmNode(st) && (step.DeliverStep? ==> CalmHello(step.hello))
    ensures CalmNode(LocalStep(st, minHello, step))
  {
    hide LongTimer, Greet, Refreshed, Closed, Filter;
    match step
    case ShortTimerStep(_, _, _) =>
    case LongTimerStep(_, now) => LongTimerKeepsCalm(st, minHello, now);
    case DeliverStep(_, hello, enabled, longInterval, lifetime, now) =>
      GreetKeepsCalm(st, hello, enabled, longInterval, lifetime, now);
    case RefreshStep(_, neighbor, lifetime, now) => RefreshedKeepsCalm(st.list, neighbor, lifetime, now);
    case LinkErrorStep(_, affected, now) =>
      ClosedKeepsCalm(st.list, affected);
      FilterKeepsCalm(Closed(st.list, affected), Open(now));
    case InterfaceDownStep(_) =>
  }

  lemma NextKeepsCalm(s: RunState, step: Step)
    requires Calm(s)
    ensures Calm(Next(s, step))
  {
    hide LocalStep, CalmNode;
    if Enabled(s, step) {
      var node := s.nodes[step.n];
      LocalStepKeepsCalm(node.local, node.minHello, step);
      GreetingIsCalm(LocalStep(node.local, node.minHello, step));
    }
  }

  lemma GreetingIsCalm(st: LocalState)
    requires CalmNode(st)
    ensures forall q, stamp :: CalmHello(OnAir(Greeting(st, q), stamp))
  {
    hide BnSet;
  }

  lemma {:induction false} RunStaysCalm(s: RunState, steps: seq<Step>)
    requires Calm(s)
    ensures Calm(Run(s, steps))
    decreases |steps|
  {
    if steps != [] {
      NextKeepsCalm(s, steps[0]);
      RunStaysCalm(Next(s, steps[0]), steps[1..]);
    }
  }

  // ---------- what it means ----------

  // In every reachable state the neighbour list is a function from addresses, and the best regular or core
  // neighbour is the (weight, address) maximum whatever the order of the list.
  lemma BestIsHighestInEveryRun(s: RunState, steps: seq<Step>, n: Address, status: NodeStatus)
    requires Initial(s) && n in Run(s, steps).nodes && status != NeighNode
    ensures var list := Run(s, steps).nodes[n].local.list;
            && Distinct(list)
            && (Best(list, status).Some? ==> IsHighest(list, Best(list, status).value))
            && forall t: NeighborTuple :: t.status == status && IsHighest(list, t) ==> Best(list, status) == Some(t)
  {
    hide Run, Best;
    RunStaysCalm(s, steps);
    var local := Run(s, steps).nodes[n].local;
    assert CalmNode(local);
    BestIsHighest(local.list, status, ConvertOther);
  }

  // What node n decides on when its long timer expires at a time, in the state a run leads to.
  ghost function DecidesOn(s: RunState, steps: seq<Step>, n: Address, now: Time): LocalState
    requires n in Run(s, steps).nodes
  {
    AtDecision(Run(s, steps).nodes[n].local, Run(s, steps).nodes[n].minHello, now)
  }

  lemma DecidesOnIsCalm(s: RunState, steps: seq<Step>, n: Address, now: Time)
    requires Initial(s) && n in Run(s, steps).nodes
    ensures CalmNode(DecidesOn(s, steps, n, now))
  {
    hide Run, AtDecision;
    RunStaysCalm(s, steps);
    AtDecisionIsCalm(Run(s, steps).nodes[n].local, Run(s, steps).nodes[n].minHello, now);
  }

  // In any runs, of two adjacent core nodes that decide on accurate views, each at its own time, at most one
  // elects itself.
  lemma ElectionInEveryRun(s: RunState, steps: seq<Step>, steps': seq<Step>, net: Network,
                           u: Address, now: Time, u': Address, now': Time)
    requires Initial(s) && u in Run(s, steps).nodes && u' in Run(s, steps').nodes
    requires WellFormed(net) && Adjacent(net, u, u') && Is(net, u, Core) && Is(net, u', Core)
    ensures Accurate(net, u, DecidesOn(s, steps, u, now)) && Accurate(net, u', DecidesOn(s, steps', u', now')) ==>
              !(ElectsItself(DecidesOn(s, steps, u, now)) && ElectsItself(DecidesOn(s, steps', u', now')))
  {
    hide Run, ElectsItself, DecidesOn;
    var st, st' := DecidesOn(s, steps, u, now), DecidesOn(s, steps', u', now');
    DecidesOnIsCalm(s, steps, u, now);
    DecidesOnIsCalm(s, steps', u', now');
    if Accurate(net, u, st) && Accurate(net, u', st') {
      CoreAroundIsCalm(net, u, st);
      CoreAroundIsCalm(net, u', st');
      NoTwoAdjacentElected(net, u, st, u', st');
    }
  }

  lemma CoreAroundIsCalm(net: Network, u: Address, st: LocalState)
    requires Accurate(net, u, st) && CalmNode(st)
    ensures CoreAroundAdvertisesOther(net, u)
  {
    hide AccurateBn;
    forall a | Adjacent(net, u, a) && Is(net, a, Core)
      ensures net[a].indicator == ConvertOther
    {
      SeenTuple(net, u, st, a);
      assert CalmTuple(Find(st.list, a).value);
    }
  }

  // An indicator other than OTHER belongs to a backbone node.
  lemma OnlyBackboneSignals(s: RunState, steps: seq<Step>, n: Address)
    requires Initial(s) && n in Run(s, steps).nodes
    ensures Run(s, steps).nodes[n].local.indicator != ConvertOther ==> Run(s, steps).nodes[n].local.status == NeighNode
  {
    hide Run;
    RunStaysCalm(s, steps);
  }
}
