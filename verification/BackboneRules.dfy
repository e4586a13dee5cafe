/**
 What the backbone rules decide, stated over the local view a node has of its two-hop neighbourhood
 (the rules themselves are the methods of Backbone.BackboneNode).
 */
module BackboneRules {
  import opened Types
  import opened NeighborTuples

  // A node's own part of the protocol state together with its neighbour list.
  datatype LocalState = LocalState(
    me: Address,
    own: set<Address>,
    weight: U32,
    weightFunction: WeightFunction,
    status: NodeStatus,
    indicator: Indicator,
    associated: Address,
    rule1: bool,
    rule2: bool,
    currentBn: U16,
    lastBn: U16,
    list: seq<NeighborTuple>)

  // ---------- the two-hop view ----------

  ghost function Addresses(bn: seq<TwoHop>): set<Address> {
    set e | e in bn :: e.addr
  }

  // The backbone neighbours that neighbour a advertises.
  ghost function BnOf(list: seq<NeighborTuple>, a: Address): set<Address> {
    match Find(list, a)
    case Some(t) => Addresses(t.bnNeighbors)
    case None => {}
  }

  // FindMulticastBnNeighborTuple on one neighbour's list: the first entry of an address.
  function FindTwoHop(bn: seq<TwoHop>, a: Address): (r: Option<TwoHop>)
    ensures r.Some? ==> r.value in bn && r.value.addr == a
    ensures r.None? ==> forall e :: e in bn ==> e.addr != a
  {
    if bn == [] then None
    else if bn[0].addr == a then Some(bn[0])
    else FindTwoHop(bn[1..], a)
  }

  ghost predicate OneHop(list: seq<NeighborTuple>, v: Address, w: Address) {
    w in BnOf(list, v) || v in BnOf(list, w)
  }

  ghost predicate TwoHops(list: seq<NeighborTuple>, v: Address, w: Address) {
    exists x :: x in BnOf(list, v) && x in BnOf(list, w)
  }

  // The three-hop detour v - y - x - w, or v - x - y - w, over two adjacent backbone neighbours.
  ghost predicate DetourVia(list: seq<NeighborTuple>, v: Address, w: Address, x: Address, y: Address) {
    && OneHop(list, x, y)
    && x != v && x != w && y != v && y != w
    && ((x in BnOf(list, w) && y in BnOf(list, v)) || (y in BnOf(list, w) && x in BnOf(list, v)))
  }

  ghost predicate Detour(list: seq<NeighborTuple>, v: Address, w: Address) {
    exists x, y ::
      HasStatus(list, x, NeighNode) && HasStatus(list, y, NeighNode) && x != y && DetourVia(list, v, w, x, y)
  }

  // v and w need no new backbone node between them.
  ghost predicate Linked(st: LocalState, v: Address, w: Address) {
    OneHop(st.list, v, w) || TwoHops(st.list, v, w) || (st.rule1 && Detour(st.list, v, w))
  }

  // The node has priority over its neighbour a.
  predicate Higher(st: LocalState, a: Address) {
    match Find(st.list, a)
    case Some(t) => Outranks(st.weight, st.me, t.weight, a)
    case None => false
  }

  ghost predicate IsBreaker(list: seq<NeighborTuple>, a: Address) {
    match Find(list, a)
    case Some(t) => t.indicator == ConvertBreak
    case None => false
  }

  // Pairs of distinct neighbours, the first a backbone node and the second of the given status.
  ghost predicate PairOf(list: seq<NeighborTuple>, v: Address, w: Address, status: NodeStatus) {
    HasStatus(list, v, NeighNode) && HasStatus(list, w, status) && v != w
  }

  // ---------- joining the backbone ----------

  predicate Rule2Allows(st: LocalState) {
    st.rule2 ==> st.currentBn <= st.lastBn
  }

  ghost predicate HasClient(list: seq<NeighborTuple>, status: NodeStatus) {
    exists t :: t in list && t.client && t.status == status
  }

  // No backbone neighbour, and priority over the best core neighbour.
  ghost predicate ElectsItself(st: LocalState) {
    && (forall t :: t in st.list ==> t.status != NeighNode)
    && Best(st.list, Core).Some?
    && var best := Best(st.list, Core).value; Outranks(st.weight, st.me, best.weight, best.addr)
  }

  ghost predicate MustJoin(st: LocalState) {
    ElectsItself(st) || HasClient(st.list, Core) || HasClient(st.list, RnNode)
  }

  // Core neighbour x can connect v and w and does not yield to this node.
  ghost predicate Connects(st: LocalState, x: Address, v: Address, w: Address) {
    OneHop(st.list, x, v) && OneHop(st.list, x, w) && !Higher(st, x)
  }

  ghost predicate NeedsMe(st: LocalState, v: Address, w: Address) {
    !Linked(st, v, w) && forall x :: HasStatus(st.list, x, Core) ==> !Connects(st, x, v, w)
  }

  ghost predicate PushedToJoin(st: LocalState) {
    exists v, w :: PairOf(st.list, v, w, NeighNode) && NeedsMe(st, v, w)
  }

  // Core neighbour x reaches v and a backbone neighbour of w, and does not yield to this node.
  ghost predicate ConnectsIndirectly(st: LocalState, x: Address, v: Address, w: Address) {
    && x != w
    && v in BnOf(st.list, x)
    && TwoHops(st.list, x, w)
    && !Higher(st, x)
  }

  ghost predicate NeedsMeIndirectly(st: LocalState, v: Address, w: Address) {
    && !Linked(st, v, w)
    && BnOf(st.list, w) != {}
    && forall x :: HasStatus(st.list, x, Core) ==> !ConnectsIndirectly(st, x, v, w)
  }

  ghost predicate PushedToJoinIndirectly(st: LocalState) {
    exists v, w :: PairOf(st.list, v, w, Core) && NeedsMeIndirectly(st, v, w)
  }

  ghost predicate Joins(st: LocalState) {
    Rule2Allows(st) && (MustJoin(st) || PushedToJoin(st) || PushedToJoinIndirectly(st))
  }

  // ---------- leaving the backbone ----------

  // Condition 1: no regular client, and every core client advertises another backbone node.
  ghost predicate ClientsServed(list: seq<NeighborTuple>) {
    && !HasClient(list, RnNode)
    && forall t :: t in list && t.client && t.status == Core ==> |t.bnNeighbors| > 1
  }

  ghost predicate StaysDirect(st: LocalState, v: Address, w: Address) {
    && OneHop(st.list, v, w)
    && (!Higher(st, v) || !Higher(st, w) || IsBreaker(st.list, v) || IsBreaker(st.list, w))
  }

  // The entry of x in v's list describes a node other than this one that has priority or is a BREAK node.
  ghost predicate Survivor(st: LocalState, v: Address, x: Address) {
    && x !in st.own
    && Find(st.list, v).Some?
    && var e := FindTwoHop(Find(st.list, v).value.bnNeighbors, x);
       e.Some? && (!Outranks(st.weight, st.me, e.value.weight, x) || e.value.indicator == ConvertBreak)
  }

  ghost predicate StaysIndirect(st: LocalState, v: Address, w: Address) {
    exists x :: x in BnOf(st.list, v) && x in BnOf(st.list, w) && Survivor(st, v, x)
  }

  ghost predicate StaysDetoured(st: LocalState, v: Address, w: Address) {
    st.rule1 && Detour(st.list, v, w)
  }

  // Condition 2: every pair of backbone neighbours stays connected without this node.
  ghost predicate BackboneStaysLinked(st: LocalState) {
    forall v, w :: PairOf(st.list, v, w, NeighNode) ==>
      StaysDirect(st, v, w) || StaysIndirect(st, v, w) || StaysDetoured(st, v, w)
  }

  ghost predicate CoreStaysDirect(st: LocalState, v: Address, w: Address) {
    OneHop(st.list, v, w) && (!Higher(st, v) || IsBreaker(st.list, v))
  }

  // Condition 3: so does every pair of a backbone neighbour and a core neighbour.
  ghost predicate CoreStaysLinked(st: LocalState) {
    forall v, w :: PairOf(st.list, v, w, Core) ==>
      CoreStaysDirect(st, v, w) || StaysIndirect(st, v, w) || StaysDetoured(st, v, w)
  }

  ghost predicate Quits(st: LocalState) {
    ClientsServed(st.list) && BackboneStaysLinked(st) && CoreStaysLinked(st)
  }

  // ---------- the steps of the long timer ----------

  ghost function Associate(st: LocalState): LocalState {
    var bn, core, rn := Best(st.list, NeighNode), Best(st.list, Core), Best(st.list, RnNode);
    if bn.Some? then st.(associated := bn.value.addr)
    else if core.Some? then st.(associated := core.value.addr)
    else if rn.Some? then st.(associated := rn.value.addr)
    else st
  }

  // How much a neighbour of a status is preferred as the associated node.
  function Preference(status: NodeStatus): nat {
    match status case NeighNode => 2 case Core => 1 case RnNode => 0
  }

  ghost predicate Preferred(list: seq<NeighborTuple>, t: NeighborTuple) {
    && t in list
    && forall t' :: t' in list ==>
         Preference(t'.status) <= Preference(t.status) && (t'.status == t.status ==> !Exceeds(t', t))
  }

  // A node that knows any neighbour associates with one of the most preferred status present, and with one
  // that no neighbour of that status exceeds.
  lemma AssociatesWithBest(st: LocalState)
    ensures st.list == [] ==> Associate(st) == st
    ensures st.list != [] ==> exists t :: Preferred(st.list, t) && Associate(st) == st.(associated := t.addr)
  {
    BestIsMaximal(st.list, NeighNode);
    BestIsMaximal(st.list, Core);
    BestIsMaximal(st.list, RnNode);
    hide Best;
    if st.list != [] {
      assert st.list[0] in st.list;
      var bn, core, rn := Best(st.list, NeighNode), Best(st.list, Core), Best(st.list, RnNode);
      var t := if bn.Some? then bn.value else if core.Some? then core.value else rn.value;
      assert Preferred(st.list, t);
    }
  }

  ghost function Join(st: LocalState): LocalState {
    if Joins(st) then st.(status := NeighNode) else st
  }

  ghost function Quit(st: LocalState): LocalState {
    if Quits(st) then st.(status := Core, indicator := ConvertOther)
    else if ClientsServed(st.list) then st.(indicator := ConvertAllow)
    else st.(indicator := ConvertBreak)
  }

  ghost function Decide(st: LocalState): LocalState {
    match st.status
    case RnNode => Associate(st)
    case Core => Join(Associate(st))
    case NeighNode => Quit(st)
  }
}
