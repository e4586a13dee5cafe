# AODV mesh backbone: a verified model

The repository is an ns-3 routing protocol. It is AODV (RFC 3561) in which the nodes also elect a backbone.
A node is a regular node (RN), a core node (BCN, able to join the backbone) or a backbone node (BN). Every node
keeps a list of its neighbours, each with its status, weight, indicator and, unless it is an RN, the backbone
neighbours it advertises. A long timer periodically runs the rules that make core nodes join the backbone and
backbone nodes leave it. Routes, route errors, discovery and the packets waiting for a route are those of AODV.

This project models that behaviour in Dafny and proves what it is for. The protocol objects are classes whose
methods change their fields as the C++ does, loop by loop. Each method is proved against a specification on
values, and the main theorems are about those specifications.

## Main results

* **Leaving the backbone keeps it connected** (`Quitting`, `QuitRounds`). The quitting rules are filter pipelines
  over a two-hop view. With accurate views, one node, or any set of nodes at once, may leave when condition 2
  holds at each: backbone nodes that were joined along the backbone stay joined. For many leavers this asks that no
  leaver had advertised BREAK and that no leaver using rule 1 has a neighbour that leaves too. Whole rounds, in which
  every backbone node decides at once, are safe on all networks if and only if rule 1 is off and nobody has
  advertised BREAK; two networks show a round that disconnects nodes that stay. The result extends to rounds in
  which core nodes join at the same time. Nodes that decide one after the other need none of these conditions
  (`Decisions`).
* **What a node decides** (`NodeDecisions`): exactly when a node joins or leaves on an accurate view, and which
  indicator it then advertises. **Two exchanges of HELLOs make every view accurate** (`Exchanges`).
* **Leaving keeps core nodes attached** (`Attachment`): also when many leave at once, a core node that reaches a
  backbone node that stays keeps a backbone neighbour.
* **Joining connects** over one core node and over two (`Joining`), and **the election has a winner and only one
  among neighbours** (`Joining`, and for every run of a whole network with lost, late and repeated HELLO messages,
  `NetworkRun`).
* **Broken links** (`RouteErrors`, `RouteErrorEffects`, `RouteMemory`): the exact effect of a received RERR and of a
  lost neighbour, who is told, which routes a lost neighbour severs over a whole pass of link failures, and how long
  a broken route is remembered.
* **Replies and discovery** (`Replies`, `ReplyEffects`, `Discovery`): what route and precursors a reply leaves; over any run
  of messages and replies the sequence number of a trusted route only moves forward on its 32-bit circle, and within
  half the circle the route never becomes older; a discovery makes as many requests and waits as long as its parameters say.
* **Supporting structures** (`QueueLedger`, `IdCaches`, `HelloHeaders`, `RerrHeaders`): conservation of queued
  packets, refinement of expiring windows, and round trips that say exactly when they hold.

## Layout

| files | contents |
|---|---|
| Types, Lists, Buffers | shared values, filters and stable sorting of sequences, big-endian buffers |
| NeighborTuples, NeighborLists | the order on neighbour tuples; class `Neighbors` |
| BackboneRules, Backbone | the rules as predicates on a local view; class `BackboneNode`, whose loops compute them |
| HelloDelivery, HelloCounts, LongTimers | what HELLOs and timers do to the neighbour list, over whole runs |
| Networks, Views, Exchanges, NodeDecisions, Quitting, QuitRounds, Decisions, Attachment, Joining, NetworkRun | networks, accurate views, and the theorems about them |
| RoutingTables, RouteMemory, RerrHeaders, RouteErrors, RouteErrorEffects | class `RoutingTable` and the route-error handlers |
| Replies, ReplyEffects, RequestQueues, QueueLedger, IdCaches, Discovery | replies, queue, duplicate cache, discovery |
| HelloHeaders, WireLayouts, NeighborRoutes | HELLO codec, the layout of both headers, and the routes a message gives to the neighbour it comes from |

Conventions: every operation takes the time of the event as `now`, which stands for the simulator clock. What a
handler sends, and the entries whose error callback it calls, go to ghost logs. Assertions of the source are
proved, or are preconditions where the source leaves them to its callers. A null tuple pointer is the index past
the end of the list. An `Accurate` view is an assumption of the network theorems; every network
admits one at every node (`Views.ViewOfAccurate`), and two exchanges of HELLOs lead to it.

## Where the code differs from its documentation

* `InvalidateRoutesWithDst` does not increase sequence numbers, although model/aodv-rtable.h:199-205 says so.
* `AddUnDestination` never answers false, although model/aodv-packet.h:378-381 says it may; a full header fails an
  assertion instead.
* A HELLO reserves 24 bytes for each list entry and uses 12 of them (model/aodv-packet.cc:166-220).
* `Neighbors::Purge` erases expired two-hop entries from a tuple it has already copied (model/aodv-neighbor.cc:456-459),
  so the surviving tuples keep them.
* `IsNeighbor` purges the list, also when it is called inside an assertion (model/aodv-routing-protocol.cc:2167).
  There it changes nothing, because the same event has already purged (`NeighborLists.SecondPurgeChangesNothing`).
* `UpdateRouteToNeighbor` sets the lifetime of a known direct route only in its copy of the entry, so the route in the
  table does not live longer (model/aodv-routing-protocol.cc:1119-1122).
* With `RreqRetries` 0 the eight-bit request counter makes a discovery send 256 requests, and with more than 255 it
  never gives up (`Discovery.GivesUpIff`).

## Model

| member | source | states |
|---|---|---|
| Quitting.LeavingTogetherKeepsBackboneJoined | model/aodv-routing-protocol.cc:2343-2443 | any set of backbone nodes that each satisfy condition 2 on an accurate view may leave at once, none of them having advertised BREAK and no rule 1 leaver having a leaving neighbour: two remaining nodes joined by a backbone path stay joined by one |
| Quitting.OneQuitKeepsBackboneJoined | model/aodv-routing-protocol.cc:2343-2421 | a single node satisfying condition 2 may leave, rule 1 on or off and BREAK or not: every backbone path through it between other nodes can be rerouted |
| Quitting.BackboneStaysLinkedOnNet | model/aodv-routing-protocol.cc:2343-2421 | condition 2 computed on an accurate view holds iff in the network every two backbone neighbours are adjacent with one that outlasts the node, share another outlasting backbone neighbour, or (rule 1) have a detour over backbone neighbours of the node |
| Quitting.DetourSymmetric | model/aodv-routing-protocol.cc:2128-2153 | the three-hop detour test does not depend on the order of its two nodes |
| QuitRounds.QuitRoundsSafeIff | model/aodv-routing-protocol.cc:2307-2443 | rounds in which all backbone nodes decide at once on accurate views preserve the connectivity of the remaining backbone, on every network, iff rule 1 is off and no node has advertised BREAK |
| QuitRounds.QuitRoundPreservesConnectivity | model/aodv-routing-protocol.cc:2307-2443 | with rule 1 or BREAK nodes a round still does, in both directions, when no leaver had advertised BREAK and no leaver under rule 1 has a leaving neighbour |
| QuitRounds.BreakersMayDisconnect | model/aodv-routing-protocol.cc:2369-2393 | a network with two BREAK nodes whose whole round disconnects two nodes that stay: both quit, each relying on the other |
| QuitRounds.Rule1MayDisconnect | model/aodv-routing-protocol.cc:2395-2411 | a network without BREAK nodes whose whole round under rule 1 disconnects two nodes that stay: two adjacent nodes quit, each relying on the other |
| QuitRounds.DecidingKeepsJoined | model/aodv-routing-protocol.cc:1741-1753 | in a round on accurate views in which careful nodes quit while core nodes join, two backbone nodes that stay and were joined still are |
| QuitRounds.DecidingKeepsCoreAttached | model/aodv-routing-protocol.cc:1741-1753 | in such a round a core node that reached a backbone node that stays has a backbone neighbour afterwards, joined to that node |
| QuitRounds.DecidingConnects | model/aodv-routing-protocol.cc:1741-1753 | where rule 2 lets core nodes join, in such a round two backbone nodes that stay and had a common core neighbour end up joined along the backbone, although others quit |
| NodeDecisions.QuitDecision | model/aodv-routing-protocol.cc:2307-2534 | on an accurate view a backbone node leaves iff no client depends on it alone and its backbone and core neighbours stay connected without it, then with OTHER; if it stays it advertises BREAK iff a client depends on it alone, and ALLOW otherwise |
| NodeDecisions.JoinDecision | model/aodv-routing-protocol.cc:2080-2305 | where rule 2 allows it, and core neighbours advertise OTHER, a core node joins iff it wins the election, has a core or regular client, or connects a pair of backbone neighbours, or of a backbone and a core neighbour, that nothing links and no core neighbour with priority connects |
| NodeDecisions.AloneStaysCore | model/aodv-routing-protocol.cc:2097-2107 | a core node that knows no neighbour decides nothing |
| NodeDecisions.AssociationDecision | model/aodv-routing-protocol.cc:2065-2078 | a core or regular node associates with a backbone node if it knows one, else a core node, and of these with one of the greatest weight, BREAK nodes first and then by address; a backbone node keeps its associate |
| Decisions.DecisionsKeepReaching | model/aodv-routing-protocol.cc:1728-1753 | over any sequence of single decisions, each on an accurate view of the network as it then is, rule 1 on or off and BREAK or not: a core or backbone node that reaches a backbone node over the backbone reaches it as long as that one stays, even if it joins or leaves itself |
| Decisions.DecisionsKeepJoined | model/aodv-routing-protocol.cc:1728-1753 | over any such sequence two backbone nodes that stay and were joined still are |
| Decisions.DecisionsKeepCoreAttached | model/aodv-routing-protocol.cc:1728-1753 | and a core node at its end has a backbone neighbour joined to the node it reached |
| Decisions.OneQuitKeepsCoreReaching | model/aodv-routing-protocol.cc:2307-2534 | one node that quits, BREAK or not, cuts no core node off from any other backbone node |
| Attachment.QuittingKeepsCoreAttached | model/aodv-routing-protocol.cc:2327-2340 | a node that quits has no regular client, each of its core clients has another backbone neighbour, and each core neighbour still reaches each backbone neighbour through backbone nodes other than it |
| Attachment.CoreStaysLinkedOnNet | model/aodv-routing-protocol.cc:2458-2534 | condition 3 alone gives every core neighbour a walk to every backbone neighbour whose inner nodes are backbone nodes other than the leaver |
| Attachment.LeavingTogetherKeepsCoreAttached | model/aodv-routing-protocol.cc:2327-2534 | when any set of nodes satisfying conditions 2 and 3 leaves at once, under the conditions of the backbone result, a core node that reached a staying backbone node keeps a backbone neighbour, one joined to that node along what is left |
| Attachment.LeavingTogetherKeepsCoreReaching | model/aodv-routing-protocol.cc:2458-2534 | and still reaches it over the backbone that is left |
| Joining.JoinRoundConnects | model/aodv-routing-protocol.cc:2080-2094 | after all core nodes run the join step at once on accurate views, where rule 2 lets them, any two backbone nodes that had a common core neighbour are adjacent or have a common backbone neighbour (or a three-hop connection where rule 1 is on) |
| Joining.JoinRoundConnectsOverTwo | model/aodv-routing-protocol.cc:2265-2305 | after such a join round, two backbone nodes at the ends of a path over two core nodes are joined along the backbone, whether the core nodes join by the third rule, are blocked or find the pair linked |
| Joining.HighestCommonCoreJoins | model/aodv-routing-protocol.cc:2221-2262 | the (weight, address)-greatest common core neighbour of an unconnected pair is blocked by nobody and joins |
| Joining.NearIsJoined | model/aodv-routing-protocol.cc:2116-2153 | what a join round establishes is a backbone path between the pair |
| Joining.ElectedIsHighest | model/aodv-routing-protocol.cc:2097-2107 | where core neighbours advertise OTHER, a node that elects itself has no backbone neighbour and outranks every core neighbour |
| Joining.NoTwoAdjacentElected | model/aodv-routing-protocol.cc:2097-2107 | of two adjacent core nodes at most one elects itself |
| Joining.HighestElectsItself | model/aodv-routing-protocol.cc:2097-2107 | a core node without backbone neighbour that outranks its core neighbours, of which there is one, elects itself |
| Joining.ElectionHasWinner | model/aodv-routing-protocol.cc:2097-2107 | in a network without a backbone, where every core node knows its surroundings and two core nodes are adjacent, some core node elects itself |
| NetworkRun.RunStaysCalm | model/aodv-routing-protocol.cc:1728-1756 | over any run of timers, deliveries, refreshes, link errors and interface failures: only backbone nodes, their HELLOs and their tuples carry an indicator other than OTHER, RN tuples list nothing, and neighbour addresses stay distinct |
| NetworkRun.BestIsHighestInEveryRun | model/aodv-neighbor.cc:222-241 | in every reachable state the best core or regular neighbour is the unique (weight, address) maximum whatever the list order |
| NetworkRun.ElectionInEveryRun | model/aodv-routing-protocol.cc:1728-1753 | of two adjacent core nodes, each deciding at its own time in any runs, after its purges and reweighing and on an accurate view, at most one elects itself |
| NetworkRun.OnlyBackboneSignals | model/aodv-routing-protocol.cc:2308-2324 | in every reachable state a node whose indicator is not OTHER is a backbone node |
| NetworkRun.NextKeepsCalm | model/aodv-routing-protocol.cc:1693-1756 | every single step of any node, enabled or not, keeps that invariant |
| NetworkRun.GreetKeepsCalm | model/aodv-neighbor.cc:75-107 | taking in a HELLO that obeys the invariant keeps it |
| NetworkRun.BetweenUpdates | model/aodv-neighbor.cc:75-92 | between the two updates of a delivery addresses are distinct and only backbone tuples carry an indicator other than OTHER; the sender may still have its old list |
| NetworkRun.OnAirIsDecoded | model/aodv-packet.cc:191-259 | the HELLO a receiver sees in a run is what the codec gives for the one sent |
| Exchanges.TwoExchangesMakeAccurate | model/aodv-routing-protocol.cc:1547-1596 | from nodes that know themselves and have heard only neighbours, two exchanges in which each node hears each neighbour, in any order, make every view accurate, if no node has more than 255 backbone neighbours |
| Exchanges.FirstExchange | model/aodv-routing-protocol.cc:1547-1596 | after one exchange every node lists exactly its neighbours, each with its own status, weight, indicator and association |
| Exchanges.HeardTupleIsAccurate | model/aodv-neighbor.cc:75-107 | the HELLO of a node that sees its neighbours makes its tuple accurate, with its list of backbone neighbours |
| Exchanges.AdvertisesBackbone | model/aodv-neighbor.cc:191-202 | such a node advertises exactly its backbone neighbours with their weights and indicators |
| HelloDelivery.GreetHolds | model/aodv-neighbor.cc:75-107 | after a HELLO the sender's tuple has the status, weight, indicator, associate, number and list the HELLO says, is a client iff the associate is an own address, counts one HELLO more and lives at least as long; nothing else changes |
| HelloCounts.KeptIffHeardEnough | model/aodv-neighbor.cc:390-418 | in every reachable state a neighbour stays in the list when the long timer expires iff enough of its HELLOs were taken in since that timer last expired (counted in 16 bits, from anew if it was forgotten) and it is neither expired nor closed |
| HelloCounts.RunCounts | model/aodv-neighbor.cc:75-92 | over any run the counter of a tuple is that number of HELLOs |
| LongTimers.RoundKeeps | model/aodv-neighbor.cc:390-466 | a long timer keeps exactly the tuples with the minimum of HELLOs that are unexpired and open, with their counters reset |
| LongTimers.TxErrorKeeps | model/aodv-neighbor.cc:437-516 | a transmission error leaves exactly the tuples that are not affected, unexpired and open |
| LongTimers.UnknownEnters | model/aodv-neighbor.cc:56-72 | an unknown neighbour enters as a core node of weight 0 with OTHER, while exactly the unexpired and open tuples stay |
| LongTimers.DecidesWithCounts | model/aodv-routing-protocol.cc:1707-1733 | on an accurate view a node decides with the number of its links, of its backbone neighbours or its address as weight, as configured, and with the number of backbone neighbours now and the one counted before |
| LongTimers.AdvertisesCounts | model/aodv-routing-protocol.cc:1693-1724 | and advertises that weight |
| Networks.SeenBn | model/aodv-packet.cc:134-149 | in an accurate view a neighbour advertises exactly its backbone neighbours, and nothing if it is an RN |
| Networks.SeenOneHop | model/aodv-routing-protocol.cc:2109-2114 | on an accurate view the list test for one hop between a backbone node and a non-RN node, in either order, is adjacency |
| BackboneRules.AssociatesWithBest | model/aodv-routing-protocol.cc:2065-2078 | a node associates with a neighbour of the most preferred status present that no neighbour of that status exceeds, and keeps its associate if it has no neighbour |
| Backbone.EarlyExit | model/aodv-routing-protocol.cc:2236-2262 | leaving a loop over all pairs at the first hit decides the existential over all pairs |
| Backbone.ChainEmpty | model/aodv-routing-protocol.cc:2413-2421 | the three-stage filter chain is empty iff every ordered pair passes one of the three tests |
| Backbone.BackboneNode.constructor | model/aodv-routing-protocol.cc:66-125 | a node starts as a core node with indicator OTHER, rules 1 and 2 on, weight by degree and no associate |
| Backbone.BackboneNode.Are1HopNeighbors | model/aodv-routing-protocol.cc:2109-2114 | true iff one of the two lists the other as a backbone neighbour |
| Backbone.BackboneNode.Are2HopNeighbors | model/aodv-routing-protocol.cc:2116-2125 | true iff some node is in both lists |
| Backbone.BackboneNode.HandlePushJoinNonDC | model/aodv-routing-protocol.cc:2128-2153 | true iff two distinct backbone neighbours form a three-hop detour, whichever the loops meet first |
| Backbone.BackboneNode.HandleJoinAmNotDuplex | model/aodv-routing-protocol.cc:2155-2190 | exactly the pairs of a backbone and a core neighbour that neither one hop, two hops nor (rule 1) a detour links; its assertions on the view hold for every list with distinct addresses |
| Backbone.BackboneNode.BCN2BNRule2 | model/aodv-routing-protocol.cc:2192-2201 | rule 2 allows joining iff it is off or the backbone neighbours have not grown in number |
| Backbone.BackboneNode.IsDirectlyConnected | model/aodv-routing-protocol.cc:2207-2219 | enumerates the ordered pairs of distinct neighbours of the two statuses, all of them and no other |
| Backbone.BackboneNode.HandlePushJoin | model/aodv-routing-protocol.cc:2221-2262 | true iff some unlinked pair of backbone neighbours has no core neighbour that connects it and has priority over the node |
| Backbone.BackboneNode.HandleJoinAmDuplex | model/aodv-routing-protocol.cc:2265-2305 | true iff some unlinked pair of a backbone and a core neighbour with a non-empty list has no better core neighbour that reaches the two |
| Backbone.BackboneNode.HandleJoin | model/aodv-routing-protocol.cc:2097-2107 | true iff the node elects itself or has a core or regular client |
| Backbone.BackboneNode.JoiningQuittingMechanism | model/aodv-routing-protocol.cc:2080-2094 | joins iff rule 2 allows it and one of the three joining rules asks for it; nothing but the status changes |
| Backbone.BackboneNode.AssociationAlgorithm | model/aodv-routing-protocol.cc:2065-2078 | associates with the best backbone, else core, else regular neighbour |
| Backbone.BackboneNode.HeartBeatPushJoinAnchors | model/aodv-routing-protocol.cc:2307-2324 | becomes a core node with indicator OTHER iff the three conditions hold; otherwise it advertises ALLOW if condition 1 holds and BREAK if it does not |
| Backbone.BackboneNode.HeartBeatPushJoinAnchors1 | model/aodv-routing-protocol.cc:2327-2340 | condition 1: no regular client, and every core client lists more than one backbone node |
| Backbone.BackboneNode.HeartBeatPushJoinAnchors2A | model/aodv-routing-protocol.cc:2343-2365 | keeps exactly the pairs that no direct edge with an outlasting end serves |
| Backbone.BackboneNode.HeartBeatPushJoinAnchorsB | model/aodv-routing-protocol.cc:2369-2393 | keeps exactly the pairs without a common backbone node, other than this one, that has priority or advertises BREAK (rules 2b and 3b) |
| Backbone.BackboneNode.Survives | model/aodv-routing-protocol.cc:2374-2389 | both lookups of the common node succeed, as the source asserts, and the answer is whether that node outlasts this one |
| Backbone.BackboneNode.HeartBeatPushJoinAnchorsC | model/aodv-routing-protocol.cc:2395-2411 | keeps exactly the pairs without a three-hop detour when rule 1 is on, and all of them otherwise (rules 2c and 3c) |
| Backbone.BackboneNode.HeartBeatPushJoinAnchors2 | model/aodv-routing-protocol.cc:2413-2421 | true iff every ordered pair of distinct backbone neighbours passes test a, b or c |
| Backbone.BackboneNode.HeartBeatPushJoinAnchors3A | model/aodv-routing-protocol.cc:2458-2476 | keeps exactly the pairs of a backbone and a core neighbour without an edge whose backbone end outlasts the node |
| Backbone.BackboneNode.HeartBeatPushJoinAnchors3 | model/aodv-routing-protocol.cc:2525-2534 | true iff every pair of a backbone and a core neighbour passes test a, b or c |
| Backbone.BackboneNode.HigherWeight | model/aodv-routing-protocol.cc:2423-2429 | true iff the neighbour is known and the node has (weight, address) priority over it |
| Backbone.BackboneNode.UpdateLocalWeight | model/aodv-routing-protocol.cc:1707-1724 | the weight by the configured function, cut to 32 bits; nothing else changes |
| Backbone.BackboneNode.UpdateLocalLastBnNeighbors | model/aodv-routing-protocol.h:91 | shifts the count of backbone neighbours into the last one and recounts, in 16 bits |
| Backbone.BackboneNode.LongTimerExpire | model/aodv-routing-protocol.cc:1727-1756 | two purges with their link failures in order, the weight and counts, the rules of the status the node has, and the reset of the HELLO counters |
| Backbone.BackboneNode.ShortTimerExpire | model/aodv-routing-protocol.cc:1693-1705 | recounts, reweighs, and sends HELLOs of the new state, the sequence number advancing by one each |
| Backbone.BackboneNode.SendHello | model/aodv-routing-protocol.cc:1781-1824 | one HELLO for each interface, with consecutive 16-bit sequence numbers, carrying the node as it is and a sorted list of its backbone neighbours |
| Backbone.BackboneNode.RecvHello | model/aodv-routing-protocol.cc:1547-1597 | a HELLO heard lately changes nothing; any other refreshes the sender's tuple, gives it a route and reports no lost link |
| Backbone.BackboneNode.RecvHelloMessage | model/aodv-routing-protocol.cc:1034-1061 | a HELLO message first gives its IP source a route and is then handled, unless it was heard lately |
| NeighborRoutes.MessageGivesRoute | model/aodv-routing-protocol.cc:1104-1132 | after any message its IP source has a route of one hop and no other route changes: either the one over this interface with a valid number, untouched, or a new direct one without a valid number |
| NeighborRoutes.UpdateRouteToNeighbor | model/aodv-routing-protocol.cc:1104-1132 | the whole effect on the table; a known direct route is not prolonged, only its copy is |
| NeighborRoutes.HelloRouteIsDirectIff | model/aodv-routing-protocol.cc:1045-1053 | a HELLO from its originator's address leaves a valid route of one hop with the HELLO's number; it leads directly to the originator iff no such route over another address was known already with a valid number over this interface |
| NeighborRoutes.HelloGivesRoute | model/aodv-routing-protocol.cc:1573-1592 | the HELLO handler itself leaves the originator a valid route with the HELLO's number for at least the time given, over the next hop known, all other routes being as after purging |
| NeighborRoutes.HelloRouteFitsOneRerr | model/aodv-routing-protocol.cc:1573-1592 | the new route adds nothing to what a lost neighbour makes unreachable, so where every loss fits one RERR it still does |
| NeighborRoutes.MessageRouteFitsOneRerr | model/aodv-routing-protocol.cc:1104-1132 | nor does the route any message gives to its IP source |
| RouteErrorEffects.LossesKeepFitting | model/aodv-routing-protocol.cc:1850-1895 | where every loss fits one RERR, any number of losses do, and this stays so |
| NeighborTuples.ExceedsIsStrictOrder | model/aodv-neighbor.h:74-87 | operator> is irreflexive, asymmetric and transitive |
| NeighborTuples.ExceedsIsTotalExceptAllowOther | model/aodv-neighbor.h:74-87 | two tuples of different addresses are comparable unless they have equal weight and one is ALLOW, the other OTHER |
| NeighborTuples.BestIsMaximal | model/aodv-neighbor.cc:222-241 | no tuple of the requested status exceeds the one the scan returns, whatever the list |
| NeighborTuples.BestIsHighest | model/aodv-neighbor.cc:222-241 | where the tuples of a status share one indicator, the scan returns the unique (weight, address) maximum whatever the order |
| NeighborTuples.BestInFields | model/aodv-neighbor.cc:222-241 | in fields: greatest weight, a BREAK node if one has that weight, and the greatest address among equals |
| NeighborTuples.Best | model/aodv-neighbor.cc:222-241 | the scan returns a member of the requested status, and none iff there is none |
| NeighborTuples.FindOfMember | model/aodv-neighbor.cc:32-40 | with distinct addresses a lookup returns the very tuple, so lookup is a function |
| NeighborTuples.IndexOf | model/aodv-neighbor.cc:32-40 | the position of the first tuple of an address, or the end of the list |
| NeighborLists.HelloAppliedKeepsDistinct | model/aodv-neighbor.cc:75-92 | taking in a HELLO keeps addresses distinct and leaves a tuple for its sender |
| NeighborLists.HelloAppliedHolds | model/aodv-neighbor.cc:75-92 | afterwards the sender's tuple holds what the HELLO says and all others are as before |
| NeighborLists.BnAppliedKeepsDistinct | model/aodv-neighbor.cc:94-107 | replacing the advertised list keeps addresses distinct |
| NeighborLists.PlacedKeepsDistinct | model/aodv-neighbor.cc:128-134 | inserting replaces any tuple of the same address, keeps the others, sorts, and keeps addresses distinct |
| NeighborLists.ErasedMembers | model/aodv-neighbor.cc:109-120 | erasing removes exactly the tuple of the address |
| NeighborLists.ErasedKeepsDistinct | model/aodv-neighbor.cc:109-120 | erasing keeps addresses distinct |
| NeighborLists.RefreshedKeepsDistinct | model/aodv-neighbor.cc:56-72 | so does Update, which may append unsorted and purge |
| NeighborLists.FilterKeepsDistinct | model/aodv-neighbor.cc:396-466 | so do both purges |
| NeighborLists.LostAreRemoved | model/aodv-neighbor.cc:396-466 | the failures a purge reports are those of exactly the neighbours it removes |
| NeighborLists.PurgedNeighbourCarriesNoRoute | model/aodv-neighbor.cc:396-466 | after the pass, a removed neighbour that had a table entry when its failure was reported is no valid route's next hop |
| NeighborLists.SecondPurgeChangesNothing | model/aodv-neighbor.cc:437-466 | a second purge at the same instant removes nobody and reports nothing |
| NeighborLists.AdvertisedIsBn | model/aodv-neighbor.cc:191-202 | the advertised entries are exactly those of the backbone neighbours, without repeated addresses |
| NeighborLists.Neighbors.FindNeighborTuple | model/aodv-neighbor.cc:32-40 | finds the first tuple of an address |
| NeighborLists.Neighbors.Update | model/aodv-neighbor.cc:56-72 | a known neighbour lives until the later of the two times and nothing is purged; an unknown one is appended and the list purged with its failures |
| NeighborLists.Neighbors.UpdateNeighborTuple | model/aodv-neighbor.cc:75-92 | the list is exactly the old one with the HELLO applied |
| NeighborLists.Neighbors.UpdateMulticastNeighborTuple | model/aodv-neighbor.cc:94-107 | the sender's list is replaced by the received one, stamped and sorted |
| NeighborLists.Neighbors.EraseNeighborTuple | model/aodv-neighbor.cc:109-120 | removes the tuple of the address and nothing else |
| NeighborLists.Neighbors.InsertNeighborTuple | model/aodv-neighbor.cc:128-134 | replaces or adds the tuple and sorts |
| NeighborLists.Neighbors.FindMulticastBnNeighborTuple | model/aodv-neighbor.cc:148-162 | the first entry of an address in a neighbour's list, none iff neighbour or entry is missing |
| NeighborLists.Neighbors.GetBnNeighbors | model/aodv-neighbor.cc:191-202 | a sorted enumeration of exactly the backbone neighbours, duplicate-free for distinct addresses |
| NeighborLists.Neighbors.GetNeighborhoodSize | model/aodv-neighbor.cc:204-213 | the number of neighbours of a status |
| NeighborLists.Neighbors.GetBestNeighbor | model/aodv-neighbor.cc:222-241 | the best neighbour of a status |
| NeighborLists.Neighbors.GetOneHopNeighbors | model/aodv-neighbor.cc:243-253 | the neighbours of a status, in list order |
| NeighborLists.Neighbors.GetClients | model/aodv-neighbor.cc:255-265 | the clients of a status, in list order |
| NeighborLists.Neighbors.GetMulticastNeighbors | model/aodv-neighbor.cc:295-306 | the sorted addresses of a neighbour's list, all of them |
| NeighborLists.Neighbors.IntersectionOfSets | model/aodv-neighbor.cc:308-325 | contains exactly the common addresses |
| NeighborLists.Neighbors.IntersectionWithAddress | model/aodv-neighbor.cc:327-340 | contains the address iff the set does, and nothing else |
| NeighborLists.Neighbors.GetCommonBN | model/aodv-neighbor.cc:376-388 | exactly the addresses that both neighbours list |
| NeighborLists.Neighbors.ResetHelloCounter | model/aodv-neighbor.cc:390-394 | every counter becomes zero and nothing else changes |
| NeighborLists.Neighbors.PurgeHello | model/aodv-neighbor.cc:396-418 | keeps exactly the neighbours heard often enough and reports the others in list order |
| NeighborLists.Neighbors.Purge | model/aodv-neighbor.cc:437-466 | keeps exactly the open and unexpired neighbours, unchanged, and reports the others in list order |
| NeighborLists.Neighbors.IsNeighbor | model/aodv-neighbor.cc:19-29 | purges with its failures and answers whether the address is left; on a list already purged at this time, as in the assertion of the joining rule, it changes nothing |
| NeighborLists.Neighbors.ProcessTxError | model/aodv-neighbor.cc:504-516 | closes the affected links and purges them with their failures |
| RouteErrorEffects.RecvErrorExactEffect | model/aodv-routing-protocol.cc:1599-1651 | exactly the valid routes through the sender to a reported destination become invalid, until now + badLinkLifetime; every other route is as purging leaves it |
| RouteErrorEffects.RecvErrorForwards | model/aodv-routing-protocol.cc:1599-1651 | every RERR sent lists exactly those destinations with the received sequence numbers |
| RouteErrorEffects.RecvErrorTellsPrecursors | model/aodv-routing-protocol.cc:1621-1647 | below the rate limit, a precursor of an affected destination is reached iff a valid route leads to it |
| RouteErrorEffects.PrecursorsOfIsUnion | model/aodv-routing-protocol.cc:1621-1641 | the precursors collected are the duplicate-free union of those of the destinations |
| RouteErrorEffects.EveryReachablePrecursorIsTold | model/aodv-routing-protocol.cc:1955-2025 | unicast or broadcast, a RERR reaches precisely the precursors a valid route leads to |
| RouteErrorEffects.LinkBrokenSeversRoutes | model/aodv-routing-protocol.cc:1850-1895 | after a link failure a valid route still uses the neighbour iff the neighbour had no table entry and one used it before |
| RouteErrorEffects.UnknownNeighbourKeepsRoutes | model/aodv-routing-protocol.cc:1850-1859 | that case arises in a run in which routes are only added over known next hops: the neighbour's entry ages out and is deleted while a longer-lived route over it stays valid |
| RouteErrorEffects.LinkBrokenExactEffect | model/aodv-routing-protocol.cc:1850-1895 | losing a known neighbour makes exactly its route and the valid routes over it invalid until now + badLinkLifetime; every other route is as purging leaves it |
| RouteErrorEffects.LinkBrokenForwards | model/aodv-routing-protocol.cc:1861-1892 | every RERR sent for it lists exactly the neighbour and the destinations over it, with the numbers of the table |
| RouteErrorEffects.LinkBrokenTellsPrecursors | model/aodv-routing-protocol.cc:1861-1892 | below the rate limit, a precursor of anything lost is reached iff a valid route leads to it |
| RouteErrorEffects.SendsForm | model/aodv-routing-protocol.cc:1955-2025 | a single precursor gets a unicast; otherwise there is one broadcast on each interface towards the precursors |
| RouteErrorEffects.RerrsAreCounted | model/aodv-routing-protocol.cc:1955-2025 | every RERR sent is counted in 16 bits, and none is sent while the counter stands at the limit |
| RouteErrorEffects.LostNeighboursCarryNoRoute | model/aodv-routing-protocol.cc:1850-1895 | through any number of failures in one pass, a neighbour known when its callback ran is no valid route's next hop at the end |
| RouteErrors.RouteRepair.RecvError | model/aodv-routing-protocol.cc:1599-1651 | the whole effect on table, counter and messages; the drain loop ends and re-adding never meets the 255 assertion |
| RouteErrors.RouteRepair.DrainHeader | model/aodv-routing-protocol.cc:1609-1619 | empties the header and keeps exactly the destinations reached through the sender, with the received numbers |
| RouteErrors.RouteRepair.FillHeader | model/aodv-routing-protocol.cc:1621-1641 | puts all of them back and merges their precursors, leaving the table alone |
| RouteErrors.RouteRepair.SendRerrMessage | model/aodv-routing-protocol.cc:1955-2025 | one unicast, one broadcast per distinct interface, or nothing, each counted in 16 bits |
| RouteErrors.RouteRepair.SendRerrWhenBreaksLinkToNextHop | model/aodv-routing-protocol.cc:1850-1895 | nothing for an unknown neighbour; otherwise the neighbour and all that was reached through it are reported and become invalid |
| RouteMemory.BrokenRoutesAreRemembered | model/aodv-rtable.cc:170-356 | a route valid at some time is in the table, valid or invalid, at every time up to badLinkLifetime later, over any run of lookups, additions, listings and invalidations |
| RouteMemory.RunKeepsTableInvariant | model/aodv-rtable.cc:219-266 | over any run of the table operations keys are destinations and only an entry in search counts requests |
| RouteMemory.PurgeIdempotentIff | model/aodv-rtable.cc:325-356 | purging twice at one time is purging once, for all tables, iff badLinkLifetime is not negative |
| RouteMemory.ForgottenExactlyWhenDue | model/aodv-rtable.cc:325-356 | a purge forgets an entry iff it is invalid and its deletion time has passed |
| RouteMemory.ValidUntilDue | model/aodv-rtable.cc:170-356 | a valid route stays exactly as it is up to its deadline, over any such run that does not invalidate it by name |
| RouteMemory.PurgedEntry | model/aodv-rtable.cc:325-356 | what a purge does to an entry: nothing before its time or in search, then invalid for badLinkLifetime if it was valid, deleted if it was invalid |
| RouteMemory.EntryEffects | model/aodv-rtable.cc:219-407 | additions never replace, updates never add, and each operation changes exactly the entry it names and the fields it sets |
| RouteMemory.SearchSurvives | model/aodv-rtable.cc:325-356 | an entry in search is untouched by any such run, however long |
| RoutingTables.RoutingTable.Purge | model/aodv-rtable.cc:325-356 | expired invalid entries go, expired valid ones become invalid, the others stay |
| RoutingTables.RoutingTable.LookupRoute | model/aodv-rtable.cc:170-190 | purges, then finds the entry iff it is there; otherwise the variable keeps its default |
| RoutingTables.RoutingTable.LookupValidRoute | model/aodv-rtable.cc:192-203 | succeeds iff a valid entry is there after purging, and never on an expired one |
| RoutingTables.RoutingTable.DeleteRoute | model/aodv-rtable.cc:205-217 | purges and removes the entry, answering whether it was there |
| RoutingTables.RoutingTable.AddRoute | model/aodv-rtable.cc:219-229 | adds iff the destination is not there after purging, with no requests counted unless in search |
| RoutingTables.RoutingTable.Update | model/aodv-rtable.cc:231-249 | overwrites iff the destination is there, with no requests counted unless in search |
| RoutingTables.RoutingTable.SetEntryState | model/aodv-rtable.cc:251-266 | sets the flag and forgets the request count, iff the entry is there |
| RoutingTables.RoutingTable.GetListOfDestinationWithNextHop | model/aodv-rtable.cc:268-283 | exactly the destinations with that next hop, with their sequence numbers |
| RoutingTables.RoutingTable.InvalidateRoutesWithDst | model/aodv-rtable.cc:285-303 | exactly the valid entries listed become invalid |
| RoutingTables.RoutingTable.DeleteAllRoutesFromInterface | model/aodv-rtable.cc:305-323 | removes exactly the entries of the interface |
| RoutingTables.RoutingTable.MarkLinkAsUnidirectional | model/aodv-rtable.cc:391-407 | marks the neighbour until the timeout, iff it is there |
| RoutingTables.GetPrecursors | model/aodv-rtable.cc:98-117 | appends in order the precursors that are not there yet |
| RoutingTables.MergePrecursorsIsUnion | model/aodv-rtable.cc:98-117 | the result extends the given list, holds exactly both lists' addresses and stays free of repetitions |
| Replies.RunMovesForward | model/aodv-routing-protocol.cc:1435-1474 | over any messages, each of which first updates the route to its sender, and any replies: while a route stays trusted its number moves by the sum of the forward steps modulo 2^32, and where it does not move hops never grow |
| Replies.RunNeverGoesBack | model/aodv-routing-protocol.cc:1435-1474 | over such a run, if the number advances less than half the range in all, the last route has a fresher number, or the same one and no more hops |
| Replies.ReplyImproves | model/aodv-routing-protocol.cc:1406-1521 | one reply, stored or relayed, leaves a trusted route with a fresher number, or the same number and no more hops |
| ReplyEffects.ReplyStoresRoute | model/aodv-routing-protocol.cc:1431-1490 | a reply for an unknown destination, one that passes a freshness case, or any for a destination the originator searches leaves a valid route over its sender with its number, interface and lifetime and one hop more; otherwise the route changes in its precursors at most |
| ReplyEffects.ReplyNotesPrecursors | model/aodv-routing-protocol.cc:1495-1521 | a reply relayed over a known route to its originator prolongs that route and notes each direction's next hop as a precursor of the routes to the other end and to its next hop, but for a destination reached over the originator itself |
| Replies.FresherIsAntisymmetric | model/aodv-routing-protocol.cc:1451 | signed 32-bit comparison is antisymmetric, and total iff two numbers are not half the range apart |
| Replies.FresherIsTransitiveWithin | model/aodv-routing-protocol.cc:1451 | it is transitive iff the two steps add up to less than half the range |
| Replies.ReplyHandler.RecvReply | model/aodv-routing-protocol.cc:1406-1521 | the whole effect on the table, at the originator and at a relaying node |
| Replies.ReplyHandler.StoreReply | model/aodv-routing-protocol.cc:1440-1474 | the entry is created or replaced iff one of the four freshness cases applies |
| Replies.ReplyHandler.Forward | model/aodv-routing-protocol.cc:1495-1521 | the route to the originator lives longer and the precursors of both directions are noted, including the write-back of a stale copy |
| Discovery.DiscoveryBound | model/aodv-routing-protocol.cc:1653-1691 | for RreqRetries R from 1 to 255 and no reply the timer fires at most R times, every firing but the R-th sends one request, and the R-th deletes route, timer and queued packets |
| Discovery.DiscoveryExists | model/aodv-routing-protocol.cc:1653-1691 | for R up to 255 and a non-zero rate limit, from every such start there is a discovery that takes its full number of rounds |
| Discovery.DiscoveryRequests | model/aodv-routing-protocol.cc:1653-1691 | a discovery whose timer has fired n times has made n + 1 requests for the destination, and none after it is given up, so R in all for R from 1 to 255 |
| Discovery.DiscoveryWait | model/aodv-routing-protocol.cc:1013-1031 | the R-th firing comes NetTraversalTime * R(R+1)/2 after the first request |
| Discovery.GivesUpIff | model/aodv-routing-protocol.cc:1670-1691 | a search ends at the end of a run of firings iff R is at most 255 and R requests have been made (256 for R = 0) |
| Discovery.FirstRequest | model/aodv-routing-protocol.cc:917-1011 | the first request below the rate limit starts a search with one request counted, sent once, and one NetTraversalTime to wait |
| Discovery.TimerFires | model/aodv-routing-protocol.cc:1653-1691 | a firing ends the search iff the count has reached the limit, and otherwise sends one request and waits longer in proportion |
| Discovery.TimerFindsRoute | model/aodv-routing-protocol.cc:1657-1662 | if a route has been found, the timer sends what waits for the destination in order of arrival, all of it iff no packet is tagged for another interface, and changes no route, timer or other packet |
| Discovery.GivingUpTouchesNoOther | model/aodv-routing-protocol.cc:1670-1677 | giving up deletes no other route and reports no other packet before its time |
| Discovery.RequestTouchesNoOther | model/aodv-routing-protocol.cc:917-1031 | a request touches no other route, timer or packet, and at the rate limit is only put off |
| Discovery.RateIsLimited | model/aodv-routing-protocol.cc:922-929 | the request counter never exceeds a fixed limit, so the requests of a run number at most the limit for each reset and once more |
| Discovery.RouteDiscovery.SendRequest | model/aodv-routing-protocol.cc:917-1011 | puts the request off at the rate limit, and otherwise counts it, starts the search and sets the timer |
| Discovery.RouteDiscovery.ScheduleRreqRetry | model/aodv-routing-protocol.cc:1013-1031 | counts in eight bits and waits in proportion to the count |
| Discovery.RouteDiscovery.RreqRateLimitTimerExpire | model/aodv-routing-protocol.cc:1758-1764 | resets the request counter and nothing else |
| Discovery.RouteDiscovery.RouteRequestTimerExpire | model/aodv-routing-protocol.cc:1653-1691 | sends from the queue if a route is there; otherwise gives up or requests again |
| QueueLedger.PacketsAreConserved | model/aodv-rqueue.cc:21-75 | over any run with a fixed positive length and a fixed timeout every accepted packet is exactly once queued, handed out or reported; the queue stays within its bound, sorted by expiry and free of duplicates |
| QueueLedger.RunSound | model/aodv-rqueue.cc:21-121 | the same from any state that satisfies it, including drops and purges |
| QueueLedger.EvictsOldest | model/aodv-rqueue.cc:32-37 | a full queue that takes a packet reports the one that would expire first |
| QueueLedger.ShrunkQueueOverflows | model/aodv-rqueue.cc:32-37 | the bound holds after an accepted packet iff the purged queue was within it: a limit lowered below the current size does not bind |
| RequestQueues.AcceptsIff | model/aodv-rqueue.cc:21-41 | a packet is refused iff one with its uid and destination is queued and unexpired; a packet taken goes to the end, to expire the timeout from now |
| RequestQueues.PurgeReports | model/aodv-rqueue.cc:98-112 | a purge reports exactly the packets whose time is over and keeps exactly the others |
| RequestQueues.DropReports | model/aodv-rqueue.cc:43-59 | dropping a destination reports also exactly its packets and keeps exactly the unexpired ones of others |
| RequestQueues.SentInOrder | model/aodv-routing-protocol.cc:1826-1848 | the packets for a destination go out in arrival order; all of them go and none is left iff none is tagged for another interface; packets for others stay |
| RequestQueues.RequestQueue.GetSize | model/aodv-rqueue.cc:14-19 | purges and counts |
| RequestQueues.RequestQueue.Enqueue | model/aodv-rqueue.cc:21-41 | refuses a packet queued for its destination; otherwise appends it with a new expiry, after giving up the front of a full queue |
| RequestQueues.RequestQueue.DropPacketWithDst | model/aodv-rqueue.cc:43-59 | reports and removes exactly the packets for the destination, in order |
| RequestQueues.RequestQueue.Dequeue | model/aodv-rqueue.cc:61-75 | takes out the first packet for the destination, iff there is one |
| RequestQueues.RequestQueue.Find | model/aodv-rqueue.cc:77-87 | true iff a packet for the destination is queued |
| RequestQueues.RequestQueue.Purge | model/aodv-rqueue.cc:98-112 | reports exactly the outdated packets and keeps the others, both in order |
| RequestQueues.RequestQueue.SendPacketFromQueue | model/aodv-routing-protocol.cc:1826-1848 | forwards packet by packet until none is left for the destination or one is tagged for another interface, which is then lost without report |
| IdCaches.FreshCacheRefinesWindows | model/aodv-id-cache.cc:9-34 | over any calls at nondecreasing times with lifetime changes in between, the cache answers as a map from keys to the end of the window opened at the latest acceptance; its keys stay distinct |
| IdCaches.CacheRefinesWindows | model/aodv-id-cache.cc:9-34 | the same from any state that represents the windows |
| IdCaches.AcceptedOncePerWindow | model/aodv-id-cache.cc:9-34 | in any run of a new cache an accepted key is answered as duplicate at every check until the lifetime set at its acceptance is over, whatever happens in between |
| IdCaches.IdCache.IsDuplicate | model/aodv-id-cache.cc:9-20 | answers iff the key is present after purging, and records it otherwise |
| IdCaches.IdCache.Purge | model/aodv-id-cache.cc:22-27 | keeps exactly the entries that have not expired |
| IdCaches.IdCache.SetLifetime | model/aodv-id-cache.h:29 | changes the lifetime of future entries only |
| IdCaches.IdCache.GetSize | model/aodv-id-cache.cc:29-34 | purges and counts |
| RerrHeaders.RerrRoundTrip | model/aodv-packet.cc:639-679 | reading a written RERR gives it back and uses exactly its serialized size, whatever surrounds it, iff it has at most 255 destinations |
| RerrHeaders.RerrReadsBack | model/aodv-packet.cc:639-679 | a RERR written over a buffer is read back from the same place |
| RerrHeaders.RerrHeader.AddUnDestination | model/aodv-packet.cc:708-717 | the first sequence number of a destination stays; always true |
| RerrHeaders.RerrHeader.RemoveUnDestination | model/aodv-packet.cc:719-728 | takes out the least destination, iff there is one |
| RerrHeaders.RerrHeader.Serialize | model/aodv-packet.cc:645-657 | writes the header and its destinations in increasing order, and no other byte |
| RerrHeaders.RerrHeader.Deserialize | model/aodv-packet.cc:659-679 | reads what the bytes say, or fails where the buffer is short or destinations repeat |
| WireLayouts.HelloLayout | model/aodv-packet.cc:191-208 | the value and offset of every fixed field of a HELLO on the wire, in network byte order |
| WireLayouts.HelloEntryLayout | model/aodv-packet.cc:209-218 | the entries follow in twelve bytes each: address, weight, indicator |
| WireLayouts.RerrLayout | model/aodv-packet.cc:645-650 | flag, reserved byte and count of a RERR |
| WireLayouts.RerrEntryLayout | model/aodv-packet.cc:650-657 | the destinations follow in increasing order, in eight bytes each with the number |
| HelloHeaders.HelloRoundTrip | model/aodv-packet.cc:134-259 | a HELLO of a core or backbone node comes back with its whole list iff it has at most 255 entries, an RN's with an empty list; only the timeouts differ |
| HelloHeaders.MadeRoundTrip | model/aodv-packet.cc:134-259 | for a list of any length, what comes back is the header with the first entries, as many as the eight-bit length says |
| HelloHeaders.HelloReadsBack | model/aodv-packet.cc:191-259 | a HELLO written over the space it reserves is read back from the same place |
| HelloHeaders.ReservedSizeCoversList | model/aodv-packet.cc:134-170 | the space reserved holds the list iff the sender is an RN, the list has at most 255 entries, or their number is a multiple of 256 |
| HelloHeaders.HelloHeader.constructor | model/aodv-packet.cc:134-149 | an RN carries no list; the two length fields are cut to 8 and 16 bits |
| HelloHeaders.HelloHeader.Serialize | model/aodv-packet.cc:191-220 | writes the fixed fields and the entries, and no other byte |
| HelloHeaders.HelloHeader.Deserialize | model/aodv-packet.cc:222-259 | reads what the bytes say; the two length fields must agree, as the source asserts |

## Left out

* input.cc (simulation script, animation, statistics), sockets, devices, interface notifications other than the
  clearing of the list, packet tags other than the output interface, tracing, logging, attributes and `Print`.
* ARP and MAC lookup: the set of neighbours a transmission error affects is a parameter of `ProcessTxError`.
* The branches for malicious nodes: simulated attackers, taken to be off.
* Global loop freedom and table-wide monotonicity of sequence numbers: the code does not keep them. RecvRequest
  overwrites next hop and hops without a freshness test, RecvHello stores HELLO counters as sequence numbers, and
  UpdateRouteToNeighbor marks them invalid.
* Convergence of the views under loss or movement: two complete exchanges make them accurate
  (`Exchanges.TwoExchangesMakeAccurate`), and the network theorems assume accurate views and one address per node.
* The RERR rate limit as a bound: the counter grows once per interface without being checked again.
* The expiry of two-hop entries, `GetOneHopPairs` and `EraseMulticastBnNeighborTuple`: without effect or unused.
* operator< on neighbour tuples: unused, and not a strict order.
* The fixed-layout RREQ, RREP and RREP-ACK codecs, `DuplicatePacketDetection`, flag setters: easy members.
* RerrHeader::Clear: called only where `AddUnDestination` answers false, which it never does.
* Output devices: a route's device is identified by the interface address stored with it.
* Sharing of route objects: entries are values, so two holders of one route do not see each other's changes.
* Overflow of the 64-bit simulator time: times are unbounded integers.
- Quitting.LeavingTogetherKeepsBackboneJoined: its two conditions on the leavers are sufficient; a network may stay connected although they fail.
- QuitRounds.QuitRoundPreservesConnectivity: the condition is sufficient and speaks of the nodes that leave. `QuitRounds.QuitRoundsSafeIff` says exactly which settings make every round safe.
- Backbone.BackboneNode.SendHello: the messages, not their transmission; the number of interfaces is a parameter.
- HelloHeaders.HelloHeader.Deserialize: fails on a byte outside the enumerations of status, indicator and weight function, which the source casts without a check.
- NeighborLists.Neighbors.ProcessTxError: which neighbours have the failed hardware address is a parameter.
- Joining.JoinRoundConnectsOverTwo: for rounds in which nobody quits.
- ReplyEffects.ReplyStoresRoute: for destinations other than 102.102.102.102, which a default-constructed address holds. Where a next hop is unknown, the source updates the entry of that address.
- ReplyEffects.ReplyNotesPrecursors: where the table has no entry for that address.
- NodeDecisions.JoinDecision: for neighbourhoods whose core nodes advertise OTHER, as they do in every reachable state (`NetworkRun.OnlyBackboneSignals`).
- Replies.ReplyHandler.RecvReply: the table part; not the acknowledgement, the removal of the request timer or the packets sent. It takes badLinkLifetime, the time and the reply's lifetime to be non-negative.
- Discovery.RouteDiscovery.SendRequest: which request is sent or put off, not its fields or time to live.
- Discovery.DiscoveryBound: for a discovery that gets no reply and is not put off by the rate limit when its timer fires.
- RouteErrors.RouteRepair.RecvError: for headers of at most 255 destinations, which is all that can be read from a packet. It takes badLinkLifetime to be non-negative, because otherwise each purge deletes what the last one invalidated (`RouteMemory.PurgeIdempotentIff`).
- RouteErrors.RouteRepair.SendRerrWhenBreaksLinkToNextHop: for a neighbour whose destinations fit one RERR, which is what the source's assertion asks, and a non-negative badLinkLifetime.
- RequestQueues.RequestQueue.Enqueue: not where a maximum length of zero meets an empty queue, from which the source would evict.
- NeighborLists.Neighbors.EraseNeighborTuple: below 65536 neighbours, the size the source compares in 16 bits.
