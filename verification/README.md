# Models of the simulator's algorithms

Components of a vehicular-network simulator, written as Dafny programs of the same shape as the C++ and proved
against specifications: six utilities of its `inet/src/inet/common` library, and the server in `simulte` that collects
travel times from vehicles and sends them new routes. Where the C++ changes objects, the model has classes whose methods
change fields; each such method states its whole new state through a function or predicate on values, and the lemmas are
about those. `dafny verify dfyconfig.toml` checks everything.

| component | files | what is proved |
|---|---|---|
| interval tree | `RedBlack`, `RedBlackInsertion`, `RedBlackDeletion`, `Snapshots`, `IntervalQueries`, `IntervalTree` | insertion, deletion by relinking and the query with its explicit stack, on the pointer structure itself |
| topology | `Lists`, `Routes`, `Wiring`, `ShortestPaths`, `Topology` | both shortest-path searches, and graph edits on mutually linked lists |
| traffic server | `RoadRoutes`, `LazyQueue`, `Sums`, `RoadTraffic`, `Learning`, `TrafficMessages`, `TrafficServer`, `EdgeWeights` | quickest drives, what weights and learnt times are, spacing and rationing of routes over every run |
| message codec | `BitStreams`, `MemoryOutputStream`, `MemoryInputStream`, `Fields`, `TrafficMsgSerializer` | what is read is what was written |
| state machine | `StateHierarchy`, `Macho` | the states entered and not yet left are always the current state and those around it |
| pattern matcher | `Globs`, `PatternSyntax`, `PatternTexts`, `PatternMatcher`, `PatternPromises` | the backtracking matcher decides the meaning of the pattern, and parsing undoes writing |
| message dispatcher | `DispatchNetworks`, `MessageDispatcher` | registrations flood a network without cycles, and what they record leads back |
| 128-bit integers | `Words`, `Numerals`, `Int128` | arithmetic modulo 2^128, division, and parsing undoing printing |

How the proofs are built:

- The interval tree is a snapshot of the node fields on one side and a red-black tree as a value, with the context around
  a subtree, on the other. A pointer method at a node is shown to do one thing to the subtree there; the loops of insert
  and deleteFixup carry a predicate on subtree and context through such steps.
- Both searches of the topology and the search of the traffic server refine one abstract search with an ordered queue.
  The server's is over the reversed road graph, its priority queue with outdated entries stands for the ordered queue,
  and it may stop at the destination.
- The state machine keeps a trace of entries and exits; replaying it gives the chain of the current state in every
  reachable state. A run is a sequence of legs, one for each event handled; the trace is the concatenation of what is
  left and entered on them, and each leg ends where a function on points (state and histories) says. `Valid()` is the
  invariant: every public method keeps it, and `Unstarted` says that it holds at first.
- In the same way `TrafficServer.Valid()`, `Topology.Valid()` and `IntervalTree.Valid()` hold after every sequence of
  operations; `TrafficServer.Run` states spacing and ration for any sequence of events.
- The messages that dispatchers send each other are the calls of one recursive method over the network. It terminates
  because the part of the network that is still to be reached gets smaller.

Where the C++ does less than it says, the model does what the C++ does:

- Against the documentation at inet/src/inet/common/PatternMatcher.h:45, a backslash before `[` does not keep a number
  range from beginning there: `EscapedParses` says exactly for which texts the promise is kept, `BracketNotQuoted` gives a
  pattern for which it is not.
- Without case, `**` and a literal at the end of a pattern match only a string that ends in the literal with the same
  case: `MeansExactly` says exactly which strings are accepted, `ShortcutMindsCase` gives one that is wrongly rejected.
- `writeByte` loses bits except at the start and in the middle of a byte: `WriteByteRight`.
- `operator<` of `Int128` is wrong for some pairs of negative numbers: `LessRight` says exactly when, `LessWrong` gives a
  pair.
- One letter too many is read as a digit, `a` in decimal and `g` in hexadecimal numbers: `OneTooMany`. `ParsedRight` says
  for exactly which texts parsing is right nevertheless, `LetterInDecimal` and `LetterInHexadecimal` give two for which it
  is not.
- The minimum of `Int128` divided by anything gives 0 with itself as remainder, and is printed as `-0`: `Div` and
  `ToString` say that all other numbers are divided and printed rightly, `Reparsed` that exactly they come back when
  parsed. With the minimum as divisor the division never ends: `EndlessRounds`.
- A query of the interval tree that starts at the value of `nil` takes missing left children for subtrees that reach it:
  `MetStored` says exactly when that costs results, `NilStartLoses` gives a tree in which it does.
- An edge that just became congested can get lighter, by a vehicle's draw, if K is below 45/41: `SlowedGrowsAlways` says
  exactly for which K and draw it cannot, `SlowerYetLighter` gives the edge. A reported speed of 0 counts as none
  (`Moving` in `EdgeWeights`), so that traffic at a standstill weighs as little as free traffic unless it is dense.
- The `edgeChanged` test of the traffic server never makes a difference: `EdgeNeverDecides`.
- When a link is to be added between modules of which one is not in the topology, a link that was in the graph has been
  taken out of it before the error is raised: `AddLinkBetween`.

## Model

| member | source | states |
|---|---|---|
| RedBlack.RotatedLeftKeeps | inet/src/inet/common/IntervalTree.cc:116-138 | A left rotation keeps the order of all nodes, and recomputing `max_high` at its two nodes makes every `max_high` right again and leaves the subtree's maximum as it was. |
| RedBlack.RotatedRightKeeps | inet/src/inet/common/IntervalTree.cc:140-161 | The same for a right rotation. |
| RedBlack.MaxMeaning | inet/src/inet/common/IntervalTree.h:99-103 | What a right `max_high` means: no interval in the subtree ends later, and one ends just then. |
| RedBlack.HeightBound | inet/src/inet/common/IntervalTree.cc:196-257 | A red-black tree of n intervals has height at most 2*log2(n+1), stated as 2^height <= (n+1)^2. |
| RedBlackInsertion.FixRecoloured | inet/src/inet/common/IntervalTree.cc:213-219 | Red uncle: after three recolourings the invariant of the repair loop holds at the grandparent, with the same order and black height. |
| RedBlackInsertion.FixInnerLeft | inet/src/inet/common/IntervalTree.cc:222-226 | Black uncle, inner grandchild: after the first rotation the invariant holds at the old parent. |
| RedBlackInsertion.FixInnerRight | inet/src/inet/common/IntervalTree.cc:244-248 | The mirror image. |
| RedBlackInsertion.FixOuterLeft | inet/src/inet/common/IntervalTree.cc:227-229 | Black uncle, outer grandchild: recolouring and rotating the grandparent keeps the invariant and leaves a black parent. |
| RedBlackInsertion.FixOuterRight | inet/src/inet/common/IntervalTree.cc:249-251 | The mirror image. |
| RedBlackInsertion.InsertEnd | inet/src/inet/common/IntervalTree.cc:254-256 | When the loop ends and the root is painted black, the tree is red-black, all `max_high` are right, and the order is the old one with the new node in it. |
| RedBlackDeletion.DeleteRedSiblingLeft | inet/src/inet/common/IntervalTree.cc:356-362 | Red sibling: recolouring and rotating keeps the invariant of the repair loop (one black node short at the focus) and gives a black sibling. |
| RedBlackDeletion.DeleteRedSiblingRight | inet/src/inet/common/IntervalTree.cc:387-393 | The mirror image. |
| RedBlackDeletion.DeleteBlackSibling | inet/src/inet/common/IntervalTree.cc:363-367 | Black sibling with black children: painting it red moves the missing black node to the parent. |
| RedBlackDeletion.DeleteNearRedLeft | inet/src/inet/common/IntervalTree.cc:370-376 | Black sibling with a red near child: a rotation at the sibling keeps the invariant and makes the far child red. |
| RedBlackDeletion.DeleteNearRedRight | inet/src/inet/common/IntervalTree.cc:401-407 | The mirror image. |
| RedBlackDeletion.DeleteFarRedLeft | inet/src/inet/common/IntervalTree.cc:377-381 | Red far child: the last rotation makes up for the missing black node. |
| RedBlackDeletion.DeleteFarRedRight | inet/src/inet/common/IntervalTree.cc:408-412 | The mirror image. |
| RedBlackDeletion.ShortEnd | inet/src/inet/common/IntervalTree.cc:416-416 | Painting the node at which the loop ends black makes up for the missing black node. |
| RedBlackDeletion.RepairedEnd | inet/src/inet/common/IntervalTree.cc:346-417 | Then the whole tree is red-black again, every `max_high` is right, and the order is kept. |
| RedBlackDeletion.DeletedOrderSame | inet/src/inet/common/IntervalTree.cc:444-501 | Splicing out a node with at most one child takes exactly that node out of the order. |
| RedBlackDeletion.DeletedOrderOther | inet/src/inet/common/IntervalTree.cc:444-501 | Splicing out the successor and putting it in the node's place also takes exactly the node, not the successor, out of the order. |
| IntervalQueries.OverlapMeaning | inet/src/inet/common/IntervalTree.cc:504-514 | Closed intervals overlap by this test exactly when some time lies in both. |
| IntervalQueries.HitsComplete | inet/src/inet/common/IntervalTree.cc:504-514 | The hits of a query are exactly the nodes that overlap it: none is missing, nothing else is there. |
| IntervalQueries.HitsOnce | inet/src/inet/common/IntervalTree.cc:516-563 | No node is a hit twice. |
| IntervalQueries.HitsStored | inet/src/inet/common/IntervalTree.cc:504-563 | The intervals of the hits are, as a multiset, the stored intervals that share an instant with the query. |
| IntervalQueries.SharingMember | inet/src/inet/common/IntervalTree.cc:504-514 | An interval is among those that share an instant with the query exactly if it is stored and some instant lies in both. |
| IntervalQueries.EarlySubtree | inet/src/inet/common/IntervalTree.cc:531-548 | A left subtree whose `max_high` is before the query has no overlap, so it may be skipped. |
| IntervalQueries.SkippedRight | inet/src/inet/common/IntervalTree.cc:551-560 | If a left subtree that reaches into the query has no overlap, the right subtree has none either; this is why `try_right_branch` may stay unset. |
| IntervalQueries.MeetsAll | inet/src/inet/common/IntervalTree.cc:516-563 | A query that starts after the value of `nil` meets every hit, in order. |
| IntervalQueries.MeetsAllFromNil | inet/src/inet/common/IntervalTree.cc:531-560 | One that starts at the value of `nil` meets every hit exactly if no node without a left child has one in its right subtree; otherwise it meets fewer. |
| IntervalQueries.NilStartLoses | inet/src/inet/common/IntervalTree.cc:531-560 | A red-black tree of two intervals of which such a query meets only one. |
| IntervalQueries.MetStored | inet/src/inet/common/IntervalTree.cc:516-563 | For well-formed intervals and queries the result is, as a multiset, the stored intervals that share an instant with the query exactly if the query starts after the value of `nil` or nothing lies beyond a missing left child. |
| IntervalQueries.StepLeft | inet/src/inet/common/IntervalTree.cc:526-546 | Descending to the left and pushing a frame keeps the invariant of the search: what is found, what will be met at the focus, and what the frames still owe make up the whole result; a flag says that something was met on the left. |
| IntervalQueries.StepRight | inet/src/inet/common/IntervalTree.cc:526-548 | So does descending to the right without a frame. |
| IntervalQueries.PopFlagged | inet/src/inet/common/IntervalTree.cc:551-560 | So does popping a frame whose right branch is to be tried, which flags its parent frame. |
| IntervalQueries.PopUnflagged | inet/src/inet/common/IntervalTree.cc:551-560 | So does dropping a frame that was never flagged: nothing was met on its left, and its right is passed over. |
| IntervalQueries.SearchEnd | inet/src/inet/common/IntervalTree.cc:516-563 | With an empty stack, what is found is the whole result. |
| IntervalTrees.IntervalTree.constructor | inet/src/inet/common/IntervalTree.cc:58-77 | The empty tree is well formed, stores nothing, and its query stack has just the bottom frame. |
| IntervalTrees.IntervalTree.LeftRotate | inet/src/inet/common/IntervalTree.cc:116-138 | The fields of the four nodes that a left rotation rewrites, parent links and `max_high` included; nothing else changes. |
| IntervalTrees.IntervalTree.RightRotate | inet/src/inet/common/IntervalTree.cc:140-161 | The same for a right rotation. |
| IntervalTrees.IntervalTree.RotateLeftAt | inet/src/inet/common/IntervalTree.cc:116-138 | In the heap of a whole tree, the pointer rotation is the rotation of the subtree as a value, at any place in the tree. |
| IntervalTrees.IntervalTree.RotateRightAt | inet/src/inet/common/IntervalTree.cc:140-161 | The same for a right rotation. |
| IntervalTrees.IntervalTree.RecursiveInsert | inet/src/inet/common/IntervalTree.cc:164-185 | The new node becomes a leaf after every node whose key is not greater and before every greater one. |
| IntervalTrees.IntervalTree.FixupMaxHigh | inet/src/inet/common/IntervalTree.cc:187-194 | Walking up recomputes exactly the `max_high` fields of the ancestors from the new subtree's maximum. |
| IntervalTrees.IntervalTree.InsertFixup | inet/src/inet/common/IntervalTree.cc:206-254 | The repair loop of insert keeps order, colours, black height and `max_high`, and ends at a black parent. |
| IntervalTrees.IntervalTree.Insert | inet/src/inet/common/IntervalTree.cc:196-257 | Adds one node with the interval and its ends as key and high end, after all equal keys; every other node stays in its place in the order; the stored intervals are the old ones with the new one among them; the tree stays well formed (links, order, colours, black height, `max_high`, keys and high ends those of the intervals). |
| IntervalTrees.IntervalTree.DeleteFixup | inet/src/inet/common/IntervalTree.cc:346-417 | From a tree that is one black node short, also with the root captured at the start gone stale after a rotation, the loop ends in a red-black tree with the same order. |
| IntervalTrees.IntervalTree.GetMinimum | inet/src/inet/common/IntervalTree.cc:259-264 | The first node of a subtree in order. |
| IntervalTrees.IntervalTree.GetSuccessor | inet/src/inet/common/IntervalTree.cc:273-289 | The next node in order, or the dummy root after the last. |
| IntervalTrees.IntervalTree.DeleteNode | inet/src/inet/common/IntervalTree.cc:444-501 | Returns the node's interval and takes exactly that node out of the order and its interval out of the stored ones; the other nodes, which keep their own intervals, stay in order; the tree stays well formed. |
| IntervalTrees.IntervalTree.Query | inet/src/inet/common/IntervalTree.cc:516-563 | Leaves the tree as it was and the stack ready for the next query. The result is what the search meets; for well-formed intervals it is, as a multiset, the stored intervals that share an instant with the query exactly if the query starts after the value of `nil` or nothing lies beyond a missing left child. |
| IntervalTrees.IntervalTree.RecursiveSearch | inet/src/inet/common/IntervalTree.cc:426-442 | Finds a node that holds the given interval object whenever there is one. |
| IntervalTrees.IntervalTree.DeleteInterval | inet/src/inet/common/IntervalTree.cc:419-424 | Takes one occurrence of the interval out of the stored ones, or changes nothing if it is not stored. |
| Routes.LeastUnique | inet/src/inet/common/Topology.cc:418-475 | Least distances are unique: any two labellings that meet the definition agree everywhere. |
| Routes.RouteLinks | inet/src/inet/common/Topology.cc:443-459 | A route is a sequence of links, each enabled and leaving an enabled node, each leaving where the one before enters, from the node to the target. |
| Routes.TotalSums | inet/src/inet/common/Topology.cc:450-459 | What a route costs is the sum of the weights of its links and of the nodes entered but for the target, infinite as soon as one of them is. |
| Routes.LeastFinite | inet/src/inet/common/Topology.cc:443-473 | A least distance is finite exactly if some route enters no node of infinite weight but the target and takes no link of infinite weight. |
| Routes.Blocked | inet/src/inet/common/Topology.cc:456-458 | So a node all of whose routes enter a node of infinite weight that is not the target has infinite distance. |
| Routes.HopCount | inet/src/inet/common/Topology.cc:378-416 | With unit links and weightless nodes, a route costs its number of links. |
| Wiring.UnlinkedWired | inet/src/inet/common/Topology.cc:346-360 | Erasing a link from its two lists keeps every other link exactly once in its source's out list and its destination's in list. |
| Wiring.AppendedWired | inet/src/inet/common/Topology.cc:297-314 | Appending a link to the two lists keeps that too, self-loops included. |
| Wiring.GrownWired | inet/src/inet/common/Topology.cc:256-269 | So does a new node without links. |
| Wiring.SeveredWired | inet/src/inet/common/Topology.cc:271-295 | So does taking out a node with every link at it, self-loops included. |
| ShortestPaths.Take | inet/src/inet/common/Topology.cc:436-440 | Dequeuing the first node keeps the invariant of the search and leaves its incoming links to be looked at. |
| ShortestPaths.Improve | inet/src/inet/common/Topology.cc:459-472 | A shorter link: relabelling its source and moving it to its place in the ordered queue keeps the invariant, also for a source that was queued before. |
| ShortestPaths.Skip | inet/src/inet/common/Topology.cc:443-459 | Passing over a disabled link, a link from a disabled node or a link that is no shorter keeps the invariant. |
| ShortestPaths.TakenNear | inet/src/inet/common/Topology.cc:436-440 | Every node that is dequeued has a finite route to the target, so that the assertions are about such nodes only. |
| ShortestPaths.NoShorter | inet/src/inet/common/Topology.cc:418-475 | When the queue is empty, no route over enabled links and nodes is shorter than the label of its first node. |
| ShortestPaths.Followed | inet/src/inet/common/Topology.cc:418-475 | From every node with a finite label, following `outPath` gives a route to the target that costs just the label, each link lowering it. |
| ShortestPaths.Finish | inet/src/inet/common/Topology.cc:418-475 | A finished search has labelled every node with its least distance, infinite exactly when no finite route exists; the nodes dequeued are those with a route, each once, by distance, each after the node that its `outPath` leads to. |
| ShortestPaths.TakenAhead | inet/src/inet/common/Topology.cc:396-398 | Breadth-first: after dequeuing, no queued node is nearer than the one dequeued or more than one level farther. |
| ShortestPaths.Discover | inet/src/inet/common/Topology.cc:400-413 | Breadth-first: labelling a node for the first time and appending it keeps the queue in order and within those two levels. |
| ShortestPaths.AheadSpans | inet/src/inet/common/Topology.cc:378-416 | So the queue never spans more than two consecutive levels. |
| ShortestPaths.FewestHops | inet/src/inet/common/Topology.cc:378-416 | A breadth-first label is the least number of links of any enabled route, and is infinite exactly when there is no route. |
| ShortestPaths.SearchesAgree | inet/src/inet/common/Topology.cc:378-475 | With link weights 1 and node weights 0, both searches give the same distances. |
| ShortestPaths.NoShorterYet | simulte/src/apps/TrafficApp/TrafficServer.cc:253-260 | When a node is dequeued, no route from any node is shorter than that node's own label or the dequeued node's, so the search may stop early. |
| ShortestPaths.Front | simulte/src/apps/TrafficApp/TrafficServer.cc:253-258 | Taking any nearest waiting entry first is taking the first node of an ordered queue. |
| Topologies.Topology.LowerBound | inet/src/inet/common/Topology.cc:369-376 | The first position whose unsigned module id is not less. |
| Topologies.Topology.GetNodeFor | inet/src/inet/common/Topology.cc:369-376 | Finds a node with the module id, and nothing exactly when no node of the graph has it. |
| Topologies.Topology.AddNode | inet/src/inet/common/Topology.cc:256-269 | Inserts the node before those with greater unsigned id, or at the end if it stands for no module. If it is new and has no links, the graph grows by just that node and stays sound. |
| Topologies.Topology.DeleteNode | inet/src/inet/common/Topology.cc:271-295 | Takes the node and every link at it out of the graph, and the links out of the lists at their other ends. |
| Topologies.Topology.UnlinkFromSourceNode | inet/src/inet/common/Topology.cc:346-352 | Erases the link from its source's out list and changes no other list. |
| Topologies.Topology.UnlinkFromDestNode | inet/src/inet/common/Topology.cc:354-360 | Erases the link from its destination's in list and changes no other list. |
| Topologies.Topology.DeleteLink | inet/src/inet/common/Topology.cc:339-344 | The graph loses just that link and its lists stay consistent. |
| Topologies.Topology.AddLink | inet/src/inet/common/Topology.cc:297-314 | The link joins the two nodes, once in each list, even if it joined others before; gate ids are reset exactly when the ends change. |
| Topologies.Topology.AddLinkBetween | inet/src/inet/common/Topology.cc:316-337 | Succeeds exactly when both modules are in the graph; on failure a link that was in the graph has already left it, while still pointing at its old ends. |
| Topologies.Topology.ScanWeighted | inet/src/inet/common/Topology.cc:443-473 | One turn of the weighted search's inner loop refines a step of the search. |
| Topologies.Topology.ScanUnweighted | inet/src/inet/common/Topology.cc:401-414 | One turn of the breadth-first inner loop refines a step of the search. |
| Topologies.Topology.CalculateWeightedSingleShortestPathsTo | inet/src/inet/common/Topology.cc:418-475 | Whenever the source's two assertions hold, which is of every node that has a finite route to the target and every usable link into one: `dist` is the least cost over all enabled routes (link weights and the weights of the nodes between), infinite exactly when every route enters a node of infinite weight other than the target or takes a link of infinite weight; `outPath` leads down to the target at that cost; each node with a route is dequeued once, by distance, after the node its `outPath` leads to; the graph stays. |
| Topologies.Topology.CalculateUnweightedSingleShortestPathsTo | inet/src/inet/common/Topology.cc:378-416 | For every graph: `dist` is the least number of enabled links to the target, infinite when there is no route; `outPath` leads down to the target; each node with a route is dequeued once, by distance, after the node its `outPath` leads to; the graph stays. |
| RoadRoutes.DriveRoute | simulte/src/apps/TrafficApp/TrafficServer.cc:240-284 | A drive along `adjacency` is a route of the reversed graph, at the sum of the weights of the edges entered. |
| RoadRoutes.RouteDrive | simulte/src/apps/TrafficApp/TrafficServer.cc:240-284 | And every route of that graph is such a drive. |
| RoadRoutes.DurationTotal | simulte/src/apps/TrafficApp/TrafficServer.cc:262-266 | What a drive takes is the total of the weights of its edges but the first, one for each place. |
| LazyQueue.PopLeast | simulte/src/apps/TrafficApp/TrafficServer.cc:247-255 | The priority queue gives back an entry than which none is smaller, and keeps the rest. |
| LazyQueue.TracksTake | simulte/src/apps/TrafficApp/TrafficServer.cc:253-258 | Popping an entry of an unvisited edge is taking a nearest node of the search, although outdated entries are still in the queue. |
| LazyQueue.TracksDrop | simulte/src/apps/TrafficApp/TrafficServer.cc:257-257 | Popping an entry of a visited edge changes nothing in the search. |
| LazyQueue.TracksImprove | simulte/src/apps/TrafficApp/TrafficServer.cc:262-270 | Pushing a better entry without removing the old one refines moving the node in an ordered queue. |
| LazyQueue.OverBounds | simulte/src/apps/TrafficApp/TrafficServer.cc:257-276 | When the search stops at the destination, or runs out of edges, no drive to the destination is quicker than its label. |
| LazyQueue.Previous | simulte/src/apps/TrafficApp/TrafficServer.cc:265-281 | The `prev` of a labelled edge is an earlier edge, adjacent to it, and lies just its weight nearer. |
| RoadTraffic.ObservedHealthy | simulte/src/apps/TrafficApp/TrafficServer.cc:375-398 | A report keeps the traffic record healthy: counts not negative, a learnt time exactly if one was counted, and then above 0.5 and at most five times the base time. |
| RoadTraffic.DecayedHealthy | simulte/src/apps/TrafficApp/TrafficServer.cc:500-516 | So does a decay, and it makes both counts smaller unless they are 0. |
| RoadTraffic.DecaysForget | simulte/src/apps/TrafficApp/TrafficServer.cc:500-516 | Decays alone drive both counts and the learnt time to 0. |
| RoadTraffic.CongestionBounds | simulte/src/apps/TrafficApp/TrafficServer.cc:191-235 | The congestion share lies between 0 and 1. |
| RoadTraffic.WeightBounds | simulte/src/apps/TrafficApp/TrafficServer.cc:191-235 | Every edge weight is positive and at most 5*base*(1+K)*1.18. |
| RoadTraffic.MixedKnown | simulte/src/apps/TrafficApp/TrafficServer.cc:227-229 | The mixing of the seed is the finalizer of MurmurHash3: two published values. |
| RoadTraffic.FirstDraw | simulte/src/apps/TrafficApp/TrafficServer.cc:226-231 | One vehicle's draw for one edge. |
| RoadTraffic.SecondDraw | simulte/src/apps/TrafficApp/TrafficServer.cc:226-231 | The same vehicle's draw for another edge. |
| EdgeWeights.WeightMeans | simulte/src/apps/TrafficApp/TrafficServer.cc:191-235 | The weight is the learnt time, or the base time if none was learnt, if the share of congestion, faded by the age of the last report, is below a fifth; otherwise that time times 1 + share*fading*K times the vehicle's draw. The share is the one to which the edge is congested: its traffic misses no more than the share of the limit and takes no more than the share of the reference density, and just that much of one of the two. |
| EdgeWeights.ShareExists | simulte/src/apps/TrafficApp/TrafficServer.cc:201-219 | Every edge is congested to exactly one share. |
| EdgeWeights.SlowWeight | simulte/src/apps/TrafficApp/TrafficServer.cc:201-205 | Traffic at the x-th part of the limit, and no denser than that, has the weight at share 1 - x. |
| EdgeWeights.DenseWeight | simulte/src/apps/TrafficApp/TrafficServer.cc:207-211 | Traffic at the y-th part of the reference density, and no slower than that, has the weight at share y, at share 1 from there on. |
| EdgeWeights.FreeWeight | simulte/src/apps/TrafficApp/TrafficServer.cc:195-219 | Traffic at the limit with less than a fifth of the reference density weighs its learnt or base time; with just a fifth, exactly once the report has aged. |
| EdgeWeights.SlowedGrowsAlways | simulte/src/apps/TrafficApp/TrafficServer.cc:219-232 | A greater share never makes the edge lighter exactly if (1 + K/5)*draw is at least 1 or the report is so old that no share counts. |
| EdgeWeights.SteepForAll | simulte/src/apps/TrafficApp/TrafficServer.cc:219-232 | That holds of every vehicle and edge from K = 45/41 on. |
| EdgeWeights.SlowerWeighsMore | simulte/src/apps/TrafficApp/TrafficServer.cc:201-235 | Then slower or denser traffic does not make the weight fall. |
| EdgeWeights.SlowerYetLighter | simulte/src/apps/TrafficApp/TrafficServer.cc:201-235 | For every smaller K it can: an edge at four fifths of its limit that is lighter than the same edge at its limit. |
| Sums.AverageNext | simulte/src/apps/TrafficApp/TrafficServer.cc:380-380 | The average in which the first of n numbers counts 0.7^(n-1) and the i-th 0.3*0.7^(n-i) is the one that grows by a new number as 0.7 times itself and 0.3 times the number. |
| Sums.AverageBetween | simulte/src/apps/TrafficApp/TrafficServer.cc:380-380 | It lies between the least and the greatest of the numbers. |
| Sums.AverageMoves | simulte/src/apps/TrafficApp/TrafficServer.cc:380-380 | A new number that differs moves it strictly towards itself. |
| Learning.LearntNext | simulte/src/apps/TrafficApp/TrafficServer.cc:375-398 | What a report adds: after any number of reports the count is theirs on top of the old one, the time is the last one's, the speed is the average of the reported speeds (with the old one as the oldest, if any was counted), and the travel time and its count are the same of the credible times. |
| Learning.FirstReports | simulte/src/apps/TrafficApp/TrafficServer.cc:377-381 | On an edge with none counted, the speed is the average of the reported speeds alone, and between the least and the greatest. |
| Learning.ReportMoves | simulte/src/apps/TrafficApp/TrafficServer.cc:377-381 | A report of another speed moves the speed strictly towards it. |
| Learning.DecayedForgot | simulte/src/apps/TrafficApp/TrafficServer.cc:500-516 | A decay keeps 92 percent of both counts, rounded down; when none is left, the learnt time is forgotten and the speed moves three tenths of its way to the limit. |
| Learning.SpeedRecovers | simulte/src/apps/TrafficApp/TrafficServer.cc:500-516 | After n decays with none counted, the speed's distance from the limit is 0.7^n of what it was. |
| TrafficMessages.RouteMessageKeeps | simulte/src/apps/TrafficApp/TrafficServer.cc:465-479 | The route message holds exactly the first min(n, 64) edges of the route, and -1 in every other slot. |
| TrafficServers.EdgeNeverDecides | simulte/src/apps/TrafficApp/TrafficServer.cc:417-429 | Dropping the `edgeChanged` test changes no decision: a route is due exactly at the first report or after the full interval. |
| TrafficServers.DistanceTotal | simulte/src/apps/TrafficApp/TrafficServer.cc:441-446 | The distance is the total of the lengths, one for each place in the route. |
| TrafficServers.HashKnown | simulte/src/apps/TrafficApp/TrafficServer.cc:66-74 | The seed is the FNV-1a hash of the key: two published values. |
| TrafficServers.RecordedLearns | simulte/src/apps/TrafficApp/TrafficServer.cc:375-398 | In every run: between decays, each edge has learnt just what was reported of it. |
| TrafficServers.TrafficServer.constructor | simulte/src/apps/TrafficApp/TrafficServer.cc:289-330 | A new server, with quiet traffic, meets the invariant. |
| TrafficServers.TrafficServer.GetEdgeWeight | simulte/src/apps/TrafficApp/TrafficServer.cc:191-235 | In every reachable state the weight is positive and bounded, and is the weight the search minimises; `EdgeWeights.WeightMeans` says what it is. |
| TrafficServers.TrafficServer.Explore | simulte/src/apps/TrafficApp/TrafficServer.cc:240-271 | The lazy-deletion search ends with labels that refine a finished or early-stopped search. |
| TrafficServers.TrafficServer.Trace | simulte/src/apps/TrafficApp/TrafficServer.cc:273-283 | Following `prev` back from the destination gives a drive from the source at the destination's label. |
| TrafficServers.TrafficServer.Dijkstra | simulte/src/apps/TrafficApp/TrafficServer.cc:240-284 | A non-empty result is a drive from source to destination with least total weight over all drives; it is empty only if there is no drive. |
| TrafficServers.TrafficServer.DecayEdgeInfo | simulte/src/apps/TrafficApp/TrafficServer.cc:500-516 | Every edge decays once, and the invariant is kept. |
| TrafficServers.TrafficServer.ResetRerouteCounter | simulte/src/apps/TrafficApp/TrafficServer.cc:335-352 | A reset begins a new ration, and the invariant is kept. |
| TrafficServers.TrafficServer.Learn | simulte/src/apps/TrafficApp/TrafficServer.cc:375-398 | A report changes just its edge's traffic, by the moving average that `Learning.LearntNext` describes. |
| TrafficServers.TrafficServer.RouteDistance | simulte/src/apps/TrafficApp/TrafficServer.cc:441-446 | The distance of a route is the sum of its edges' lengths. |
| TrafficServers.TrafficServer.SendRoute | simulte/src/apps/TrafficApp/TrafficServer.cc:465-495 | Sends the vehicle's address the route message, if the vehicle is known. |
| TrafficServers.TrafficServer.Dispatch | simulte/src/apps/TrafficApp/TrafficServer.cc:440-459 | A route that is long enough is sent and counted, a shorter one is not, and both note the time and the edge. |
| TrafficServers.TrafficServer.Reroute | simulte/src/apps/TrafficApp/TrafficServer.cc:415-460 | A route is computed exactly when one is due, the ration is not used up and a drive exists; it is then a quickest drive for this vehicle's weights; otherwise nothing changes. |
| TrafficServers.TrafficServer.SocketDataArrived | simulte/src/apps/TrafficApp/TrafficServer.cc:357-463 | One report, at a time not before the last event: an index out of range changes nothing but the clock; else the edge learns, the vehicle is noted and a route may leave, which keeps to the spacing and the ration. |
| TrafficServers.TrafficServer.HandleMessage | simulte/src/apps/TrafficApp/TrafficServer.cc:335-355 | One event, a report or a timer, at any later time: at most one route leaves, only for a report, to its vehicle and at its time; but for resets the counter counts it; each edge's traffic takes in what the event says of it; the next event may follow. |
| TrafficServers.TrafficServer.Run | simulte/src/apps/TrafficApp/TrafficServer.cc:335-463 | Any sequence of reports, decays and resets in the order of time: however the run began, two routes to the same vehicle are at least `rerouteInterval` apart, between two resets at most 8 routes leave, and each leaves for a report, to its vehicle and at its time; between two decays every edge has learnt just the reports on it (`LearntNext`), and each decay forgets as `DecayedForgot` says. |
| BitStreams.WriteByteRight | inet/src/inet/common/MemoryOutputStream.h:134-144 | `writeByte` appends the eight bits of every byte exactly when the stream ends at the start or in the middle of a byte. |
| BitStreams.WrittenLoses | inet/src/inet/common/MemoryOutputStream.h:134-144 | At every other bit offset the byte 1 is lost, whatever was written before. |
| BitStreams.WrittenAppends | inet/src/inet/common/MemoryOutputStream.h:134-144 | At bit offset 0 or 4 it appends them and leaves the rest of the last byte zero. |
| BitStreams.BitAppends | inet/src/inet/common/MemoryOutputStream.h:99-108 | Setting the next bit, in a new byte if need be, appends it and changes no bit before. |
| BitStreams.Straddled | inet/src/inet/common/MemoryInputStream.h:191-210 | `readByte` takes the eight bits from the two bytes they lie in, at any offset. |
| BitStreams.BitValues | inet/src/inet/common/MemoryOutputStream.h:99-144 | The bits of a byte, in the order they are written, count from 128 down to 1. |
| BitStreams.TwoBytes | inet/src/inet/common/MemoryInputStream.h:296-312 | Of two bytes, the first counts 256 in one order and 1 in the other. |
| BitStreams.NumbersUnique | inet/src/inet/common/MemoryOutputStream.h:252-298 | A number that fits n bytes is told from every other by its bytes, in either byte order. |
| BitStreams.FromBeBack | inet/src/inet/common/MemoryInputStream.h:342-379 | Reading n bytes most significant first and writing the number gives the bytes back. |
| BitStreams.FromLeBack | inet/src/inet/common/MemoryInputStream.h:355-396 | The same for least significant first. |
| MemoryOutputStreams.MemoryOutputStream.WriteBit | inet/src/inet/common/MemoryOutputStream.h:99-108 | Appends the bit. |
| MemoryOutputStreams.MemoryOutputStream.WriteByte | inet/src/inet/common/MemoryOutputStream.h:134-144 | Appends the byte's bits at offset 0 or 4; at every offset, the exact data it leaves. |
| MemoryOutputStreams.MemoryOutputStream.WriteUint2 | inet/src/inet/common/MemoryOutputStream.h:186-189 | Appends the two low bits, higher first. |
| MemoryOutputStreams.MemoryOutputStream.WriteUint4 | inet/src/inet/common/MemoryOutputStream.h:195-200 | Appends the four low bits, highest first. |
| MemoryOutputStreams.MemoryOutputStream.WriteUint16Be | inet/src/inet/common/MemoryOutputStream.h:214-217 | Appends the number's bytes, most significant first. |
| MemoryOutputStreams.MemoryOutputStream.WriteUint16Le | inet/src/inet/common/MemoryOutputStream.h:223-226 | Appends the number's bytes, least significant first. |
| MemoryOutputStreams.MemoryOutputStream.WriteUint24Be | inet/src/inet/common/MemoryOutputStream.h:232-236 | Appends the number's bytes, most significant first. |
| MemoryOutputStreams.MemoryOutputStream.WriteUint24Le | inet/src/inet/common/MemoryOutputStream.h:242-246 | Appends the number's bytes, least significant first. |
| MemoryOutputStreams.MemoryOutputStream.WriteUint32Be | inet/src/inet/common/MemoryOutputStream.h:252-257 | Appends the number's bytes, most significant first. |
| MemoryOutputStreams.MemoryOutputStream.WriteUint32Le | inet/src/inet/common/MemoryOutputStream.h:263-268 | Appends the number's bytes, least significant first. |
| MemoryOutputStreams.MemoryOutputStream.WriteUint64Be | inet/src/inet/common/MemoryOutputStream.h:274-283 | Appends the number's bytes, most significant first. |
| MemoryOutputStreams.MemoryOutputStream.WriteUint64Le | inet/src/inet/common/MemoryOutputStream.h:289-298 | Appends the number's bytes, least significant first. |
| MemoryInputStreams.MemoryInputStream.ReadBit | inet/src/inet/common/MemoryInputStream.h:145-159 | The next bit; past the end, false, and the stream is marked. |
| MemoryInputStreams.MemoryInputStream.ReadByte | inet/src/inet/common/MemoryInputStream.h:191-210 | The next eight bits at any offset; if there are fewer, 0, at the end, and the stream is marked. |
| MemoryInputStreams.MemoryInputStream.ReadUint2 | inet/src/inet/common/MemoryInputStream.h:264-269 | The number whose two bits were next. |
| MemoryInputStreams.MemoryInputStream.ReadUint4 | inet/src/inet/common/MemoryInputStream.h:275-282 | The number whose four bits were next. |
| MemoryInputStreams.MemoryInputStream.ReadUint16Be | inet/src/inet/common/MemoryInputStream.h:296-301 | The number whose bytes, most significant first, were next. |
| MemoryInputStreams.MemoryInputStream.ReadUint16Le | inet/src/inet/common/MemoryInputStream.h:307-312 | The number whose bytes, least significant first, were next. |
| MemoryInputStreams.MemoryInputStream.ReadUint24Be | inet/src/inet/common/MemoryInputStream.h:318-324 | The number whose bytes, most significant first, were next. |
| MemoryInputStreams.MemoryInputStream.ReadUint24Le | inet/src/inet/common/MemoryInputStream.h:330-336 | The number whose bytes, least significant first, were next. |
| MemoryInputStreams.MemoryInputStream.ReadUint32Be | inet/src/inet/common/MemoryInputStream.h:342-349 | The number whose bytes, most significant first, were next. |
| MemoryInputStreams.MemoryInputStream.ReadUint32Le | inet/src/inet/common/MemoryInputStream.h:355-362 | The number whose bytes, least significant first, were next. |
| MemoryInputStreams.MemoryInputStream.ReadUint64Be | inet/src/inet/common/MemoryInputStream.h:368-379 | The number whose bytes, most significant first, were next. |
| MemoryInputStreams.MemoryInputStream.ReadUint64Le | inet/src/inet/common/MemoryInputStream.h:385-396 | The number whose bytes, least significant first, were next. |
| Fields.WriteFields | inet/src/inet/common/MemoryOutputStream.h:99-298 | Any sequence of bit, 2-bit, 4-bit and byte-wide fields, in either byte order, is appended bit for bit, if the byte-wide ones start at offset 0 or 4. |
| Fields.ReadFields | inet/src/inet/common/MemoryInputStream.h:145-396 | Reading fields of given shapes takes just their bits, at any offset; if there are enough bits, the fields read have those bits. |
| Fields.TransferFields | inet/src/inet/common/MemoryInputStream.h:145-396 | Round trip: any such fields, written to one stream and read from another, come back as they were, through as many bytes as their bits need. |
| Fields.FieldsUnique | inet/src/inet/common/MemoryInputStream.h:145-396 | Fields of the same shapes with the same bits are the same: what is read is what was written. |
| TrafficMsgSerializers.SerializeReport | simulte/src/apps/TrafficApp/TrafficMsgSerializer.cc:32-42 | Appends the fields of the report: 36 bytes. |
| TrafficMsgSerializers.SerializeRoute | simulte/src/apps/TrafficApp/TrafficMsgSerializer.cc:61-70 | Appends the length and the 64 edges of the route message: 260 bytes. |
| TrafficMsgSerializers.DeserializeReport | simulte/src/apps/TrafficApp/TrafficMsgSerializer.cc:44-55 | A report whose fields have just the bits that were next. |
| TrafficMsgSerializers.DeserializeRoute | simulte/src/apps/TrafficApp/TrafficMsgSerializer.cc:72-82 | A route message whose fields have just the bits that were next. |
| TrafficMsgSerializers.TransferReport | simulte/src/apps/TrafficApp/TrafficMsgSerializer.cc:32-55 | Decoding an encoded report gives back every field, through a chunk of 36 bytes. |
| TrafficMsgSerializers.TransferRoute | simulte/src/apps/TrafficApp/TrafficMsgSerializer.cc:61-82 | Decoding an encoded route message gives back every field, the -1 fillers and the sign of every edge included, through 260 bytes. |
| TrafficMsgSerializers.DeliverRoute | simulte/src/apps/TrafficApp/TrafficServer.cc:465-495 | End to end: the vehicle recovers exactly the first min(n, 64) edges of the route the server computed. |
| StateHierarchy.ChainMembers | inet/src/inet/common/Macho.h:789-792 | `isChild` holds exactly of the states on the ancestor chain, and the chain of an ancestor is the beginning of the chain. |
| StateHierarchy.SharedDrop | inet/src/inet/common/Macho.cc:156-173 | Leaving a state that is not around the target does not change what the chains share. |
| Macho.Machine.ExitStops | inet/src/inet/common/Macho.cc:156-173 | `exit` stops exactly at the innermost state that stays entered. |
| Macho.Machine.EntryStops | inet/src/inet/common/Macho.cc:139-154 | `entry` stops exactly there too. |
| Macho.Machine.Exit | inet/src/inet/common/Macho.cc:156-173 | Leaves, innermost first, exactly the states not around the target; each loses its own box unless the box is persistent. |
| Macho.Machine.Entry | inet/src/inet/common/Macho.cc:139-154 | Enters, outermost first, exactly the states from there to the target, each with a box. |
| Macho.Machine.CreateBox | inet/src/inet/common/Macho.h:913-923 | A state has a box after it is entered: the old one if it has one, else a new one. |
| Macho.Machine.SetHistorySuper | inet/src/inet/common/Macho.h:734-739 | History bubbles up: each superstate of the state left remembers by its own strategy the substate on the way, the state itself, or nothing new. |
| Macho.Machine.SaveHistory | inet/src/inet/common/Macho.h:276-297 | The history strategies, for a state left through one of its direct substates. |
| Macho.Machine.KeepHistory | inet/src/inet/common/Macho.cc:357-359 | After a transition, every state around the one left remembers by its strategy, no other state's history changes, and every history is empty or a proper descendant. |
| Macho.Machine.RememberedInside | inet/src/inet/common/Macho.h:276-297 | Whatever a state remembers is a proper descendant of it. |
| Macho.Machine.TowardParent | inet/src/inet/common/Macho.h:734-739 | The substate that shallow history remembers is the one that bubbling up passes. |
| Macho.Machine.Transition | inet/src/inet/common/Macho.cc:345-375 | One transition leaves innermost first up to what is around the target and enters outermost first down to it, so that a target that is current or around it is left and entered again; histories are saved, persistent boxes kept, other states' boxes new. |
| Macho.Machine.SetPendingState | inet/src/inet/common/Macho.h:1518-1525 | A transition is pending; asking for the same one twice is allowed. |
| Macho.Machine.Init | inet/src/inet/common/Macho.cc:175-187 | A history transition goes to the history if there is one, else the init action decides state and initialiser; the history is cleared; what is pending is a proper descendant. |
| Macho.Machine.Execute | inet/src/inet/common/Macho.h:1292-1312 | The three initialisers: which transition is pending afterwards and whether the init action ran; what is pending is a proper descendant. |
| Macho.Machine.RunInit | inet/src/inet/common/Macho.cc:175-187 | The state's init action may ask for one transition into the state. |
| Macho.Machine.Settle | inet/src/inet/common/Macho.cc:345-394 | The inner loop ends, with depth in the hierarchy as its measure, exactly where histories and init actions lead from the target, with exactly the histories that are then left; the trace is that of one direct way there. |
| Macho.Machine.Perform | inet/src/inet/common/Macho.cc:345-394 | One round of the inner loop, a transition and its initialisation: the histories afterwards and the transition that is asked for next. |
| Macho.Machine.Settling | inet/src/inet/common/Macho.cc:345-394 | Where histories and init actions lead from a target is the target or a state inside it, and every history is empty or inside its state. |
| Macho.Machine.SettlesBack | inet/src/inet/common/Macho.cc:175-187 | A transition by history to a state that remembers one ends in the state remembered or inside it, and in that state itself if its init action asks for nothing. |
| Macho.Machine.HistoryLasts | inet/src/inet/common/Macho.cc:345-394 | A transition that does not end in a state leaves its history as it was when the state before was left. |
| Macho.Machine.HistoryReturns | inet/src/inet/common/Macho.h:276-297 | In every run: after a state inside another was left, however many handlers ran while the machine rested outside, going back by history ends in the state left (deep) or the substate around it (shallow), or inside it; exactly there if its init action asks for nothing. |
| Macho.Machine.NoHistoryNever | inet/src/inet/common/Macho.h:276-297 | A state without history never has one, in any state of the machine, so that going to it by history is going to it. |
| Macho.Machine.Deeper | inet/src/inet/common/Macho.cc:345-394 | Going to a state and on to one inside it leaves and enters the same states in the same order as going there at once. |
| Macho.Machine.PathMeans | inet/src/inet/common/Macho.cc:139-173 | What is left on the way is exactly the states around where it begins, and what is entered exactly those around where it ends, but for the states that are around both and not the target: a target that was entered is left and entered again. |
| Macho.Machine.Handle | inet/src/inet/common/Macho.cc:396-401 | The handler of the current state is called with the event; it sets what it asks for: a pending state or none, and a further event or none. |
| Macho.Machine.RattleOn | inet/src/inet/common/Macho.cc:339-403 | The machine goes on one leg for what is pending at first and on one more for each event handled. Each handler is called where the leg before ends, and decides the goal of the next leg and the next event; each leg ends exactly where histories and init actions lead from its goal. The trace grows by what is left and entered on the legs, one after the other, each in its order. In the end nothing is pending, and the states entered and not yet left are exactly the current state and those around it. |
| Macho.Machine.Round | inet/src/inet/common/Macho.cc:343-402 | One round of the outer loop: the pending transition with its init transitions, then one event. |
| Macho.Machine.Rest | inet/src/inet/common/Macho.cc:345-394 | The pending transition takes the machine exactly where histories and init actions lead from its target, over one direct way; without one it stays. |
| Macho.Machine.Start | inet/src/inet/common/Macho.cc:248-266 | From the start, the states around the initial state and it are entered, and those its initialisation leads to, exactly there. |
| Macho.Machine.SetState | inet/src/inet/common/Macho.cc:236-246 | Goes to a state from outside, by one direct way, and rests exactly where histories and init actions lead; with history, in the state remembered or inside it. |
| Macho.Machine.Dispatch | inet/src/inet/common/Macho.cc:339-403 | The current state handles the event, and the states the machine comes to handle the events dispatched further, with the same account of the whole run: the trace before is kept, and what is added is the ways of the legs. |
| Macho.Machine.Shutdown | inet/src/inet/common/Macho.cc:268-278 | Every state still entered is left, innermost first; nothing stays entered and no box that is not persistent is left. |
| Macho.Machine.Unstarted | inet/src/inet/common/Macho.cc:217-221 | A machine that was just made meets the invariant that every operation keeps. |
| Globs.CoversFirst | inet/src/inet/common/PatternMatcher.cc:258-356 | A pattern covers a stretch exactly when its first element fits some beginning of it and the rest covers what remains. |
| Globs.CoversJoin | inet/src/inet/common/PatternMatcher.cc:258-356 | Two patterns one after the other cover exactly the stretches that can be cut in two. |
| Globs.SameMeans | inet/src/inet/common/PatternMatcher.cc:245-275 | Characters are the same if they are equal, and, when case does not matter, also if they are the two cases of a letter; else they are not. |
| PatternSyntax.FullMeaning | inet/src/inet/common/PatternMatcher.h:55-58 | In full-string mode a pattern accepts exactly the strings that its elements cover from end to end. |
| PatternSyntax.SubstringMeaning | inet/src/inet/common/PatternMatcher.h:55-58 | In substring mode it accepts exactly the strings some part of which its elements cover, also where the pattern begins or ends with a sequence of its own. |
| PatternTexts.RangeFound | inet/src/inet/common/PatternMatcher.cc:164-191 | Digits or none, two dots, digits or none and the closing character are a number range with those ends, wherever they stand. |
| PatternTexts.RangeWritten | inet/src/inet/common/PatternMatcher.cc:164-191 | Nothing else is. |
| PatternTexts.QuotedParses | inet/src/inet/common/PatternMatcher.h:45-45 | A text with a backslash before every character is parsed as that literal, whatever characters it has. |
| PatternTexts.QuotedMatches | inet/src/inet/common/PatternMatcher.h:45-45 | Such a pattern accepts exactly that text. |
| PatternTexts.EscapedParses | inet/src/inet/common/PatternMatcher.cc:148-162 | The documentation promises that a backslash takes away the special meaning of the next character. A text with a backslash before its special characters is parsed as that literal exactly if it has no number range in brackets. |
| PatternTexts.BracketNotQuoted | inet/src/inet/common/PatternMatcher.cc:148-162 | A concrete pattern for which the promise is not kept. |
| PatternTexts.SetMeans | inet/src/inet/common/PatternMatcher.h:60-68 | The ranges of a set are read as they were written, with both ends or as one character: a closing brace as the first character, a hyphen anywhere, a backslash as itself. |
| PatternTexts.TextToken | inet/src/inet/common/PatternMatcher.cc:49-110 | Each text of an element is read as that element, whatever admissible text follows: literals with or without backslashes, sets with ranges and single characters, number ranges, both stars. |
| PatternTexts.ParseWritten | inet/src/inet/common/PatternMatcher.cc:49-110 | Parsing undoes writing: every sequence of elements that a pattern can have side by side, however each is spelled, is read back; in undotted mode a single star is one of the two spellings of any sequence. |
| PatternTexts.BracketMeans | inet/src/inet/common/PatternMatcher.cc:64-70 | A number range in brackets after a literal is read with its brackets in the literals around it. |
| PatternMatchers.MeansExactly | inet/src/inet/common/PatternMatcher.cc:317-324 | What the matcher with its shortcuts accepts: the strings of the pattern, in either case mode, save that a final literal after `**` must agree in case. |
| PatternMatchers.MeansSensitive | inet/src/inet/common/PatternMatcher.cc:258-356 | With case, that is exactly the pattern's strings. |
| PatternMatchers.AcceptsEnding | inet/src/inet/common/PatternMatcher.cc:358-382 | A string accepted by a pattern that ends in a literal ends in that literal. |
| PatternMatchers.LastTwo | inet/src/inet/common/PatternMatcher.cc:358-382 | The check of the last two characters never rejects a string that the pattern accepts. |
| PatternMatchers.ShortcutMindsCase | inet/src/inet/common/PatternMatcher.cc:323-324 | Without case, the shortcut rejects a string that the pattern accepts: a concrete input. |
| PatternMatchers.PatternMatcher.SetPattern | inet/src/inet/common/PatternMatcher.cc:49-110 | The pattern's text is parsed by the function that `ParseWritten`, `EscapedParses` and `RangeFound` describe, or rejected for an unmatched brace or a lone backslash at the end. |
| PatternMatchers.PatternMatcher.ParseNumRange | inet/src/inet/common/PatternMatcher.cc:164-191 | A number range with either end left out, or none, and the pattern's position where it stands. |
| PatternMatchers.PatternMatcher.ParseLiteralString | inet/src/inet/common/PatternMatcher.cc:148-162 | The longest literal, with its backslashes taken away. |
| PatternMatchers.PatternMatcher.ParseSet | inet/src/inet/common/PatternMatcher.cc:112-146 | The ranges of a set, to its closing brace, which may be its first character. |
| PatternMatchers.PatternMatcher.IsInSet | inet/src/inet/common/PatternMatcher.cc:245-256 | Whether a character is in one of the ranges. |
| PatternMatchers.PatternMatcher.Pass | inet/src/inet/common/PatternMatcher.cc:265-315 | Each element but a sequence fits at most one stretch from a position; the matcher finds it. |
| PatternMatchers.PatternMatcher.DoMatch | inet/src/inet/common/PatternMatcher.cc:258-356 | The backtracking loop terminates and decides the meaning of the rest of the pattern at a position. |
| PatternMatchers.PatternMatcher.MatchSequence | inet/src/inet/common/PatternMatcher.cc:317-344 | The same at a sequence, through its shortcuts and its attempts at every position. |
| PatternMatchers.PatternMatcher.Matches | inet/src/inet/common/PatternMatcher.cc:358-382 | With the check in front: exactly the pattern's strings when case matters, and exactly when the rest agree in case otherwise. |
| PatternPromises.MatchLine | inet/src/inet/common/PatternMatcher.cc:49-110 | Setting a pattern and matching a line answers what the lemmas below speak of. |
| PatternPromises.Star | inet/src/inet/common/PatternMatcher.h:37-57 | A single star accepts every line, or in dotted paths every line without a dot. |
| PatternPromises.EveryLine | inet/src/inet/common/PatternMatcher.cc:80-89 | End to end: without dotted paths, `*` accepts every line, in either case mode. |
| PatternPromises.TwoStars | inet/src/inet/common/PatternMatcher.h:40-40 | Two stars accept every line. |
| PatternPromises.Question | inet/src/inet/common/PatternMatcher.h:38-38 | A question mark accepts the lines of one character, in dotted paths other than a dot. |
| PatternPromises.CharacterRange | inet/src/inet/common/PatternMatcher.h:41-42 | A range of characters, and one with a caret, accept the lines of one character in it, and not in it. |
| PatternPromises.Numbers | inet/src/inet/common/PatternMatcher.h:43-43 | A number range in braces accepts just the numbers between the ends that are given. |
| PatternPromises.BracketNumbers | inet/src/inet/common/PatternMatcher.h:44-44 | One in brackets accepts just those numbers in brackets. |
| PatternPromises.StarBetween | inet/src/inet/common/PatternMatcher.cc:80-89 | A star between two literals accepts exactly the lines that begin and end so and are long enough, dots included unless paths are dotted; when case does not matter, an end after a star that may stand for dots must agree in case. |
| PatternPromises.EveryMiddle | inet/src/inet/common/PatternMatcher.cc:80-89 | End to end: whatever is between the two literals. |
| PatternPromises.Occurs | inet/src/inet/common/PatternMatcher.h:56-58 | In substring mode a literal accepts exactly the lines it occurs in. |
| DispatchNetworks.Apart | inet/src/inet/common/MessageDispatcher.cc:132-156 | In a network without cycles, no dispatcher is behind two gates of another. |
| DispatchNetworks.BehindPeer | inet/src/inet/common/MessageDispatcher.cc:132-156 | Behind a gate is exactly the neighbour and what is behind that one's other gates. |
| DispatchNetworks.ConnectedWalks | inet/src/inet/common/MessageDispatcher.cc:132-156 | What any path reaches, a path that does not turn back reaches. |
| DispatchNetworks.WholeComponent | inet/src/inet/common/MessageDispatcher.cc:132-156 | From a gate that is not connected on, the side flooded is the whole connected component. |
| DispatchNetworks.RecordedArrives | inet/src/inet/common/MessageDispatcher.cc:132-156 | The gates recorded by a flood lead from every dispatcher of the side to the registrant in finitely many hops. |
| DispatchNetworks.HomewardMore | inet/src/inet/common/MessageDispatcher.cc:89-97 | Remembering the gate by which a request came keeps every remembered gate leading home. |
| DispatchNetworks.Retraced | inet/src/inet/common/MessageDispatcher.cc:89-97 | A reply along the remembered gates passes the dispatchers of the request in reverse. |
| MessageDispatchers.HandleRegister | inet/src/inet/common/MessageDispatcher.cc:132-168 | Registering a service, protocol or interface reaches every dispatcher of the side exactly once and records there the gate towards the registrant; it raises the duplicate error exactly if one of them had the key already. |
| MessageDispatchers.ServiceFound | inet/src/inet/common/MessageDispatcher.cc:132-156 | After that, the gates registered lead from every dispatcher on the side to the registrant. |
| MessageDispatchers.PacketArrives | inet/src/inet/common/MessageDispatcher.cc:46-85 | A packet for the service gets there from every dispatcher; one that names no primitive is for the indications of its own protocol and the requests of another. |
| MessageDispatchers.HandlePacket | inet/src/inet/common/MessageDispatcher.cc:46-85 | A packet for a socket leaves by the socket's gate, or is an unknown socket exactly if the socket is not recorded; else one for a protocol by the service's gate, or is an unknown protocol exactly if the service is not; else one for an interface by its gate, or is an unknown interface exactly if it is not; else it is unknown. |
| MessageDispatchers.MessageOutcome | inet/src/inet/common/MessageDispatcher.cc:99-130 | The same of messages, of which one that names no primitive is a request. |
| MessageDispatchers.InterfaceArrives | inet/src/inet/common/MessageDispatcher.cc:76-83 | After an interface is registered, a packet or message for it gets from every dispatcher of the side to the registrant and leaves by its gate. |
| MessageDispatchers.MessageArrives | inet/src/inet/common/MessageDispatcher.cc:107-120 | So does a message for a service. |
| MessageDispatchers.Forward | inet/src/inet/common/MessageDispatcher.cc:36-58 | A packet travels until it leaves the network, at the registrant. |
| MessageDispatchers.DeliverToInterface | inet/src/inet/common/MessageDispatcher.cc:76-168 | End to end: once an interface is registered, a packet for it leaves the network there, from wherever it is sent; registering fails exactly on a duplicate. |
| MessageDispatchers.HandleMessage | inet/src/inet/common/MessageDispatcher.cc:87-130 | A socket is learnt the first time only; the message leaves as `MessageOutcome` says. |
| MessageDispatchers.Request | inet/src/inet/common/MessageDispatcher.cc:87-130 | A request gets to the service, and every dispatcher on its way remembers the socket so that replies lead home; a first request leaves just its own trail. |
| MessageDispatchers.Reply | inet/src/inet/common/MessageDispatcher.cc:46-58 | A reply from any dispatcher that remembers the socket gets to the requester's gate. |
| MessageDispatchers.ReplyRetraces | inet/src/inet/common/MessageDispatcher.cc:87-106 | A reply to a first request retraces the request's path. |
| Words.AddWords | inet/src/inet/common/int128.cc:204-214 | Adding word by word with the carry is addition modulo 2^128. |
| Words.ShiftLeftWords | inet/src/inet/common/int128.cc:352-380 | Shifting both words with the bits carried over is multiplication by a power of two modulo 2^128. |
| Words.ShiftRightWords | inet/src/inet/common/int128.cc:321-350 | Shifting right is division by a power of two that rounds down, negative numbers included. |
| Words.BitWords | inet/src/inet/common/int128.cc:291-300 | Bit n of the words is bit n of the two's-complement number. |
| Numerals.ParsedPrinted | inet/src/inet/common/int128.cc:37-109 | Parsing the decimal numeral of any number gives the number back; what the printer prints for the minimum is no numeral of it (`ToString`). |
| Numerals.NumeralMeans | inet/src/inet/common/int128.cc:37-62 | In every radix, the digits printed stand for the number: each counts its worth times a power of the radix. |
| Numerals.DigitChars | inet/src/inet/common/int128.cc:57-58 | The digits, in order, are 0 to 9 and A to Z. |
| Numerals.MarkedRadix | inet/src/inet/common/int128.cc:83-109 | After `0` octal digits, and after `0x` hexadecimal digits, are read in that radix, with or without a sign. |
| Numerals.ParsedMarked | inet/src/inet/common/int128.cc:37-109 | So an octal or hexadecimal numeral after its mark is read as the number. |
| Numerals.OctalKnown | inet/src/inet/common/int128.cc:83-84 | For example, `010` is 8. |
| Numerals.OneTooMany | inet/src/inet/common/int128.cc:94-101 | The comparisons let one letter too many pass as a digit: exactly `a` and `A` in radix 10 and `g` and `G` in radix 16, and none in radix 8. |
| Numerals.ParsedRight | inet/src/inet/common/int128.cc:64-109 | For every text: the number parsed is the number meant (digits worth less than the radix, modulo 2^128) if the digits are not followed by that letter, and, when the number read is in range, only then. |
| Numerals.ParsedByChance | inet/src/inet/common/int128.cc:64-109 | If the letter follows, the number parsed is right exactly if the difference is lost modulo 2^128, which takes a number out of range. |
| Numerals.ParsedRightShort | inet/src/inet/common/int128.cc:64-109 | For a text of at most 31 characters: exactly if the letter does not follow. |
| Numerals.LetterInDecimal | inet/src/inet/common/int128.cc:96-97 | A wrongly read decimal number: `1a` is read as 20. |
| Numerals.LetterInHexadecimal | inet/src/inet/common/int128.cc:96-97 | A wrongly read hexadecimal number: `0xg` is read as 16. |
| Int128s.DividedUnique | inet/src/inet/common/int128.cc:239-289 | Quotient and remainder are determined by their definition. |
| Int128s.Int128.FromInt64 | inet/src/inet/common/int128.h:71-74 | A 64-bit integer keeps its value, negative ones included. |
| Int128s.Int128.IsZero | inet/src/inet/common/int128.h:104-104 | `!` holds exactly of zero. |
| Int128s.Int128.Negated | inet/src/inet/common/int128.cc:162-168 | Negation in two's complement; exact for all but the minimum. |
| Int128s.Int128.AddAssign | inet/src/inet/common/int128.cc:204-214 | Addition modulo 2^128, the operand being itself included. |
| Int128s.Int128.SubAssign | inet/src/inet/common/int128.h:128-131 | Subtraction modulo 2^128, the operand being itself included. |
| Int128s.Int128.ShiftLeftAssign | inet/src/inet/common/int128.cc:352-380 | Multiplication by 2^n modulo 2^128, for every n. |
| Int128s.Int128.ShiftRightAssign | inet/src/inet/common/int128.cc:321-350 | Division by 2^n that rounds down, for every n. |
| Int128s.Int128.Bit | inet/src/inet/common/int128.cc:291-300 | Bit n of the number. |
| Int128s.Int128.SetBit | inet/src/inet/common/int128.cc:302-319 | Setting a bit that is not set adds 2^n. |
| Int128s.Int128.LessRight | inet/src/inet/common/int128.cc:382-392 | `operator<` orders two numbers rightly exactly unless their high words are equal and negative and their low words lie on different sides of 2^63. |
| Int128s.Int128.LessWrong | inet/src/inet/common/int128.cc:382-392 | A concrete pair: -2^64 is found greater than -2^63. |
| Int128s.Int128.MulAssign | inet/src/inet/common/int128.cc:216-237 | Shift-and-add multiplication is multiplication modulo 2^128, the operand being itself included. |
| Int128s.Int128.DivMagnitude | inet/src/inet/common/int128.cc:255-279 | The two loops of restoring division give quotient and remainder of positive numbers, without overflow on the way. |
| Int128s.Int128.Div | inet/src/inet/common/int128.cc:239-289 | For every divisor but zero and the minimum: dividend = q*divisor + r with the magnitude of r below that of the divisor and r zero or signed like the dividend, exactly if the dividend is not the minimum; the minimum gives quotient 0 with itself as remainder. |
| Int128s.Int128.EndlessRounds | inet/src/inet/common/int128.cc:259-279 | With the minimum as divisor, the remainder is 0 or the minimum after any number of rounds of the second loop, and the loop goes on. |
| Int128s.Int128.DivAssign | inet/src/inet/common/int128.h:133-138 | The quotient of `div`, the operand being itself included; a quotient exactly if the dividend is not the minimum, which becomes 0. |
| Int128s.Int128.ModAssign | inet/src/inet/common/int128.h:140-144 | The remainder of `div`, the operand being itself included; a remainder exactly if the dividend is not the minimum, which stays. |
| Int128s.Int128.ToString | inet/src/inet/common/int128.cc:37-62 | Prints the numeral in any radix from 2 to 37, with the sign in front, exactly if the number is not the minimum, which is printed as `-0`; a notice for other radices. |
| Int128s.Int128.Reparsed | inet/src/inet/common/int128.cc:37-109 | A number printed in decimal and parsed again comes back exactly if it is not the minimum, which comes back as 0. |
| Int128s.Int128.SetDigits | inet/src/inet/common/int128.cc:92-105 | The loop: the number, modulo 2^128, that the characters read as digits stand for. |
| Int128s.Int128.Set | inet/src/inet/common/int128.cc:64-109 | An optional minus sign; radix 16 after `0x`, 8 after another `0`, else 10; then the number, modulo 2^128, of the longest run of characters that are read as digits, 0 if there are none. Blanks, a plus sign and `0X` are not read. `ParsedRight` says when this is what the text means. |

## Left out

Weaker than the source, or under assumptions of the model:

- Query: says what the result is for stored and queried intervals whose low end is not after their high end, as the source assumes silently; for others it says only which nodes the search meets. `Insert` keeps all stored intervals such if the new one is.
- DeleteNode: the deleted node is freed in the source; here it merely leaves the tree and must not be used again. The same holds of links and nodes taken out of a topology.
- CalculateWeightedSingleShortestPathsTo: requires what the source asserts; a null target, for which the source raises an error, is excluded by the type.
- SearchesAgree: compares the two searches on graphs whose link weights are 1 and node weights 0; on other graphs they solve different problems.
- GetNodeFor: if several nodes have the module id, which of them is found is not stated.
- AddNode: says only where the node is put if it is in the graph already or brings links with it.
- AddLink: requires a link that is in the graph or joined to nothing; a link whose ends point into another topology is not modelled. The same holds of AddLinkBetween.
- GetEdgeWeight: weights are real numbers, `exp` is an arbitrary function of the age with values above 0 and at most 1, K is not negative, base travel times are positive and time does not decrease; rounding is not modelled.
- SocketDataArrived: counters are unbounded integers, so that overflow after 2^31 reports is not modelled; a vehicle's address and its key are one string; timestamps and lane changes in the report are not used, as in the source.
- ResetRerouteCounter: that the reset timer fires once in a second is up to the simulator; the ration is stated between resets.
- TransferReport: a 64-bit floating-point field is its bit pattern, whereas the server's arithmetic is on real numbers; the conversion between the two is not modelled.
- WriteFields: byte-wide fields start at bit offset 0 or 4; at other offsets the source writes other bits, as `WriteByteRight` says.
- RattleOn: every event ranks higher than the events that its handlers dispatch further, without which the outer loop of `rattleOn` need not end; init actions go to proper substates, as the source asserts, and the root's does nothing.
- CreateBox: a box is an identity, its contents are not modelled; a box given by the deprecated `setState` with a box is not modelled.
- SetPattern: prefix matching and the functions about wildcards of a pattern are not modelled; a lone backslash at the end, which makes the source read past the end of the pattern, is an outcome of its own; numbers are unbounded where `atol` has a limit; characters are compared by their code, so that characters above 127, which are negative in the source, are not modelled in sets.
- HandleRegister: the maps for services, protocols and interfaces are one map with tagged keys, and one method stands for the three handlers; gates in and out have the same index; the dispatchers form a network without cycles.
- Request: requires a primitive that is named in the message and a service that is registered; the second error branch for sockets, which cannot be reached in the source, has no counterpart.
- Negated: the minimum is its own negation, as in the source.
- Div: excludes two divisors: zero, with which the source divides by zero on purpose, and the minimum, with which its second loop never ends (`EndlessRounds`). The same holds of DivAssign and ModAssign.
- Set: digits run on without limit as in the source, modulo 2^128; the signed overflow of the source's multiplications is modelled as wrap-around.

Not modelled:

- Modules, gates, signals, timers, logging and configuration of the simulator; only the events they cause.
- Reading of road networks from files and of topologies from the simulated network.
- Sockets, mobility and visualisation; the vehicle's side of the protocol, beyond decoding a route.
- Memory allocation and freeing, destructors, copying of trees, topologies and machines.
- IntervalTree: maximum, predecessor and printing; they mirror minimum and successor or have no state.
- MemoryOutputStream and MemoryInputStream: addresses, strings, repeated bytes and the functions for any number of bits.
- Macho: snapshots, cloning, aliases, parameters of events and of init actions, clearing of history on request.
- Int128: conversions to and from floating point, bitwise operators, and assignment from narrower integers.
- The remaining utilities of the library, such as circular lists, bit vectors, string tables and units, whose members are easy.
