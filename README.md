# NetSim network-topology simulator: a Dafny model of its simulation core

NetSim is a teaching tool. It draws one of four network topologies (bus,
ring, star, full mesh), lets the user fail devices and cut cables, and then
animates a transmission from a sender to a receiver. The animation moves
one packet per path along the shortest routes a breadth-first search finds.
At the end the tool marks the reached targets as accepting or rejecting and
reports whether the frame arrived, with the path it took.

This project models that core in `App.tsx` together with the data shapes of
`types.ts`. It proves the properties the simulator relies on:

- the exact graph each topology generates, with its counts, endpoints,
  distinct ids and defaults;
- that failures flip only what they name;
- that the adjacency list is symmetric and isolates failed nodes;
- that the search fails fast on a missing or failed sender, returns only
  shortest simple paths, and returns nothing exactly when the receiver is
  unreachable;
- the verdict, the degenerate path, the tick schedule, the final status
  icons and the reported result.
- that every fresh topology connects all its devices, and what one cut
  cable or failed node does to each shape.

Modules follow the structure of the component:

- `Graph` (`graph.dfy`): the node, link, result and packet shapes.
- `Topology` (`topology.dfy`): `generateTopology`. It holds the graph of
  each kind as a value (`TopologyNodes`, `TopologyLinks`), the loops that
  build it (`Generate`), the default endpoints, and the lemmas about the
  generated graphs.
- `Failures` (`failures.dfy`): `toggleNode` and `toggleLink`.
- `Reachability` (`reachability.dfy`): the adjacency list that
  `runSimulation` builds and `findPathBFS`. The search is written with its
  queue of paths and its visited set, and is proved against walks in the
  adjacency.
- `Sequencer` (`sequencer.dfy`): the rest of `runSimulation` (targets,
  one search per target, verdict, degenerate path) and the per-tick and
  final logic of `animatePackets`.
- `App` (`app.dfy`): the component's state as a class `Session` whose
  methods are the handlers. `Step` is one firing of the animation interval.
- `Resilience` (`resilience.dfy`): how the connectivity of each generated
  topology responds to one fault: a ring or mesh survives any one cut, a
  mesh survives any one failed node, a star spoke cut isolates one device,
  and a bus backbone cut splits the bus in two.
- `Scenarios` (`scenarios.dfy`): what a run reports on generated graphs,
  both untouched and after typical failures, including the bus broadcast.

The animation callback works on what it captured when the run started:
the paths, the verdict, the receiver, the topology and the node list. The
session keeps that snapshot in its `run` field, so changing the graph or
the endpoints during a run does not change what the run reports, just as
in the component. `Session.Valid` is the invariant every handler keeps.
While a run is animated, its clock is within its tick count. Its verdict
holds exactly when the receiver was reached. Its reported path is a
shortest path on success, and empty on failure between different endpoints.

## Model

| member | source | states |
|---|---|---|
| Graph.FindNode | App.tsx:194-195 | `nodes.find`: no result exactly when no node has the id; otherwise the first node with that id |
| Topology.Generate | App.tsx:47-140 | the generator returns exactly the node list and link list of the chosen topology |
| Topology.TopologyNodes | App.tsx:47-139 | definition: the node list each generator builds, in push order (bus: backbones, devices, terminators; ring and mesh: devices; star: switch, then devices) |
| Topology.TopologyLinks | App.tsx:47-139 | definition: the link list each generator builds, in push order |
| Topology.DeviceCount | App.tsx:47-139 | the number of devices of a topology, between the mesh's four and the bus's six |
| Topology.FreshDeviceIds | App.tsx:47-139 | the device ids of a fresh topology are `n0`, `n1`, … in index order, one per device |
| Topology.FreshDevice | App.tsx:47-139 | every device of a fresh topology is some `n<i>` below the device count |
| Topology.GenerateBus | App.tsx:48-87 | the bus loops push six backbone nodes, six devices, two terminators, then five segments, two terminator links and six drop cables, in that order |
| Topology.GenerateRing | App.tsx:89-102 | the ring loops push six devices and the six cables `n<i>`–`n<(i+1) mod 6>` |
| Topology.GenerateStar | App.tsx:104-118 | the star loop pushes the switch, then each device together with its spoke from the switch |
| Topology.GenerateMesh | App.tsx:120-139 | the nested mesh loops push four devices and one cable for every pair `i < j`, row by row |
| Topology.DeviceIds | App.tsx:146 | the ids of the device-typed nodes: an id is listed exactly when some device has it |
| Topology.DeviceIdsAppend | App.tsx:146 | filtering devices commutes with concatenation, so device ids keep node order |
| Topology.DefaultSender | App.tsx:146-147 | definition: the first device id, or the empty id when there is none |
| Topology.DefaultReceiver | App.tsx:146-148 | definition: the second device id, or the empty id when there are fewer than two |
| Topology.DefaultSenderFirst | App.tsx:146-147 | the default sender is the id of the first device node in node order, and empty when there is no device |
| Topology.DefaultReceiverSecond | App.tsx:146-148 | the default receiver is the id of the second device node in node order, and empty when there are fewer than two devices |
| Topology.TopologyCounts | App.tsx:50-139 | per kind, the number of nodes and links and of each role: bus 14/13 (6 backbones, 6 devices, 2 terminators, no switch), ring 6/6, star 7/6 (1 switch, 6 devices), mesh 4/6 |
| Topology.DefaultEndpoints | App.tsx:145-148 | every generated topology has at least two devices; the defaults are `n0` and `n1`, both devices and different |
| Topology.MeshListed | App.tsx:133-138 | the mesh cables are exactly the six pairs of K4, in the order the loops create them |
| Topology.MeshComplete | App.tsx:120-138 | any two different mesh devices share a cable |
| Topology.CreateLinkInjective | App.tsx:43-45 | a link id `source-target` determines its endpoints when the lengths rule out another split |
| Topology.BusNodeIds | App.tsx:55-72 | bus node ids are pairwise distinct and include every `b<k>`, every `n<k>`, `t_left` and `t_right` |
| Topology.BusLink | App.tsx:74-86 | the bus cable at each position: segments `b<k>`–`b<k+1>`, then `t_left`–`b0`, `b5`–`t_right`, then drops `n<k>`–`b<k>` |
| Topology.BusEndpoints | App.tsx:74-86 | every bus cable joins two existing, different nodes |
| Topology.BusLinkIds | App.tsx:74-86 | bus cable ids are pairwise distinct |
| Topology.BusActive | App.tsx:39-45 | everything the bus generator creates starts active |
| Topology.BusWellFormed | App.tsx:48-87 | the bus graph is well formed: distinct ids, existing endpoints, all active |
| Topology.RingNodeIds | App.tsx:92-97 | ring node ids are pairwise distinct |
| Topology.RingLink | App.tsx:99-101 | ring cable `k` runs from `n<k>` to `n<(k+1) mod 6>` and is no loop |
| Topology.RingEndpoints | App.tsx:99-101 | every ring cable joins two existing, different nodes |
| Topology.RingLinkIds | App.tsx:99-101 | ring cable ids are pairwise distinct |
| Topology.RingWellFormed | App.tsx:89-102 | the ring graph is well formed |
| Topology.StarNodeIds | App.tsx:106-117 | star node ids are distinct and include the switch and every `n<k>` |
| Topology.StarLink | App.tsx:116 | spoke `k` runs from the switch to `n<k>` |
| Topology.StarWellFormed | App.tsx:104-118 | the star graph is well formed |
| Topology.MeshLink | App.tsx:134-138 | mesh cable `k` joins the devices of the `k`-th pair `i < j` |
| Topology.MeshLinksDiffer | App.tsx:134-138 | two different mesh cables have different ids |
| Topology.MeshNodeIds | App.tsx:126-131 | mesh node ids are distinct and include every `n<k>` |
| Topology.MeshEndpoints | App.tsx:134-138 | every mesh cable joins two existing, different nodes and is active |
| Topology.MeshWellFormed | App.tsx:120-139 | the mesh graph is well formed |
| Topology.GeneratedWellFormed | App.tsx:47-140 | every generated topology is well formed |
| Topology.LinkIsEdge | App.tsx:191-200 | on a well-formed graph each cable is an edge in both directions of the adjacency |
| Topology.BusConnected | App.tsx:48-87 | on a fresh bus, `n1` can be reached from `n0` (over `b0` and `b1`) |
| Topology.RingConnected | App.tsx:89-102 | on a fresh ring, `n1` can be reached from `n0` |
| Topology.StarConnected | App.tsx:104-118 | on a fresh star, `n1` can be reached from `n0` through the switch |
| Topology.MeshConnected | App.tsx:120-139 | on a fresh mesh, `n1` can be reached from `n0` |
| Topology.DefaultSenderActive | App.tsx:145-147 | the default sender of a fresh topology exists and is active |
| Topology.DefaultPairConnected | App.tsx:142-148 | in every fresh topology the default sender is active and reaches the default receiver |
| Failures.ToggleNodeKeepsShape | App.tsx:170-172 | `toggleNode` keeps every id, caption and role; it flips `active` exactly at the nodes with the id; ids and their distinctness are unchanged |
| Failures.ToggledNodes | App.tsx:171 | the node list after a toggle, as a value: the same length, each node whose id matches with its `active` flag flipped |
| Failures.ToggleNodeOnly | App.tsx:170-172 | with distinct ids, only the named node changes, and only its `active` flag |
| Failures.ToggleNodeTwice | App.tsx:170-172 | toggling the same node twice restores the node list |
| Failures.ToggleNodeActivity | App.tsx:170-172 | after a toggle the named node is active exactly when it exists and was inactive; every other node keeps its state |
| Failures.ToggleLinkKeepsShape | App.tsx:174-176 | `toggleLink` keeps every id and endpoint; it flips `active` exactly at the links with the id |
| Failures.ToggledLinks | App.tsx:175 | the link list after a toggle, as a value: the same length, each link whose id matches with its `active` flag flipped |
| Failures.ToggleLinkOnly | App.tsx:174-176 | with distinct ids, only the named link changes, and only its `active` flag |
| Failures.ToggleLinkTwice | App.tsx:174-176 | toggling the same link twice restores the link list |
| Failures.ToggleLinkUsable | App.tsx:174-176 | after a toggle the named cable carries traffic exactly when it was cut and both its ends work; other cables are unaffected |
| Reachability.BuildAdjacency | App.tsx:187-201 | the two loops build the adjacency that `AdjacencyOf` describes: empty lists for all nodes, then both directions of every usable link, in order |
| Reachability.Usable | App.tsx:194-197 | definition: a link carries traffic when it is active and both endpoint nodes exist and are active |
| Reachability.AddLink | App.tsx:191-200 | definition: one link's turn of the loop, appending each endpoint to the other's list when the link is usable |
| Reachability.AdjacencyOf | App.tsx:188-201 | definition: the adjacency list as a value, empty lists for every node followed by `AddLink` of each link in order |
| Reachability.AdjacencyKeys | App.tsx:189 | the adjacency has an entry for exactly the node ids |
| Reachability.AdjacencyEdge | App.tsx:191-200 | `v` is a neighbour of `u` exactly when some active link with active existing endpoints joins `u` and `v` |
| Reachability.AdjacencySymmetric | App.tsx:198-199 | the adjacency is symmetric |
| Reachability.AdjacencyOfSymmetric | App.tsx:198-199 | the whole adjacency is symmetric: every edge also runs the other way |
| Reachability.ReachableSym | App.tsx:198-199 | on a symmetric adjacency, reachability is symmetric |
| Reachability.NoEdgeInto | App.tsx:191-200 | a node that no edge enters cannot be reached from any other node |
| Reachability.InactiveNodeIsolated | App.tsx:193-197 | a failed or missing node has no neighbours and is nobody's neighbour |
| Reachability.ClosedUnreachable | App.tsx:247-262 | when the queue empties, the visited set is closed under adjacency, so the target is unreachable |
| Reachability.ExpandPath | App.tsx:255-260 | the neighbour loop marks and queues every unvisited neighbour, keeps the breadth-first invariant, and trades each new mark for one queued path |
| Reachability.FindPathBFS | App.tsx:239-263 | a missing or failed start gives null; a returned path is a simple walk from start to end with no shorter walk; a path is returned exactly when the start works and the end is reachable; the loop terminates |
| Sequencer.DeviceIdsExcept | App.tsx:208-210 | the bus targets: exactly the device ids other than the sender |
| Sequencer.DeviceIdsExceptAppend | App.tsx:208-210 | the bus targets of a concatenation are the targets of each part, so targets keep node order |
| Sequencer.ReachedTargets | App.tsx:219-225 | definition: the targets whose search succeeds, in target order |
| Sequencer.SelectTargets | App.tsx:206-213 | bus targets are all other devices; the other topologies target only the receiver |
| Sequencer.ReachedTargetsMembership | App.tsx:219-225 | a target is among the reached ones exactly when it is a target, the sender works and the target is reachable |
| Sequencer.ReachedAll | App.tsx:219-225 | when the sender works and reaches every target, the reached targets are exactly the targets, in order |
| Sequencer.ComputePaths | App.tsx:215-225 | one search per target: the reached targets in target order, each with a shortest path |
| Sequencer.PlanTransmission | App.tsx:187-234 | the plan for the targets and the verdict: success exactly when the receiver is reached, that is (on a bus, the receiver is another device and) the sender works and the receiver is reachable; the single path `[sender]` stands in when nothing is reached |
| Sequencer.WalkOnNodes | App.tsx:191-200 | a walk that starts on an existing node stays on existing nodes, because edges join only existing nodes |
| Sequencer.PlannedOnNodes | App.tsx:215-234 | when the sender exists, every planned path, the stand-in `[sender]` included, lies on existing nodes |
| Sequencer.MaxLen | App.tsx:268 | the tick count is the largest path length: no path is longer and some path has it |
| Sequencer.PacketsSound | App.tsx:302-314 | each packet of a tick sits on its own path's node at that tick, on a path still under way whose node exists |
| Sequencer.VisiblePackets | App.tsx:302-314 | definition: for each path in order, a packet at its node of the tick when the path is still under way and that node exists |
| Sequencer.PacketsOrdered | App.tsx:303 | packets come in path order, so no path has two |
| Sequencer.PacketsComplete | App.tsx:307-312 | a path has a packet on a tick exactly when it is still under way and its node exists |
| Sequencer.CurrentPackets | App.tsx:302-314 | the `forEach` of one tick yields exactly the visible packets |
| Sequencer.ScheduleEnds | App.tsx:268-274 | from tick `maxTick` on, no packet is shown |
| Sequencer.PacketsWhileRunning | App.tsx:302-314 | when all path nodes exist, a path shows a packet exactly while the tick is below its length, and some packet is shown on every tick before `maxTick` |
| Sequencer.ClassifyTargets | App.tsx:277-289 | a reached target gets an icon when it is the receiver or the topology is not a bus; the receiver is accepted and every other one rejected |
| Sequencer.BusStatuses | App.tsx:277-289 | on a bus only the receiver can get an icon: it is accepted when reached, and no other node is marked |
| Sequencer.ResultPath | App.tsx:295 | the first path ending at the receiver, or none: empty exactly when no path ends at the receiver, otherwise the first such path |
| Sequencer.FinalResult | App.tsx:293-297 | definition: the result carries the verdict, the first path ending at the receiver, and the tag `Arrived` or `Dropped` |
| Sequencer.PlanResult | App.tsx:293-297 | when the receiver was reached the reported path is a shortest path to it; when not (with sender and receiver different) it is empty |
| Sequencer.PlannedCompletes | App.tsx:293-297 | a planned run completes with the reported path and verdict `PlanResult` describes |
| Sequencer.StartRun | App.tsx:187-236 | starting a run captures the plan, the receiver, the topology and the nodes, with the tick count of the longest path |
| App.Session.constructor | App.tsx:12-24 | the initial state: a bus, no graph, no endpoints, idle, nothing shown |
| App.Session.GenerateTopology | App.tsx:142-152 | the graph becomes the current topology's generated graph, the defaults are selected and the result, packets and icons are cleared |
| App.Session.SelectTopology | App.tsx:153-159 | choosing the topology already shown changes nothing (the effect depends on `topology`, which does not change); choosing another one regenerates its graph, selects the default endpoints and clears the result, packets and icons; the session invariant holds |
| App.Session.ToggleNode | App.tsx:170-172 | the node list becomes its toggled version and the session invariant holds |
| App.Session.ToggleLink | App.tsx:174-176 | the link list becomes its toggled version and the session invariant holds |
| App.Session.RunSimulation | App.tsx:179-236 | a run under way or an unset endpoint leaves everything unchanged; otherwise the session is simulating with display cleared, a clock at 0 and a run planned as `Planned` states on the current graph and endpoints |
| App.Session.Step | App.tsx:270-318 | idle: nothing changes. Before `maxTick`: the packets of the current tick are shown and the tick goes up by one. At `maxTick`: the run stops, packets clear, the icons are classified as `Classified` states, and the result holds the verdict and the reported path (shortest on success, empty on failure between different endpoints). The remaining ticks always decrease |
| App.Session.Animate | App.tsx:270-318 | repeated firing of an animated run ends it: nothing is simulating, no packet is shown, the icons are classified as `Classified` states, and the result holds the captured verdict and the reported path (shortest on success, empty on failure between different endpoints) |
| Scenarios.FreshRunArrives | App.tsx:179-236 | on a fresh topology, a run with the default endpoints arrives and reports a shortest path |
| Scenarios.BroadcastReachesAll | App.tsx:206-225 | on a bus, when the sender works and reaches every device, every other device is among the reached targets |
| Scenarios.FreshBusBroadcast | App.tsx:206-289 | on a fresh bus the broadcast from a device reaches exactly every other device, the run succeeds exactly when the receiver is another device, and only the receiver is marked (accepted) |
| Scenarios.SwitchDownIsolates | App.tsx:104-118 | once the star's switch is failed, no cable carries traffic |
| Scenarios.SwitchDownUnreachable | App.tsx:104-118 | with the switch failed, no node of the star reaches another |
| Scenarios.SwitchDownDrops | App.tsx:227-234 | a star run between two different nodes with the switch failed is dropped with no path |
| Scenarios.DropCutIsolates | App.tsx:83-86 | after a bus device's drop cable is cut, no cable reaches the device |
| Scenarios.DropCutUnreachable | App.tsx:83-86 | with its drop cable cut, the device cannot be reached from any other node |
| Scenarios.DropCutDrops | App.tsx:207-234 | a bus run to a device whose drop cable is cut is dropped with no path |
| Resilience.FreshBusConnected | App.tsx:48-87 | on a fresh bus every device reaches every other |
| Resilience.FreshRingConnected | App.tsx:89-102 | on a fresh ring every device reaches every other |
| Resilience.FreshStarConnected | App.tsx:104-118 | on a fresh star every device reaches every other through the switch |
| Resilience.FreshMeshConnected | App.tsx:120-139 | on a fresh mesh every device reaches every other |
| Resilience.FreshDevicesConnected | App.tsx:47-139 | on every fresh topology all devices are pairwise reachable |
| Resilience.FreshDevicesLinked | App.tsx:47-139 | on every fresh topology every device has at least one neighbour |
| Resilience.RingCutLeavesArc | App.tsx:99-101 | after toggling any one cable id, every ring cable but at most one still carries traffic |
| Resilience.RingSurvivesCut | App.tsx:89-102 | cutting any one cable of a fresh ring leaves all devices pairwise reachable |
| Resilience.MeshSurvivesCut | App.tsx:120-139 | cutting any one cable of a fresh mesh leaves all devices pairwise reachable |
| Resilience.MeshSurvivesNodeFailure | App.tsx:120-139 | failing any one node of a fresh mesh leaves every other pair of devices reachable |
| Resilience.StarSpokeCut | App.tsx:104-118 | cutting spoke `c` of a fresh star makes `n<c>` unreachable from every other node, while the other devices still reach each other |
| Resilience.BusCutSeparates | App.tsx:74-86 | cutting backbone segment `c` of a fresh bus separates the devices left of it from those right of it, in both directions |
| Resilience.BusCutEdges | App.tsx:74-86 | after cutting segment `c`, every other segment and every drop cable still carries traffic |
| Resilience.BusCutKeepsSides | App.tsx:74-86 | after cutting segment `c`, devices on the same side of the cut still reach each other |

## Left out

- Screen coordinates, the layout arithmetic (spacing, radii, angles) and the resize listener: a node is modelled by its id, caption, role and state, and a packet by its index and the id of the node it is drawn on.
- The `containerRef` guard at the start of `generateTopology`: it depends on the rendered page; the model always generates.
- React itself: state setters are field assignments. The effect that regenerates after a topology change is folded into `SelectTopology`. The 1.5 s interval becomes explicit calls of `Step`, and `clearInterval` becomes `isSimulating` turning false.
- The translated log text: the result carries a tag (`Arrived` or `Dropped`) instead of the localized string. Language, dark mode and the AI explanation service are not part of this model.
- The sender and receiver drop-downs. The run button is also disabled when sender and receiver are equal; `RunSimulation` mirrors only the handler's own guard (a run under way or an unset endpoint), so equal endpoints are allowed. The result-path lemmas state the empty-path fact only for different endpoints.
- The break-mode switch that gates clicks in the visualizer: the toggles are modelled without it. As in the component, the graph can change while a run is animated, and the run keeps the snapshot it captured.
- Packet ids `p-<index>`: modelled as the index itself.
- `Math.max` of no path lengths is minus infinity; `MaxLen` returns 0 there. The difference is never observable, because a run always has at least one path.
- `Topology.GenerateBus`, `GenerateRing`, `GenerateStar`, `GenerateMesh`: each states equality with the graph value. The counts, well-formedness and defaults are lemmas about that value, and `App.Session.GenerateTopology` states the same equality.
- Rendering, the legend and all styling.
