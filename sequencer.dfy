/**
  The transmission sequencer: which targets a run aims at, the paths it
  finds to them, the packets visible on each animation tick, and the
  statuses and result produced when the animation completes.
 */
module Sequencer {
  import opened Graph
  import opened Reachability

  // ---------------------------------------------------------------------------
  // Targets and paths
  // ---------------------------------------------------------------------------

  /** The ids of the device nodes other than `sender`, in node order. */
  function DeviceIdsExcept(nodes: seq<Node>, sender: string): (r: seq<string>)
    ensures |r| <= |nodes|
    ensures forall t :: t in r <==> exists k :: 0 <= k < |nodes| && nodes[k].role == Device && nodes[k].id == t && t != sender
  {
    if nodes == [] then []
    else
      var rest := DeviceIdsExcept(nodes[1..], sender);
      assert forall k :: 0 <= k < |nodes[1..]| ==> nodes[1..][k] == nodes[k + 1];
      if nodes[0].role == Device && nodes[0].id != sender then [nodes[0].id] + rest else rest
  }

  /** The filter keeps node order: the targets of a concatenation are those of its parts, in turn. */
  lemma {:induction false} DeviceIdsExceptAppend(a: seq<Node>, b: seq<Node>, sender: string)
    ensures DeviceIdsExcept(a + b, sender) == DeviceIdsExcept(a, sender) + DeviceIdsExcept(b, sender)
    decreases |a|
  {
    if a != [] {
      assert (a + b)[0] == a[0] && (a + b)[1..] == a[1..] + b;
      DeviceIdsExceptAppend(a[1..], b, sender);
    } else {
      assert a + b == b;
    }
  }

  /** Broadcast on a bus: every other device; unicast to the receiver otherwise. */
  function SelectTargets(kind: TopologyType, nodes: seq<Node>, sender: string, receiver: string): (r: seq<string>)
    ensures kind == Bus ==> forall t :: t in r <==>
      (t != sender && exists k :: 0 <= k < |nodes| && nodes[k].role == Device && nodes[k].id == t)
    ensures kind != Bus ==> r == [receiver]
  {
    if kind == Bus then DeviceIdsExcept(nodes, sender) else [receiver]
  }

  /** The targets, in order, to which the search finds a path. */
  ghost function ReachedTargets(adj: Adjacency, nodes: seq<Node>, sender: string, targets: seq<string>): seq<string>
  {
    if targets == [] then []
    else
      ReachedTargets(adj, nodes, sender, targets[..|targets| - 1])
      + (if StartActive(nodes, sender) && Reachable(adj, sender, Last(targets)) then [Last(targets)] else [])
  }

  lemma {:induction false} ReachedTargetsMembership(adj: Adjacency, nodes: seq<Node>, sender: string,
                                                    targets: seq<string>, t: string)
    ensures t in ReachedTargets(adj, nodes, sender, targets)
        <==> t in targets && StartActive(nodes, sender) && Reachable(adj, sender, t)
  {
    if targets != [] {
      var init := targets[..|targets| - 1];
      ReachedTargetsMembership(adj, nodes, sender, init, t);
      assert targets == init + [Last(targets)];
    }
  }

  /** When the sender works and reaches every target, every target is reached, in target order. */
  lemma {:induction false} ReachedAll(adj: Adjacency, nodes: seq<Node>, sender: string, targets: seq<string>)
    requires StartActive(nodes, sender) && forall t :: t in targets ==> Reachable(adj, sender, t)
    ensures ReachedTargets(adj, nodes, sender, targets) == targets
  {
    if targets != [] {
      var init := targets[..|targets| - 1];
      assert targets == init + [Last(targets)];
      ReachedAll(adj, nodes, sender, init);
    }
  }

  /** The paths the run animates, once the degenerate case is folded in. */
  ghost predicate PlannedRun(adj: Adjacency, nodes: seq<Node>, sender: string, targets: seq<string>,
                             paths: seq<seq<string>>, reached: seq<string>)
  {
    && reached == ReachedTargets(adj, nodes, sender, targets)
    && (reached == [] ==> paths == [[sender]])
    && (reached != [] ==> |paths| == |reached| && forall k :: 0 <= k < |paths| ==> ShortestPath(adj, paths[k], sender, reached[k]))
  }

  /** One search per target; the reached targets and their paths, in target order. */
  method ComputePaths(sender: string, targets: seq<string>, adj: Adjacency, nodes: seq<Node>)
    returns (paths: seq<seq<string>>, reached: seq<string>)
    ensures reached == ReachedTargets(adj, nodes, sender, targets)
    ensures |paths| == |reached|
    ensures forall k :: 0 <= k < |paths| ==> ShortestPath(adj, paths[k], sender, reached[k])
  {
    paths, reached := [], [];
    for i := 0 to |targets|
      invariant reached == ReachedTargets(adj, nodes, sender, targets[..i])
      invariant |paths| == |reached|
      invariant forall k :: 0 <= k < |paths| ==> ShortestPath(adj, paths[k], sender, reached[k])
    {
      var tid := targets[i];
      var path := FindPathBFS(sender, tid, adj, nodes);
      assert targets[..i + 1][..i] == targets[..i];
      if path.Some? {
        paths := paths + [path.value];
        reached := reached + [tid];
      }
    }
    assert targets[..|targets|] == targets;
  }

  /**
    What a planned run promises: the planned paths and reached targets for the
    selected targets, and a verdict that holds exactly when the receiver is
    reached, that is, when the sender works and the receiver can be reached
    from it (and, on a bus, is another device).
   */
  ghost predicate Planned(kind: TopologyType, nodes: seq<Node>, links: seq<Link>, sender: string, receiver: string,
                          paths: seq<seq<string>>, reached: seq<string>, success: bool)
  {
    && PlannedRun(AdjacencyOf(nodes, links), nodes, sender, SelectTargets(kind, nodes, sender, receiver), paths, reached)
    && (success <==> receiver in reached)
    && (kind != Bus ==>
          (success <==> StartActive(nodes, sender) && Reachable(AdjacencyOf(nodes, links), sender, receiver)))
    && (kind == Bus ==>
          (success <==> receiver in DeviceIdsExcept(nodes, sender)
                        && StartActive(nodes, sender) && Reachable(AdjacencyOf(nodes, links), sender, receiver)))
  }

  /**
    The computation `runSimulation` does before animating: adjacency,
    targets, one search per target, the success verdict and the
    degenerate single-node path when nothing is reached.
   */
  method PlanTransmission(kind: TopologyType, nodes: seq<Node>, links: seq<Link>, sender: string, receiver: string)
    returns (paths: seq<seq<string>>, reached: seq<string>, success: bool)
    ensures Planned(kind, nodes, links, sender, receiver, paths, reached, success)
  {
    var adj := BuildAdjacency(nodes, links);
    var targets := if kind == Bus then DeviceIdsExcept(nodes, sender) else [receiver];
    paths, reached := ComputePaths(sender, targets, adj, nodes);
    success := receiver in reached;
    if |paths| == 0 {
      paths := [[sender]];
    }
    ReachedTargetsMembership(adj, nodes, sender, targets, receiver);
  }

  /**
    What the end of a run reports, as far as the reported path goes: a
    shortest path to the receiver on success, and no path on failure when
    sender and receiver differ.
   */
  ghost predicate Completes(adj: Adjacency, sender: string, receiver: string, paths: seq<seq<string>>, success: bool)
  {
    && (success ==> ShortestPath(adj, ResultPath(paths, receiver), sender, receiver))
    && (!success && sender != receiver ==> ResultPath(paths, receiver) == [])
  }

  // ---------------------------------------------------------------------------
  // Tick schedule
  // ---------------------------------------------------------------------------

  /** `Math.max` of the path lengths; 0 for no paths, which ends the schedule at once as -Infinity does. */
  function MaxLen(paths: seq<seq<string>>): (r: nat)
    ensures forall k :: 0 <= k < |paths| ==> |paths[k]| <= r
    ensures paths != [] ==> exists k :: 0 <= k < |paths| && |paths[k]| == r
    ensures paths == [] ==> r == 0
  {
    if paths == [] then 0
    else
      var rest := MaxLen(paths[..|paths| - 1]);
      assert forall k :: 0 <= k < |paths| - 1 ==> paths[..|paths| - 1][k] == paths[k];
      if |Last(paths)| > rest then |Last(paths)| else rest
  }

  /** The node named `id` exists, so `nodes.find` gives a position for a packet on it. */
  predicate HasNode(nodes: seq<Node>, id: string)
  {
    FindNode(nodes, id).Some?
  }

  /** Path `i` has a packet on tick `tick`: it is still under way and its node exists. */
  predicate Shown(paths: seq<seq<string>>, tick: nat, nodes: seq<Node>, i: nat)
    requires i < |paths|
  {
    tick < |paths[i]| && HasNode(nodes, paths[i][tick])
  }

  /** The packets drawn on tick `tick`, in path order; packet `p-i` belongs to path `i`. */
  function VisiblePackets(paths: seq<seq<string>>, tick: nat, nodes: seq<Node>): seq<PacketState>
  {
    if paths == [] then []
    else
      var i := |paths| - 1;
      VisiblePackets(paths[..i], tick, nodes)
      + (if Shown(paths, tick, nodes, i) then [PacketState(i, paths[i][tick])] else [])
  }

  ghost predicate HasPacket(r: seq<PacketState>, i: nat)
  {
    exists k :: 0 <= k < |r| && r[k].index == i
  }

  /** Each packet of a tick sits on its own path's node at position `tick`, and that path is shown. */
  lemma {:induction false} PacketsSound(paths: seq<seq<string>>, tick: nat, nodes: seq<Node>)
    ensures forall k :: 0 <= k < |VisiblePackets(paths, tick, nodes)| ==>
      var p := VisiblePackets(paths, tick, nodes)[k];
      p.index < |paths| && Shown(paths, tick, nodes, p.index) && p.at == paths[p.index][tick]
  {
    if paths != [] {
      var init := paths[..|paths| - 1];
      PacketsSound(init, tick, nodes);
      assert forall k :: 0 <= k < |init| ==> init[k] == paths[k];
    }
  }

  /** The packets of a tick are in path order, so no path has two. */
  lemma {:induction false} PacketsOrdered(paths: seq<seq<string>>, tick: nat, nodes: seq<Node>)
    ensures forall k, l :: 0 <= k < l < |VisiblePackets(paths, tick, nodes)| ==>
      VisiblePackets(paths, tick, nodes)[k].index < VisiblePackets(paths, tick, nodes)[l].index
  {
    if paths != [] {
      var init := paths[..|paths| - 1];
      PacketsOrdered(init, tick, nodes);
      PacketsSound(init, tick, nodes);
    }
  }

  /** Path `i` has a packet on tick `tick` exactly when it is shown. */
  lemma {:induction false} PacketsComplete(paths: seq<seq<string>>, tick: nat, nodes: seq<Node>)
    ensures forall i :: 0 <= i < |paths| ==> (HasPacket(VisiblePackets(paths, tick, nodes), i) <==> Shown(paths, tick, nodes, i))
  {
    if paths != [] {
      var i := |paths| - 1;
      var init := paths[..i];
      PacketsComplete(init, tick, nodes);
      PacketsSound(init, tick, nodes);
      var rest := VisiblePackets(init, tick, nodes);
      var r := VisiblePackets(paths, tick, nodes);
      assert forall k :: 0 <= k < i ==> init[k] == paths[k];
      assert forall k :: 0 <= k < |rest| ==> r[k] == rest[k];
      forall j | 0 <= j < |paths| ensures HasPacket(r, j) <==> Shown(paths, tick, nodes, j) {
        if j < i {
          if HasPacket(rest, j) {
            var k :| 0 <= k < |rest| && rest[k].index == j;
            assert r[k].index == j;
          }
          if HasPacket(r, j) {
            var k :| 0 <= k < |r| && r[k].index == j;
            assert k < |rest|;
          }
        } else if Shown(paths, tick, nodes, i) {
          assert r[|rest|].index == i;
        }
      }
    }
  }

  /** The `forEach` of one tick: a packet for each path still under way whose node exists. */
  method CurrentPackets(paths: seq<seq<string>>, tick: nat, nodes: seq<Node>) returns (packets: seq<PacketState>)
    ensures packets == VisiblePackets(paths, tick, nodes)
  {
    packets := [];
    for i := 0 to |paths|
      invariant packets == VisiblePackets(paths[..i], tick, nodes)
    {
      assert paths[..i + 1][..i] == paths[..i];
      if tick < |paths[i]| {
        var node := FindNode(nodes, paths[i][tick]);
        if node.Some? {
          packets := packets + [PacketState(i, paths[i][tick])];
        }
      }
    }
    assert paths[..|paths|] == paths;
  }

  /** Every node on every path exists. */
  predicate OnNodes(paths: seq<seq<string>>, nodes: seq<Node>)
  {
    forall k, t :: 0 <= k < |paths| && 0 <= t < |paths[k]| ==> HasNode(nodes, paths[k][t])
  }

  /**
    A walk on the adjacency of `nodes` that starts at an existing node stays on
    existing nodes: every later step follows a usable link, whose ends exist.
   */
  lemma WalkOnNodes(nodes: seq<Node>, links: seq<Link>, w: seq<string>, t: nat)
    requires IsWalk(AdjacencyOf(nodes, links), w) && HasNode(nodes, w[0]) && t < |w|
    ensures HasNode(nodes, w[t])
  {
    if t > 0 {
      assert Edge(AdjacencyOf(nodes, links), w[t - 1], w[t]);
      AdjacencyEdge(nodes, links, w[t - 1], w[t]);
    }
  }

  /** When the sender exists, every node of every planned path exists, so each path shows its packet until it ends. */
  lemma PlannedOnNodes(kind: TopologyType, nodes: seq<Node>, links: seq<Link>, sender: string, receiver: string,
                       paths: seq<seq<string>>, reached: seq<string>, success: bool)
    requires Planned(kind, nodes, links, sender, receiver, paths, reached, success)
    requires HasNode(nodes, sender)
    ensures OnNodes(paths, nodes)
  {
    var adj := AdjacencyOf(nodes, links);
    forall k, t | 0 <= k < |paths| && 0 <= t < |paths[k]| ensures HasNode(nodes, paths[k][t]) {
      if reached != [] {
        assert ShortestPath(adj, paths[k], sender, reached[k]);
        WalkOnNodes(nodes, links, paths[k], t);
      }
    }
  }

  /** From tick `MaxLen(paths)` on, nothing is under way. */
  lemma ScheduleEnds(paths: seq<seq<string>>, tick: nat, nodes: seq<Node>)
    requires tick >= MaxLen(paths)
    ensures VisiblePackets(paths, tick, nodes) == []
  {
    PacketsSound(paths, tick, nodes);
    assert forall i :: 0 <= i < |paths| ==> !Shown(paths, tick, nodes, i);
  }

  /**
    When every path node exists, path `i` has a packet on tick `tick`
    exactly when `tick < |paths[i]|`, and before tick `MaxLen(paths)` at
    least one packet is shown.
   */
  lemma PacketsWhileRunning(paths: seq<seq<string>>, tick: nat, nodes: seq<Node>, i: nat)
    requires OnNodes(paths, nodes) && i < |paths|
    ensures HasPacket(VisiblePackets(paths, tick, nodes), i) <==> tick < |paths[i]|
    ensures tick < MaxLen(paths) ==> VisiblePackets(paths, tick, nodes) != []
  {
    PacketsComplete(paths, tick, nodes);
    if tick < |paths[i]| {
      assert HasNode(nodes, paths[i][tick]);
    }
    if tick < MaxLen(paths) {
      var j :| 0 <= j < |paths| && |paths[j]| == MaxLen(paths);
      assert HasNode(nodes, paths[j][tick]);
      assert HasPacket(VisiblePackets(paths, tick, nodes), j);
    }
  }

  // ---------------------------------------------------------------------------
  // Completion
  // ---------------------------------------------------------------------------

  /**
    The status icons set when the animation completes: the receiver is
    accepted; another reached target is rejected, except on a bus where it
    is left unmarked.
   */
  ghost predicate Classified(statuses: map<string, Status>, reached: seq<string>, receiver: string, kind: TopologyType)
  {
    && (forall t :: t in statuses <==> t in reached && (t == receiver || kind != Bus))
    && (forall t :: t in statuses ==> statuses[t] == if t == receiver then Accepted else Rejected)
  }

  /** On a bus only the receiver gets an icon, Accepted, and only when it was reached. */
  lemma BusStatuses(statuses: map<string, Status>, reached: seq<string>, receiver: string)
    requires Classified(statuses, reached, receiver, Bus)
    ensures statuses == if receiver in reached then map[receiver := Accepted] else map[]
  {
    if receiver in reached {
      assert statuses.Keys == {receiver};
    } else {
      assert statuses.Keys == {};
    }
  }

  /** Sets the status icons of the reached targets one by one. */
  method ClassifyTargets(reached: seq<string>, receiver: string, kind: TopologyType)
    returns (statuses: map<string, Status>)
    ensures Classified(statuses, reached, receiver, kind)
  {
    statuses := map[];
    for i := 0 to |reached|
      invariant forall t :: t in statuses <==> t in reached[..i] && (t == receiver || kind != Bus)
      invariant forall t :: t in statuses ==> statuses[t] == if t == receiver then Accepted else Rejected
    {
      var tid := reached[i];
      assert reached[..i + 1] == reached[..i] + [tid];
      if tid == receiver {
        statuses := statuses[tid := Accepted];
      } else if kind != Bus {
        statuses := statuses[tid := Rejected];
      }
    }
    assert reached[..|reached|] == reached;
  }

  predicate EndsAt(p: seq<string>, x: string)
  {
    |p| > 0 && Last(p) == x
  }

  /** The first recorded path that ends at the receiver, or the empty path when none does. */
  function ResultPath(paths: seq<seq<string>>, receiver: string): (r: seq<string>)
    ensures r == [] <==> forall k :: 0 <= k < |paths| ==> !EndsAt(paths[k], receiver)
    ensures r != [] ==> EndsAt(r, receiver)
    ensures r != [] ==> exists k :: 0 <= k < |paths| && paths[k] == r && forall j :: 0 <= j < k ==> !EndsAt(paths[j], receiver)
  {
    if paths == [] then []
    else if EndsAt(paths[0], receiver) then paths[0]
    else
      var r := ResultPath(paths[1..], receiver);
      assert forall k :: 0 <= k < |paths| - 1 ==> paths[1..][k] == paths[k + 1];
      r
  }

  function FinalResult(paths: seq<seq<string>>, success: bool, receiver: string): SimulationResult
  {
    SimulationResult(success, ResultPath(paths, receiver), if success then Arrived else Dropped)
  }

  /**
    The reported path is a shortest path to the receiver when it was
    reached, and empty when it was not (sender and receiver differ).
   */
  lemma PlanResult(adj: Adjacency, nodes: seq<Node>, sender: string, receiver: string, targets: seq<string>,
                   paths: seq<seq<string>>, reached: seq<string>)
    requires PlannedRun(adj, nodes, sender, targets, paths, reached)
    ensures receiver in reached ==> ShortestPath(adj, ResultPath(paths, receiver), sender, receiver)
    ensures receiver !in reached && sender != receiver ==> ResultPath(paths, receiver) == []
  {
    if receiver in reached {
      var k :| 0 <= k < |reached| && reached[k] == receiver;
      assert EndsAt(paths[k], receiver);
      var r := ResultPath(paths, receiver);
      var j :| 0 <= j < |paths| && paths[j] == r && forall i :: 0 <= i < j ==> !EndsAt(paths[i], receiver);
      assert ShortestPath(adj, paths[j], sender, reached[j]);
    } else if reached != [] {
      forall k | 0 <= k < |paths| ensures !EndsAt(paths[k], receiver) {
        assert ShortestPath(adj, paths[k], sender, reached[k]);
        assert reached[k] in reached;
      }
    }
  }

  /** A planned run completes with the path it promises. */
  lemma PlannedCompletes(kind: TopologyType, nodes: seq<Node>, links: seq<Link>, sender: string, receiver: string,
                         paths: seq<seq<string>>, reached: seq<string>, success: bool)
    requires Planned(kind, nodes, links, sender, receiver, paths, reached, success)
    ensures Completes(AdjacencyOf(nodes, links), sender, receiver, paths, success)
  {
    PlanResult(AdjacencyOf(nodes, links), nodes, sender, receiver, SelectTargets(kind, nodes, sender, receiver),
               paths, reached);
  }

  /**
    What the animation callback of a run captured when the run started:
    the paths and verdict it was given, and the receiver, topology and
    node list of that moment.
   */
  datatype Animation = Animation(paths: seq<seq<string>>, success: bool, reached: seq<string>,
                                 receiver: string, kind: TopologyType, nodes: seq<Node>)

  /**
    A captured run that is ready to animate for `ticks` ticks: it has a
    path to draw, its verdict holds exactly when the receiver was reached,
    and its reported path completes it (`Completes`).
   */
  ghost predicate RunReady(a: Animation, adj: Adjacency, sender: string, ticks: nat)
  {
    && a.paths != [] && ticks == MaxLen(a.paths)
    && (a.success <==> a.receiver in a.reached)
    && Completes(adj, sender, a.receiver, a.paths, a.success)
  }

  ghost predicate Started(kind: TopologyType, nodes: seq<Node>, links: seq<Link>, sender: string, receiver: string,
                          a: Animation, adj: Adjacency, ticks: nat)
  {
    && a.receiver == receiver && a.kind == kind && a.nodes == nodes
    && adj == AdjacencyOf(nodes, links)
    && Planned(kind, nodes, links, sender, receiver, a.paths, a.reached, a.success)
    && RunReady(a, adj, sender, ticks)
  }

  /**
    Everything a run is started with: the plan of `PlanTransmission`, the
    adjacency it was searched on and the number of animation ticks.
   */
  method StartRun(kind: TopologyType, nodes: seq<Node>, links: seq<Link>, sender: string, receiver: string)
    returns (a: Animation, ghost adj: Adjacency, ticks: nat)
    ensures Started(kind, nodes, links, sender, receiver, a, adj, ticks)
  {
    var paths, reached, success := PlanTransmission(kind, nodes, links, sender, receiver);
    PlannedCompletes(kind, nodes, links, sender, receiver, paths, reached, success);
    a := Animation(paths, success, reached, receiver, kind, nodes);
    adj := AdjacencyOf(nodes, links);
    ticks := MaxLen(paths);
  }

  /**
    The animation state is consistent: while running, the clock is within
    the captured run's ticks and the run is ready to animate.
   */
  ghost predicate Animating(running: bool, a: Animation, adj: Adjacency, sender: string, tick: nat, ticks: nat)
  {
    running ==> tick <= ticks && RunReady(a, adj, sender, ticks)
  }
}
