/**
  The simulator session: the state the user interface keeps (topology,
  graph, selected endpoints, animation state, last result) and the
  handlers that change it. One call of `Step` is one firing of the
  animation interval.
 */
module App {
  import opened Graph
  import opened Reachability
  import opened Topology
  import opened Failures
  import opened Sequencer

  class Session {
    var topology: TopologyType
    var nodes: seq<Node>
    var links: seq<Link>
    var senderId: string
    var receiverId: string
    var isSimulating: bool
    var packetPositions: seq<PacketState>
    var nodeStatuses: map<string, Status>
    var lastResult: Option<SimulationResult>

    var run: Animation
    var tick: nat
    var maxTick: nat
    /** The adjacency and the sender the current run was planned with. */
    ghost var runAdj: Adjacency
    ghost var runSender: string

    /**
      While a run is animated, its clock is within range and its paths
      complete it as planned: the verdict holds exactly when the receiver
      was reached, and the reported path is then a shortest one.
     */
    ghost predicate Valid()
      reads this`isSimulating, this`run, this`tick, this`maxTick, this`runAdj, this`runSender
    {
      Animating(isSimulating, run, runAdj, runSender, tick, maxTick)
    }

    /** Interval firings left before the running animation has completed. */
    function Remaining(): nat
      reads this`isSimulating, this`tick, this`maxTick
    {
      if isSimulating && tick <= maxTick then maxTick - tick + 1 else 0
    }

    /** The initial state: a bus, no graph yet, nothing selected, idle. */
    constructor ()
      ensures Valid()
      ensures topology == Bus && nodes == [] && links == [] && senderId == "" && receiverId == ""
      ensures !isSimulating && packetPositions == [] && nodeStatuses == map[] && lastResult == None
    {
      topology := Bus;
      nodes, links := [], [];
      senderId, receiverId := "", "";
      isSimulating := false;
      packetPositions := [];
      nodeStatuses := map[];
      lastResult := None;
      run := Animation([], false, [], "", Bus, []);
      tick, maxTick := 0, 0;
      runAdj := map[];
      runSender := "";
    }

    /**
      Rebuilds the graph of the current topology and selects its first two
      devices; an animation in progress keeps running on what it captured.
     */
    method GenerateTopology()
      modifies this`nodes, this`links, this`senderId, this`receiverId,
               this`lastResult, this`packetPositions, this`nodeStatuses
      ensures Generated(topology, nodes, links, senderId, receiverId)
      ensures lastResult == None && packetPositions == [] && nodeStatuses == map[]
    {
      nodes, links := Generate(topology);
      senderId, receiverId := DefaultSender(nodes), DefaultReceiver(nodes);
      lastResult, packetPositions, nodeStatuses := None, [], map[];
    }

    /**
      Choosing a topology button. A different topology replaces the graph with
      a fresh one; choosing the topology already shown changes nothing, since
      the state keeps its value and the generator is not re-run.
     */
    method SelectTopology(kind: TopologyType)
      requires Valid()
      modifies this`topology, this`nodes, this`links, this`senderId, this`receiverId,
               this`lastResult, this`packetPositions, this`nodeStatuses
      ensures Valid()
      ensures topology == kind
      ensures old(topology) == kind ==> unchanged(this)
      ensures old(topology) != kind ==>
        && Generated(topology, nodes, links, senderId, receiverId)
        && lastResult == None && packetPositions == [] && nodeStatuses == map[]
    {
      if kind != topology {
        topology := kind;
        GenerateTopology();
      }
    }

    /** Failing or repairing the node named `id`. */
    method ToggleNode(id: string)
      requires Valid()
      modifies this`nodes
      ensures Valid()
      ensures nodes == ToggledNodes(old(nodes), id)
    {
      nodes := ToggledNodes(nodes, id);
    }

    /** Cutting or repairing the cable named `id`. */
    method ToggleLink(id: string)
      requires Valid()
      modifies this`links
      ensures Valid()
      ensures links == ToggledLinks(old(links), id)
    {
      links := ToggledLinks(links, id);
    }

    /**
      Starts a run unless one is under way or an endpoint is unset: plans the
      paths on the current graph and resets the clock of the animation.
     */
    method RunSimulation()
      requires Valid()
      modifies this`isSimulating, this`lastResult, this`nodeStatuses, this`packetPositions,
               this`run, this`tick, this`maxTick, this`runAdj, this`runSender
      ensures Valid()
      ensures old(isSimulating) || senderId == "" || receiverId == "" ==> unchanged(this)
      ensures !old(isSimulating) && senderId != "" && receiverId != "" ==>
        && isSimulating && lastResult == None && nodeStatuses == map[] && packetPositions == []
        && tick == 0 && runSender == senderId
        && Started(topology, nodes, links, senderId, receiverId, run, runAdj, maxTick)
    {
      if isSimulating || senderId == "" || receiverId == "" {
        return;
      }
      var a, adj, ticks := StartRun(topology, nodes, links, senderId, receiverId);
      Begin(a, adj, ticks);
    }

    /** Installs a planned run and resets the display and the clock. */
    method Begin(a: Animation, ghost adj: Adjacency, ticks: nat)
      requires RunReady(a, adj, senderId, ticks)
      modifies this`isSimulating, this`lastResult, this`nodeStatuses, this`packetPositions,
               this`run, this`tick, this`maxTick, this`runAdj, this`runSender
      ensures Valid()
      ensures isSimulating && lastResult == None && nodeStatuses == map[] && packetPositions == []
      ensures tick == 0 && runSender == senderId
      ensures run == a && runAdj == adj && maxTick == ticks
    {
      isSimulating, lastResult, nodeStatuses, packetPositions, run, runAdj, runSender, tick, maxTick :=
        true, None, map[], [], a, adj, senderId, 0, ticks;
    }

    /**
      One firing of the animation interval. Before the last tick it shows the
      packets of the current tick and advances the clock; at the end it stops,
      sets the status icons and publishes the result.
     */
    method Step()
      requires Valid()
      modifies this`isSimulating, this`packetPositions, this`nodeStatuses, this`lastResult, this`tick
      ensures Valid()
      ensures !old(isSimulating) ==> unchanged(this)
      ensures old(isSimulating) ==> Remaining() < old(Remaining())
      ensures old(isSimulating) && old(tick) < maxTick ==>
        && isSimulating && tick == old(tick) + 1
        && packetPositions == VisiblePackets(run.paths, old(tick), run.nodes)
        && nodeStatuses == old(nodeStatuses) && lastResult == old(lastResult)
      ensures old(isSimulating) && old(tick) >= maxTick ==>
        && !isSimulating && tick == old(tick) && packetPositions == []
        && Classified(nodeStatuses, run.reached, run.receiver, run.kind)
        && lastResult == Some(FinalResult(run.paths, run.success, run.receiver))
        && (run.success ==> ShortestPath(runAdj, lastResult.value.path, runSender, run.receiver))
        && (!run.success && runSender != run.receiver ==> lastResult.value.path == [])
    {
      if !isSimulating {
        return;
      }
      if tick >= maxTick {
        var statuses := ClassifyTargets(run.reached, run.receiver, run.kind);
        Stop(statuses, FinalResult(run.paths, run.success, run.receiver));
        return;
      }
      var packets := CurrentPackets(run.paths, tick, run.nodes);
      Advance(packets);
    }

    /** Shows `packets` and moves the clock one tick on. */
    method Advance(packets: seq<PacketState>)
      requires Valid() && isSimulating && tick < maxTick
      modifies this`packetPositions, this`tick
      ensures Valid()
      ensures packetPositions == packets && tick == old(tick) + 1
    {
      packetPositions, tick := packets, tick + 1;
    }

    /** Ends the animation with the given status icons and result. */
    method Stop(statuses: map<string, Status>, result: SimulationResult)
      modifies this`isSimulating, this`packetPositions, this`nodeStatuses, this`lastResult
      ensures Valid()
      ensures !isSimulating && packetPositions == [] && nodeStatuses == statuses && lastResult == Some(result)
    {
      isSimulating, packetPositions, nodeStatuses, lastResult := false, [], statuses, Some(result);
    }

    /**
      The interval firing until the run completes; nothing happens when idle.
      A run ends with no packet shown, the status icons of its reached
      targets and its result published.
     */
    method Animate()
      requires Valid()
      modifies this`isSimulating, this`packetPositions, this`nodeStatuses, this`lastResult, this`tick
      ensures Valid() && !isSimulating
      ensures !old(isSimulating) ==> unchanged(this)
      ensures old(isSimulating) ==>
        && packetPositions == []
        && Classified(nodeStatuses, run.reached, run.receiver, run.kind)
        && lastResult == Some(FinalResult(run.paths, run.success, run.receiver))
        && (run.success ==> ShortestPath(runAdj, lastResult.value.path, runSender, run.receiver))
        && (!run.success && runSender != run.receiver ==> lastResult.value.path == [])
    {
      while isSimulating
        invariant Valid()
        invariant !old(isSimulating) ==> unchanged(this)
        invariant old(isSimulating) && !isSimulating ==>
          && packetPositions == []
          && Classified(nodeStatuses, run.reached, run.receiver, run.kind)
          && lastResult == Some(FinalResult(run.paths, run.success, run.receiver))
          && (run.success ==> ShortestPath(runAdj, lastResult.value.path, runSender, run.receiver))
          && (!run.success && runSender != run.receiver ==> lastResult.value.path == [])
        decreases Remaining()
      {
        Step();
      }
    }
  }
}
