/**
  Failure scenarios on generated topologies: what a run reports once the
  user has failed a device or cut a cable.
 */
module Scenarios {
  import opened Graph
  import opened Reachability
  import opened Topology
  import opened Failures
  import opened Sequencer
  import opened Resilience

  /**
    On a freshly generated topology, a run from the default sender to the
    default receiver arrives and reports a shortest path.
   */
  lemma FreshRunArrives(kind: TopologyType, paths: seq<seq<string>>, reached: seq<string>, success: bool)
    requires var nodes := TopologyNodes(kind);
      Planned(kind, nodes, TopologyLinks(kind), DefaultSender(nodes), DefaultReceiver(nodes), paths, reached, success)
    ensures success
    ensures var nodes := TopologyNodes(kind);
      var r := FinalResult(paths, success, DefaultReceiver(nodes));
      r.log == Arrived && ShortestPath(AdjacencyOf(nodes, TopologyLinks(kind)), r.path, DefaultSender(nodes), DefaultReceiver(nodes))
  {
    var nodes, links := TopologyNodes(kind), TopologyLinks(kind);
    var sender, receiver := DefaultSender(nodes), DefaultReceiver(nodes);
    DefaultEndpoints(kind);
    DefaultPairConnected(kind);
    assert receiver in DeviceIdsExcept(nodes, sender);
    PlannedCompletes(kind, nodes, links, sender, receiver, paths, reached, success);
  }

  /**
    On a graph whose devices all reach each other, a bus run from an active
    device reaches every other device, in node order, and succeeds exactly
    when the receiver is another device.
   */
  lemma BroadcastReachesAll(nodes: seq<Node>, links: seq<Link>, sender: string, receiver: string,
                            paths: seq<seq<string>>, reached: seq<string>, success: bool)
    requires sender in DeviceIds(nodes) && StartActive(nodes, sender)
    requires AllConnected(AdjacencyOf(nodes, links), DeviceIds(nodes))
    requires Planned(Bus, nodes, links, sender, receiver, paths, reached, success)
    ensures reached == DeviceIdsExcept(nodes, sender)
    ensures success <==> receiver != sender && receiver in DeviceIds(nodes)
  {
    var targets := DeviceIdsExcept(nodes, sender);
    forall t | t in targets ensures Reachable(AdjacencyOf(nodes, links), sender, t) {
      assert t in DeviceIds(nodes);
    }
    ReachedAll(AdjacencyOf(nodes, links), nodes, sender, targets);
  }

  /**
    A run from any device of a fresh bus is a broadcast that reaches every
    other device, in node order; it succeeds exactly when the receiver is
    another device, and then only the receiver gets a status icon, Accepted.
   */
  lemma FreshBusBroadcast(sender: string, receiver: string, paths: seq<seq<string>>, reached: seq<string>, success: bool)
    requires sender in DeviceIds(TopologyNodes(Bus))
    requires Planned(Bus, TopologyNodes(Bus), TopologyLinks(Bus), sender, receiver, paths, reached, success)
    ensures reached == DeviceIdsExcept(TopologyNodes(Bus), sender)
    ensures success <==> receiver != sender && receiver in DeviceIds(TopologyNodes(Bus))
    ensures forall statuses :: Classified(statuses, reached, receiver, Bus) ==>
      statuses == if success then map[receiver := Accepted] else map[]
  {
    var nodes := TopologyNodes(Bus);
    FreshDevicesConnected(Bus);
    GeneratedWellFormed(Bus);
    var k :| 0 <= k < |nodes| && nodes[k].role == Device && nodes[k].id == sender;
    IdAt(nodes, k);
    ActiveWhenAllActive(nodes, sender);
    BroadcastReachesAll(nodes, TopologyLinks(Bus), sender, receiver, paths, reached, success);
    forall statuses | Classified(statuses, reached, receiver, Bus)
      ensures statuses == if success then map[receiver := Accepted] else map[]
    {
      BusStatuses(statuses, reached, receiver);
    }
  }

  /** The star after the central switch has been failed. */
  function StarWithoutSwitch(): seq<Node>
  {
    ToggledNodes(TopologyNodes(Star), "switch")
  }

  /** Every spoke ends at the switch, so with the switch failed no link carries traffic. */
  lemma SwitchDownIsolates(u: string, v: string)
    ensures !Edge(AdjacencyOf(StarWithoutSwitch(), TopologyLinks(Star)), u, v)
  {
    var nodes, links := StarWithoutSwitch(), TopologyLinks(Star);
    StarNodeIds();
    StarWellFormed();
    ActiveWhenAllActive(TopologyNodes(Star), "switch");
    ToggleNodeActivity(TopologyNodes(Star), "switch", "switch");
    forall k | 0 <= k < |links| ensures !Usable(nodes, links[k]) {
      StarLink(k);
    }
    AdjacencyEdge(nodes, links, u, v);
  }

  /** With the switch failed, no two different nodes of the star can reach each other. */
  lemma SwitchDownUnreachable(s: string, e: string)
    requires s != e
    ensures !Reachable(AdjacencyOf(StarWithoutSwitch(), TopologyLinks(Star)), s, e)
  {
    var adj := AdjacencyOf(StarWithoutSwitch(), TopologyLinks(Star));
    forall w | WalkFromTo(adj, w, s, e) ensures false {
      assert |w| > 1;
      SwitchDownIsolates(w[0], w[1]);
    }
  }

  /**
    A run between two different endpoints of a star whose switch has
    failed is dropped and reports no path.
   */
  lemma SwitchDownDrops(sender: string, receiver: string, paths: seq<seq<string>>, reached: seq<string>, success: bool)
    requires sender != receiver
    requires Planned(Star, StarWithoutSwitch(), TopologyLinks(Star), sender, receiver, paths, reached, success)
    ensures !success
    ensures FinalResult(paths, success, receiver) == SimulationResult(false, [], Dropped)
  {
    SwitchDownUnreachable(sender, receiver);
    PlannedCompletes(Star, StarWithoutSwitch(), TopologyLinks(Star), sender, receiver, paths, reached, success);
  }

  /** The id of the drop cable that attaches device `n<i>` to the bus. */
  function DropCableId(i: nat): string
    requires i < BusCount
  {
    CreateLink(Name("n", i), Name("b", i)).id
  }

  /** The bus cables after the drop cable of device `n<i>` has been cut. */
  function BusWithoutDrop(i: nat): seq<Link>
    requires i < BusCount
  {
    ToggledLinks(TopologyLinks(Bus), DropCableId(i))
  }

  /** The drop cable is the only cable at a bus device, so once it is cut no link reaches the device. */
  lemma DropCutIsolates(i: nat, u: string)
    requires i < BusCount
    ensures !Edge(AdjacencyOf(TopologyNodes(Bus), BusWithoutDrop(i)), u, Name("n", i))
  {
    var nodes, links, cut := TopologyNodes(Bus), TopologyLinks(Bus), BusWithoutDrop(i);
    var d := Name("n", i);
    ToggleLinkKeepsShape(links, DropCableId(i));
    forall k | 0 <= k < |cut| ensures !(Usable(nodes, cut[k]) && Joins(cut[k], u, d)) {
      BusLink(k);
      if k == 7 + i {
        assert links[k] == CreateLink(Name("n", i), Name("b", i));
      } else if k < 5 {
        NameInjective("b", k, "n", i);
        NameInjective("b", k + 1, "n", i);
      } else if k == 5 {
        NameInjective("b", 0, "n", i);
        assert |"t_left"| != |d|;
      } else if k == 6 {
        NameInjective("b", 5, "n", i);
        assert |"t_right"| != |d|;
      } else {
        NameInjective("n", k - 7, "n", i);
        NameInjective("b", k - 7, "n", i);
      }
    }
    AdjacencyEdge(nodes, cut, u, d);
  }

  /** With its drop cable cut, device `n<i>` cannot be reached from any other node. */
  lemma DropCutUnreachable(i: nat, s: string)
    requires i < BusCount && s != Name("n", i)
    ensures !Reachable(AdjacencyOf(TopologyNodes(Bus), BusWithoutDrop(i)), s, Name("n", i))
  {
    var adj := AdjacencyOf(TopologyNodes(Bus), BusWithoutDrop(i));
    forall w | WalkFromTo(adj, w, s, Name("n", i)) ensures false {
      assert |w| > 1;
      DropCutIsolates(i, w[|w| - 2]);
    }
  }

  /**
    On a bus, a run towards a device whose drop cable has been cut is
    dropped and reports no path.
   */
  lemma DropCutDrops(i: nat, sender: string, paths: seq<seq<string>>, reached: seq<string>, success: bool)
    requires i < BusCount && sender != Name("n", i)
    requires Planned(Bus, TopologyNodes(Bus), BusWithoutDrop(i), sender, Name("n", i), paths, reached, success)
    ensures !success
    ensures FinalResult(paths, success, Name("n", i)) == SimulationResult(false, [], Dropped)
  {
    DropCutUnreachable(i, sender);
    PlannedCompletes(Bus, TopologyNodes(Bus), BusWithoutDrop(i), sender, Name("n", i), paths, reached, success);
  }
}
