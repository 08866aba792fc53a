/**
  The data shapes of the network simulator: nodes, links, the outcome of a
  run and the packets shown on one animation tick. Screen coordinates are
  not part of the model; a packet is located by the id of the node it sits on.
 */
module Graph {

  datatype Option<+T> = None | Some(value: T)

  /** The four canonical topologies. */
  datatype TopologyType = Bus | Ring | Star | Mesh

  /** The role of a node; only devices are transmission endpoints. */
  datatype NodeType = Device | Switch | Backbone | Terminator

  datatype Node = Node(id: string, caption: string, role: NodeType, active: bool)

  /** An undirected cable between the nodes named `source` and `target`. */
  datatype Link = Link(id: string, source: string, target: string, active: bool)

  /** Terminal classification of a reached target. */
  datatype Status = Accepted | Rejected

  /** The cause tag of a run: the receiver was reached, or the frame was dropped. */
  datatype LogTag = Arrived | Dropped

  datatype SimulationResult = SimulationResult(success: bool, path: seq<string>, log: LogTag)

  /** The packet of the path at position `index`, drawn on node `at`. */
  datatype PacketState = PacketState(index: nat, at: string)

  function Last<T>(s: seq<T>): T
    requires |s| > 0
  {
    s[|s| - 1]
  }

  /** The first node whose id is `id`, as `Array.prototype.find` returns it. */
  function FindNode(nodes: seq<Node>, id: string): (r: Option<Node>)
    ensures r.None? <==> forall k :: 0 <= k < |nodes| ==> nodes[k].id != id
    ensures r.Some? ==> exists k :: 0 <= k < |nodes| && nodes[k] == r.value && r.value.id == id
                                    && forall j :: 0 <= j < k ==> nodes[j].id != id
  {
    if nodes == [] then None
    else if nodes[0].id == id then Some(nodes[0])
    else
      var r := FindNode(nodes[1..], id);
      if r.Some? then
        ghost var k :| 0 <= k < |nodes[1..]| && nodes[1..][k] == r.value && r.value.id == id
                     && forall j :: 0 <= j < k ==> nodes[1..][j].id != id;
        assert nodes[k + 1] == r.value;
        r
      else r
  }

  /** The set of ids of `nodes`. */
  function NodeIds(nodes: seq<Node>): set<string>
  {
    set k | 0 <= k < |nodes| :: nodes[k].id
  }

  /** No two nodes share an id. */
  predicate DistinctNodeIds(nodes: seq<Node>)
  {
    forall a, b :: 0 <= a < b < |nodes| ==> nodes[a].id != nodes[b].id
  }

  /** No two links share an id. */
  predicate DistinctLinkIds(links: seq<Link>)
  {
    forall a, b :: 0 <= a < b < |links| ==> links[a].id != links[b].id
  }

  /** True when the node named `id` exists and is active. */
  predicate IsActiveNode(nodes: seq<Node>, id: string)
  {
    var n := FindNode(nodes, id);
    n.Some? && n.value.active
  }
}
