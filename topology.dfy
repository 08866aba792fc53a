/**
  The topology generator: the fixed node and link sets of the bus, ring,
  star and mesh topologies (ids, captions and roles; no coordinates), and
  the default sender and receiver picked from them.
 */
module Topology {
  import opened Graph
  import opened Reachability

  const BusCount: nat := 6
  const RingCount: nat := 6
  const StarCount: nat := 6
  const MeshCount: nat := 4

  /** The decimal digit of `i`. */
  function Digit(i: nat): char
    requires i < 10
  {
    (48 + i) as char
  }

  /** `${prefix}${i}` for a one-digit `i`. */
  function Name(prefix: string, i: nat): string
    requires i < 10
  {
    prefix + [Digit(i)]
  }

  /** The caption of the `i`-th computer: "PC " followed by its one-based number. */
  function PcCaption(i: nat): string
    requires i < 9
  {
    "PC " + [Digit(i + 1)]
  }

  function CreateNode(id: string, caption: string, role: NodeType): Node
  {
    Node(id, caption, role, true)
  }

  /** A fresh, active link; its id joins the two endpoint ids with a dash. */
  function CreateLink(source: string, target: string): Link
  {
    Link(source + "-" + target, source, target, true)
  }

  // ---------------------------------------------------------------------------
  // The node and link lists, piece by piece
  // ---------------------------------------------------------------------------

  function BackboneNode(i: nat): Node requires i < 10 { CreateNode(Name("b", i), "", Backbone) }
  function DeviceNode(i: nat): Node requires i < 9 { CreateNode(Name("n", i), PcCaption(i), Device) }
  const LeftTerminator: Node := CreateNode("t_left", "Term", Terminator)
  const RightTerminator: Node := CreateNode("t_right", "Term", Terminator)
  const SwitchNode: Node := CreateNode("switch", "Switch", Switch)

  /** b0 .. b(n-1). */
  function Backbones(n: nat): seq<Node>
    requires n < 10
  {
    seq(n, i requires 0 <= i < n => BackboneNode(i))
  }

  /** n0 .. n(n-1), captioned PC 1 .. PC n. */
  function Devices(n: nat): seq<Node>
    requires n < 9
  {
    seq(n, i requires 0 <= i < n => DeviceNode(i))
  }

  /** b(i) - b(i+1) for i < n. */
  function BackboneSegments(n: nat): seq<Link>
    requires n < 9
  {
    seq(n, i requires 0 <= i < n => CreateLink(Name("b", i), Name("b", i + 1)))
  }

  /** n(i) - b(i) for i < n. */
  function DropCables(n: nat): seq<Link>
    requires n < 10
  {
    seq(n, i requires 0 <= i < n => CreateLink(Name("n", i), Name("b", i)))
  }

  /** The first `n` ring cables n(i) - n((i+1) % RingCount). */
  function RingCables(n: nat): seq<Link>
    requires n <= RingCount
  {
    seq(n, i requires 0 <= i < n => CreateLink(Name("n", i), Name("n", (i + 1) % RingCount)))
  }

  /** The first `n` star spokes switch - n(i). */
  function Spokes(n: nat): seq<Link>
    requires n <= StarCount
  {
    seq(n, i requires 0 <= i < n => CreateLink("switch", Name("n", i)))
  }

  /** n(i) - n(j) for i < j' < j, the links the inner mesh loop has added so far. */
  function MeshRow(i: nat, j: nat): seq<Link>
    requires i < j <= MeshCount
  {
    seq(j - i - 1, k requires 0 <= k < j - i - 1 => CreateLink(Name("n", i), Name("n", i + 1 + k)))
  }

  /** The complete rows 0 .. n-1 of the mesh. */
  function MeshRows(n: nat): seq<Link>
    requires n <= MeshCount
  {
    if n == 0 then [] else MeshRows(n - 1) + MeshRow(n - 1, MeshCount)
  }

  /** The node list each topology is generated with, in creation order. */
  function TopologyNodes(kind: TopologyType): seq<Node>
  {
    match kind
    case Bus => Backbones(BusCount) + Devices(BusCount) + [LeftTerminator, RightTerminator]
    case Ring => Devices(RingCount)
    case Star => [SwitchNode] + Devices(StarCount)
    case Mesh => Devices(MeshCount)
  }

  /** The link list each topology is generated with, in creation order. */
  function TopologyLinks(kind: TopologyType): seq<Link>
  {
    match kind
    case Bus =>
      BackboneSegments(BusCount - 1)
      + [CreateLink("t_left", "b0"), CreateLink(Name("b", BusCount - 1), "t_right")]
      + DropCables(BusCount)
    case Ring => RingCables(RingCount)
    case Star => Spokes(StarCount)
    case Mesh => MeshRows(MeshCount)
  }

  // ---------------------------------------------------------------------------
  // The generator
  // ---------------------------------------------------------------------------

  /** Builds the nodes and links of `kind` with the loops of `generateTopology`. */
  method Generate(kind: TopologyType) returns (nodes: seq<Node>, links: seq<Link>)
    ensures nodes == TopologyNodes(kind)
    ensures links == TopologyLinks(kind)
  {
    match kind
    case Bus => nodes, links := GenerateBus();
    case Ring => nodes, links := GenerateRing();
    case Star => nodes, links := GenerateStar();
    case Mesh => nodes, links := GenerateMesh();
  }

  /** Backbone nodes, devices, terminators; then segments, terminator cables, drop cables. */
  method GenerateBus() returns (nodes: seq<Node>, links: seq<Link>)
    ensures nodes == TopologyNodes(Bus)
    ensures links == TopologyLinks(Bus)
  {
    nodes, links := [], [];
    for i := 0 to BusCount
      invariant nodes == Backbones(i)
    {
      nodes := nodes + [BackboneNode(i)];
    }
    for i := 0 to BusCount
      invariant nodes == Backbones(BusCount) + Devices(i)
    {
      nodes := nodes + [DeviceNode(i)];
    }
    nodes := nodes + [LeftTerminator];
    nodes := nodes + [RightTerminator];
    for i := 0 to BusCount - 1
      invariant links == BackboneSegments(i)
    {
      links := links + [CreateLink(Name("b", i), Name("b", i + 1))];
    }
    links := links + [CreateLink("t_left", "b0")];
    links := links + [CreateLink(Name("b", BusCount - 1), "t_right")];
    ghost var prefix := links;
    for i := 0 to BusCount
      invariant links == prefix + DropCables(i)
    {
      links := links + [CreateLink(Name("n", i), Name("b", i))];
    }
  }

  /** Six devices, each cabled to the next, the last back to the first. */
  method GenerateRing() returns (nodes: seq<Node>, links: seq<Link>)
    ensures nodes == TopologyNodes(Ring)
    ensures links == TopologyLinks(Ring)
  {
    nodes, links := [], [];
    for i := 0 to RingCount
      invariant nodes == Devices(i)
    {
      nodes := nodes + [DeviceNode(i)];
    }
    for i := 0 to RingCount
      invariant links == RingCables(i)
    {
      links := links + [CreateLink(Name("n", i), Name("n", (i + 1) % RingCount))];
    }
  }

  /** The switch, then six devices, each cabled to the switch as it is added. */
  method GenerateStar() returns (nodes: seq<Node>, links: seq<Link>)
    ensures nodes == TopologyNodes(Star)
    ensures links == TopologyLinks(Star)
  {
    nodes, links := [SwitchNode], [];
    for i := 0 to StarCount
      invariant nodes == [SwitchNode] + Devices(i)
      invariant links == Spokes(i)
    {
      var id := Name("n", i);
      nodes := nodes + [DeviceNode(i)];
      links := links + [CreateLink("switch", id)];
    }
  }

  /** Four devices; every device cabled to every later one. */
  method GenerateMesh() returns (nodes: seq<Node>, links: seq<Link>)
    ensures nodes == TopologyNodes(Mesh)
    ensures links == TopologyLinks(Mesh)
  {
    nodes, links := [], [];
    for i := 0 to MeshCount
      invariant nodes == Devices(i)
    {
      nodes := nodes + [DeviceNode(i)];
    }
    for i := 0 to MeshCount
      invariant links == MeshRows(i)
    {
      for j := i + 1 to MeshCount
        invariant links == MeshRows(i) + MeshRow(i, j)
      {
        links := links + [CreateLink(Name("n", i), Name("n", j))];
      }
    }
  }

  // ---------------------------------------------------------------------------
  // Default endpoints
  // ---------------------------------------------------------------------------

  /** The ids of the devices of `nodes`, in order. */
  function DeviceIds(nodes: seq<Node>): (r: seq<string>)
    ensures |r| <= |nodes|
    ensures forall id :: id in r <==> exists k :: 0 <= k < |nodes| && nodes[k].role == Device && nodes[k].id == id
  {
    if nodes == [] then []
    else
      var rest := DeviceIds(nodes[1..]);
      assert forall id :: id in rest <==> exists k :: 1 <= k < |nodes| && nodes[k].role == Device && nodes[k].id == id by {
        forall id | id in rest ensures exists k :: 1 <= k < |nodes| && nodes[k].role == Device && nodes[k].id == id {
          var k :| 0 <= k < |nodes[1..]| && nodes[1..][k].role == Device && nodes[1..][k].id == id;
          assert nodes[k + 1] == nodes[1..][k];
        }
        forall id | exists k :: 1 <= k < |nodes| && nodes[k].role == Device && nodes[k].id == id ensures id in rest {
          var k :| 1 <= k < |nodes| && nodes[k].role == Device && nodes[k].id == id;
          assert nodes[1..][k - 1] == nodes[k];
        }
      }
      (if nodes[0].role == Device then [nodes[0].id] else []) + rest
  }

  /** The first device, or the empty id when there is none. */
  function DefaultSender(nodes: seq<Node>): string
  {
    var d := DeviceIds(nodes);
    if |d| > 0 then d[0] else ""
  }

  /** The second device, or the empty id when there is none. */
  function DefaultReceiver(nodes: seq<Node>): string
  {
    var d := DeviceIds(nodes);
    if |d| > 1 then d[1] else ""
  }

  /** The graph of `kind` with its default sender and receiver selected. */
  predicate Generated(kind: TopologyType, nodes: seq<Node>, links: seq<Link>, sender: string, receiver: string)
  {
    && nodes == TopologyNodes(kind) && links == TopologyLinks(kind)
    && sender == DefaultSender(nodes) && receiver == DefaultReceiver(nodes)
  }

  // ---------------------------------------------------------------------------
  // Shape of the generated graphs
  // ---------------------------------------------------------------------------

  /** The number of nodes of `nodes` that play `role`. */
  function CountRole(nodes: seq<Node>, role: NodeType): (r: nat)
    ensures r <= |nodes|
  {
    if nodes == [] then 0 else (if nodes[0].role == role then 1 else 0) + CountRole(nodes[1..], role)
  }

  /** Every link runs between two different nodes of `nodes`. */
  predicate EndpointsExist(nodes: seq<Node>, links: seq<Link>)
  {
    forall k :: 0 <= k < |links| ==>
      links[k].source in NodeIds(nodes) && links[k].target in NodeIds(nodes) && links[k].source != links[k].target
  }

  predicate AllActive(nodes: seq<Node>, links: seq<Link>)
  {
    (forall k :: 0 <= k < |nodes| ==> nodes[k].active) && (forall k :: 0 <= k < |links| ==> links[k].active)
  }

  /** What every generated topology satisfies. */
  predicate WellFormed(nodes: seq<Node>, links: seq<Link>)
  {
    DistinctNodeIds(nodes) && DistinctLinkIds(links) && EndpointsExist(nodes, links) && AllActive(nodes, links)
  }

  lemma {:induction false} CountRoleAppend(a: seq<Node>, b: seq<Node>, role: NodeType)
    ensures CountRole(a + b, role) == CountRole(a, role) + CountRole(b, role)
    decreases |a|
  {
    if a != [] {
      assert (a + b)[0] == a[0] && (a + b)[1..] == a[1..] + b;
      CountRoleAppend(a[1..], b, role);
    } else {
      assert a + b == b;
    }
  }

  lemma {:induction false} CountRoleUniform(nodes: seq<Node>, role: NodeType, r: NodeType)
    requires forall k :: 0 <= k < |nodes| ==> nodes[k].role == r
    ensures CountRole(nodes, role) == if r == role then |nodes| else 0
    decreases |nodes|
  {
    if nodes != [] {
      CountRoleUniform(nodes[1..], role, r);
    }
  }

  lemma {:induction false} DeviceIdsAppend(a: seq<Node>, b: seq<Node>)
    ensures DeviceIds(a + b) == DeviceIds(a) + DeviceIds(b)
    decreases |a|
  {
    if a != [] {
      assert (a + b)[0] == a[0] && (a + b)[1..] == a[1..] + b;
      DeviceIdsAppend(a[1..], b);
    } else {
      assert a + b == b;
    }
  }

  /** Node `k` is the first device node. */
  predicate FirstDeviceAt(nodes: seq<Node>, k: nat)
  {
    k < |nodes| && nodes[k].role == Device && forall j :: 0 <= j < k ==> nodes[j].role != Device
  }

  /** Nodes `a < b` are the first two device nodes. */
  predicate SecondDeviceAt(nodes: seq<Node>, a: nat, b: nat)
  {
    FirstDeviceAt(nodes, a) && a < b < |nodes| && nodes[b].role == Device
    && forall j :: a < j < b ==> nodes[j].role != Device
  }

  /**
    The default sender is the id of the first device node in node
    order, or the empty id when there is no device.
   */
  lemma DefaultSenderFirst(nodes: seq<Node>)
    ensures (forall k :: 0 <= k < |nodes| ==> nodes[k].role != Device) ==> DefaultSender(nodes) == ""
    ensures forall k: nat :: FirstDeviceAt(nodes, k) ==> DefaultSender(nodes) == nodes[k].id
  {
    if forall k :: 0 <= k < |nodes| ==> nodes[k].role != Device {
      NoDeviceIds(nodes);
    }
    forall k: nat | FirstDeviceAt(nodes, k) ensures DefaultSender(nodes) == nodes[k].id {
      FirstDevice(nodes, k);
    }
  }

  /** When node `k` is the first device, the device ids start with its id. */
  lemma FirstDevice(nodes: seq<Node>, k: nat)
    requires FirstDeviceAt(nodes, k)
    ensures DeviceIds(nodes) == [nodes[k].id] + DeviceIds(nodes[k + 1..])
  {
    assert nodes == nodes[..k] + ([nodes[k]] + nodes[k + 1..]);
    DeviceIdsAppend(nodes[..k], [nodes[k]] + nodes[k + 1..]);
    DeviceIdsAppend([nodes[k]], nodes[k + 1..]);
    NoDeviceIds(nodes[..k]);
  }

  /**
    The default receiver is the id of the second device node in
    node order, or the empty id when there are fewer than two devices.
   */
  lemma DefaultReceiverSecond(nodes: seq<Node>)
    ensures (forall a, b :: 0 <= a < b < |nodes| ==> !(nodes[a].role == Device && nodes[b].role == Device))
      ==> DefaultReceiver(nodes) == ""
    ensures forall a: nat, b: nat :: SecondDeviceAt(nodes, a, b) ==> DefaultReceiver(nodes) == nodes[b].id
  {
    forall a: nat, b: nat | SecondDeviceAt(nodes, a, b) ensures DefaultReceiver(nodes) == nodes[b].id {
      FirstDevice(nodes, a);
      var rest := nodes[a + 1..];
      assert rest[b - a - 1] == nodes[b];
      assert FirstDeviceAt(rest, b - a - 1) by {
        forall j | 0 <= j < b - a - 1 ensures rest[j].role != Device {
          assert rest[j] == nodes[a + 1 + j];
        }
      }
      FirstDevice(rest, b - a - 1);
    }
    if forall a, b :: 0 <= a < b < |nodes| ==> !(nodes[a].role == Device && nodes[b].role == Device) {
      if exists k :: 0 <= k < |nodes| && nodes[k].role == Device {
        var a :| 0 <= a < |nodes| && nodes[a].role == Device;
        FirstDevice(nodes, a);
        var rest := nodes[a + 1..];
        forall k | 0 <= k < |rest| ensures rest[k].role != Device {
          assert rest[k] == nodes[a + 1 + k];
        }
        NoDeviceIds(rest);
      } else {
        NoDeviceIds(nodes);
      }
    }
  }

  /** The device ids of n0 .. n(n-1) are those ids, in order. */
  lemma {:induction false} DeviceIdsOfDevices(n: nat)
    requires n < 9
    ensures DeviceIds(Devices(n)) == seq(n, i requires 0 <= i < n => Name("n", i))
  {
    if n > 0 {
      assert Devices(n) == Devices(n - 1) + [DeviceNode(n - 1)];
      DeviceIdsAppend(Devices(n - 1), [DeviceNode(n - 1)]);
      DeviceIdsOfDevices(n - 1);
    }
  }

  lemma {:induction false} NoDeviceIds(nodes: seq<Node>)
    requires forall k :: 0 <= k < |nodes| ==> nodes[k].role != Device
    ensures DeviceIds(nodes) == []
    decreases |nodes|
  {
    if nodes != [] {
      NoDeviceIds(nodes[1..]);
    }
  }

  /** The generated node and link counts, and how many nodes play each role. */
  lemma TopologyCounts(kind: TopologyType)
    ensures var nodes, links := TopologyNodes(kind), TopologyLinks(kind);
      match kind
      case Bus =>
        |nodes| == 14 && |links| == 13 && CountRole(nodes, Backbone) == 6
        && CountRole(nodes, Device) == 6 && CountRole(nodes, Terminator) == 2 && CountRole(nodes, Switch) == 0
      case Ring =>
        |nodes| == 6 && |links| == 6 && CountRole(nodes, Device) == 6
      case Star =>
        |nodes| == 7 && |links| == 6 && CountRole(nodes, Switch) == 1 && CountRole(nodes, Device) == 6
      case Mesh =>
        |nodes| == 4 && |links| == 6 && CountRole(nodes, Device) == 4
  {
    match kind
    case Bus =>
      var terms := [LeftTerminator, RightTerminator];
      CountRoleAppend(Backbones(BusCount) + Devices(BusCount), terms, Backbone);
      CountRoleAppend(Backbones(BusCount) + Devices(BusCount), terms, Device);
      CountRoleAppend(Backbones(BusCount) + Devices(BusCount), terms, Terminator);
      CountRoleAppend(Backbones(BusCount) + Devices(BusCount), terms, Switch);
      forall role: NodeType ensures CountRole(Backbones(BusCount) + Devices(BusCount), role)
                                    == CountRole(Backbones(BusCount), role) + CountRole(Devices(BusCount), role)
                                && CountRole(Backbones(BusCount), role) == (if role == Backbone then BusCount else 0)
                                && CountRole(Devices(BusCount), role) == (if role == Device then BusCount else 0)
                                && CountRole(terms, role) == (if role == Terminator then 2 else 0) {
        CountRoleAppend(Backbones(BusCount), Devices(BusCount), role);
        CountRoleUniform(Backbones(BusCount), role, Backbone);
        CountRoleUniform(Devices(BusCount), role, Device);
        CountRoleUniform(terms, role, Terminator);
      }
    case Ring =>
      CountRoleUniform(Devices(RingCount), Device, Device);
    case Star =>
      CountRoleAppend([SwitchNode], Devices(StarCount), Switch);
      CountRoleAppend([SwitchNode], Devices(StarCount), Device);
      CountRoleUniform(Devices(StarCount), Switch, Device);
      CountRoleUniform(Devices(StarCount), Device, Device);
    case Mesh =>
      MeshListed();
      CountRoleUniform(Devices(MeshCount), Device, Device);
  }

  /** Every topology has at least two devices; its defaults are n0 and n1, two different devices. */
  lemma DefaultEndpoints(kind: TopologyType)
    ensures var nodes := TopologyNodes(kind);
      |DeviceIds(nodes)| >= 2
      && DefaultSender(nodes) == Name("n", 0) && DefaultReceiver(nodes) == Name("n", 1)
      && DefaultSender(nodes) != DefaultReceiver(nodes)
      && DefaultSender(nodes) in DeviceIds(nodes) && DefaultReceiver(nodes) in DeviceIds(nodes)
  {
    FreshDeviceIds(kind);
    NameInjective("n", 0, "n", 1);
  }

  /** How many devices each topology has. */
  function DeviceCount(kind: TopologyType): (r: nat)
    ensures MeshCount <= r <= BusCount
  {
    match kind
    case Bus => BusCount
    case Ring => RingCount
    case Star => StarCount
    case Mesh => MeshCount
  }

  /** The devices of a fresh topology are n0 .. n(count-1), in that order. */
  lemma FreshDeviceIds(kind: TopologyType)
    ensures DeviceIds(TopologyNodes(kind)) == seq(DeviceCount(kind), i requires 0 <= i < DeviceCount(kind) => Name("n", i))
  {
    match kind
    case Bus =>
      DeviceIdsAppend(Backbones(BusCount) + Devices(BusCount), [LeftTerminator, RightTerminator]);
      DeviceIdsAppend(Backbones(BusCount), Devices(BusCount));
      NoDeviceIds(Backbones(BusCount));
      NoDeviceIds([LeftTerminator, RightTerminator]);
      DeviceIdsOfDevices(BusCount);
    case Ring =>
      DeviceIdsOfDevices(RingCount);
    case Star =>
      DeviceIdsAppend([SwitchNode], Devices(StarCount));
      NoDeviceIds([SwitchNode]);
      DeviceIdsOfDevices(StarCount);
    case Mesh =>
      DeviceIdsOfDevices(MeshCount);
  }

  /** A device of a fresh topology is some n<i>. */
  lemma FreshDevice(kind: TopologyType, t: string)
    requires t in DeviceIds(TopologyNodes(kind))
    ensures exists i :: 0 <= i < DeviceCount(kind) && t == Name("n", i)
  {
    FreshDeviceIds(kind);
  }

  /** The mesh links written out: every pair i < j once, row by row. */
  lemma MeshListed()
    ensures MeshRows(MeshCount) == [
      CreateLink(Name("n", 0), Name("n", 1)), CreateLink(Name("n", 0), Name("n", 2)),
      CreateLink(Name("n", 0), Name("n", 3)), CreateLink(Name("n", 1), Name("n", 2)),
      CreateLink(Name("n", 1), Name("n", 3)), CreateLink(Name("n", 2), Name("n", 3))]
  {
    assert MeshRow(0, MeshCount) == [CreateLink(Name("n", 0), Name("n", 1)), CreateLink(Name("n", 0), Name("n", 2)),
                                     CreateLink(Name("n", 0), Name("n", 3))];
    assert MeshRow(1, MeshCount) == [CreateLink(Name("n", 1), Name("n", 2)), CreateLink(Name("n", 1), Name("n", 3))];
    assert MeshRow(2, MeshCount) == [CreateLink(Name("n", 2), Name("n", 3))];
    assert MeshRow(3, MeshCount) == [];
  }

  /** Any two different mesh devices share a link. */
  lemma MeshComplete(i: nat, j: nat)
    requires i < MeshCount && j < MeshCount && i != j
    ensures exists k :: 0 <= k < |TopologyLinks(Mesh)| && Joins(TopologyLinks(Mesh)[k], Name("n", i), Name("n", j))
  {
    MeshListed();
    var links := TopologyLinks(Mesh);
    var a, b := if i < j then i else j, if i < j then j else i;
    var k := if a == 0 then b - 1 else if a == 1 then b + 1 else 5;
    assert links[k] == CreateLink(Name("n", a), Name("n", b));
  }

  lemma NameInjective(p: string, i: nat, q: string, j: nat)
    requires i < 10 && j < 10 && |p| == |q|
    ensures Name(p, i) == Name(q, j) <==> p == q && i == j
  {
    if Name(p, i) == Name(q, j) {
      assert p == Name(p, i)[..|p|] && q == Name(q, j)[..|q|];
      assert Digit(i) == Name(p, i)[|p|] && Digit(j) == Name(q, j)[|q|];
      assert Digit(i) as int == 48 + i && Digit(j) as int == 48 + j;
    }
  }

  /** A dash-joined link id determines its endpoints when the sources are as long. */
  lemma CreateLinkInjective(s1: string, t1: string, s2: string, t2: string)
    requires |s1| == |s2| || |s1| + |t1| != |s2| + |t2|
    ensures CreateLink(s1, t1).id == CreateLink(s2, t2).id ==> s1 == s2 && t1 == t2
  {
    var x, y := CreateLink(s1, t1).id, CreateLink(s2, t2).id;
    if |s1| == |s2| && x == y {
      assert s1 == x[..|s1|] && s2 == y[..|s2|];
      assert t1 == x[|s1| + 1..] && t2 == y[|s2| + 1..];
    }
  }

  lemma IdAt(nodes: seq<Node>, k: nat)
    requires k < |nodes|
    ensures nodes[k].id in NodeIds(nodes)
  {
  }

  lemma BusNodeIds()
    ensures DistinctNodeIds(TopologyNodes(Bus))
    ensures forall k :: 0 <= k < BusCount ==> Name("b", k) in NodeIds(TopologyNodes(Bus))
    ensures forall k :: 0 <= k < BusCount ==> Name("n", k) in NodeIds(TopologyNodes(Bus))
    ensures "t_left" in NodeIds(TopologyNodes(Bus)) && "t_right" in NodeIds(TopologyNodes(Bus))
  {
    var nodes := TopologyNodes(Bus);
    assert forall k :: 0 <= k < BusCount ==> nodes[k].id == Name("b", k);
    assert forall k :: 0 <= k < BusCount ==> nodes[BusCount + k].id == Name("n", k);
    assert nodes[12].id == "t_left" && nodes[13].id == "t_right";
    NamesListed(nodes, "b", 0, BusCount);
    NamesListed(nodes, "n", BusCount, BusCount);
    IdAt(nodes, 12);
    IdAt(nodes, 13);
    forall a, b | 0 <= a < b < |nodes| ensures nodes[a].id != nodes[b].id {
      if b < 6 {
        NameInjective("b", a, "b", b);
      } else if b < 12 {
        if a < 6 {
          assert nodes[a].id[0] == 'b' && nodes[b].id[0] == 'n';
        } else {
          NameInjective("n", a - 6, "n", b - 6);
        }
      } else if a < 12 {
        assert |nodes[a].id| == 2;
      }
    }
  }

  /** The bus links: backbone segments, the two terminator cables, then the drop cables. */
  lemma BusLink(k: nat)
    requires k < |TopologyLinks(Bus)|
    ensures var l := TopologyLinks(Bus)[k];
      && (k < 5 ==> l.source == Name("b", k) && l.target == Name("b", k + 1))
      && (k == 5 ==> l.source == "t_left" && l.target == Name("b", 0))
      && (k == 6 ==> l.source == Name("b", 5) && l.target == "t_right")
      && (7 <= k ==> l.source == Name("n", k - 7) && l.target == Name("b", k - 7))
  {
    assert "b0" == Name("b", 0);
  }

  lemma BusEndpoints()
    ensures EndpointsExist(TopologyNodes(Bus), TopologyLinks(Bus))
  {
    var nodes, links := TopologyNodes(Bus), TopologyLinks(Bus);
    BusNodeIds();
    forall k | 0 <= k < |links|
      ensures links[k].source in NodeIds(nodes) && links[k].target in NodeIds(nodes) && links[k].source != links[k].target
    {
      BusLink(k);
      if k < 5 {
        NameInjective("b", k, "b", k + 1);
      } else if 7 <= k {
        assert links[k].source[0] == 'n' && links[k].target[0] == 'b';
      }
    }
  }

  lemma BusLinksDiffer(a: nat, b: nat)
    requires a < b < |TopologyLinks(Bus)|
    ensures TopologyLinks(Bus)[a].id != TopologyLinks(Bus)[b].id
  {
    BusLink(a);
    BusLink(b);
    var la, lb := TopologyLinks(Bus)[a], TopologyLinks(Bus)[b];
    CreateLinkInjective(la.source, la.target, lb.source, lb.target);
    if b < 5 {
      NameInjective("b", a, "b", b);
    } else if b >= 7 && a >= 7 {
      NameInjective("n", a - 7, "n", b - 7);
    } else if b >= 7 {
      assert lb.source[0] == 'n' && la.source[0] != 'n';
    } else if a < 5 && b == 6 {
      assert |la.target| != |lb.target|;
    } else if a < 5 {
      assert |la.source| != |lb.source|;
    }
  }

  lemma BusLinkIds()
    ensures DistinctLinkIds(TopologyLinks(Bus))
  {
    var links := TopologyLinks(Bus);
    forall a, b | 0 <= a < b < |links| ensures links[a].id != links[b].id {
      BusLinksDiffer(a, b);
    }
  }

  lemma BusActive()
    ensures AllActive(TopologyNodes(Bus), TopologyLinks(Bus))
  {
    var nodes, links := TopologyNodes(Bus), TopologyLinks(Bus);
    forall k | 0 <= k < |nodes| ensures nodes[k].active {
      if k < 12 {
        assert nodes[k] == (Backbones(BusCount) + Devices(BusCount))[k];
      }
    }
    forall k | 0 <= k < |links| ensures links[k].active {
      BusLink(k);
    }
  }

  lemma BusWellFormed()
    ensures WellFormed(TopologyNodes(Bus), TopologyLinks(Bus))
  {
    BusNodeIds();
    BusEndpoints();
    BusLinkIds();
    BusActive();
  }

  lemma RingNodeIds()
    ensures DistinctNodeIds(TopologyNodes(Ring))
  {
    var nodes := TopologyNodes(Ring);
    forall a, b | 0 <= a < b < |nodes| ensures nodes[a].id != nodes[b].id {
      NameInjective("n", a, "n", b);
    }
  }

  /** When `nodes` holds ids `${p}0` .. `${p}(n-1)` from position `off` on, they are ids of `nodes`. */
  lemma NamesListed(nodes: seq<Node>, p: string, off: nat, n: nat)
    requires n <= 10 && off + n <= |nodes|
    requires forall k :: 0 <= k < n ==> nodes[off + k].id == Name(p, k)
    ensures forall k :: 0 <= k < n ==> Name(p, k) in NodeIds(nodes)
  {
    forall k | 0 <= k < n ensures Name(p, k) in NodeIds(nodes) {
      IdAt(nodes, off + k);
    }
  }

  lemma RingLink(k: nat)
    requires k < RingCount
    ensures TopologyLinks(Ring)[k].source == Name("n", k)
    ensures TopologyLinks(Ring)[k].target == Name("n", (k + 1) % RingCount)
    ensures TopologyLinks(Ring)[k].source != TopologyLinks(Ring)[k].target
    ensures TopologyLinks(Ring)[k].target == Name("n", if k + 1 < RingCount then k + 1 else 0)
  {
    assert (k + 1) % RingCount == if k + 1 < RingCount then k + 1 else 0;
    NameInjective("n", k, "n", (k + 1) % RingCount);
  }

  lemma RingEndpoints()
    ensures EndpointsExist(TopologyNodes(Ring), TopologyLinks(Ring))
  {
    var nodes, links := TopologyNodes(Ring), TopologyLinks(Ring);
    NamesListed(nodes, "n", 0, RingCount);
    forall k | 0 <= k < |links|
      ensures links[k].source in NodeIds(nodes) && links[k].target in NodeIds(nodes) && links[k].source != links[k].target
    {
      RingLink(k);
    }
  }

  lemma RingLinksDiffer(a: nat, b: nat)
    requires a < b < RingCount
    ensures TopologyLinks(Ring)[a].id != TopologyLinks(Ring)[b].id
  {
    RingLink(a);
    RingLink(b);
    var la, lb := TopologyLinks(Ring)[a], TopologyLinks(Ring)[b];
    CreateLinkInjective(la.source, la.target, lb.source, lb.target);
    NameInjective("n", a, "n", b);
  }

  lemma RingLinkIds()
    ensures DistinctLinkIds(TopologyLinks(Ring))
  {
    var links := TopologyLinks(Ring);
    forall a, b | 0 <= a < b < |links| ensures links[a].id != links[b].id {
      RingLinksDiffer(a, b);
    }
  }

  lemma RingWellFormed()
    ensures WellFormed(TopologyNodes(Ring), TopologyLinks(Ring))
  {
    RingNodeIds();
    RingEndpoints();
    RingLinkIds();
  }

  lemma StarNodeIds()
    ensures DistinctNodeIds(TopologyNodes(Star))
    ensures "switch" in NodeIds(TopologyNodes(Star))
    ensures forall k :: 0 <= k < StarCount ==> Name("n", k) in NodeIds(TopologyNodes(Star))
  {
    var nodes := TopologyNodes(Star);
    assert forall k :: 0 <= k < StarCount ==> nodes[1 + k].id == Name("n", k);
    NamesListed(nodes, "n", 1, StarCount);
    IdAt(nodes, 0);
    forall a, b | 0 <= a < b < |nodes| ensures nodes[a].id != nodes[b].id {
      if a > 0 {
        NameInjective("n", a - 1, "n", b - 1);
      }
    }
  }

  lemma StarLink(k: nat)
    requires k < StarCount
    ensures TopologyLinks(Star)[k].source == "switch" && TopologyLinks(Star)[k].target == Name("n", k)
  {
  }

  lemma StarWellFormed()
    ensures WellFormed(TopologyNodes(Star), TopologyLinks(Star))
  {
    var nodes, links := TopologyNodes(Star), TopologyLinks(Star);
    StarNodeIds();
    forall k | 0 <= k < |links|
      ensures links[k].source in NodeIds(nodes) && links[k].target in NodeIds(nodes) && links[k].source != links[k].target
    {
      StarLink(k);
    }
    forall a, b | 0 <= a < b < |links| ensures links[a].id != links[b].id {
      StarLink(a);
      StarLink(b);
      CreateLinkInjective(links[a].source, links[a].target, links[b].source, links[b].target);
      NameInjective("n", a, "n", b);
    }
  }

  /** The k-th mesh link joins n(MeshSource(k)) and n(MeshTarget(k)). */
  function MeshSource(k: nat): nat { if k < 3 then 0 else if k < 5 then 1 else 2 }
  function MeshTarget(k: nat): nat { if k < 3 then k + 1 else if k < 5 then k - 1 else 3 }

  lemma MeshLink(k: nat)
    requires k < |TopologyLinks(Mesh)|
    ensures MeshSource(k) < MeshTarget(k) < MeshCount
    ensures TopologyLinks(Mesh)[k] == CreateLink(Name("n", MeshSource(k)), Name("n", MeshTarget(k)))
  {
    MeshListed();
  }

  lemma MeshLinksDiffer(a: nat, b: nat)
    requires a < b < |TopologyLinks(Mesh)|
    ensures TopologyLinks(Mesh)[a].id != TopologyLinks(Mesh)[b].id
  {
    MeshLink(a);
    MeshLink(b);
    var la, lb := TopologyLinks(Mesh)[a], TopologyLinks(Mesh)[b];
    CreateLinkInjective(la.source, la.target, lb.source, lb.target);
    NameInjective("n", MeshSource(a), "n", MeshSource(b));
    NameInjective("n", MeshTarget(a), "n", MeshTarget(b));
  }

  lemma MeshNodeIds()
    ensures DistinctNodeIds(TopologyNodes(Mesh))
    ensures forall k :: 0 <= k < MeshCount ==> Name("n", k) in NodeIds(TopologyNodes(Mesh))
  {
    var nodes := TopologyNodes(Mesh);
    NamesListed(nodes, "n", 0, MeshCount);
    forall a, b | 0 <= a < b < |nodes| ensures nodes[a].id != nodes[b].id {
      NameInjective("n", a, "n", b);
    }
  }

  lemma MeshEndpoints()
    ensures EndpointsExist(TopologyNodes(Mesh), TopologyLinks(Mesh))
    ensures forall k :: 0 <= k < |TopologyLinks(Mesh)| ==> TopologyLinks(Mesh)[k].active
  {
    var nodes, links := TopologyNodes(Mesh), TopologyLinks(Mesh);
    MeshNodeIds();
    forall k | 0 <= k < |links|
      ensures links[k].source in NodeIds(nodes) && links[k].target in NodeIds(nodes)
      ensures links[k].source != links[k].target && links[k].active
    {
      MeshLink(k);
      NameInjective("n", MeshSource(k), "n", MeshTarget(k));
    }
  }

  lemma MeshWellFormed()
    ensures WellFormed(TopologyNodes(Mesh), TopologyLinks(Mesh))
  {
    var links := TopologyLinks(Mesh);
    MeshNodeIds();
    MeshEndpoints();
    forall a, b | 0 <= a < b < |links| ensures links[a].id != links[b].id {
      MeshLinksDiffer(a, b);
    }
  }

  /** Every generated topology has distinct node and link ids, only active elements, and
      links between two different existing nodes. */
  lemma GeneratedWellFormed(kind: TopologyType)
    ensures WellFormed(TopologyNodes(kind), TopologyLinks(kind))
  {
    match kind
    case Bus => BusWellFormed();
    case Ring => RingWellFormed();
    case Star => StarWellFormed();
    case Mesh => MeshWellFormed();
  }

  // ---------------------------------------------------------------------------
  // Connectivity of a fresh topology
  // ---------------------------------------------------------------------------

  lemma ActiveWhenAllActive(nodes: seq<Node>, id: string)
    requires forall k :: 0 <= k < |nodes| ==> nodes[k].active
    requires id in NodeIds(nodes)
    ensures IsActiveNode(nodes, id)
  {
    var k :| 0 <= k < |nodes| && nodes[k].id == id;
  }

  /** In a well-formed graph with nothing failed, every link is an edge both ways. */
  lemma LinkIsEdge(nodes: seq<Node>, links: seq<Link>, k: nat, u: string, v: string)
    requires WellFormed(nodes, links) && k < |links|
    requires links[k].source == u && links[k].target == v
    ensures Edge(AdjacencyOf(nodes, links), u, v) && Edge(AdjacencyOf(nodes, links), v, u)
  {
    ActiveWhenAllActive(nodes, u);
    ActiveWhenAllActive(nodes, v);
    assert Usable(nodes, links[k]) && Joins(links[k], u, v) && Joins(links[k], v, u);
    AdjacencyEdge(nodes, links, u, v);
    AdjacencyEdge(nodes, links, v, u);
  }

  lemma Hop(adj: Adjacency, a: string, b: string)
    requires Edge(adj, a, b)
    ensures Reachable(adj, a, b)
  {
    assert WalkFromTo(adj, [a, b], a, b);
  }

  lemma TwoHops(adj: Adjacency, a: string, b: string, c: string)
    requires Edge(adj, a, b) && Edge(adj, b, c)
    ensures Reachable(adj, a, c)
  {
    assert WalkFromTo(adj, [a, b, c], a, c);
  }

  lemma ThreeHops(adj: Adjacency, a: string, b: string, c: string, d: string)
    requires Edge(adj, a, b) && Edge(adj, b, c) && Edge(adj, c, d)
    ensures Reachable(adj, a, d)
  {
    assert WalkFromTo(adj, [a, b, c, d], a, d);
  }

  /** The default sender is active and the default receiver can be reached from it. */
  ghost predicate DefaultsConnected(nodes: seq<Node>, links: seq<Link>)
  {
    StartActive(nodes, DefaultSender(nodes))
    && Reachable(AdjacencyOf(nodes, links), DefaultSender(nodes), DefaultReceiver(nodes))
  }

  /** Device n1 can be reached from device n0. */
  ghost predicate N0ReachesN1(nodes: seq<Node>, links: seq<Link>)
  {
    Reachable(AdjacencyOf(nodes, links), Name("n", 0), Name("n", 1))
  }

  lemma BusConnected()
    ensures N0ReachesN1(TopologyNodes(Bus), TopologyLinks(Bus))
  {
    var nodes, links := TopologyNodes(Bus), TopologyLinks(Bus);
    var n0, n1, b0, b1 := Name("n", 0), Name("n", 1), Name("b", 0), Name("b", 1);
    BusWellFormed();
    BusLink(7);
    BusLink(0);
    BusLink(8);
    LinkIsEdge(nodes, links, 7, n0, b0);
    LinkIsEdge(nodes, links, 0, b0, b1);
    LinkIsEdge(nodes, links, 8, n1, b1);
    ThreeHops(AdjacencyOf(nodes, links), n0, b0, b1, n1);
  }

  lemma RingConnected()
    ensures N0ReachesN1(TopologyNodes(Ring), TopologyLinks(Ring))
  {
    var nodes, links := TopologyNodes(Ring), TopologyLinks(Ring);
    RingWellFormed();
    RingLink(0);
    LinkIsEdge(nodes, links, 0, Name("n", 0), Name("n", 1));
    Hop(AdjacencyOf(nodes, links), Name("n", 0), Name("n", 1));
  }

  lemma StarConnected()
    ensures N0ReachesN1(TopologyNodes(Star), TopologyLinks(Star))
  {
    var nodes, links := TopologyNodes(Star), TopologyLinks(Star);
    var n0, n1 := Name("n", 0), Name("n", 1);
    StarWellFormed();
    StarLink(0);
    StarLink(1);
    LinkIsEdge(nodes, links, 0, "switch", n0);
    LinkIsEdge(nodes, links, 1, "switch", n1);
    TwoHops(AdjacencyOf(nodes, links), n0, "switch", n1);
  }

  lemma MeshConnected()
    ensures N0ReachesN1(TopologyNodes(Mesh), TopologyLinks(Mesh))
  {
    var nodes, links := TopologyNodes(Mesh), TopologyLinks(Mesh);
    MeshWellFormed();
    MeshLink(0);
    LinkIsEdge(nodes, links, 0, Name("n", 0), Name("n", 1));
    Hop(AdjacencyOf(nodes, links), Name("n", 0), Name("n", 1));
  }

  /** The default sender of a fresh topology is active. */
  lemma DefaultSenderActive(kind: TopologyType)
    ensures StartActive(TopologyNodes(kind), DefaultSender(TopologyNodes(kind)))
  {
    var nodes := TopologyNodes(kind);
    GeneratedWellFormed(kind);
    DefaultEndpoints(kind);
    var k :| 0 <= k < |nodes| && nodes[k].role == Device && nodes[k].id == DefaultSender(nodes);
    IdAt(nodes, k);
    ActiveWhenAllActive(nodes, DefaultSender(nodes));
  }

  /** In every freshly generated topology the default receiver is reachable from the
      default sender, which is active: a run with the defaults succeeds. */
  lemma DefaultPairConnected(kind: TopologyType)
    ensures DefaultsConnected(TopologyNodes(kind), TopologyLinks(kind))
  {
    DefaultEndpoints(kind);
    DefaultSenderActive(kind);
    match kind
    case Bus => BusConnected();
    case Ring => RingConnected();
    case Star => StarConnected();
    case Mesh => MeshConnected();
  }
}
