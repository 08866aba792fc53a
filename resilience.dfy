/**
  Fault tolerance of the generated topologies: which devices can still
  reach each other on a fresh graph and after one cable is cut or one
  node fails.
 */
module Resilience {
  import opened Graph
  import opened Reachability
  import opened Topology
  import opened Failures

  // ---------------------------------------------------------------------------
  // Cables of a fresh graph after one toggle
  // ---------------------------------------------------------------------------

  /** The adjacency of a fresh topology once the cable named `id` has been toggled. */
  function CutAdjacency(kind: TopologyType, id: string): Adjacency
  {
    AdjacencyOf(TopologyNodes(kind), ToggledLinks(TopologyLinks(kind), id))
  }

  /** After toggling the cable named `id`, a cable carries traffic exactly when it has another id. */
  lemma CutUsable(kind: TopologyType, id: string, k: nat)
    requires k < |TopologyLinks(kind)|
    ensures Usable(TopologyNodes(kind), ToggledLinks(TopologyLinks(kind), id)[k]) <==> TopologyLinks(kind)[k].id != id
  {
    var nodes, links := TopologyNodes(kind), TopologyLinks(kind);
    GeneratedWellFormed(kind);
    ToggleLinkUsable(nodes, links, id, k);
    if links[k].id != id {
      ActiveWhenAllActive(nodes, links[k].source);
      ActiveWhenAllActive(nodes, links[k].target);
    }
  }

  /** A cable with another id than the toggled one is an edge both ways. */
  lemma CutEdge(kind: TopologyType, id: string, k: nat)
    requires k < |TopologyLinks(kind)| && TopologyLinks(kind)[k].id != id
    ensures Edge(CutAdjacency(kind, id), TopologyLinks(kind)[k].source, TopologyLinks(kind)[k].target)
    ensures Edge(CutAdjacency(kind, id), TopologyLinks(kind)[k].target, TopologyLinks(kind)[k].source)
  {
    var nodes, links, cut := TopologyNodes(kind), TopologyLinks(kind), ToggledLinks(TopologyLinks(kind), id);
    var u, v := links[k].source, links[k].target;
    CutUsable(kind, id, k);
    assert cut[k].source == u && cut[k].target == v;
    AdjacencyEdge(nodes, cut, u, v);
    AdjacencyEdge(nodes, cut, v, u);
  }

  /** Every edge after the toggle comes from a cable with another id than the toggled one. */
  lemma CutEdgeFrom(kind: TopologyType, id: string, u: string, v: string)
    requires Edge(CutAdjacency(kind, id), u, v)
    ensures exists k :: 0 <= k < |TopologyLinks(kind)| && TopologyLinks(kind)[k].id != id && Joins(TopologyLinks(kind)[k], u, v)
  {
    var nodes, links, cut := TopologyNodes(kind), TopologyLinks(kind), ToggledLinks(TopologyLinks(kind), id);
    AdjacencyEdge(nodes, cut, u, v);
    var k :| 0 <= k < |cut| && Usable(nodes, cut[k]) && Joins(cut[k], u, v);
    CutUsable(kind, id, k);
    assert Joins(links[k], u, v);
  }

  /** Walks of one node: every id reaches itself. */
  lemma ReachesItself(adj: Adjacency, s: string)
    ensures Reachable(adj, s, s)
  {
    assert WalkFromTo(adj, [s], s, s);
  }

  // ---------------------------------------------------------------------------
  // Connectivity arguments, one per shape
  // ---------------------------------------------------------------------------

  /** When the backbone segments from `b<lo>` up to `b<i>` carry traffic, `b<lo>` reaches `b<i>`. */
  lemma {:induction false} BackboneReach(adj: Adjacency, lo: nat, i: nat)
    requires lo <= i < BusCount
    requires forall k :: lo <= k < i ==> Edge(adj, Name("b", k), Name("b", k + 1))
    ensures Reachable(adj, Name("b", lo), Name("b", i))
    decreases i - lo
  {
    if i == lo {
      ReachesItself(adj, Name("b", lo));
    } else {
      BackboneReach(adj, lo, i - 1);
      Hop(adj, Name("b", i - 1), Name("b", i));
      ReachableTrans(adj, Name("b", lo), Name("b", i - 1), Name("b", i));
    }
  }

  /**
    When the backbone segments between `b<lo>` and `b<hi>` and the drop cables
    of devices `n<lo>` .. `n<hi>` carry traffic, those devices reach each other.
   */
  lemma BusStretchConnected(adj: Adjacency, lo: nat, hi: nat)
    requires lo <= hi < BusCount && Symmetric(adj)
    requires forall k :: lo <= k < hi ==> Edge(adj, Name("b", k), Name("b", k + 1))
    requires forall i :: lo <= i <= hi ==> Edge(adj, Name("b", i), Name("n", i))
    ensures forall i, j :: lo <= i <= hi && lo <= j <= hi ==> Reachable(adj, Name("n", i), Name("n", j))
  {
    var hub := Name("b", lo);
    forall i | lo <= i <= hi ensures Reachable(adj, hub, Name("n", i)) {
      BackboneReach(adj, lo, i);
      Hop(adj, Name("b", i), Name("n", i));
      ReachableTrans(adj, hub, Name("b", i), Name("n", i));
    }
    forall i, j | lo <= i <= hi && lo <= j <= hi ensures Reachable(adj, Name("n", i), Name("n", j)) {
      ReachableSym(adj, hub, Name("n", i));
      ReachableTrans(adj, Name("n", i), hub, Name("n", j));
    }
  }

  /** The ring cable leaving `n<k>`. */
  function RingNext(k: nat): nat
    requires k < RingCount
  {
    if k + 1 < RingCount then k + 1 else 0
  }

  /**
    When every ring cable but possibly cable `c` carries traffic, the ring
    is still a line from `n<c+1>` round to `n<c>`, so all devices reach each other.
   */
  lemma RingArcConnected(adj: Adjacency, c: nat)
    requires c < RingCount && Symmetric(adj)
    requires forall k :: 0 <= k < RingCount && k != c ==> Edge(adj, Name("n", k), Name("n", RingNext(k)))
    ensures forall i, j :: 0 <= i < RingCount && 0 <= j < RingCount ==> Reachable(adj, Name("n", i), Name("n", j))
  {
    var ids := seq(RingCount, p requires 0 <= p < RingCount => Name("n", if c + 1 + p < RingCount then c + 1 + p else c + 1 + p - RingCount));
    forall p | 0 <= p < |ids| - 1 ensures Edge(adj, ids[p], ids[p + 1]) {
      var m := if c + 1 + p < RingCount then c + 1 + p else c + 1 + p - RingCount;
      assert m != c && ids[p] == Name("n", m) && ids[p + 1] == Name("n", RingNext(m));
    }
    ChainConnected(adj, ids);
    forall i | 0 <= i < RingCount ensures Name("n", i) in ids {
      var p := if i > c then i - c - 1 else i + RingCount - c - 1;
      assert ids[p] == Name("n", i);
    }
  }

  /** When every spoke but possibly spoke `c` carries traffic, the other devices reach each other through the switch. */
  lemma StarSpokesConnected(adj: Adjacency, c: nat)
    requires Symmetric(adj)
    requires forall k :: 0 <= k < StarCount && k != c ==> Edge(adj, "switch", Name("n", k))
    ensures forall i, j :: 0 <= i < StarCount && 0 <= j < StarCount && i != c && j != c ==>
              Reachable(adj, Name("n", i), Name("n", j))
  {
    forall i, j | 0 <= i < StarCount && 0 <= j < StarCount && i != c && j != c
      ensures Reachable(adj, Name("n", i), Name("n", j))
    {
      assert Edge(adj, Name("n", i), "switch");
      TwoHops(adj, Name("n", i), "switch", Name("n", j));
    }
  }

  /** From indices to device ids: devices that reach each other by index reach each other by id. */
  lemma DevicesByIndex(kind: TopologyType, adj: Adjacency)
    requires forall i, j :: 0 <= i < DeviceCount(kind) && 0 <= j < DeviceCount(kind) ==> Reachable(adj, Name("n", i), Name("n", j))
    ensures AllConnected(adj, DeviceIds(TopologyNodes(kind)))
  {
    forall s, t | s in DeviceIds(TopologyNodes(kind)) && t in DeviceIds(TopologyNodes(kind)) ensures Reachable(adj, s, t) {
      FreshDevice(kind, s);
      FreshDevice(kind, t);
    }
  }

  // ---------------------------------------------------------------------------
  // Fresh topologies
  // ---------------------------------------------------------------------------

  /** The cable between two different mesh devices. */
  lemma MeshPair(i: nat, j: nat) returns (k: nat)
    requires i < MeshCount && j < MeshCount && i != j
    ensures k < |TopologyLinks(Mesh)| && Joins(TopologyLinks(Mesh)[k], Name("n", i), Name("n", j))
  {
    MeshComplete(i, j);
    k :| 0 <= k < |TopologyLinks(Mesh)| && Joins(TopologyLinks(Mesh)[k], Name("n", i), Name("n", j));
  }

  /** The cables of a fresh bus as edges: backbone segments and drop cables, both ways. */
  lemma FreshBusEdges()
    ensures forall k :: 0 <= k < BusCount - 1 ==>
      Edge(AdjacencyOf(TopologyNodes(Bus), TopologyLinks(Bus)), Name("b", k), Name("b", k + 1))
    ensures forall i :: 0 <= i < BusCount ==>
      && Edge(AdjacencyOf(TopologyNodes(Bus), TopologyLinks(Bus)), Name("b", i), Name("n", i))
      && Edge(AdjacencyOf(TopologyNodes(Bus), TopologyLinks(Bus)), Name("n", i), Name("b", i))
  {
    var nodes, links := TopologyNodes(Bus), TopologyLinks(Bus);
    BusWellFormed();
    forall k | 0 <= k < BusCount - 1 ensures Edge(AdjacencyOf(nodes, links), Name("b", k), Name("b", k + 1)) {
      BusLink(k);
      LinkIsEdge(nodes, links, k, Name("b", k), Name("b", k + 1));
    }
    forall i | 0 <= i < BusCount
      ensures Edge(AdjacencyOf(nodes, links), Name("b", i), Name("n", i)) && Edge(AdjacencyOf(nodes, links), Name("n", i), Name("b", i))
    {
      BusLink(7 + i);
      LinkIsEdge(nodes, links, 7 + i, Name("n", i), Name("b", i));
    }
  }

  /** The cables of a fresh ring as edges. */
  lemma FreshRingEdges()
    ensures forall k :: 0 <= k < RingCount ==>
      Edge(AdjacencyOf(TopologyNodes(Ring), TopologyLinks(Ring)), Name("n", k), Name("n", RingNext(k)))
  {
    var nodes, links := TopologyNodes(Ring), TopologyLinks(Ring);
    RingWellFormed();
    forall k | 0 <= k < RingCount ensures Edge(AdjacencyOf(nodes, links), Name("n", k), Name("n", RingNext(k))) {
      RingLink(k);
      LinkIsEdge(nodes, links, k, Name("n", k), Name("n", RingNext(k)));
    }
  }

  /** The spokes of a fresh star as edges, both ways. */
  lemma FreshStarEdges()
    ensures forall k :: 0 <= k < StarCount ==>
      && Edge(AdjacencyOf(TopologyNodes(Star), TopologyLinks(Star)), "switch", Name("n", k))
      && Edge(AdjacencyOf(TopologyNodes(Star), TopologyLinks(Star)), Name("n", k), "switch")
  {
    var nodes, links := TopologyNodes(Star), TopologyLinks(Star);
    StarWellFormed();
    forall k | 0 <= k < StarCount
      ensures Edge(AdjacencyOf(nodes, links), "switch", Name("n", k)) && Edge(AdjacencyOf(nodes, links), Name("n", k), "switch")
    {
      StarLink(k);
      LinkIsEdge(nodes, links, k, "switch", Name("n", k));
    }
  }

  /** Any two different devices of a fresh mesh are neighbours. */
  lemma FreshMeshEdges()
    ensures forall i, j :: 0 <= i < MeshCount && 0 <= j < MeshCount && i != j ==>
      Edge(AdjacencyOf(TopologyNodes(Mesh), TopologyLinks(Mesh)), Name("n", i), Name("n", j))
  {
    var nodes, links := TopologyNodes(Mesh), TopologyLinks(Mesh);
    MeshWellFormed();
    forall i, j | 0 <= i < MeshCount && 0 <= j < MeshCount && i != j
      ensures Edge(AdjacencyOf(nodes, links), Name("n", i), Name("n", j))
    {
      var k := MeshPair(i, j);
      LinkIsEdge(nodes, links, k, links[k].source, links[k].target);
    }
  }

  /** With every pair of different devices adjacent, any two devices reach each other. */
  lemma CompleteConnected(adj: Adjacency, n: nat)
    requires n <= 10
    requires forall i, j :: 0 <= i < n && 0 <= j < n && i != j ==> Edge(adj, Name("n", i), Name("n", j))
    ensures forall i, j :: 0 <= i < n && 0 <= j < n ==> Reachable(adj, Name("n", i), Name("n", j))
  {
    forall i, j | 0 <= i < n && 0 <= j < n ensures Reachable(adj, Name("n", i), Name("n", j)) {
      if i == j {
        ReachesItself(adj, Name("n", i));
      } else {
        Hop(adj, Name("n", i), Name("n", j));
      }
    }
  }

  /** Any two devices of a fresh bus reach each other. */
  lemma FreshBusConnected()
    ensures AllConnected(AdjacencyOf(TopologyNodes(Bus), TopologyLinks(Bus)), DeviceIds(TopologyNodes(Bus)))
  {
    var adj := AdjacencyOf(TopologyNodes(Bus), TopologyLinks(Bus));
    AdjacencyOfSymmetric(TopologyNodes(Bus), TopologyLinks(Bus));
    FreshBusEdges();
    BusStretchConnected(adj, 0, BusCount - 1);
    DevicesByIndex(Bus, adj);
  }

  /** Any two devices of a fresh ring reach each other. */
  lemma FreshRingConnected()
    ensures AllConnected(AdjacencyOf(TopologyNodes(Ring), TopologyLinks(Ring)), DeviceIds(TopologyNodes(Ring)))
  {
    var adj := AdjacencyOf(TopologyNodes(Ring), TopologyLinks(Ring));
    AdjacencyOfSymmetric(TopologyNodes(Ring), TopologyLinks(Ring));
    FreshRingEdges();
    RingArcConnected(adj, RingCount - 1);
    DevicesByIndex(Ring, adj);
  }

  /** Any two devices of a fresh star reach each other. */
  lemma FreshStarConnected()
    ensures AllConnected(AdjacencyOf(TopologyNodes(Star), TopologyLinks(Star)), DeviceIds(TopologyNodes(Star)))
  {
    var adj := AdjacencyOf(TopologyNodes(Star), TopologyLinks(Star));
    AdjacencyOfSymmetric(TopologyNodes(Star), TopologyLinks(Star));
    FreshStarEdges();
    StarSpokesConnected(adj, StarCount);
    DevicesByIndex(Star, adj);
  }

  /** Any two devices of a fresh mesh reach each other. */
  lemma FreshMeshConnected()
    ensures AllConnected(AdjacencyOf(TopologyNodes(Mesh), TopologyLinks(Mesh)), DeviceIds(TopologyNodes(Mesh)))
  {
    var adj := AdjacencyOf(TopologyNodes(Mesh), TopologyLinks(Mesh));
    FreshMeshEdges();
    CompleteConnected(adj, MeshCount);
    DevicesByIndex(Mesh, adj);
  }

  /** On a fresh topology any two devices reach each other. */
  lemma FreshDevicesConnected(kind: TopologyType)
    ensures AllConnected(AdjacencyOf(TopologyNodes(kind), TopologyLinks(kind)), DeviceIds(TopologyNodes(kind)))
  {
    match kind
    case Bus => FreshBusConnected();
    case Ring => FreshRingConnected();
    case Star => FreshStarConnected();
    case Mesh => FreshMeshConnected();
  }

  /** On a fresh topology every device has a neighbour. */
  lemma FreshDevicesLinked(kind: TopologyType)
    ensures forall t :: t in DeviceIds(TopologyNodes(kind)) ==> Neighbors(AdjacencyOf(TopologyNodes(kind), TopologyLinks(kind)), t) != []
  {
    var adj := AdjacencyOf(TopologyNodes(kind), TopologyLinks(kind));
    forall t | t in DeviceIds(TopologyNodes(kind)) ensures Neighbors(adj, t) != [] {
      FreshDevice(kind, t);
      var i :| 0 <= i < DeviceCount(kind) && t == Name("n", i);
      match kind
      case Bus =>
        FreshBusEdges();
        assert Edge(adj, t, Name("b", i));
      case Ring =>
        FreshRingEdges();
        assert Edge(adj, t, Name("n", RingNext(i)));
      case Star =>
        FreshStarEdges();
        assert Edge(adj, t, "switch");
      case Mesh =>
        FreshMeshEdges();
        assert Edge(adj, t, Name("n", if i == 0 then 1 else 0));
    }
  }

  // ---------------------------------------------------------------------------
  // One fault
  // ---------------------------------------------------------------------------

  /**
    After toggling the cable named `id`, every ring cable but at most one,
    cable `c`, still carries traffic.
   */
  lemma RingCutLeavesArc(id: string) returns (c: nat)
    ensures c < RingCount
    ensures forall k :: 0 <= k < RingCount && k != c ==> Edge(CutAdjacency(Ring, id), Name("n", k), Name("n", RingNext(k)))
  {
    var links := TopologyLinks(Ring);
    c := RingCount - 1;
    if exists k :: 0 <= k < RingCount && links[k].id == id {
      c :| 0 <= c < RingCount && links[c].id == id;
    }
    forall k | 0 <= k < RingCount && k != c ensures Edge(CutAdjacency(Ring, id), Name("n", k), Name("n", RingNext(k))) {
      if links[c].id == id {
        if k < c {
          RingLinksDiffer(k, c);
        } else {
          RingLinksDiffer(c, k);
        }
      }
      RingLink(k);
      CutEdge(Ring, id, k);
    }
  }

  /** Cutting any one cable of a fresh ring leaves every device reachable from every other. */
  lemma RingSurvivesCut(id: string)
    ensures AllConnected(CutAdjacency(Ring, id), DeviceIds(TopologyNodes(Ring)))
  {
    var c := RingCutLeavesArc(id);
    AdjacencyOfSymmetric(TopologyNodes(Ring), ToggledLinks(TopologyLinks(Ring), id));
    RingArcConnected(CutAdjacency(Ring, id), c);
    DevicesByIndex(Ring, CutAdjacency(Ring, id));
  }

  /** The mesh device other than `n<i>` and `n<j>` with the smallest index. */
  function Third(i: nat, j: nat): (m: nat)
    ensures m < MeshCount && m != i && m != j
  {
    if i != 0 && j != 0 then 0 else if i != 1 && j != 1 then 1 else 2
  }

  /** Cutting any one cable of a fresh mesh leaves every device reachable from every other. */
  lemma MeshSurvivesCut(id: string)
    ensures AllConnected(CutAdjacency(Mesh, id), DeviceIds(TopologyNodes(Mesh)))
  {
    var links := TopologyLinks(Mesh);
    var adj := CutAdjacency(Mesh, id);
    MeshWellFormed();
    forall i, j | 0 <= i < MeshCount && 0 <= j < MeshCount ensures Reachable(adj, Name("n", i), Name("n", j)) {
      if i == j {
        ReachesItself(adj, Name("n", i));
      } else {
        var k := MeshPair(i, j);
        if links[k].id != id {
          CutEdge(Mesh, id, k);
          Hop(adj, Name("n", i), Name("n", j));
        } else {
          var m := Third(i, j);
          var k1 := MeshPair(i, m);
          var k2 := MeshPair(m, j);
          NameInjective("n", i, "n", j);
          NameInjective("n", i, "n", m);
          NameInjective("n", m, "n", j);
          assert k1 != k && k2 != k;
          CutEdge(Mesh, id, k1);
          CutEdge(Mesh, id, k2);
          TwoHops(adj, Name("n", i), Name("n", m), Name("n", j));
        }
      }
    }
    DevicesByIndex(Mesh, adj);
  }

  /** Failing any one node of a fresh mesh leaves the other devices reachable from each other. */
  lemma MeshSurvivesNodeFailure(x: string)
    ensures var nodes := TopologyNodes(Mesh);
      forall s, t :: s in DeviceIds(nodes) && t in DeviceIds(nodes) && s != x && t != x
        ==> Reachable(AdjacencyOf(ToggledNodes(nodes, x), TopologyLinks(Mesh)), s, t)
  {
    var nodes, links := TopologyNodes(Mesh), TopologyLinks(Mesh);
    var failed := ToggledNodes(nodes, x);
    var adj := AdjacencyOf(failed, links);
    MeshWellFormed();
    forall s, t | s in DeviceIds(nodes) && t in DeviceIds(nodes) && s != x && t != x ensures Reachable(adj, s, t) {
      FreshDevice(Mesh, s);
      FreshDevice(Mesh, t);
      var i :| 0 <= i < MeshCount && s == Name("n", i);
      var j :| 0 <= j < MeshCount && t == Name("n", j);
      if i == j {
        ReachesItself(adj, s);
      } else {
        var k := MeshPair(i, j);
        ActiveWhenAllActive(nodes, s);
        ActiveWhenAllActive(nodes, t);
        ToggleNodeActivity(nodes, x, s);
        ToggleNodeActivity(nodes, x, t);
        assert Usable(failed, links[k]);
        AdjacencyEdge(failed, links, s, t);
        Hop(adj, s, t);
      }
    }
  }

  /**
    Cutting spoke `c` of a fresh star isolates device `n<c>`, and only it: no
    other node reaches `n<c>`, and the other devices still reach each other.
   */
  lemma StarSpokeCut(c: nat)
    requires c < StarCount
    ensures forall s :: s != Name("n", c) ==> !Reachable(CutAdjacency(Star, TopologyLinks(Star)[c].id), s, Name("n", c))
    ensures forall i, j :: 0 <= i < StarCount && 0 <= j < StarCount && i != c && j != c ==>
              Reachable(CutAdjacency(Star, TopologyLinks(Star)[c].id), Name("n", i), Name("n", j))
  {
    var links := TopologyLinks(Star);
    var id := links[c].id;
    var adj := CutAdjacency(Star, id);
    StarWellFormed();
    AdjacencyOfSymmetric(TopologyNodes(Star), ToggledLinks(links, id));
    forall u ensures !Edge(adj, u, Name("n", c)) {
      if Edge(adj, u, Name("n", c)) {
        CutEdgeFrom(Star, id, u, Name("n", c));
        var k :| 0 <= k < |links| && links[k].id != id && Joins(links[k], u, Name("n", c));
        StarLink(k);
        NameInjective("n", k, "n", c);
      }
    }
    forall s | s != Name("n", c) ensures !Reachable(adj, s, Name("n", c)) {
      NoEdgeInto(adj, s, Name("n", c));
    }
    forall k | 0 <= k < StarCount && k != c ensures Edge(adj, "switch", Name("n", k)) {
      StarLink(k);
      CutEdge(Star, id, k);
    }
    StarSpokesConnected(adj, c);
  }

  /** The nodes left of backbone segment `c`: the left terminator, `b0` .. `b<c>` and their devices. */
  ghost function LeftOfSegment(c: nat): set<string>
    requires c < BusCount - 1
  {
    {"t_left"} + (set i | 0 <= i <= c :: Name("b", i)) + (set i | 0 <= i <= c :: Name("n", i))
  }

  /** `b<k>` and `n<k>` are left of segment `c` exactly when `k <= c`; the right terminator is not. */
  lemma LeftMembers(c: nat, p: string, k: nat)
    requires c < BusCount - 1 && k < 10 && (p == "b" || p == "n")
    ensures Name(p, k) in LeftOfSegment(c) <==> k <= c
    ensures "t_right" !in LeftOfSegment(c)
  {
    if k <= c {
      if p == "b" {
        assert Name("b", k) in (set i | 0 <= i <= c :: Name("b", i));
      } else {
        assert Name("n", k) in (set i | 0 <= i <= c :: Name("n", i));
      }
    } else {
      forall i | 0 <= i <= c ensures Name("b", i) != Name(p, k) && Name("n", i) != Name(p, k) {
        NameInjective("b", i, p, k);
        NameInjective("n", i, p, k);
      }
      assert |"t_left"| != |Name(p, k)|;
    }
    forall i | 0 <= i <= c ensures Name("b", i) != "t_right" && Name("n", i) != "t_right" {
      assert |Name("b", i)| != |"t_right"|;
    }
  }

  /** A bus cable other than segment `c` has both ends left of the cut or both right of it. */
  lemma LeftSameSide(c: nat, k: nat)
    requires c < BusCount - 1 && k < |TopologyLinks(Bus)| && k != c
    ensures TopologyLinks(Bus)[k].source in LeftOfSegment(c) <==> TopologyLinks(Bus)[k].target in LeftOfSegment(c)
  {
    BusLink(k);
    if k < BusCount - 1 {
      LeftMembers(c, "b", k);
      LeftMembers(c, "b", k + 1);
    } else if k == BusCount - 1 {
      LeftMembers(c, "b", 0);
    } else if k == BusCount {
      LeftMembers(c, "b", BusCount - 1);
    } else {
      LeftMembers(c, "n", k - 7);
      LeftMembers(c, "b", k - 7);
    }
  }

  /** After cutting segment `c`, every edge from the left of the cut stays on the left. */
  lemma LeftClosed(c: nat)
    requires c < BusCount - 1
    ensures Closed(CutAdjacency(Bus, TopologyLinks(Bus)[c].id), LeftOfSegment(c), {})
  {
    var links := TopologyLinks(Bus);
    var id := links[c].id;
    var left := LeftOfSegment(c);
    forall u, x | u in left && Edge(CutAdjacency(Bus, id), u, x) ensures x in left {
      CutEdgeFrom(Bus, id, u, x);
      var k :| 0 <= k < |links| && links[k].id != id && Joins(links[k], u, x);
      LeftSameSide(c, k);
    }
  }

  /**
    Cutting backbone segment `c` of a fresh bus splits its devices in two:
    no device left of the cut reaches one right of it, or the other way round.
   */
  lemma BusCutSeparates(c: nat)
    requires c < BusCount - 1
    ensures forall i, j :: 0 <= i <= c < j < BusCount ==>
      && !Reachable(CutAdjacency(Bus, TopologyLinks(Bus)[c].id), Name("n", i), Name("n", j))
      && !Reachable(CutAdjacency(Bus, TopologyLinks(Bus)[c].id), Name("n", j), Name("n", i))
  {
    var adj := CutAdjacency(Bus, TopologyLinks(Bus)[c].id);
    AdjacencyOfSymmetric(TopologyNodes(Bus), ToggledLinks(TopologyLinks(Bus), TopologyLinks(Bus)[c].id));
    LeftClosed(c);
    forall i, j | 0 <= i <= c < j < BusCount ensures !Reachable(adj, Name("n", i), Name("n", j)) && !Reachable(adj, Name("n", j), Name("n", i)) {
      LeftMembers(c, "n", i);
      LeftMembers(c, "n", j);
      ClosedUnreachable(adj, LeftOfSegment(c), Name("n", i), Name("n", j));
      if Reachable(adj, Name("n", j), Name("n", i)) {
        ReachableSym(adj, Name("n", j), Name("n", i));
      }
    }
  }

  /** After cutting segment `c`, the other segments and all drop cables still carry traffic. */
  lemma BusCutEdges(c: nat)
    requires c < BusCount - 1
    ensures forall k :: 0 <= k < BusCount - 1 && k != c ==>
      Edge(CutAdjacency(Bus, TopologyLinks(Bus)[c].id), Name("b", k), Name("b", k + 1))
    ensures forall i :: 0 <= i < BusCount ==> Edge(CutAdjacency(Bus, TopologyLinks(Bus)[c].id), Name("b", i), Name("n", i))
  {
    var id := TopologyLinks(Bus)[c].id;
    forall k | 0 <= k < BusCount - 1 && k != c ensures Edge(CutAdjacency(Bus, id), Name("b", k), Name("b", k + 1)) {
      if k < c {
        BusLinksDiffer(k, c);
      } else {
        BusLinksDiffer(c, k);
      }
      BusLink(k);
      CutEdge(Bus, id, k);
    }
    forall i | 0 <= i < BusCount ensures Edge(CutAdjacency(Bus, id), Name("b", i), Name("n", i)) {
      BusLinksDiffer(c, 7 + i);
      BusLink(7 + i);
      CutEdge(Bus, id, 7 + i);
    }
  }

  /** After cutting segment `c`, devices on the same side of the cut still reach each other. */
  lemma BusCutKeepsSides(c: nat)
    requires c < BusCount - 1
    ensures forall i, j :: 0 <= i <= c && 0 <= j <= c ==>
      Reachable(CutAdjacency(Bus, TopologyLinks(Bus)[c].id), Name("n", i), Name("n", j))
    ensures forall i, j :: c < i < BusCount && c < j < BusCount ==>
      Reachable(CutAdjacency(Bus, TopologyLinks(Bus)[c].id), Name("n", i), Name("n", j))
  {
    var adj := CutAdjacency(Bus, TopologyLinks(Bus)[c].id);
    AdjacencyOfSymmetric(TopologyNodes(Bus), ToggledLinks(TopologyLinks(Bus), TopologyLinks(Bus)[c].id));
    BusCutEdges(c);
    BusStretchConnected(adj, 0, c);
    BusStretchConnected(adj, c + 1, BusCount - 1);
  }
}
