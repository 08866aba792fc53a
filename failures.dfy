/**
  Failure injection: clicking a node or a cable in break mode flips the
  `active` flag of every entry carrying that id and leaves all else alone.
 */
module Failures {
  import opened Graph
  import opened Reachability

  /** Flips the `active` flag of every node whose id is `id`, keeping the order and every other field. */
  function ToggledNodes(nodes: seq<Node>, id: string): (r: seq<Node>)
    ensures |r| == |nodes|
  {
    seq(|nodes|, k requires 0 <= k < |nodes| => if nodes[k].id == id then nodes[k].(active := !nodes[k].active) else nodes[k])
  }

  /** Flips the `active` flag of every link whose id is `id`, keeping the order and every other field. */
  function ToggledLinks(links: seq<Link>, id: string): (r: seq<Link>)
    ensures |r| == |links|
  {
    seq(|links|, k requires 0 <= k < |links| => if links[k].id == id then links[k].(active := !links[k].active) else links[k])
  }

  /**
    Only the `active` flag of a matching node changes: ids, captions and roles
    stay, so do the set of ids and their distinctness; with distinct ids the
    node named `id` is the only entry that differs.
   */
  lemma ToggleNodeKeepsShape(nodes: seq<Node>, id: string)
    ensures var r := ToggledNodes(nodes, id);
      && (forall k :: 0 <= k < |nodes| ==>
            r[k].id == nodes[k].id && r[k].caption == nodes[k].caption && r[k].role == nodes[k].role
            && (r[k].active <==> (nodes[k].active <==> nodes[k].id != id)))
      && NodeIds(r) == NodeIds(nodes)
      && (DistinctNodeIds(r) <==> DistinctNodeIds(nodes))
  {
    var r := ToggledNodes(nodes, id);
    forall x | x in NodeIds(nodes) ensures x in NodeIds(r) {
      var k :| 0 <= k < |nodes| && nodes[k].id == x;
      assert r[k].id == x;
    }
  }

  lemma ToggleNodeOnly(nodes: seq<Node>, id: string, j: nat)
    requires DistinctNodeIds(nodes) && j < |nodes| && nodes[j].id == id
    ensures ToggledNodes(nodes, id)[j] == nodes[j].(active := !nodes[j].active)
    ensures forall k :: 0 <= k < |nodes| && k != j ==> ToggledNodes(nodes, id)[k] == nodes[k]
  {
  }

  /** Toggling the same node twice restores the node list. */
  lemma ToggleNodeTwice(nodes: seq<Node>, id: string)
    ensures ToggledNodes(ToggledNodes(nodes, id), id) == nodes
  {
  }

  /**
    After the toggle, the node named `id` is active exactly when it existed and
    was not active before; every other node keeps its state.
   */
  lemma ToggleNodeActivity(nodes: seq<Node>, id: string, u: string)
    ensures IsActiveNode(ToggledNodes(nodes, id), u)
        <==> if u == id then u in NodeIds(nodes) && !IsActiveNode(nodes, u) else IsActiveNode(nodes, u)
  {
    var r := ToggledNodes(nodes, id);
    var before, after := FindNode(nodes, u), FindNode(r, u);
    if before.Some? {
      var k :| 0 <= k < |nodes| && nodes[k] == before.value && before.value.id == u
               && forall j :: 0 <= j < k ==> nodes[j].id != u;
      assert r[k].id == u;
      var k' :| 0 <= k' < |r| && r[k'] == after.value && after.value.id == u
                && forall j :: 0 <= j < k' ==> r[j].id != u;
      assert nodes[k'].id == u;
      assert k == k';
      assert nodes[k].id in NodeIds(nodes);
    } else {
      assert after.None?;
    }
  }

  /** Only the `active` flag of a matching link changes. */
  lemma ToggleLinkKeepsShape(links: seq<Link>, id: string)
    ensures var r := ToggledLinks(links, id);
      && (forall k :: 0 <= k < |links| ==>
            r[k].id == links[k].id && r[k].source == links[k].source && r[k].target == links[k].target
            && (r[k].active <==> (links[k].active <==> links[k].id != id)))
      && (DistinctLinkIds(r) <==> DistinctLinkIds(links))
  {
  }

  lemma ToggleLinkOnly(links: seq<Link>, id: string, j: nat)
    requires DistinctLinkIds(links) && j < |links| && links[j].id == id
    ensures ToggledLinks(links, id)[j] == links[j].(active := !links[j].active)
    ensures forall k :: 0 <= k < |links| && k != j ==> ToggledLinks(links, id)[k] == links[k]
  {
  }

  lemma ToggleLinkTwice(links: seq<Link>, id: string)
    ensures ToggledLinks(ToggledLinks(links, id), id) == links
  {
  }

  /**
    A cable toggle changes the adjacency only through the toggled cable:
    another cable carries traffic after the toggle exactly when it did before,
    and the toggled one exactly when it was cut and both its ends work.
   */
  lemma ToggleLinkUsable(nodes: seq<Node>, links: seq<Link>, id: string, k: nat)
    requires k < |links|
    ensures Usable(nodes, ToggledLinks(links, id)[k])
        <==> if links[k].id == id
             then !links[k].active && IsActiveNode(nodes, links[k].source) && IsActiveNode(nodes, links[k].target)
             else Usable(nodes, links[k])
  {
  }
}
