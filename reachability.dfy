/**
  The reachability engine: the undirected adjacency list built from the
  links that are usable under the current failure flags, and the
  breadth-first search that finds a shortest path in it.
 */
module Reachability {
  import opened Graph

  /** Neighbour lists keyed by node id, in the order the links were added. */
  type Adjacency = map<string, seq<string>>

  /** `adj[u] || []`: the neighbours of `u`, or none when `u` has no entry. */
  function Neighbors(adj: Adjacency, u: string): seq<string>
  {
    if u in adj then adj[u] else []
  }

  predicate Edge(adj: Adjacency, u: string, v: string)
  {
    v in Neighbors(adj, u)
  }

  // ---------------------------------------------------------------------------
  // Adjacency construction
  // ---------------------------------------------------------------------------

  /** A link carries traffic when it is active and both of its endpoints exist and are active. */
  predicate Usable(nodes: seq<Node>, l: Link)
  {
    l.active && IsActiveNode(nodes, l.source) && IsActiveNode(nodes, l.target)
  }

  predicate Joins(l: Link, u: string, v: string)
  {
    (l.source == u && l.target == v) || (l.source == v && l.target == u)
  }

  /** Every node id starts with an empty neighbour list. */
  function EmptyAdjacency(nodes: seq<Node>): Adjacency
  {
    map id | id in NodeIds(nodes) :: []
  }

  /** The effect of one link on the adjacency: both directions, or nothing. */
  function AddLink(adj: Adjacency, nodes: seq<Node>, l: Link): Adjacency
  {
    if Usable(nodes, l) then
      var a := adj[l.source := Neighbors(adj, l.source) + [l.target]];
      a[l.target := Neighbors(a, l.target) + [l.source]]
    else adj
  }

  /** The adjacency after processing `links` in order. */
  function AdjacencyOf(nodes: seq<Node>, links: seq<Link>): Adjacency
  {
    if links == [] then EmptyAdjacency(nodes)
    else AddLink(AdjacencyOf(nodes, links[..|links| - 1]), nodes, Last(links))
  }

  /** Builds the adjacency list the way the simulation does before every run. */
  method BuildAdjacency(nodes: seq<Node>, links: seq<Link>) returns (adj: Adjacency)
    ensures adj == AdjacencyOf(nodes, links)
  {
    adj := map[];
    for k := 0 to |nodes|
      invariant adj == EmptyAdjacency(nodes[..k])
    {
      assert NodeIds(nodes[..k + 1]) == NodeIds(nodes[..k]) + {nodes[k].id} by {
        assert forall i :: 0 <= i < k ==> nodes[..k + 1][i] == nodes[..k][i];
      }
      adj := adj[nodes[k].id := []];
    }
    assert nodes[..|nodes|] == nodes;
    assert links[..0] == [];
    for k := 0 to |links|
      invariant adj == AdjacencyOf(nodes, links[..k])
      invariant adj.Keys == NodeIds(nodes)
    {
      var l := links[k];
      var sourceNode := FindNode(nodes, l.source);
      var targetNode := FindNode(nodes, l.target);
      if l.active && sourceNode.Some? && sourceNode.value.active && targetNode.Some? && targetNode.value.active {
        adj := adj[l.source := adj[l.source] + [l.target]];
        adj := adj[l.target := adj[l.target] + [l.source]];
      }
      assert links[..k + 1][..k] == links[..k];
    }
    assert links[..|links|] == links;
  }

  lemma {:induction false} AdjacencyKeys(nodes: seq<Node>, links: seq<Link>)
    ensures AdjacencyOf(nodes, links).Keys == NodeIds(nodes)
  {
    if links != [] {
      AdjacencyKeys(nodes, links[..|links| - 1]);
    }
  }

  /**
    `v` is a neighbour of `u` exactly when some usable link joins them;
    hence the adjacency is symmetric.
   */
  lemma {:induction false} AdjacencyEdge(nodes: seq<Node>, links: seq<Link>, u: string, v: string)
    ensures Edge(AdjacencyOf(nodes, links), u, v)
        <==> exists k :: 0 <= k < |links| && Usable(nodes, links[k]) && Joins(links[k], u, v)
  {
    if links != [] {
      var init := links[..|links| - 1];
      AdjacencyEdge(nodes, init, u, v);
      forall k | 0 <= k < |init| ensures init[k] == links[k] { }
    }
  }

  lemma AdjacencySymmetric(nodes: seq<Node>, links: seq<Link>, u: string, v: string)
    ensures Edge(AdjacencyOf(nodes, links), u, v) <==> Edge(AdjacencyOf(nodes, links), v, u)
  {
    AdjacencyEdge(nodes, links, u, v);
    AdjacencyEdge(nodes, links, v, u);
  }

  /** A failed node has no neighbours, and is nobody's neighbour. */
  lemma InactiveNodeIsolated(nodes: seq<Node>, links: seq<Link>, u: string)
    requires !IsActiveNode(nodes, u)
    ensures Neighbors(AdjacencyOf(nodes, links), u) == []
    ensures forall v :: !Edge(AdjacencyOf(nodes, links), v, u)
  {
    var adj := AdjacencyOf(nodes, links);
    forall v ensures !Edge(adj, u, v) && !Edge(adj, v, u) {
      AdjacencyEdge(nodes, links, u, v);
      AdjacencyEdge(nodes, links, v, u);
    }
    if Neighbors(adj, u) != [] {
      assert Edge(adj, u, Neighbors(adj, u)[0]);
    }
  }

  // ---------------------------------------------------------------------------
  // Walks
  // ---------------------------------------------------------------------------

  /** A non-empty node sequence in which consecutive nodes are adjacent. */
  predicate IsWalk(adj: Adjacency, w: seq<string>)
  {
    |w| > 0 && forall i :: 0 <= i < |w| - 1 ==> Edge(adj, w[i], w[i + 1])
  }

  predicate WalkFromTo(adj: Adjacency, w: seq<string>, s: string, e: string)
  {
    IsWalk(adj, w) && w[0] == s && Last(w) == e
  }

  /** No node occurs twice. */
  predicate Simple(w: seq<string>)
  {
    forall i, j :: 0 <= i < j < |w| ==> w[i] != w[j]
  }

  ghost predicate Reachable(adj: Adjacency, s: string, e: string)
  {
    exists w :: WalkFromTo(adj, w, s, e)
  }

  /** Every walk from `s` to `e` has at least `n` nodes. */
  ghost predicate NoShorterWalk(adj: Adjacency, s: string, e: string, n: nat)
  {
    forall w :: WalkFromTo(adj, w, s, e) ==> |w| >= n
  }

  /** What the search promises of a path it returns. */
  ghost predicate ShortestPath(adj: Adjacency, p: seq<string>, s: string, e: string)
  {
    WalkFromTo(adj, p, s, e) && Simple(p) && NoShorterWalk(adj, s, e, |p|)
  }

  /** Every edge has its reverse. */
  ghost predicate Symmetric(adj: Adjacency)
  {
    forall u, v :: Edge(adj, u, v) ==> Edge(adj, v, u)
  }

  /** Any two of `ids` can reach each other. */
  ghost predicate AllConnected(adj: Adjacency, ids: seq<string>)
  {
    forall s, t :: s in ids && t in ids ==> Reachable(adj, s, t)
  }

  /** The adjacency the simulation builds is symmetric. */
  lemma AdjacencyOfSymmetric(nodes: seq<Node>, links: seq<Link>)
    ensures Symmetric(AdjacencyOf(nodes, links))
  {
    forall u, v | Edge(AdjacencyOf(nodes, links), u, v) ensures Edge(AdjacencyOf(nodes, links), v, u) {
      AdjacencySymmetric(nodes, links, u, v);
    }
  }

  /** A walk to `b` followed by a walk from `b` is a walk. */
  lemma ReachableTrans(adj: Adjacency, a: string, b: string, c: string)
    requires Reachable(adj, a, b) && Reachable(adj, b, c)
    ensures Reachable(adj, a, c)
  {
    var w1 :| WalkFromTo(adj, w1, a, b);
    var w2 :| WalkFromTo(adj, w2, b, c);
    var w := w1 + w2[1..];
    forall i | 0 <= i < |w| - 1 ensures Edge(adj, w[i], w[i + 1]) {
      if i < |w1| - 1 {
        assert w[i] == w1[i] && w[i + 1] == w1[i + 1];
      } else {
        assert w[i] == w2[i - |w1| + 1] && w[i + 1] == w2[i - |w1| + 2];
      }
    }
    assert Last(w) == c;
    assert WalkFromTo(adj, w, a, c);
  }

  /** On a symmetric adjacency a walk read backwards is a walk. */
  lemma ReachableSym(adj: Adjacency, a: string, b: string)
    requires Symmetric(adj) && Reachable(adj, a, b)
    ensures Reachable(adj, b, a)
  {
    var w :| WalkFromTo(adj, w, a, b);
    var r := seq(|w|, i requires 0 <= i < |w| => w[|w| - 1 - i]);
    forall i | 0 <= i < |r| - 1 ensures Edge(adj, r[i], r[i + 1]) {
      assert Edge(adj, w[|w| - 2 - i], w[|w| - 1 - i]);
    }
    assert WalkFromTo(adj, r, b, a);
  }

  /** Consecutive ids of `ids` are adjacent. */
  ghost predicate Chain(adj: Adjacency, ids: seq<string>)
  {
    forall k :: 0 <= k < |ids| - 1 ==> Edge(adj, ids[k], ids[k + 1])
  }

  /** On a symmetric adjacency any two ids of a chain reach each other. */
  lemma ChainConnected(adj: Adjacency, ids: seq<string>)
    requires Symmetric(adj) && Chain(adj, ids)
    ensures AllConnected(adj, ids)
  {
    forall i, j | 0 <= i <= j < |ids| ensures Reachable(adj, ids[i], ids[j]) && Reachable(adj, ids[j], ids[i]) {
      var w := ids[i..j + 1];
      forall k | 0 <= k < |w| - 1 ensures Edge(adj, w[k], w[k + 1]) {
        assert w[k] == ids[i + k] && w[k + 1] == ids[i + k + 1];
      }
      assert WalkFromTo(adj, w, ids[i], ids[j]);
      ReachableSym(adj, ids[i], ids[j]);
    }
    forall s, t | s in ids && t in ids ensures Reachable(adj, s, t) {
      var i :| 0 <= i < |ids| && ids[i] == s;
      var j :| 0 <= j < |ids| && ids[j] == t;
      if i > j {
        assert Reachable(adj, ids[j], ids[i]) && Reachable(adj, ids[i], ids[j]);
      }
    }
  }

  /** When a hub reaches every id of `ids`, any two of them reach each other through it. */
  lemma HubConnects(adj: Adjacency, hub: string, ids: seq<string>)
    requires Symmetric(adj) && forall s :: s in ids ==> Reachable(adj, hub, s)
    ensures AllConnected(adj, ids)
  {
    forall s, t | s in ids && t in ids ensures Reachable(adj, s, t) {
      ReachableSym(adj, hub, s);
      ReachableTrans(adj, s, hub, t);
    }
  }

  /** No edge leads into `e`, so no other node reaches it. */
  lemma NoEdgeInto(adj: Adjacency, s: string, e: string)
    requires s != e && forall u :: !Edge(adj, u, e)
    ensures !Reachable(adj, s, e)
  {
    forall w | WalkFromTo(adj, w, s, e) ensures Edge(adj, w[|w| - 2], w[|w| - 1]) {
      assert |w| > 1;
    }
  }

  // ---------------------------------------------------------------------------
  // Breadth-first search
  // ---------------------------------------------------------------------------

  /** Every id the search can ever visit from `start`. */
  ghost function Universe(adj: Adjacency, start: string): set<string>
  {
    {start} + adj.Keys + (set u, x | u in adj && x in adj[u] :: x)
  }

  ghost predicate NonEmpty(queue: seq<seq<string>>)
  {
    forall k :: 0 <= k < |queue| ==> |queue[k]| > 0
  }

  ghost function Lasts(queue: seq<seq<string>>): set<string>
    requires NonEmpty(queue)
  {
    set k | 0 <= k < |queue| :: Last(queue[k])
  }

  /** Each queued path is a simple walk from `start`, inside `visited`, and no walk to its end is shorter. */
  ghost predicate QueueOk(adj: Adjacency, start: string, queue: seq<seq<string>>, visited: set<string>)
    requires NonEmpty(queue)
  {
    forall k :: 0 <= k < |queue| ==>
      && IsWalk(adj, queue[k])
      && queue[k][0] == start
      && Simple(queue[k])
      && (forall x :: x in queue[k] ==> x in visited)
      && NoShorterWalk(adj, start, Last(queue[k]), |queue[k]|)
  }

  /** Queued path lengths never decrease and span at most two levels. */
  ghost predicate Layered(queue: seq<seq<string>>)
  {
    forall k, l :: 0 <= k <= l < |queue| ==> |queue[k]| <= |queue[l]| <= |queue[k]| + 1
  }

  ghost predicate LastsDistinct(queue: seq<seq<string>>)
    requires NonEmpty(queue)
  {
    forall k, l :: 0 <= k < l < |queue| ==> Last(queue[k]) != Last(queue[l])
  }

  /** Every walk from `start` with at most `m` nodes ends at a visited node. */
  ghost predicate Covered(adj: Adjacency, start: string, m: nat, visited: set<string>)
  {
    forall w :: IsWalk(adj, w) && w[0] == start && |w| <= m ==> Last(w) in visited
  }

  /** Every visited node that is not awaiting expansion has all its neighbours visited. */
  ghost predicate Closed(adj: Adjacency, visited: set<string>, pending: set<string>)
  {
    forall u, x :: u in visited && u !in pending && Edge(adj, u, x) ==> x in visited
  }

  lemma LastsTail(queue: seq<seq<string>>)
    requires |queue| > 0 && NonEmpty(queue)
    ensures NonEmpty(queue[1..]) && Lasts(queue) == {Last(queue[0])} + Lasts(queue[1..])
  {
    forall x | x in Lasts(queue) ensures x in {Last(queue[0])} + Lasts(queue[1..]) {
      var k :| 0 <= k < |queue| && Last(queue[k]) == x;
      if k > 0 {
        assert queue[1..][k - 1] == queue[k];
      }
    }
    forall x | x in Lasts(queue[1..]) ensures x in Lasts(queue) {
      var k :| 0 <= k < |queue[1..]| && Last(queue[1..][k]) == x;
      assert queue[k + 1] == queue[1..][k];
    }
  }

  lemma LastsAppend(queue: seq<seq<string>>, p: seq<string>)
    requires NonEmpty(queue) && |p| > 0
    ensures NonEmpty(queue + [p]) && Lasts(queue + [p]) == Lasts(queue) + {Last(p)}
  {
    var q := queue + [p];
    forall x | x in Lasts(q) ensures x in Lasts(queue) + {Last(p)} {
      var k :| 0 <= k < |q| && Last(q[k]) == x;
      if k < |queue| {
        assert q[k] == queue[k];
      }
    }
    forall x | x in Lasts(queue) ensures x in Lasts(q) {
      var k :| 0 <= k < |queue| && Last(queue[k]) == x;
      assert q[k] == queue[k];
    }
    assert q[|queue|] == p;
  }

  /** Once the front level of the queue is `m + 1`, walks of `m + 1` nodes are covered too. */
  lemma CoveredStep(adj: Adjacency, start: string, m: nat, visited: set<string>, queue: seq<seq<string>>)
    requires m >= 1 && NonEmpty(queue)
    requires Covered(adj, start, m, visited)
    requires Closed(adj, visited, Lasts(queue))
    requires forall k :: 0 <= k < |queue| ==> |queue[k]| == m + 1 && NoShorterWalk(adj, start, Last(queue[k]), m + 1)
    ensures Covered(adj, start, m + 1, visited)
  {
    forall w | IsWalk(adj, w) && w[0] == start && |w| <= m + 1 ensures Last(w) in visited {
      if |w| == m + 1 {
        var w' := w[..m];
        assert IsWalk(adj, w') by {
          forall i | 0 <= i < |w'| - 1 ensures Edge(adj, w'[i], w'[i + 1]) {
            assert Edge(adj, w[i], w[i + 1]);
          }
        }
        var y := Last(w');
        assert WalkFromTo(adj, w', start, y);
        assert y !in Lasts(queue) by {
          forall k | 0 <= k < |queue| ensures Last(queue[k]) != y {
            assert |w'| < m + 1;
          }
        }
        assert Edge(adj, w[m - 1], w[m]);
      }
    }
  }

  /** Walks from inside a set closed under adjacency stay inside it. */
  lemma {:induction false} WalkStaysInside(adj: Adjacency, visited: set<string>, w: seq<string>, n: nat)
    requires IsWalk(adj, w) && w[0] in visited && Closed(adj, visited, {})
    requires n < |w|
    ensures w[n] in visited
  {
    if n > 0 {
      WalkStaysInside(adj, visited, w, n - 1);
      assert Edge(adj, w[n - 1], w[n]);
    }
  }

  lemma ClosedUnreachable(adj: Adjacency, visited: set<string>, s: string, e: string)
    requires Closed(adj, visited, {}) && s in visited && e !in visited
    ensures !Reachable(adj, s, e)
  {
    forall w | WalkFromTo(adj, w, s, e) ensures false {
      WalkStaysInside(adj, visited, w, |w| - 1);
    }
  }

  lemma ShrinkingComplement(u: set<string>, a: set<string>, x: string)
    requires x in u && x !in a
    ensures |u - (a + {x})| == |u - a| - 1
  {
    assert u - (a + {x}) == (u - a) - {x};
  }

  /** The outer-loop invariant of the search: the queue holds the frontier of a breadth-first sweep. */
  ghost predicate SearchInv(adj: Adjacency, start: string, end: string,
                            queue: seq<seq<string>>, visited: set<string>)
  {
    && NonEmpty(queue)
    && start in visited
    && QueueOk(adj, start, queue, visited)
    && Layered(queue)
    && LastsDistinct(queue)
    && (|queue| > 0 ==> Covered(adj, start, |queue[0]|, visited))
    && Closed(adj, visited, Lasts(queue))
    && (end in visited ==> end in Lasts(queue))
  }

  /** Queued path lengths never decrease and are `m` or `m + 1`. */
  ghost predicate TwoLevels(queue: seq<seq<string>>, m: nat)
  {
    && (forall k :: 0 <= k < |queue| ==> m <= |queue[k]| <= m + 1)
    && (forall k, l :: 0 <= k <= l < |queue| ==> |queue[k]| <= |queue[l]|)
  }

  lemma PushTwoLevels(queue: seq<seq<string>>, m: nat, next: seq<string>)
    requires TwoLevels(queue, m) && |next| == m + 1
    ensures TwoLevels(queue + [next], m)
  {
    var q := queue + [next];
    forall k | 0 <= k < |q| ensures q[k] == if k < |queue| then queue[k] else next { }
  }

  lemma PushDistinct(queue: seq<seq<string>>, visited: set<string>, next: seq<string>)
    requires NonEmpty(queue) && LastsDistinct(queue) && |next| > 0
    requires forall k :: 0 <= k < |queue| ==> Last(queue[k]) in visited
    requires Last(next) !in visited
    ensures NonEmpty(queue + [next]) && LastsDistinct(queue + [next])
  {
    var q := queue + [next];
    forall k | 0 <= k < |q| ensures q[k] == if k < |queue| then queue[k] else next { }
  }

  /** The inner-loop invariant while the neighbours of `node`, reached by a path of `m` nodes, are expanded. */
  ghost predicate ExpandInv(adj: Adjacency, start: string, end: string, m: nat, node: string,
                            queue: seq<seq<string>>, visited: set<string>)
  {
    && NonEmpty(queue)
    && start in visited
    && node in visited
    && QueueOk(adj, start, queue, visited)
    && TwoLevels(queue, m)
    && LastsDistinct(queue)
    && node !in Lasts(queue)
    && Covered(adj, start, m, visited)
    && Closed(adj, visited, Lasts(queue) + {node})
    && (end in visited ==> end in Lasts(queue))
  }

  lemma SearchStart(adj: Adjacency, start: string, end: string)
    ensures SearchInv(adj, start, end, [[start]], {start})
  {
    var queue := [[start]];
    assert Lasts(queue) == {start} by {
      assert Last(queue[0]) == start;
    }
  }

  /** Taking the front path off the queue, when it does not end at `end`, starts its expansion. */
  lemma Dequeue(adj: Adjacency, start: string, end: string, queue: seq<seq<string>>, visited: set<string>)
    requires SearchInv(adj, start, end, queue, visited)
    requires |queue| > 0 && Last(queue[0]) != end
    ensures |queue[0]| > 0 && IsWalk(adj, queue[0]) && queue[0][0] == start && Simple(queue[0])
    ensures forall y :: y in queue[0] ==> y in visited
    ensures ExpandInv(adj, start, end, |queue[0]|, Last(queue[0]), queue[1..], visited)
  {
    LastsTail(queue);
    var q := queue[1..];
    forall k | 0 <= k < |q| ensures q[k] == queue[k + 1] { }
    assert Last(queue[0]) in queue[0];
  }

  /** Extending a simple walk by a fresh neighbour of its last node gives a simple walk. */
  lemma ExtendWalk(adj: Adjacency, path: seq<string>, x: string)
    requires IsWalk(adj, path) && Simple(path)
    requires Edge(adj, Last(path), x) && x !in path
    ensures IsWalk(adj, path + [x]) && Simple(path + [x])
  {
    var next := path + [x];
    forall i | 0 <= i < |next| - 1 ensures Edge(adj, next[i], next[i + 1]) {
      if i < |path| - 1 {
        assert next[i] == path[i] && next[i + 1] == path[i + 1];
      }
    }
    forall i, j | 0 <= i < j < |next| ensures next[i] != next[j] {
      if j < |path| {
        assert next[i] == path[i] && next[j] == path[j];
      } else {
        assert next[i] == path[i] && path[i] in path;
      }
    }
  }

  lemma PushQueueOk(adj: Adjacency, start: string, queue: seq<seq<string>>, visited: set<string>,
                    next: seq<string>, m: nat)
    requires NonEmpty(queue) && QueueOk(adj, start, queue, visited)
    requires |next| == m + 1 && IsWalk(adj, next) && next[0] == start && Simple(next)
    requires forall y :: y in next ==> y in visited + {Last(next)}
    requires Covered(adj, start, m, visited) && Last(next) !in visited
    ensures NonEmpty(queue + [next]) && QueueOk(adj, start, queue + [next], visited + {Last(next)})
  {
    var q := queue + [next];
    var v := visited + {Last(next)};
    forall k | 0 <= k < |q|
      ensures IsWalk(adj, q[k]) && q[k][0] == start && Simple(q[k])
      ensures forall y :: y in q[k] ==> y in v
      ensures NoShorterWalk(adj, start, Last(q[k]), |q[k]|)
    {
      if k < |queue| {
        assert q[k] == queue[k];
      } else {
        assert q[k] == next;
        forall w | WalkFromTo(adj, w, start, Last(next)) ensures |w| >= m + 1 { }
      }
    }
  }

  /** Appending `path + [x]` for an unvisited neighbour `x` keeps the expansion invariant. */
  lemma Push(adj: Adjacency, start: string, end: string, node: string,
             queue: seq<seq<string>>, visited: set<string>, path: seq<string>, x: string)
    requires ExpandInv(adj, start, end, |path|, node, queue, visited)
    requires |path| > 0 && IsWalk(adj, path) && path[0] == start && Simple(path) && Last(path) == node
    requires forall y :: y in path ==> y in visited
    requires Edge(adj, node, x) && x !in visited
    ensures NonEmpty(queue + [path + [x]])
    ensures ExpandInv(adj, start, end, |path|, node, queue + [path + [x]], visited + {x})
  {
    var next := path + [x];
    var q := queue + [next];
    ExtendWalk(adj, path, x);
    PushQueueOk(adj, start, queue, visited, next, |path|);
    LastsAppend(queue, next);
    PushTwoLevels(queue, |path|, next);
    forall k | 0 <= k < |queue| ensures Last(queue[k]) in visited {
      assert Last(queue[k]) in queue[k];
    }
    PushDistinct(queue, visited, next);
  }

  /** Once every neighbour of `node` is visited, the queue is again a breadth-first frontier. */
  lemma Expanded(adj: Adjacency, start: string, end: string, m: nat, node: string,
                 queue: seq<seq<string>>, visited: set<string>)
    requires m >= 1
    requires ExpandInv(adj, start, end, m, node, queue, visited)
    requires forall x :: x in Neighbors(adj, node) ==> x in visited
    ensures SearchInv(adj, start, end, queue, visited)
  {
    assert Closed(adj, visited, Lasts(queue));
    if |queue| > 0 && |queue[0]| == m + 1 {
      CoveredStep(adj, start, m, visited, queue);
    }
  }

  /** The start is a node that exists and is active. */
  predicate StartActive(nodes: seq<Node>, start: string)
  {
    IsActiveNode(nodes, start)
  }

  /**
    The state of the inner loop after the first `j` neighbours of the last
    node of `path`: the frontier invariant holds, those neighbours are
    visited, and each newly visited node was traded for one queued path.
   */
  ghost predicate Sweep(adj: Adjacency, start: string, end: string, path: seq<string>, universe: set<string>,
                        queue: seq<seq<string>>, visited: set<string>, j: nat,
                        queue': seq<seq<string>>, visited': set<string>)
    requires |path| > 0
  {
    && ExpandInv(adj, start, end, |path|, Last(path), queue', visited')
    && visited <= visited' <= universe
    && |universe - visited'| + |queue'| == |universe - visited| + |queue|
    && |queue'| >= |queue|
    && j <= |Neighbors(adj, Last(path))|
    && forall i :: 0 <= i < j ==> Neighbors(adj, Last(path))[i] in visited'
  }

  /** Visiting the neighbour at position `j` keeps `Sweep`. */
  lemma SweepStep(adj: Adjacency, start: string, end: string, path: seq<string>, universe: set<string>,
                  queue: seq<seq<string>>, visited: set<string>, j: nat,
                  queue': seq<seq<string>>, visited': set<string>)
    requires |path| > 0 && IsWalk(adj, path) && path[0] == start && Simple(path)
    requires forall y :: y in path ==> y in visited
    requires universe == Universe(adj, start)
    requires Sweep(adj, start, end, path, universe, queue, visited, j, queue', visited')
    requires j < |Neighbors(adj, Last(path))|
    ensures var x := Neighbors(adj, Last(path))[j];
      if x in visited' then Sweep(adj, start, end, path, universe, queue, visited, j + 1, queue', visited')
      else Sweep(adj, start, end, path, universe, queue, visited, j + 1, queue' + [path + [x]], visited' + {x})
  {
    var node := Last(path);
    var x := Neighbors(adj, node)[j];
    if x !in visited' {
      assert Edge(adj, node, x);
      Push(adj, start, end, node, queue', visited', path, x);
      ShrinkingComplement(universe, visited', x);
    }
  }

  /**
    The inner loop of the search: every neighbour of the last node of
    `path` that is not yet visited is marked and queued as `path + [neighbor]`.
   */
  method ExpandPath(adj: Adjacency, path: seq<string>, queue: seq<seq<string>>, visited: set<string>,
                    ghost start: string, ghost end: string, ghost universe: set<string>)
    returns (queue': seq<seq<string>>, visited': set<string>)
    requires |path| > 0 && IsWalk(adj, path) && path[0] == start && Simple(path)
    requires forall y :: y in path ==> y in visited
    requires ExpandInv(adj, start, end, |path|, Last(path), queue, visited)
    requires visited <= universe
    requires universe == Universe(adj, start)
    ensures ExpandInv(adj, start, end, |path|, Last(path), queue', visited')
    ensures forall x :: x in Neighbors(adj, Last(path)) ==> x in visited'
    ensures visited <= visited' <= universe
    ensures |universe - visited'| + |queue'| == |universe - visited| + |queue|
    ensures |queue'| >= |queue|
  {
    queue', visited' := queue, visited;
    var node := path[|path| - 1];
    var neighbors := Neighbors(adj, node);
    for j := 0 to |neighbors|
      invariant Sweep(adj, start, end, path, universe, queue, visited, j, queue', visited')
    {
      SweepStep(adj, start, end, path, universe, queue, visited, j, queue', visited');
      var neighbor := neighbors[j];
      if neighbor !in visited' {
        visited' := visited' + {neighbor};
        queue' := queue' + [path + [neighbor]];
      }
    }
  }

  /**
    Breadth-first search from `start` to `end` over `adj`, with a queue of
    paths and a visited set; refuses a missing or failed start.
   */
  method FindPathBFS(start: string, end: string, adj: Adjacency, allNodes: seq<Node>)
    returns (r: Option<seq<string>>)
    ensures !StartActive(allNodes, start) ==> r == None
    ensures r.Some? ==> ShortestPath(adj, r.value, start, end)
    ensures r.Some? <==> StartActive(allNodes, start) && Reachable(adj, start, end)
  {
    var startNode := FindNode(allNodes, start);
    if startNode.None? || !startNode.value.active {
      return None;
    }
    var queue: seq<seq<string>> := [[start]];
    var visited: set<string> := {start};
    ghost var universe := Universe(adj, start);
    SearchStart(adj, start, end);
    while |queue| > 0
      invariant SearchInv(adj, start, end, queue, visited)
      invariant visited <= universe
      decreases |universe - visited|, |queue|
    {
      var path := queue[0];
      var node := path[|path| - 1];
      if node == end {
        assert WalkFromTo(adj, path, start, end);
        return Some(path);
      }
      Dequeue(adj, start, end, queue, visited);
      queue, visited := ExpandPath(adj, path, queue[1..], visited, start, end, universe);
      Expanded(adj, start, end, |path|, node, queue, visited);
    }
    ClosedUnreachable(adj, visited, start, end);
    return None;
  }
}
