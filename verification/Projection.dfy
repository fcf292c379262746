/** The hop bound on a bundle's graph (`_bounded` in `hyperset/bundle/resolver.py`): the nodes near
    the domain node, whichever way the edges are drawn, and the edges between them. */
module Projection {
  import opened Prelude
  import opened Reach

  datatype Edge = Edge(from: string, to: string)

  datatype Graph = Graph(nodes: seq<string>, edges: seq<Edge>)

  datatype Notice = NoNotice | MaxHopsNotApplicable | ProjectionBounded(nodes: int, edges: int)

  predicate Joins(edge: Edge, node: string, other: string) {
    edge == Edge(node, other) || edge == Edge(other, node)
  }

  /** The far ends of an edge that the node is an end of. */
  function Beyond(edge: Edge, node: string): set<string> {
    (if edge.from == node then {edge.to} else {}) + (if edge.to == node then {edge.from} else {})
  }

  function Neighbours(edges: seq<Edge>, node: string): set<string> {
    if edges == [] then {} else Neighbours(edges[..|edges| - 1], node) + Beyond(edges[|edges| - 1], node)
  }

  /** Two nodes are neighbours when some edge joins them, in either direction. */
  lemma {:induction false} NeighboursAreJoined(edges: seq<Edge>, node: string, other: string)
    ensures other in Neighbours(edges, node) <==> Adjacent(edges, node, other)
  {
    if edges != [] {
      var last := edges[|edges| - 1];
      NeighboursAreJoined(edges[..|edges| - 1], node, other);
      assert edges == edges[..|edges| - 1] + [last];
      assert other in Beyond(last, node) <==> Joins(last, node, other);
      assert Adjacent(edges, node, other) <==> Adjacent(edges[..|edges| - 1], node, other) || Joins(last, node, other);
    }
  }

  ghost predicate Adjacent(edges: seq<Edge>, node: string, other: string) {
    exists edge <- edges :: Joins(edge, node, other)
  }

  ghost function Next(edges: seq<Edge>): string -> set<string> {
    (node: string) => Neighbours(edges, node)
  }

  /** The node is at most `hops` edges from the root. A negative bound is no better than zero. */
  ghost predicate Kept(edges: seq<Edge>, root: string, hops: int, node: string) {
    Near(Next(edges), {root}, if hops < 0 then 0 else hops, node)
  }

  ghost function KeptNodes(g: Graph, root: string, hops: int, nodes: seq<string>): seq<string> {
    if nodes == [] then []
    else if Kept(g.edges, root, hops, nodes[0]) then [nodes[0]] + KeptNodes(g, root, hops, nodes[1..])
    else KeptNodes(g, root, hops, nodes[1..])
  }

  ghost function KeptEdges(g: Graph, root: string, hops: int, edges: seq<Edge>): seq<Edge> {
    if edges == [] then []
    else if Kept(g.edges, root, hops, edges[0].from) && Kept(g.edges, root, hops, edges[0].to) then
      [edges[0]] + KeptEdges(g, root, hops, edges[1..])
    else KeptEdges(g, root, hops, edges[1..])
  }

  ghost function Bounded(g: Graph, root: string, hops: int): Graph {
    Graph(KeptNodes(g, root, hops, g.nodes), KeptEdges(g, root, hops, g.edges))
  }

  // ---------------------------------------------------------------- the source's loops

  function Lookup(neighbours: map<string, set<string>>, node: string): set<string> {
    if node in neighbours then neighbours[node] else {}
  }

  ghost predicate Maps(neighbours: map<string, set<string>>, edges: seq<Edge>) {
    forall node: string :: Lookup(neighbours, node) == Neighbours(edges, node)
  }

  /** Every node's neighbours, drawn from both ends of every edge. */
  method NeighbourMap(edges: seq<Edge>) returns (neighbours: map<string, set<string>>)
    ensures Maps(neighbours, edges)
  {
    neighbours := map[];
    for i := 0 to |edges|
      invariant Maps(neighbours, edges[..i])
    {
      var from, to := edges[i].from, edges[i].to;
      ghost var before := neighbours;
      neighbours := neighbours[from := Lookup(neighbours, from) + {to}];
      neighbours := neighbours[to := Lookup(neighbours, to) + {from}];
      forall node: string
        ensures Lookup(neighbours, node) == Neighbours(edges[..i + 1], node)
      {
        assert edges[..i + 1][..i] == edges[..i];
        assert Lookup(before, node) == Neighbours(edges[..i], node);
        assert Lookup(neighbours, node) == Lookup(before, node) + Beyond(edges[i], node);
      }
    }
    assert edges[..|edges|] == edges;
  }

  /** `dist` gives every node met so far a distance at which it is reached. */
  ghost predicate Met(edges: seq<Edge>, root: string, hops: int, dist: map<string, nat>) {
    && root in dist && dist[root] == 0
    && forall node <- dist :: Near(Next(edges), {root}, dist[node], node) && (dist[node] == 0 || dist[node] <= hops)
  }

  /** The node's neighbours have been met, one step further at most. */
  ghost predicate Expanded(edges: seq<Edge>, dist: map<string, nat>, node: string)
    requires node in dist
  {
    forall other <- Neighbours(edges, node) :: other in dist && dist[other] <= dist[node] + 1
  }

  /** The queue holds met nodes by increasing distance, and nothing met is more than a step beyond. */
  ghost predicate Queued(dist: map<string, nat>, frontier: seq<(string, int)>) {
    && (forall stop <- frontier :: stop.0 in dist && dist[stop.0] == stop.1)
    && (forall i, j :: 0 <= i <= j < |frontier| ==> frontier[i].1 <= frontier[j].1)
    && (forall stop <- frontier, node <- dist :: dist[node] <= stop.1 + 1)
  }

  ghost predicate Waiting(frontier: seq<(string, int)>, node: string) {
    exists stop <- frontier :: stop.0 == node
  }

  /** Everything met has been expanded, waits in the queue, or lies at the bound. */
  ghost predicate Progress(edges: seq<Edge>, hops: int, dist: map<string, nat>, frontier: seq<(string, int)>) {
    forall node <- dist :: Waiting(frontier, node) || dist[node] >= hops || Expanded(edges, dist, node)
  }

  /** Every node of the graph, and the root. */
  function Universe(edges: seq<Edge>, root: string): set<string> {
    {root} + (set edge <- edges :: edge.from) + (set edge <- edges :: edge.to)
  }

  /** The state while a node at `depth` is being expanded: everything but the node is in order. */
  ghost predicate Expanding(edges: seq<Edge>, root: string, hops: int, node: string, depth: int, reachable: set<string>,
                            frontier: seq<(string, int)>, dist: map<string, nat>) {
    && Met(edges, root, hops, dist) && dist.Keys == reachable && reachable <= Universe(edges, root)
    && node in dist && dist[node] == depth < hops
    && (forall other <- dist :: dist[other] <= depth + 1)
    && (forall stop <- frontier :: depth <= stop.1 && stop.0 in dist && dist[stop.0] == stop.1)
    && (forall i, j :: 0 <= i <= j < |frontier| ==> frontier[i].1 <= frontier[j].1)
    && (forall other <- dist :: other == node || Waiting(frontier, other) || dist[other] >= hops || Expanded(edges, dist, other))
  }

  lemma NeighbourIsInUniverse(edges: seq<Edge>, root: string, node: string, other: string)
    requires other in Neighbours(edges, node)
    ensures other in Universe(edges, root)
  {
    NeighboursAreJoined(edges, node, other);
  }

  lemma NewlyMet(edges: seq<Edge>, root: string, hops: int, node: string, depth: nat, other: string, dist: map<string, nat>)
    requires Met(edges, root, hops, dist) && node in dist && dist[node] == depth < hops
    requires other in Neighbours(edges, node) && other !in dist
    ensures Met(edges, root, hops, dist[other := depth + 1])
  {
    assert other in Next(edges)(node);
    assert Near(Next(edges), {root}, depth + 1, other);
  }

  lemma StillExpanded(edges: seq<Edge>, dist: map<string, nat>, grown: map<string, nat>, node: string)
    requires node in dist && Expanded(edges, dist, node)
    requires forall met <- dist :: met in grown && grown[met] == dist[met]
    ensures Expanded(edges, grown, node)
  {
  }

  lemma NeighbourIsMet(edges: seq<Edge>, root: string, hops: int, node: string, depth: int, other: string,
                       reachable: set<string>, frontier: seq<(string, int)>, dist: map<string, nat>)
    requires Expanding(edges, root, hops, node, depth, reachable, frontier, dist)
    requires other in Neighbours(edges, node) && other !in reachable
    ensures Expanding(edges, root, hops, node, depth, reachable + {other}, frontier + [(other, depth + 1)], dist[other := depth + 1])
  {
    NeighbourIsInUniverse(edges, root, node, other);
    NewlyMet(edges, root, hops, node, depth, other, dist);
    AllArePlaced(edges, hops, node, depth, other, frontier, dist, frontier + [(other, depth + 1)], dist[other := depth + 1]);
    QueueStaysOrdered(depth, frontier, other);
  }

  lemma QueueStaysOrdered(depth: int, frontier: seq<(string, int)>, other: string)
    requires forall i, j :: 0 <= i <= j < |frontier| ==> frontier[i].1 <= frontier[j].1
    requires forall stop <- frontier :: stop.1 <= depth + 1
    ensures var queue := frontier + [(other, depth + 1)]; forall i, j :: 0 <= i <= j < |queue| ==> queue[i].1 <= queue[j].1
  {
  }

  /** Everything met but the node itself has its place in the search. */
  ghost predicate Placed(edges: seq<Edge>, hops: int, node: string, frontier: seq<(string, int)>, dist: map<string, nat>, met: string) {
    met in dist && (met == node || Waiting(frontier, met) || dist[met] >= hops || Expanded(edges, dist, met))
  }

  lemma AllArePlaced(edges: seq<Edge>, hops: int, node: string, depth: int, other: string, frontier: seq<(string, int)>,
                     dist: map<string, nat>, queue: seq<(string, int)>, grown: map<string, nat>)
    requires depth >= 0 && other !in dist && queue == frontier + [(other, depth + 1)] && grown == dist[other := depth + 1]
    requires forall met <- dist :: met == node || Waiting(frontier, met) || dist[met] >= hops || Expanded(edges, dist, met)
    ensures forall met <- grown :: met == node || Waiting(queue, met) || grown[met] >= hops || Expanded(edges, grown, met)
  {
    forall met | met in grown
      ensures Placed(edges, hops, node, queue, grown, met)
    {
      MetIsPlaced(edges, hops, node, depth, other, frontier, dist, queue, grown, met);
    }
  }

  lemma MetIsPlaced(edges: seq<Edge>, hops: int, node: string, depth: int, other: string, frontier: seq<(string, int)>,
                    dist: map<string, nat>, queue: seq<(string, int)>, grown: map<string, nat>, met: string)
    requires depth >= 0 && other !in dist && queue == frontier + [(other, depth + 1)] && grown == dist[other := depth + 1]
    requires met == other || Placed(edges, hops, node, frontier, dist, met)
    ensures Placed(edges, hops, node, queue, grown, met)
  {
    if met == other {
      assert queue[|frontier|] in queue && queue[|frontier|].0 == other;
    } else if Waiting(frontier, met) {
      var stop :| stop in frontier && stop.0 == met;
      assert stop in queue;
    } else if met != node && dist[met] < hops {
      StillExpanded(edges, dist, grown, met);
    }
  }

  /** Meets the neighbours of a node that were not met before. The order is immaterial. */
  method Expand(edges: seq<Edge>, root: string, hops: int, node: string, depth: int, others: set<string>,
                met: set<string>, waiting: seq<(string, int)>, ghost before: map<string, nat>)
    returns (reachable: set<string>, frontier: seq<(string, int)>, ghost dist: map<string, nat>)
    requires Expanding(edges, root, hops, node, depth, met, waiting, before) && others == Neighbours(edges, node)
    ensures Expanding(edges, root, hops, node, depth, reachable, frontier, dist) && Expanded(edges, dist, node)
    ensures met < reachable || (reachable == met && frontier == waiting)
  {
    reachable, frontier, dist := met, waiting, before;
    var todo := others;
    while todo != {}
      invariant todo <= others <= todo + reachable
      invariant Expanding(edges, root, hops, node, depth, reachable, frontier, dist)
      invariant met < reachable || (reachable == met && frontier == waiting)
      decreases todo
    {
      var other :| other in todo;
      todo := todo - {other};
      if other !in reachable {
        NeighbourIsMet(edges, root, hops, node, depth, other, reachable, frontier, dist);
        reachable := reachable + {other};
        frontier := frontier + [(other, depth + 1)];
        dist := dist[other := depth + 1];
      }
    }
  }

  /** The state between two turns of the outer loop. */
  ghost predicate Searching(edges: seq<Edge>, root: string, hops: int, reachable: set<string>, frontier: seq<(string, int)>, dist: map<string, nat>) {
    && dist.Keys == reachable && reachable <= Universe(edges, root)
    && Met(edges, root, hops, dist) && Queued(dist, frontier) && Progress(edges, hops, dist, frontier)
  }

  /** The nodes within the bound of the root. */
  method NodesWithin(edges: seq<Edge>, root: string, hops: int) returns (reachable: set<string>)
    ensures forall node: string :: node in reachable <==> Kept(edges, root, hops, node)
  {
    var neighbours := NeighbourMap(edges);
    reachable := {root};
    var frontier := [(root, 0)];
    ghost var dist: map<string, nat> := map[root := 0];
    Start(edges, root, hops);
    while frontier != []
      invariant Searching(edges, root, hops, reachable, frontier, dist)
      decreases Universe(edges, root) - reachable, |frontier|
    {
      var node, depth := frontier[0].0, frontier[0].1;
      if depth >= hops {
        Passed(edges, hops, dist, frontier);
        frontier := frontier[1..];
      } else {
        Begin(edges, root, hops, dist, frontier);
        ghost var met := reachable;
        reachable, frontier, dist := Expand(edges, root, hops, node, depth, Lookup(neighbours, node), reachable, frontier[1..], dist);
        Done(edges, root, hops, node, depth, reachable, frontier, dist);
        if met < reachable {
          Smaller(Universe(edges, root), met, reachable);
        }
      }
    }
    forall node: string
      ensures node in reachable <==> Kept(edges, root, hops, node)
    {
      MetIsKept(edges, root, hops, dist, node);
    }
  }

  lemma Start(edges: seq<Edge>, root: string, hops: int)
    ensures Searching(edges, root, hops, {root}, [(root, 0)], map[root := 0])
  {
    assert [(root, 0)][0] in [(root, 0)];
  }

  /** A node at the bound needs no expanding. */
  lemma Passed(edges: seq<Edge>, hops: int, dist: map<string, nat>, frontier: seq<(string, int)>)
    requires frontier != [] && Queued(dist, frontier) && Progress(edges, hops, dist, frontier) && frontier[0].1 >= hops
    ensures Queued(dist, frontier[1..]) && Progress(edges, hops, dist, frontier[1..])
  {
    assert frontier[0] in frontier;
    forall node | node in dist
      ensures Waiting(frontier[1..], node) || dist[node] >= hops || Expanded(edges, dist, node)
    {
      OtherStillWaits(frontier, node);
    }
  }

  lemma OtherStillWaits(frontier: seq<(string, int)>, node: string)
    requires frontier != []
    ensures Waiting(frontier, node) ==> Waiting(frontier[1..], node) || node == frontier[0].0
  {
    if stop :| stop in frontier && stop.0 == node {
      assert stop == frontier[0] || stop in frontier[1..];
    }
  }

  lemma Done(edges: seq<Edge>, root: string, hops: int, node: string, depth: int, reachable: set<string>,
             frontier: seq<(string, int)>, dist: map<string, nat>)
    requires Expanding(edges, root, hops, node, depth, reachable, frontier, dist) && Expanded(edges, dist, node)
    ensures Searching(edges, root, hops, reachable, frontier, dist)
  {
  }

  lemma Smaller(all: set<string>, met: set<string>, reachable: set<string>)
    requires met < reachable <= all
    ensures all - reachable < all - met
  {
    var x :| x in reachable && x !in met;
    assert x in all - met && x !in all - reachable;
  }

  lemma Begin(edges: seq<Edge>, root: string, hops: int, dist: map<string, nat>, frontier: seq<(string, int)>)
    requires Met(edges, root, hops, dist) && frontier != [] && Queued(dist, frontier) && Progress(edges, hops, dist, frontier)
    requires frontier[0].1 < hops && dist.Keys <= Universe(edges, root)
    ensures Expanding(edges, root, hops, frontier[0].0, frontier[0].1, dist.Keys, frontier[1..], dist)
  {
    assert frontier[0] in frontier;
    forall stop | stop in frontier[1..]
      ensures frontier[0].1 <= stop.1
    {
      var i :| 0 <= i < |frontier[1..]| && frontier[1..][i] == stop;
      assert frontier[i + 1] == stop;
    }
    forall node | node in dist
      ensures node == frontier[0].0 || Waiting(frontier[1..], node) || dist[node] >= hops || Expanded(edges, dist, node)
    {
    }
  }

  /** Once the queue is empty, a node near the root has been met no further out than it is. */
  lemma {:induction false} NearIsMet(edges: seq<Edge>, next: string -> set<string>, root: string, hops: int, dist: map<string, nat>, n: nat, node: string)
    requires next == Next(edges) && Met(edges, root, hops, dist) && Progress(edges, hops, dist, [])
    requires Near(next, {root}, n, node) && (n == 0 || n <= hops)
    ensures node in dist && dist[node] <= n
    decreases n
  {
    if n > 0 {
      if Near(next, {root}, n - 1, node) {
        NearIsMet(edges, next, root, hops, dist, n - 1, node);
      } else {
        var from := LastStep(next, {root}, n, node);
        NearIsMet(edges, next, root, hops, dist, n - 1, from);
      }
    }
  }

  lemma MetIsKept(edges: seq<Edge>, root: string, hops: int, dist: map<string, nat>, node: string)
    requires Met(edges, root, hops, dist) && Progress(edges, hops, dist, [])
    ensures node in dist <==> Kept(edges, root, hops, node)
  {
    var n := if hops < 0 then 0 else hops;
    if node in dist {
      NearIsMonotone(Next(edges), {root}, dist[node], n, node);
    }
    if Kept(edges, root, hops, node) {
      NearIsMet(edges, Next(edges), root, hops, dist, n, node);
    }
  }

  /** `_bounded`. */
  method BoundGraph(g: Graph, root: Option<string>, maxHops: Option<int>) returns (bounded: Graph, notice: Notice)
    ensures maxHops.None? || root.None? ==> bounded == g
    ensures maxHops.Some? && root.Some? ==> bounded == Bounded(g, root.value, maxHops.value)
    ensures notice == NoticeOf(g, bounded, root, maxHops)
  {
    if maxHops.None? {
      return g, NoNotice;
    }
    if root.None? {
      return g, MaxHopsNotApplicable;
    }
    var reachable := NodesWithin(g.edges, root.value, maxHops.value);
    var nodes: seq<string> := [];
    for i := 0 to |g.nodes|
      invariant nodes + KeptNodes(g, root.value, maxHops.value, g.nodes[i..]) == KeptNodes(g, root.value, maxHops.value, g.nodes)
    {
      if g.nodes[i] in reachable {
        nodes := nodes + [g.nodes[i]];
      }
    }
    var edges: seq<Edge> := [];
    for i := 0 to |g.edges|
      invariant edges + KeptEdges(g, root.value, maxHops.value, g.edges[i..]) == KeptEdges(g, root.value, maxHops.value, g.edges)
    {
      if g.edges[i].from in reachable && g.edges[i].to in reachable {
        edges := edges + [g.edges[i]];
      }
    }
    bounded := Graph(nodes, edges);
    var dropped := |g.nodes| - |nodes|;
    notice := if dropped != 0 then ProjectionBounded(dropped, |g.edges| - |edges|) else NoNotice;
  }

  /** What the caller is told: that the bound did not apply, or how much it hid. */
  function NoticeOf(g: Graph, bounded: Graph, root: Option<string>, maxHops: Option<int>): Notice {
    if maxHops.None? then NoNotice
    else if root.None? then MaxHopsNotApplicable
    else if |g.nodes| == |bounded.nodes| then NoNotice
    else ProjectionBounded(|g.nodes| - |bounded.nodes|, |g.edges| - |bounded.edges|)
  }
}
