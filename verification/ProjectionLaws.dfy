/** What a hop bound keeps of a graph. */
module ProjectionLaws {
  import opened Prelude
  import opened Reach
  import opened Projection

  // ---------------------------------------------------------------- exactly the near part

  /** A walk along edges, either way each, from one node to another. */
  ghost predicate Route(edges: seq<Edge>, path: seq<string>, from: string, to: string) {
    && path != [] && path[0] == from && path[|path| - 1] == to
    && forall i :: 0 < i < |path| ==> Adjacent(edges, path[i - 1], path[i])
  }

  lemma RouteIsPath(edges: seq<Edge>, path: seq<string>, root: string, node: string)
    ensures Route(edges, path, root, node) <==> IsPath(Next(edges), {root}, path) && path[|path| - 1] == node
  {
    forall i | 0 < i < |path|
      ensures path[i] in Next(edges)(path[i - 1]) <==> Adjacent(edges, path[i - 1], path[i])
    {
      NeighboursAreJoined(edges, path[i - 1], path[i]);
    }
  }

  /** A node is kept exactly when a route of at most `hops` edges leads to it from the root. */
  lemma KeptIffShortRoute(edges: seq<Edge>, root: string, hops: nat, node: string)
    ensures Kept(edges, root, hops, node) <==> exists path :: Route(edges, path, root, node) && |path| <= hops + 1
  {
    NearIffShortPath(Next(edges), {root}, hops, node);
    if Kept(edges, root, hops, node) {
      var path :| IsPath(Next(edges), {root}, path) && |path| <= hops + 1 && path[|path| - 1] == node;
      RouteIsPath(edges, path, root, node);
    }
    if path :| Route(edges, path, root, node) && |path| <= hops + 1 {
      RouteIsPath(edges, path, root, node);
    }
  }

  /** Kept nodes are the graph's own, in order; kept edges are those between kept nodes. */
  lemma {:induction false} KeepsTheNearNodes(g: Graph, root: string, hops: int, nodes: seq<string>, node: string)
    ensures multiset(KeptNodes(g, root, hops, nodes))[node] == if Kept(g.edges, root, hops, node) then multiset(nodes)[node] else 0
    decreases |nodes|
  {
    if nodes != [] {
      KeepsTheNearNodes(g, root, hops, nodes[1..], node);
      assert nodes == [nodes[0]] + nodes[1..];
    }
  }

  lemma {:induction false} KeepsTheNearEdges(g: Graph, root: string, hops: int, edges: seq<Edge>, edge: Edge)
    ensures multiset(KeptEdges(g, root, hops, edges))[edge]
         == if Kept(g.edges, root, hops, edge.from) && Kept(g.edges, root, hops, edge.to) then multiset(edges)[edge] else 0
    decreases |edges|
  {
    if edges != [] {
      KeepsTheNearEdges(g, root, hops, edges[1..], edge);
      assert edges == [edges[0]] + edges[1..];
    }
  }

  /** The bounded graph has exactly the nodes within the bound and the edges with both ends there,
      each as often as the graph does. */
  lemma BoundedIsTheNearPart(g: Graph, root: string, hops: int, node: string, edge: Edge)
    ensures multiset(Bounded(g, root, hops).nodes)[node] == if Kept(g.edges, root, hops, node) then multiset(g.nodes)[node] else 0
    ensures multiset(Bounded(g, root, hops).edges)[edge]
         == if Kept(g.edges, root, hops, edge.from) && Kept(g.edges, root, hops, edge.to) then multiset(g.edges)[edge] else 0
  {
    KeepsTheNearNodes(g, root, hops, g.nodes, node);
    KeepsTheNearEdges(g, root, hops, g.edges, edge);
  }

  // ---------------------------------------------------------------- the direction of an edge is immaterial

  /** The same edges, some drawn the other way. */
  ghost predicate Redrawn(edges: seq<Edge>, other: seq<Edge>) {
    && |edges| == |other|
    && forall i :: 0 <= i < |edges| ==> other[i] == edges[i] || other[i] == Edge(edges[i].to, edges[i].from)
  }

  lemma {:induction false} RedrawnNeighbours(edges: seq<Edge>, other: seq<Edge>, node: string)
    requires Redrawn(edges, other)
    ensures Neighbours(edges, node) == Neighbours(other, node)
  {
    if edges != [] {
      var n := |edges| - 1;
      RedrawnNeighbours(edges[..n], other[..n], node);
      assert Beyond(edges[n], node) == Beyond(other[n], node);
    }
  }

  lemma {:induction false} RedrawnNear(edges: seq<Edge>, other: seq<Edge>, root: string, n: nat, node: string)
    requires Redrawn(edges, other)
    ensures Near(Next(edges), {root}, n, node) <==> Near(Next(other), {root}, n, node)
    decreases n
  {
    if n > 0 {
      RedrawnNear(edges, other, root, n - 1, node);
      forall from: string
        ensures Near(Next(edges), {root}, n - 1, from) && node in Next(edges)(from)
           <==> Near(Next(other), {root}, n - 1, from) && node in Next(other)(from)
      {
        RedrawnNear(edges, other, root, n - 1, from);
        RedrawnNeighbours(edges, other, from);
      }
    }
  }

  /** A hop is a hop however the edge is drawn. */
  lemma RedrawingKeepsTheSameNodes(g: Graph, other: seq<Edge>, root: string, hops: int, nodes: seq<string>)
    requires Redrawn(g.edges, other)
    ensures KeptNodes(g, root, hops, nodes) == KeptNodes(Graph(g.nodes, other), root, hops, nodes)
    decreases |nodes|
  {
    if nodes != [] {
      RedrawnNear(g.edges, other, root, if hops < 0 then 0 else hops, nodes[0]);
      RedrawingKeepsTheSameNodes(g, other, root, hops, nodes[1..]);
    }
  }

  // ---------------------------------------------------------------- bounding again

  lemma KeptIsMonotone(edges: seq<Edge>, root: string, hops: int, more: int, node: string)
    requires hops <= more && Kept(edges, root, hops, node)
    ensures Kept(edges, root, more, node)
  {
    NearIsMonotone(Next(edges), {root}, if hops < 0 then 0 else hops, if more < 0 then 0 else more, node);
  }

  lemma {:induction false} KeptEdgesAreThere(g: Graph, root: string, hops: int, edges: seq<Edge>, edge: Edge)
    ensures edge in KeptEdges(g, root, hops, edges)
       <==> edge in edges && Kept(g.edges, root, hops, edge.from) && Kept(g.edges, root, hops, edge.to)
    decreases |edges|
  {
    if edges != [] {
      KeptEdgesAreThere(g, root, hops, edges[1..], edge);
      assert edges == [edges[0]] + edges[1..];
    }
  }

  lemma SurvivingNeighbour(g: Graph, root: string, hops: int, node: string, other: string)
    ensures other in Neighbours(Bounded(g, root, hops).edges, node)
       <==> other in Neighbours(g.edges, node) && Kept(g.edges, root, hops, node) && Kept(g.edges, root, hops, other)
  {
    var kept := Bounded(g, root, hops).edges;
    NeighboursAreJoined(g.edges, node, other);
    NeighboursAreJoined(kept, node, other);
    forall edge: Edge
      ensures edge in kept <==> edge in g.edges && Kept(g.edges, root, hops, edge.from) && Kept(g.edges, root, hops, edge.to)
    {
      KeptEdgesAreThere(g, root, hops, g.edges, edge);
    }
  }

  lemma {:induction false} BoundingAddsNoRoute(g: Graph, inner: string -> set<string>, root: string, hops: int, n: nat, node: string)
    requires inner == Next(Bounded(g, root, hops).edges) && Near(inner, {root}, n, node)
    ensures Near(Next(g.edges), {root}, n, node)
    decreases n
  {
    if n > 0 {
      if Near(inner, {root}, n - 1, node) {
        BoundingAddsNoRoute(g, inner, root, hops, n - 1, node);
      } else {
        var from := LastStep(inner, {root}, n, node);
        BoundingAddsNoRoute(g, inner, root, hops, n - 1, from);
        SurvivingNeighbour(g, root, hops, from, node);
        assert node in Next(g.edges)(from);
      }
    }
  }

  lemma {:induction false} BoundingCutsNoShortRoute(g: Graph, outer: string -> set<string>, root: string, hops: int, n: nat, node: string)
    requires outer == Next(g.edges) && Near(outer, {root}, n, node) && n <= (if hops < 0 then 0 else hops)
    ensures Near(Next(Bounded(g, root, hops).edges), {root}, n, node)
    decreases n
  {
    if n > 0 {
      if Near(outer, {root}, n - 1, node) {
        BoundingCutsNoShortRoute(g, outer, root, hops, n - 1, node);
      } else {
        var from := LastStep(outer, {root}, n, node);
        BoundingCutsNoShortRoute(g, outer, root, hops, n - 1, from);
        NearIsMonotone(outer, {root}, n - 1, hops, from);
        NearIsMonotone(outer, {root}, n, hops, node);
        SurvivingNeighbour(g, root, hops, from, node);
        assert node in Next(Bounded(g, root, hops).edges)(from);
      }
    }
  }

  /** Distances up to the bound survive the bounding: shortest routes stay inside it. */
  lemma BoundingKeepsDistances(g: Graph, root: string, hops: int, n: nat, node: string)
    requires n <= (if hops < 0 then 0 else hops)
    ensures Near(Next(Bounded(g, root, hops).edges), {root}, n, node) <==> Near(Next(g.edges), {root}, n, node)
  {
    if Near(Next(g.edges), {root}, n, node) {
      BoundingCutsNoShortRoute(g, Next(g.edges), root, hops, n, node);
    } else if Near(Next(Bounded(g, root, hops).edges), {root}, n, node) {
      BoundingAddsNoRoute(g, Next(Bounded(g, root, hops).edges), root, hops, n, node);
    }
  }

  lemma KeptAgain(g: Graph, root: string, hops: int, fewer: int, node: string)
    requires fewer <= hops
    ensures Kept(Bounded(g, root, hops).edges, root, fewer, node) <==> Kept(g.edges, root, fewer, node)
  {
    BoundingKeepsDistances(g, root, hops, if fewer < 0 then 0 else fewer, node);
  }

  lemma {:induction false} NodesKeptAgain(g: Graph, root: string, hops: int, fewer: int, nodes: seq<string>)
    requires fewer <= hops
    ensures KeptNodes(Bounded(g, root, hops), root, fewer, KeptNodes(g, root, hops, nodes)) == KeptNodes(g, root, fewer, nodes)
    decreases |nodes|
  {
    if nodes != [] {
      NodesKeptAgain(g, root, hops, fewer, nodes[1..]);
      KeptAgain(g, root, hops, fewer, nodes[0]);
      if Kept(g.edges, root, fewer, nodes[0]) {
        KeptIsMonotone(g.edges, root, fewer, hops, nodes[0]);
      }
    }
  }

  lemma {:induction false} EdgesKeptAgain(g: Graph, root: string, hops: int, fewer: int, edges: seq<Edge>)
    requires fewer <= hops
    ensures KeptEdges(Bounded(g, root, hops), root, fewer, KeptEdges(g, root, hops, edges)) == KeptEdges(g, root, fewer, edges)
    decreases |edges|
  {
    if edges != [] {
      EdgesKeptAgain(g, root, hops, fewer, edges[1..]);
      KeptAgain(g, root, hops, fewer, edges[0].from);
      KeptAgain(g, root, hops, fewer, edges[0].to);
      if Kept(g.edges, root, fewer, edges[0].from) && Kept(g.edges, root, fewer, edges[0].to) {
        KeptIsMonotone(g.edges, root, fewer, hops, edges[0].from);
        KeptIsMonotone(g.edges, root, fewer, hops, edges[0].to);
      }
    }
  }

  /** What a tighter bound shows is part of what a looser one shows: bounding the looser projection
      again gives the tighter one, so the kept graph only grows with the bound, and bounding twice
      is bounding once. */
  lemma TighterIsWithinLooser(g: Graph, root: string, hops: int, fewer: int)
    requires fewer <= hops
    ensures Bounded(Bounded(g, root, hops), root, fewer) == Bounded(g, root, fewer)
  {
    NodesKeptAgain(g, root, hops, fewer, g.nodes);
    EdgesKeptAgain(g, root, hops, fewer, g.edges);
  }
}
