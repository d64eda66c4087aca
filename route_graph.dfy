/** The undirected weighted route graph shared by the network builder, the
    sensor update and the allocator: nodes are areas ("A<id>") and centers
    ("C<id>"); each edge carries a status token and a travel-time weight. */
module RouteGraph {
  import opened Entities

  /** `AreaNode(i)` is the node named "A<i>", `CenterNode(i)` the node "C<i>". */
  datatype Node = AreaNode(id: int) | CenterNode(id: int)

  /** An undirected edge is identified by the set of its two end points
      (a single point for a self-loop), so `Key(u, v) == Key(v, u)`. */
  function Key(u: Node, v: Node): set<Node>
  {
    {u, v}
  }

  /** The attributes the core reads and writes on an edge. */
  datatype Edge = Edge(status: string, weight: real)

  type EdgeMap = map<set<Node>, Edge>

  /** An undirected graph whose node set and edge attributes are updated in
      place, as the network library's graph object is. */
  class Graph {
    var nodes: set<Node>
    var edges: EdgeMap

    /** Every edge joins nodes of the graph. */
    ghost predicate Valid()
      reads this
    {
      forall k :: k in edges ==> k <= nodes
    }

    constructor ()
      ensures Valid()
      ensures nodes == {} && edges == map[]
    {
      nodes := {};
      edges := map[];
    }

    function HasEdge(u: Node, v: Node): bool
      reads this
    {
      Key(u, v) in edges
    }

    /** Adding a node that is already present changes nothing. */
    method AddNode(n: Node)
      requires Valid()
      modifies this
      ensures Valid()
      ensures nodes == old(nodes) + {n} && edges == old(edges)
    {
      nodes := nodes + {n};
    }

    /** Adds the edge (and its end points) or overwrites the attributes of an
        existing edge between the same two nodes. */
    method AddEdge(u: Node, v: Node, e: Edge)
      requires Valid()
      modifies this
      ensures Valid()
      ensures nodes == old(nodes) + {u, v}
      ensures edges == old(edges)[Key(u, v) := e]
    {
      nodes := nodes + {u, v};
      edges := edges[Key(u, v) := e];
    }

    method RemoveEdge(u: Node, v: Node)
      requires Valid() && Key(u, v) in edges
      modifies this
      ensures Valid()
      ensures nodes == old(nodes)
      ensures edges == old(edges) - {Key(u, v)}
    {
      edges := edges - {Key(u, v)};
    }

    /** Overwrites the status attribute of an existing edge. */
    method SetStatus(u: Node, v: Node, status: string)
      requires Valid() && Key(u, v) in edges
      modifies this
      ensures Valid()
      ensures nodes == old(nodes)
      ensures edges == old(edges)[Key(u, v) := old(edges)[Key(u, v)].(status := status)]
    {
      edges := edges[Key(u, v) := edges[Key(u, v)].(status := status)];
    }

    /** Overwrites the weight attribute of an existing edge. */
    method SetWeight(u: Node, v: Node, weight: real)
      requires Valid() && Key(u, v) in edges
      modifies this
      ensures Valid()
      ensures nodes == old(nodes)
      ensures edges == old(edges)[Key(u, v) := old(edges)[Key(u, v)].(weight := weight)]
    {
      edges := edges[Key(u, v) := edges[Key(u, v)].(weight := weight)];
    }
  }

  /** Consecutive nodes of `p` are joined by edges. */
  predicate Walk(edges: EdgeMap, p: seq<Node>)
  {
    forall i :: 0 <= i < |p| - 1 ==> Key(p[i], p[i + 1]) in edges
  }

  ghost predicate IsPath(edges: EdgeMap, p: seq<Node>, u: Node, v: Node)
  {
    |p| > 0 && p[0] == u && p[|p| - 1] == v && Walk(edges, p)
  }

  /** Sum of the edge weights along a walk. */
  function PathCost(edges: EdgeMap, p: seq<Node>): real
    requires Walk(edges, p)
    decreases |p|
  {
    if |p| <= 1 then 0.0
    else
      assert Walk(edges, p[1..]) by {
        forall i | 0 <= i < |p[1..]| - 1 ensures Key(p[1..][i], p[1..][i + 1]) in edges {
          assert p[1..][i] == p[i + 1] && p[1..][i + 1] == p[i + 2];
        }
      }
      edges[Key(p[0], p[1])].weight + PathCost(edges, p[1..])
  }

  /** Every answer of the shortest-path query is a path between the two
      nodes it was asked about. */
  ghost predicate AnswersArePaths(edges: EdgeMap, sp: (Node, Node) -> Option<seq<Node>>)
  {
    forall u, v :: sp(u, v).Some? ==> IsPath(edges, sp(u, v).value, u, v)
  }

  ghost predicate Unreachable(edges: EdgeMap, u: Node, v: Node)
  {
    forall q :: !IsPath(edges, q, u, v)
  }

  ghost predicate IsShortestPath(edges: EdgeMap, p: seq<Node>, u: Node, v: Node)
  {
    IsPath(edges, p, u, v) &&
    forall q :: IsPath(edges, q, u, v) ==> PathCost(edges, p) <= PathCost(edges, q)
  }

  /** What the allocator relies on from the network library's weighted
      shortest-path query: no answer exactly when the target cannot be
      reached, otherwise a path of least total weight (which one, among
      several of equal weight, is left open). */
  ghost predicate ShortestPathOracle(edges: EdgeMap, sp: (Node, Node) -> Option<seq<Node>>)
  {
    forall u, v ::
      (sp(u, v).None? ==> Unreachable(edges, u, v)) &&
      (sp(u, v).Some? ==> IsShortestPath(edges, sp(u, v).value, u, v))
  }
}
