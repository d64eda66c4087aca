/** Construction of the route graph from the three tables: one node per area
    and per center, one edge per route that is not blocked, and connector
    edges from every center to the first three areas of the areas table. */
module RouteNetwork {
  import opened Entities
  import opened RouteGraph

  predicate IsOpen(r: Route)
  {
    r.status != Bloqueada
  }

  function RouteKey(r: Route): set<Node>
  {
    Key(AreaNode(r.origin), AreaNode(r.dest))
  }

  /** Travel time of an open route: its base time, doubled while the route
      is partially blocked. */
  function RouteWeight(r: Route): real
  {
    r.baseTime as real * (if r.status == Parcial then 2.0 else 1.0)
  }

  function RouteEdge(r: Route): Edge
  {
    Edge(r.status, RouteWeight(r))
  }

  /** The route edges after the route rows have been added in table order; a
      later row between the same two areas overwrites an earlier one. */
  function RouteEdges(routes: seq<Route>): EdgeMap
    decreases |routes|
  {
    if routes == [] then map[]
    else
      var m := RouteEdges(routes[..|routes| - 1]);
      var r := routes[|routes| - 1];
      if IsOpen(r) then m[RouteKey(r) := RouteEdge(r)] else m
  }

  /** Index of the last open row of the table between the areas of `k`,
      or -1 when there is none. */
  function LastOpenRow(routes: seq<Route>, k: set<Node>): (j: int)
    ensures -1 <= j < |routes|
    ensures j >= 0 ==> IsOpen(routes[j]) && RouteKey(routes[j]) == k
    ensures forall i :: j < i < |routes| && IsOpen(routes[i]) ==> RouteKey(routes[i]) != k
    decreases |routes|
  {
    if routes == [] then -1
    else
      var n := |routes| - 1;
      if IsOpen(routes[n]) && RouteKey(routes[n]) == k then n
      else
        var j := LastOpenRow(routes[..n], k);
        assert forall i :: 0 <= i < n ==> routes[..n][i] == routes[i];
        j
  }

  /** An edge exists between two areas exactly when some open row joins
      them, and it carries the status and weight of the last such row. */
  lemma {:induction false} RouteEdgesSpec(routes: seq<Route>, k: set<Node>)
    ensures k in RouteEdges(routes) <==> LastOpenRow(routes, k) >= 0
    ensures k in RouteEdges(routes) ==> RouteEdges(routes)[k] == RouteEdge(routes[LastOpenRow(routes, k)])
    decreases |routes|
  {
    if routes != [] {
      var n := |routes| - 1;
      RouteEdgesSpec(routes[..n], k);
      if !(IsOpen(routes[n]) && RouteKey(routes[n]) == k) {
        var j := LastOpenRow(routes[..n], k);
        assert j >= 0 ==> routes[..n][j] == routes[j];
      }
    }
  }

  function ConnectorKey(c: Center, a: Area): set<Node>
  {
    Key(CenterNode(c.id), AreaNode(a.id))
  }

  /** A connector edge is always free; its weight is twice the scaled
      distance between the center and the area. */
  function ConnectorEdge(c: Center, a: Area, dist: (Center, Area) -> real): Edge
  {
    Edge(Livre, dist(c, a) * 2.0)
  }

  /** Connects center `c` to each area of `heads`, in order. */
  function Connect(m: EdgeMap, c: Center, heads: seq<Area>, dist: (Center, Area) -> real): EdgeMap
    decreases |heads|
  {
    if heads == [] then m
    else
      var a := heads[|heads| - 1];
      Connect(m, c, heads[..|heads| - 1], dist)[ConnectorKey(c, a) := ConnectorEdge(c, a, dist)]
  }

  /** Connects every center of the table, in order, to each area of `heads`. */
  function AddConnectors(m: EdgeMap, centers: seq<Center>, heads: seq<Area>, dist: (Center, Area) -> real): EdgeMap
    decreases |centers|
  {
    if centers == [] then m
    else Connect(AddConnectors(m, centers[..|centers| - 1], heads, dist), centers[|centers| - 1], heads, dist)
  }

  ghost predicate IsConnector(k: set<Node>, centers: seq<Center>, heads: seq<Area>)
  {
    exists i, j :: 0 <= i < |centers| && 0 <= j < |heads| && k == ConnectorKey(centers[i], heads[j])
  }

  lemma {:induction false} ConnectSpec(m: EdgeMap, c: Center, heads: seq<Area>, dist: (Center, Area) -> real, k: set<Node>)
    ensures k in Connect(m, c, heads, dist) <==>
      k in m || exists j :: 0 <= j < |heads| && k == ConnectorKey(c, heads[j])
    ensures (forall j :: 0 <= j < |heads| ==> k != ConnectorKey(c, heads[j])) && k in m ==>
      Connect(m, c, heads, dist)[k] == m[k]
    ensures (exists j :: 0 <= j < |heads| && k == ConnectorKey(c, heads[j])) ==>
      exists j :: 0 <= j < |heads| && k == ConnectorKey(c, heads[j]) &&
        Connect(m, c, heads, dist)[k] == ConnectorEdge(c, heads[j], dist)
    decreases |heads|
  {
    if heads != [] {
      var n := |heads| - 1;
      ConnectSpec(m, c, heads[..n], dist, k);
      assert forall j :: 0 <= j < n ==> heads[..n][j] == heads[j];
      if k != ConnectorKey(c, heads[n]) {
        if exists j :: 0 <= j < |heads| && k == ConnectorKey(c, heads[j]) {
          var j :| 0 <= j < |heads| && k == ConnectorKey(c, heads[j]);
          assert j < n;
        }
      }
    }
  }

  /** Every center is joined to every area of `heads`: those edges are
      free, and every other edge keeps its attributes. */
  lemma {:induction false} AddConnectorsSpec(m: EdgeMap, centers: seq<Center>, heads: seq<Area>, dist: (Center, Area) -> real, k: set<Node>)
    ensures k in AddConnectors(m, centers, heads, dist) <==> k in m || IsConnector(k, centers, heads)
    ensures !IsConnector(k, centers, heads) && k in m ==> AddConnectors(m, centers, heads, dist)[k] == m[k]
    ensures IsConnector(k, centers, heads) ==>
      exists i, j :: 0 <= i < |centers| && 0 <= j < |heads| && k == ConnectorKey(centers[i], heads[j]) &&
        AddConnectors(m, centers, heads, dist)[k] == ConnectorEdge(centers[i], heads[j], dist)
    decreases |centers|
  {
    if centers != [] {
      var n := |centers| - 1;
      var p := centers[..n];
      var c := centers[n];
      var m' := AddConnectors(m, p, heads, dist);
      AddConnectorsSpec(m, p, heads, dist, k);
      ConnectSpec(m', c, heads, dist, k);
      assert forall i :: 0 <= i < n ==> p[i] == centers[i];
      if exists j :: 0 <= j < |heads| && k == ConnectorKey(c, heads[j]) {
        var j :| 0 <= j < |heads| && k == ConnectorKey(c, heads[j]) &&
          Connect(m', c, heads, dist)[k] == ConnectorEdge(c, heads[j], dist);
        assert k == ConnectorKey(centers[n], heads[j]);
      } else {
        if IsConnector(k, centers, heads) {
          var i, j :| 0 <= i < |centers| && 0 <= j < |heads| && k == ConnectorKey(centers[i], heads[j]);
          assert i < n;
          assert IsConnector(k, p, heads);
        }
        if IsConnector(k, p, heads) {
          var i, j :| 0 <= i < |p| && 0 <= j < |heads| && k == ConnectorKey(p[i], heads[j]) &&
            m'[k] == ConnectorEdge(p[i], heads[j], dist);
          assert k == ConnectorKey(centers[i], heads[j]);
        }
      }
    }
  }

  /** The areas each center is connected to: the first three rows of the
      areas table (fewer if the table is shorter), whatever their distance. */
  function Heads(areas: seq<Area>): (h: seq<Area>)
    ensures |h| == Min(3, |areas|)
    ensures forall j :: 0 <= j < |h| ==> h[j] == areas[j]
  {
    areas[..Min(3, |areas|)]
  }

  /** Edge attributes of the graph built from the three tables. `dist(c, a)`
      is the scaled distance between the center and the area. */
  function NetworkEdges(areas: seq<Area>, routes: seq<Route>, centers: seq<Center>, dist: (Center, Area) -> real): EdgeMap
  {
    AddConnectors(RouteEdges(routes), centers, Heads(areas), dist)
  }

  function AreaNodes(areas: seq<Area>): set<Node>
  {
    set a | a in areas :: AreaNode(a.id)
  }

  function CenterNodes(centers: seq<Center>): set<Node>
  {
    set c | c in centers :: CenterNode(c.id)
  }

  /** End points of the open routes (adding an edge adds its end points). */
  function OpenRouteEnds(routes: seq<Route>): set<Node>
  {
    (set r | r in routes && IsOpen(r) :: AreaNode(r.origin)) +
    (set r | r in routes && IsOpen(r) :: AreaNode(r.dest))
  }

  /** Node set of the graph built from the three tables. */
  function NetworkNodes(areas: seq<Area>, routes: seq<Route>, centers: seq<Center>): set<Node>
  {
    AreaNodes(areas) + CenterNodes(centers) + OpenRouteEnds(routes)
  }

  /** A route key joins two areas, a connector key a center and an area, so
      the connectors never overwrite a route edge. */
  lemma RouteKeyIsNoConnector(r: Route, centers: seq<Center>, heads: seq<Area>)
    ensures !IsConnector(RouteKey(r), centers, heads)
  {
    forall i, j | 0 <= i < |centers| && 0 <= j < |heads|
      ensures RouteKey(r) != ConnectorKey(centers[i], heads[j])
    {
      assert CenterNode(centers[i].id) in ConnectorKey(centers[i], heads[j]);
    }
  }

  /** The open row `i`, when no later open row joins the same two areas, is
      the edge between its areas: same status, base time doubled if and only
      if the row is partially blocked. */
  lemma OpenRouteEdge(areas: seq<Area>, routes: seq<Route>, centers: seq<Center>, dist: (Center, Area) -> real, i: int)
    requires 0 <= i < |routes| && IsOpen(routes[i])
    requires forall j :: i < j < |routes| && IsOpen(routes[j]) ==> RouteKey(routes[j]) != RouteKey(routes[i])
    ensures var k := Key(AreaNode(routes[i].origin), AreaNode(routes[i].dest));
      var edges := NetworkEdges(areas, routes, centers, dist);
      k in edges && edges[k].status == routes[i].status &&
      edges[k].weight == routes[i].baseTime as real * (if routes[i].status == Parcial then 2.0 else 1.0)
  {
    var k := RouteKey(routes[i]);
    RouteEdgesSpec(routes, k);
    RouteKeyIsNoConnector(routes[i], centers, Heads(areas));
    AddConnectorsSpec(RouteEdges(routes), centers, Heads(areas), dist, k);
    assert LastOpenRow(routes, k) == i;
  }

  /** Two areas that no open row joins (for instance because their only row
      is blocked) have no edge between them. */
  lemma BlockedRouteAbsent(areas: seq<Area>, routes: seq<Route>, centers: seq<Center>, dist: (Center, Area) -> real, o: int, d: int)
    requires forall i :: 0 <= i < |routes| && IsOpen(routes[i]) ==> RouteKey(routes[i]) != Key(AreaNode(o), AreaNode(d))
    ensures Key(AreaNode(o), AreaNode(d)) !in NetworkEdges(areas, routes, centers, dist)
  {
    var k := Key(AreaNode(o), AreaNode(d));
    RouteEdgesSpec(routes, k);
    assert LastOpenRow(routes, k) == -1;
    RouteKeyIsNoConnector(Route(o, d, 0, Livre), centers, Heads(areas));
    AddConnectorsSpec(RouteEdges(routes), centers, Heads(areas), dist, k);
  }

  /** The connector key of a center and an area names exactly their ids. */
  lemma ConnectorKeyIds(c: Center, a: Area, cid: int, aid: int)
    ensures Key(CenterNode(cid), AreaNode(aid)) == ConnectorKey(c, a) <==> c.id == cid && a.id == aid
  {
    if Key(CenterNode(cid), AreaNode(aid)) == ConnectorKey(c, a) {
      assert CenterNode(cid) in ConnectorKey(c, a);
      assert AreaNode(aid) in ConnectorKey(c, a);
    }
  }

  /** No route row joins a center. */
  lemma NoRouteToCenter(routes: seq<Route>, cid: int, aid: int)
    ensures LastOpenRow(routes, Key(CenterNode(cid), AreaNode(aid))) == -1
  {
    assert CenterNode(cid) in Key(CenterNode(cid), AreaNode(aid));
    assert forall i :: 0 <= i < |routes| ==> CenterNode(cid) !in RouteKey(routes[i]);
  }

  /** Only connectors join a center: the edge between a center and an area
      is the connector edge added for them, if any. */
  lemma CenterEdgeIsConnector(areas: seq<Area>, routes: seq<Route>, centers: seq<Center>, dist: (Center, Area) -> real, cid: int, aid: int)
    ensures var k := Key(CenterNode(cid), AreaNode(aid));
      var edges := NetworkEdges(areas, routes, centers, dist);
      (k in edges <==> IsConnector(k, centers, Heads(areas))) &&
      (k in edges ==>
        exists i, j :: 0 <= i < |centers| && 0 <= j < |Heads(areas)| &&
          k == ConnectorKey(centers[i], Heads(areas)[j]) && edges[k] == ConnectorEdge(centers[i], Heads(areas)[j], dist))
  {
    var k := Key(CenterNode(cid), AreaNode(aid));
    assert k !in RouteEdges(routes) by {
      RouteEdgesSpec(routes, k);
      NoRouteToCenter(routes, cid, aid);
    }
    AddConnectorsSpec(RouteEdges(routes), centers, Heads(areas), dist, k);
  }

  /** A center and an area are joined exactly when the area is one of the
      first min(3, |areas|) rows of the areas table; the edge is free and
      weighs twice the scaled distance. */
  lemma ConnectorsToFirstAreas(areas: seq<Area>, routes: seq<Route>, centers: seq<Center>, dist: (Center, Area) -> real, cid: int, aid: int)
    ensures var k := Key(CenterNode(cid), AreaNode(aid));
      var edges := NetworkEdges(areas, routes, centers, dist);
      (k in edges <==> (exists i :: 0 <= i < |centers| && centers[i].id == cid) &&
                       (exists j :: 0 <= j < Min(3, |areas|) && areas[j].id == aid)) &&
      (k in edges ==>
        edges[k].status == Livre &&
        exists i, j :: 0 <= i < |centers| && 0 <= j < Min(3, |areas|) &&
          centers[i].id == cid && areas[j].id == aid && edges[k].weight == 2.0 * dist(centers[i], areas[j]))
  {
    var k := Key(CenterNode(cid), AreaNode(aid));
    var heads := Heads(areas);
    var edges := NetworkEdges(areas, routes, centers, dist);
    CenterEdgeIsConnector(areas, routes, centers, dist, cid, aid);
    if (exists i :: 0 <= i < |centers| && centers[i].id == cid) &&
       (exists j :: 0 <= j < Min(3, |areas|) && areas[j].id == aid) {
      var i :| 0 <= i < |centers| && centers[i].id == cid;
      var j :| 0 <= j < Min(3, |areas|) && areas[j].id == aid;
      ConnectorKeyIds(centers[i], heads[j], cid, aid);
      assert IsConnector(k, centers, heads);
    }
    if k in edges {
      var i, j :| 0 <= i < |centers| && 0 <= j < |heads| && k == ConnectorKey(centers[i], heads[j]) &&
        edges[k] == ConnectorEdge(centers[i], heads[j], dist);
      ConnectorKeyIds(centers[i], heads[j], cid, aid);
      assert heads[j] == areas[j] && j < Min(3, |areas|);
      assert edges[k].status == Livre && edges[k].weight == 2.0 * dist(centers[i], areas[j]);
    }
  }

  lemma AreaNodesSnoc(areas: seq<Area>, i: int)
    requires 0 <= i < |areas|
    ensures AreaNodes(areas[..i + 1]) == AreaNodes(areas[..i]) + {AreaNode(areas[i].id)}
  {
    assert areas[..i + 1] == areas[..i] + [areas[i]];
  }

  lemma CenterNodesSnoc(centers: seq<Center>, i: int)
    requires 0 <= i < |centers|
    ensures CenterNodes(centers[..i + 1]) == CenterNodes(centers[..i]) + {CenterNode(centers[i].id)}
  {
    assert centers[..i + 1] == centers[..i] + [centers[i]];
  }

  lemma OpenRouteEndsSnoc(routes: seq<Route>, i: int)
    requires 0 <= i < |routes|
    ensures OpenRouteEnds(routes[..i + 1]) ==
      OpenRouteEnds(routes[..i]) + (if IsOpen(routes[i]) then {AreaNode(routes[i].origin), AreaNode(routes[i].dest)} else {})
  {
    assert routes[..i + 1] == routes[..i] + [routes[i]];
  }

  /** Adds the node of every area of the table, in order. */
  method AddAreaNodes(g: Graph, areas: seq<Area>)
    requires g.Valid()
    modifies g
    ensures g.Valid()
    ensures g.nodes == old(g.nodes) + AreaNodes(areas) && g.edges == old(g.edges)
  {
    for i := 0 to |areas|
      invariant g.Valid() && g.edges == old(g.edges)
      invariant g.nodes == old(g.nodes) + AreaNodes(areas[..i])
    {
      AreaNodesSnoc(areas, i);
      g.AddNode(AreaNode(areas[i].id));
    }
    assert areas[..|areas|] == areas;
  }

  /** Adds the node of every center of the table, in order. */
  method AddCenterNodes(g: Graph, centers: seq<Center>)
    requires g.Valid()
    modifies g
    ensures g.Valid()
    ensures g.nodes == old(g.nodes) + CenterNodes(centers) && g.edges == old(g.edges)
  {
    for i := 0 to |centers|
      invariant g.Valid() && g.edges == old(g.edges)
      invariant g.nodes == old(g.nodes) + CenterNodes(centers[..i])
    {
      CenterNodesSnoc(centers, i);
      g.AddNode(CenterNode(centers[i].id));
    }
    assert centers[..|centers|] == centers;
  }

  /** Adds an edge for every route row that is not blocked, in table order. */
  method AddRouteEdges(g: Graph, routes: seq<Route>)
    requires g.Valid() && g.edges == map[]
    modifies g
    ensures g.Valid()
    ensures g.nodes == old(g.nodes) + OpenRouteEnds(routes)
    ensures g.edges == RouteEdges(routes)
  {
    for i := 0 to |routes|
      invariant g.Valid()
      invariant g.nodes == old(g.nodes) + OpenRouteEnds(routes[..i])
      invariant g.edges == RouteEdges(routes[..i])
    {
      var r := routes[i];
      OpenRouteEndsSnoc(routes, i);
      assert routes[..i + 1][..i] == routes[..i];
      if IsOpen(r) {
        g.AddEdge(AreaNode(r.origin), AreaNode(r.dest), Edge(r.status, RouteWeight(r)));
      }
    }
    assert routes[..|routes|] == routes;
  }

  /** Joins every center of the table to each area of `heads`. */
  method AddConnectorEdges(g: Graph, centers: seq<Center>, heads: seq<Area>, dist: (Center, Area) -> real)
    requires g.Valid()
    requires CenterNodes(centers) <= g.nodes && AreaNodes(heads) <= g.nodes
    modifies g
    ensures g.Valid()
    ensures g.nodes == old(g.nodes)
    ensures g.edges == AddConnectors(old(g.edges), centers, heads, dist)
  {
    for i := 0 to |centers|
      invariant g.Valid()
      invariant g.nodes == old(g.nodes)
      invariant g.edges == AddConnectors(old(g.edges), centers[..i], heads, dist)
    {
      var c := centers[i];
      assert centers[..i + 1][..i] == centers[..i];
      assert CenterNode(c.id) in CenterNodes(centers) by { assert c in centers; }
      for j := 0 to |heads|
        invariant g.Valid()
        invariant g.nodes == old(g.nodes)
        invariant g.edges == Connect(AddConnectors(old(g.edges), centers[..i], heads, dist), c, heads[..j], dist)
      {
        assert heads[..j + 1][..j] == heads[..j];
        assert AreaNode(heads[j].id) in AreaNodes(heads) by { assert heads[j] in heads; }
        g.AddEdge(CenterNode(c.id), AreaNode(heads[j].id), Edge(Livre, dist(c, heads[j]) * 2.0));
      }
      assert heads[..|heads|] == heads;
    }
    assert centers[..|centers|] == centers;
  }

  /** `criar_rede`: builds the graph step by step, areas, then centers, then
      route edges, then connector edges to the first three areas. */
  method CreateNetwork(areas: seq<Area>, routes: seq<Route>, centers: seq<Center>, dist: (Center, Area) -> real)
    returns (g: Graph)
    ensures fresh(g) && g.Valid()
    ensures g.nodes == NetworkNodes(areas, routes, centers)
    ensures g.edges == NetworkEdges(areas, routes, centers, dist)
  {
    g := new Graph();
    AddAreaNodes(g, areas);
    AddCenterNodes(g, centers);
    AddRouteEdges(g, routes);
    var heads := Heads(areas);
    assert AreaNodes(heads) <= AreaNodes(areas) by {
      forall a | a in heads ensures a in areas { }
    }
    AddConnectorEdges(g, centers, heads, dist);
  }
}
