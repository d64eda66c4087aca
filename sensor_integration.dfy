/** Sensor-driven route updates: decoding a serial line from the roadside
    sensor, the status/weight state machine applied to one graph edge, and
    the status update of the matching rows of the routes table. */
module SensorIntegration {
  import opened Entities
  import opened RouteGraph
  import opened TextFormat

  /** A decoded sensor line: the route it reports on (row index and the
      row's two areas), the reported status token and the two raw readings. */
  datatype Reading = Reading(routeId: int, origin: int, dest: int, status: string, waterLevel: int, blockLevel: int)

  const Tag: string := "DADOS_SENSOR:"

  /** `processar_dados_seriais`: a line `DADOS_SENSOR:id:status:water:block`
      is accepted when it starts with the tag, splits (after stripping) into
      exactly five colon-separated fields, its id is an integer naming a row
      of the routes table and both readings are integers. The status token is
      passed through as it is. */
  function ParseSerialLine(line: string, routes: seq<Route>): (r: Option<Reading>)
    ensures !(Tag <= line) ==> r.None?
    ensures |Split(Strip(line), ':')| != 5 ==> r.None?
    ensures r.Some? <==>
      Tag <= line &&
      var parts := Split(Strip(line), ':');
      |parts| == 5 &&
      ParseInt(parts[1]).Some? && 0 <= ParseInt(parts[1]).value < |routes| &&
      ParseInt(parts[3]).Some? && ParseInt(parts[4]).Some?
    ensures r.Some? ==>
      var parts := Split(Strip(line), ':');
      |parts| == 5 &&
      0 <= r.value.routeId < |routes| && Some(r.value.routeId) == ParseInt(parts[1]) &&
      r.value.origin == routes[r.value.routeId].origin && r.value.dest == routes[r.value.routeId].dest &&
      r.value.status == parts[2] &&
      Some(r.value.waterLevel) == ParseInt(parts[3]) && Some(r.value.blockLevel) == ParseInt(parts[4])
  {
    if !(Tag <= line) then None
    else
      var parts := Split(Strip(line), ':');
      if |parts| != 5 then None
      else
        match ParseInt(parts[1])
        case None => None
        case Some(id) =>
          if !(0 <= id < |routes|) then None
          else
            match (ParseInt(parts[3]), ParseInt(parts[4]))
            case (Some(water), Some(block)) =>
              Some(Reading(id, routes[id].origin, routes[id].dest, parts[2], water, block))
            case _ => None
  }

  /** The line the sensor sends for a reading. */
  function FormatLine(id: int, status: string, water: int, block: int): string
  {
    Tag + IntToString(id) + ":" + status + ":" + IntToString(water) + ":" + IntToString(block)
  }

  function LineFields(id: int, status: string, water: int, block: int): seq<string>
  {
    ["DADOS_SENSOR", IntToString(id), status, IntToString(water), IntToString(block)]
  }

  lemma FormatLineJoins(id: int, status: string, water: int, block: int)
    ensures Join(LineFields(id, status, water, block), ':') == FormatLine(id, status, water, block)
  {
    var fields := LineFields(id, status, water, block);
    assert Join(fields[4..], ':') == IntToString(block);
    assert Join(fields[3..], ':') == IntToString(water) + ":" + IntToString(block) by {
      assert fields[3..][1..] == fields[4..];
    }
    assert Join(fields[2..], ':') == status + ":" + IntToString(water) + ":" + IntToString(block) by {
      assert fields[2..][1..] == fields[3..];
    }
    assert Join(fields[1..], ':') == IntToString(id) + ":" + status + ":" + IntToString(water) + ":" + IntToString(block) by {
      assert fields[1..][1..] == fields[2..];
    }
  }

  lemma FieldsHaveNoColon(id: int, status: string, water: int, block: int)
    requires ':' !in status
    ensures forall i :: 0 <= i < |LineFields(id, status, water, block)| ==> ':' !in LineFields(id, status, water, block)[i]
  {
    var fields := LineFields(id, status, water, block);
    assert ':' !in fields[0] by {
      assert fields[0] == "DADOS_SENSOR";
    }
  }

  /** First character, last character and prefix of a concatenation. */
  lemma ConcatEnds(a: string, b: string)
    requires a != [] && b != []
    ensures (a + b)[0] == a[0] && (a + b)[|a + b| - 1] == b[|b| - 1] && a <= a + b
  {
    assert (a + b)[..|a|] == a;
  }

  /** A formatted line starts with the tag and has no surrounding blanks. */
  lemma FormatLineEnds(id: int, status: string, water: int, block: int)
    ensures var line := FormatLine(id, status, water, block);
      line != [] && !IsSpace(line[0]) && !IsSpace(line[|line| - 1]) && Tag <= line
  {
    var p1 := Tag + IntToString(id);
    var p2 := p1 + ":";
    var p3 := p2 + status;
    var p4 := p3 + ":";
    var p5 := p4 + IntToString(water);
    var p6 := p5 + ":";
    ConcatEnds(Tag, IntToString(id));
    ConcatEnds(p1, ":");
    assert p2[0] == 'D' && Tag <= p2;
    if status != [] {
      ConcatEnds(p2, status);
    } else {
      assert p3 == p2;
    }
    ConcatEnds(p3, ":");
    assert p4[0] == 'D' && Tag <= p4;
    ConcatEnds(p4, IntToString(water));
    ConcatEnds(p5, ":");
    assert p6[0] == 'D' && Tag <= p6;
    ConcatEnds(p6, IntToString(block));
  }

  lemma FormatLineSplits(id: int, status: string, water: int, block: int, eol: string)
    requires ':' !in status
    requires forall i :: 0 <= i < |eol| ==> IsSpace(eol[i])
    ensures Tag <= FormatLine(id, status, water, block) + eol
    ensures Split(Strip(FormatLine(id, status, water, block) + eol), ':') == LineFields(id, status, water, block)
  {
    var line := FormatLine(id, status, water, block);
    var fields := LineFields(id, status, water, block);
    FormatLineEnds(id, status, water, block);
    assert Strip(line + eol) == line by {
      StripPadded(line, eol);
    }
    assert Split(line, ':') == fields by {
      FormatLineJoins(id, status, water, block);
      FieldsHaveNoColon(id, status, water, block);
      SplitJoin(fields, ':');
    }
    assert Tag <= line + eol by {
      assert (line + eol)[..|Tag|] == line[..|Tag|];
    }
  }

  /** A line formatted for an existing route, with any trailing line
      terminator, decodes to that route's areas and the sent values. */
  lemma SerialRoundTrip(routes: seq<Route>, id: int, status: string, water: int, block: int, eol: string)
    requires 0 <= id < |routes|
    requires ':' !in status
    requires forall i :: 0 <= i < |eol| ==> IsSpace(eol[i])
    ensures ParseSerialLine(FormatLine(id, status, water, block) + eol, routes) ==
      Some(Reading(id, routes[id].origin, routes[id].dest, status, water, block))
  {
    var parts := LineFields(id, status, water, block);
    FormatLineSplits(id, status, water, block, eol);
    IntRoundTrip(id);
    IntRoundTrip(water);
    IntRoundTrip(block);
    assert ParseInt(parts[1]) == Some(id) && parts[2] == status;
    assert ParseInt(parts[3]) == Some(water) && ParseInt(parts[4]) == Some(block);
  }

  /** Status and weight of an edge after a reading `observed` for it, or
      `None` when the edge is removed (`atualizar_grafo`, existing edge). The
      previous weight is scaled, not recomputed from the base time. */
  function NextEdge(e: Edge, observed: string): (r: Option<Edge>)
    ensures r.None? <==> observed == Bloqueada
    ensures r.Some? ==> r.value.status == observed
    ensures e.status != Parcial && observed == Parcial ==> r == Some(Edge(Parcial, e.weight * 2.0))
    ensures e.status == Parcial && observed == Livre ==> r == Some(Edge(Livre, e.weight / 2.0))
    ensures observed != Bloqueada && !(e.status != Parcial && observed == Parcial) && !(e.status == Parcial && observed == Livre) ==>
      r == Some(Edge(observed, e.weight))
  {
    if e.status != Parcial && observed == Parcial then Some(Edge(observed, e.weight * 2.0))
    else if e.status == Parcial && observed == Livre then Some(Edge(observed, e.weight / 2.0))
    else if observed == Bloqueada then None
    else Some(Edge(observed, e.weight))
  }

  /** Effect of a reading on the edges of the graph: only the edge between
      areas `o` and `d` can change; if there is none, nothing changes. */
  function ApplyReading(edges: EdgeMap, o: int, d: int, observed: string): (r: EdgeMap)
    ensures Key(AreaNode(o), AreaNode(d)) !in edges ==> r == edges
    ensures forall k :: k != Key(AreaNode(o), AreaNode(d)) ==>
      (k in r <==> k in edges) && (k in r ==> r[k] == edges[k])
    ensures Key(AreaNode(o), AreaNode(d)) in edges ==>
      (Key(AreaNode(o), AreaNode(d)) in r <==> observed != Bloqueada) &&
      (observed != Bloqueada ==> r[Key(AreaNode(o), AreaNode(d))].status == observed)
    ensures Key(AreaNode(o), AreaNode(d)) in r ==> Key(AreaNode(o), AreaNode(d)) in edges
  {
    var k := Key(AreaNode(o), AreaNode(d));
    if k !in edges then edges
    else
      match NextEdge(edges[k], observed)
      case None => edges - {k}
      case Some(e) => edges[k := e]
  }

  /** Connector edges join a center to an area; a reading names two areas,
      so it never touches a connector. */
  lemma ConnectorsUntouched(edges: EdgeMap, o: int, d: int, observed: string, cid: int, aid: int)
    ensures var k := Key(CenterNode(cid), AreaNode(aid));
      var r := ApplyReading(edges, o, d, observed);
      (k in r <==> k in edges) && (k in r ==> r[k] == edges[k])
  {
    assert CenterNode(cid) !in Key(AreaNode(o), AreaNode(d));
  }

  /** A reading that repeats the current one changes nothing more. */
  lemma ReadingIdempotent(edges: EdgeMap, o: int, d: int, observed: string)
    ensures ApplyReading(ApplyReading(edges, o, d, observed), o, d, observed) == ApplyReading(edges, o, d, observed)
  {
  }

  /** Once a reading has removed an edge, no later reading on the same pair
      brings it back: with the edge gone, every update is a no-op. */
  lemma BlockedNeverRestored(edges: EdgeMap, o: int, d: int, later: string)
    ensures var blocked := ApplyReading(edges, o, d, Bloqueada);
      Key(AreaNode(o), AreaNode(d)) !in blocked &&
      ApplyReading(blocked, o, d, later) == blocked
  {
  }

  /** A free edge that becomes partial and then free again gets back exactly
      its original status and weight. */
  lemma PartialThenFreeRestores(edges: EdgeMap, o: int, d: int)
    requires Key(AreaNode(o), AreaNode(d)) in edges
    requires edges[Key(AreaNode(o), AreaNode(d))].status == Livre
    ensures ApplyReading(ApplyReading(edges, o, d, Parcial), o, d, Livre) == edges
  {
    var k := Key(AreaNode(o), AreaNode(d));
    var e := edges[k];
    assert ApplyReading(edges, o, d, Parcial) == edges[k := Edge(Parcial, e.weight * 2.0)];
    assert edges[k := Edge(Livre, e.weight * 2.0 / 2.0)] == edges;
  }

  /** A partial edge that becomes free and then partial again gets back
      exactly its original status and weight. */
  lemma FreeThenPartialRestores(edges: EdgeMap, o: int, d: int)
    requires Key(AreaNode(o), AreaNode(d)) in edges
    requires edges[Key(AreaNode(o), AreaNode(d))].status == Parcial
    ensures ApplyReading(ApplyReading(edges, o, d, Livre), o, d, Parcial) == edges
  {
    var k := Key(AreaNode(o), AreaNode(d));
    var e := edges[k];
    assert ApplyReading(edges, o, d, Livre) == edges[k := Edge(Livre, e.weight / 2.0)];
    assert edges[k := Edge(Parcial, e.weight / 2.0 * 2.0)] == edges;
  }

  /** The weight factor a status stands for: doubled while partial. */
  function Multiplier(status: string): real
  {
    if status == Parcial then 2.0 else 1.0
  }

  /** As long as only the three known tokens are observed, an edge that
      weighs base x multiplier(status) keeps doing so: the incremental
      doubling and halving never drift from the base time. */
  lemma NoDriftOnKnownTokens(e: Edge, base: real, observed: string)
    requires e.status == Livre || e.status == Parcial
    requires e.weight == base * Multiplier(e.status)
    requires observed == Livre || observed == Parcial || observed == Bloqueada
    ensures NextEdge(e, observed).Some? ==>
      NextEdge(e, observed).value.weight == base * Multiplier(observed)
  {
  }

  /** The token is not checked, and an unknown one interrupts the
      doubling/halving pairing: a partial edge of base time 10 that sees an
      unknown token and then "livre" is left free at weight 20. */
  lemma UnknownTokenBreaksWeight()
    ensures var e := NextEdge(Edge(Parcial, 20.0), "xyz").value;
      NextEdge(e, Livre) == Some(Edge(Livre, 20.0)) &&
      20.0 != 10.0 * Multiplier(Livre)
  {
  }

  /** `atualizar_csv_rotas`: every row from `o` to `d` (in that order) takes
      the new status; the other rows, and every other column, are kept. */
  function MarkRouteStatus(rows: seq<Route>, o: int, d: int, status: string): (r: seq<Route>)
    ensures |r| == |rows|
    ensures forall i :: 0 <= i < |rows| ==>
      r[i].origin == rows[i].origin && r[i].dest == rows[i].dest && r[i].baseTime == rows[i].baseTime
    ensures forall i :: 0 <= i < |rows| ==>
      r[i].status == (if rows[i].origin == o && rows[i].dest == d then status else rows[i].status)
    ensures (forall i :: 0 <= i < |rows| ==> rows[i].origin != o || rows[i].dest != d) ==> r == rows
    decreases |rows|
  {
    if rows == [] then []
    else
      var row := rows[0];
      [if row.origin == o && row.dest == d then row.(status := status) else row] +
      MarkRouteStatus(rows[1..], o, d, status)
  }

  /** The row a decoded line names always matches the reading's areas, so
      its status is the one reported. */
  lemma ReadingMarksItsRow(line: string, routes: seq<Route>)
    requires ParseSerialLine(line, routes).Some?
    ensures var rd := ParseSerialLine(line, routes).value;
      MarkRouteStatus(routes, rd.origin, rd.dest, rd.status)[rd.routeId].status == rd.status
  {
  }

  /** The sensor side of the system: the shared graph and the routes table
      it updates. */
  class SensorLink {
    const graph: Graph
    var routes: seq<Route>

    constructor (graph: Graph, routes: seq<Route>)
      ensures this.graph == graph && this.routes == routes
    {
      this.graph := graph;
      this.routes := routes;
    }

    /** `atualizar_grafo`: applies a reading to the edge between the two
        areas, then to the routes table. */
    method UpdateGraph(reading: Reading)
      requires graph.Valid()
      modifies this`routes, graph
      ensures graph.Valid()
      ensures graph.nodes == old(graph.nodes)
      ensures graph.edges == ApplyReading(old(graph.edges), reading.origin, reading.dest, reading.status)
      ensures routes == MarkRouteStatus(old(routes), reading.origin, reading.dest, reading.status)
    {
      var o := AreaNode(reading.origin);
      var d := AreaNode(reading.dest);
      if graph.HasEdge(o, d) {
        var previous := graph.edges[Key(o, d)].status;
        graph.SetStatus(o, d, reading.status);
        var baseTime := graph.edges[Key(o, d)].weight;
        if previous != Parcial && reading.status == Parcial {
          graph.SetWeight(o, d, baseTime * 2.0);
        } else if previous == Parcial && reading.status == Livre {
          graph.SetWeight(o, d, baseTime / 2.0);
        } else if reading.status == Bloqueada {
          graph.RemoveEdge(o, d);
        }
      }
      UpdateRouteTable(reading);
    }

    /** `atualizar_csv_rotas`: overwrites the status of the matching rows. */
    method UpdateRouteTable(reading: Reading)
      modifies this`routes
      ensures routes == MarkRouteStatus(old(routes), reading.origin, reading.dest, reading.status)
    {
      routes := MarkRouteStatus(routes, reading.origin, reading.dest, reading.status);
    }
  }
}
