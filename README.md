# Humanitarian logistics core, modelled in Dafny

This project models the three pieces of logic in the FIAP Global Solution
logistics system and proves properties about them:

- **The route network builder** (`RouteNetwork.criar_rede`). It builds an
  undirected weighted graph from three tables:
  - one node per affected area (`A<id>`) and per distribution center (`C<id>`);
  - one edge per route that is not blocked, weighing its base time, doubled
    when the route is partially blocked;
  - connector edges from every center to the first three rows of the areas
    table, with status `livre` and weight twice the scaled distance.
- **The sensor integration** (`SensorIntegration`). It decodes the serial
  line `DADOS_SENSOR:id:status:agua:bloqueio` and resolves the route id
  against the routes table. It applies a reading to the graph edge between
  the route's two areas: a small status/weight state machine that doubles,
  halves or removes the edge. It also overwrites the status of the matching
  rows of the routes table.
- **The greedy resource allocator** (`ResourceAllocator.alocar_recursos`).
  It sorts the areas by criticality tier, then by affected population, both
  descending. For each area it scans the centers in table order. A center
  is admitted when it has a free vehicle and at least half of each need. The
  area is served from the admitted center with the fastest route, the
  earliest one on a tie. That center ships the need capped by its stock and
  loses one vehicle, and later areas see the depleted stock.

Modules:

| file | module | what it holds |
|---|---|---|
| `entities.dfy` | `Entities` | the table rows (areas, centers, routes), supplies, status tokens |
| `route_graph.dfy` | `RouteGraph` | the graph object (`Graph` class, updated in place), paths, path cost, the shortest-path query's contract |
| `text_format.dfy` | `TextFormat` | `strip`, `split`, `join`, `int()` and `str()` on integers, with their inverses |
| `route_network.dfy` | `RouteNetwork` | the graph builder: loops over the three tables and the maps they produce |
| `sensor_integration.dfy` | `SensorIntegration` | the line decoder, the edge state machine, the routes-table update, the `SensorLink` class |
| `allocation_order.dfy` | `AllocationOrder` | the priority order and the stable sort of the areas table |
| `resource_allocator.dfy` | `ResourceAllocator` | the allocator: center table, selection, shipment, the plan and its invariants |

Each imperative loop of the source is a Dafny method with loop invariants,
except the three-iteration loop over the kinds of supply
(`src/models/resource_allocator.py:105-109`): it is written out per kind in
the loop-free functions `Shipment` and `Minus`, which `ServeArea` applies to
the chosen center. Each method's `ensures` ties its result, or the new
state, to a function of its inputs (`Plan`, `Select`, `LedgerOf`,
`RouteEdges`, `AddConnectors`, `ApplyReading`, `MarkRouteStatus`). The lemmas then prove what those
functions promise.

The shortest-path query of the network library is a parameter
`sp(u, v)`. The allocator only needs every answer to be a path between the
two nodes it was asked about (`RouteGraph.AnswersArePaths`). With the
stronger contract `RouteGraph.ShortestPathOracle`, where an answer is a path
of least weight and no answer means the area is unreachable,
`SelectShortest` shows that the chosen time is the least over all paths from
all admitted centers.

Three places where the code does less than its names and comments suggest;
the model follows the code:

- The weight is read into a variable named `tempo_base`
  (`src/api/sensor_integration.py:120`), but the code doubles or halves the
  edge's current weight, not a stored base time (`:121-126`).
  `SensorIntegration.NoDriftOnKnownTokens` shows that this never drifts
  while only the three known tokens are observed.
  `SensorIntegration.UnknownTokenBreaksWeight` shows that an unknown token
  breaks the pairing.
- A reading for a missing edge changes nothing in the graph
  (`src/api/sensor_integration.py:112,133-134`), so a blocked route, once
  its edge is removed, never comes back.
  `SensorIntegration.BlockedNeverRestored` states this. The routes table
  still records the reported status, because the table update runs on
  every reading (`:141`; see `SensorIntegration.SensorLink.UpdateGraph`).
  After a route is blocked and later reported `livre` or `parcial`, the
  table shows it open while the graph has no edge for it.
- The comments at `src/models/route_network.py:61,64` speak of the nearest
  areas; the code takes the first three rows of the areas table (`:65`).
  See `RouteNetwork.ConnectorsToFirstAreas`.

## Model

| member | source | states |
|---|---|---|
| RouteGraph.Graph.constructor | src/models/route_network.py:34 | a new graph has no nodes and no edges |
| RouteGraph.Graph.AddNode | src/models/route_network.py:38-42 | adding a node adds it to the node set and leaves the edges alone; adding it twice changes nothing more |
| RouteGraph.Graph.AddEdge | src/models/route_network.py:55-59 | adds both end points and sets the attributes of the edge between them, overwriting those of an existing edge between the same pair in either direction |
| RouteGraph.Graph.RemoveEdge | src/api/sensor_integration.py:129 | removes exactly that edge and keeps the nodes |
| RouteGraph.Graph.SetStatus | src/api/sensor_integration.py:117 | overwrites the status of an existing edge and nothing else |
| RouteGraph.Graph.SetWeight | src/api/sensor_integration.py:123-126 | overwrites the weight of an existing edge and nothing else |
| RouteNetwork.LastOpenRow | src/models/route_network.py:51-59 | the last open row joining two areas, or -1 when no open row joins them |
| RouteNetwork.RouteEdgesSpec | src/models/route_network.py:51-59 | after the route loop, two areas are joined exactly when some non-blocked row joins them; the edge carries the status and weight of the last such row |
| RouteNetwork.OpenRouteEdge | src/models/route_network.py:52-59 | in the built graph, the edge of an open row not overridden by a later row has that row's status and weighs its base time times 2 if `parcial`, else times 1 |
| RouteNetwork.BlockedRouteAbsent | src/models/route_network.py:52 | two areas joined by no open row (for instance only by a blocked one) have no edge |
| RouteNetwork.ConnectSpec | src/models/route_network.py:65-71 | the inner loop joins one center to each area of the list, with a free connector edge, and keeps every other edge |
| RouteNetwork.AddConnectorsSpec | src/models/route_network.py:62-71 | after the connector loops, the edges are the earlier ones plus one free connector for each center and each listed area; every other edge keeps its attributes |
| RouteNetwork.Heads | src/models/route_network.py:65 | the connected areas are the first min(3, number of areas) rows of the areas table, in table order |
| RouteNetwork.RouteKeyIsNoConnector | src/models/route_network.py:55-69 | a route edge joins two areas, so no connector overwrites it |
| RouteNetwork.CenterEdgeIsConnector | src/models/route_network.py:62-71 | in the built graph, an edge touching a center is one of the connector edges |
| RouteNetwork.ConnectorsToFirstAreas | src/models/route_network.py:62-71 | a center and an area are joined exactly when the center is in the centers table and the area is among the first three rows of the areas table; the edge is `livre` and weighs twice the scaled distance |
| RouteNetwork.AddAreaNodes | src/models/route_network.py:37-42 | the area loop adds node `A<id>` for every row of the areas table and no edge |
| RouteNetwork.AddCenterNodes | src/models/route_network.py:44-48 | the center loop adds node `C<id>` for every row of the centers table and no edge |
| RouteNetwork.AddRouteEdges | src/models/route_network.py:51-59 | the route loop produces exactly the route edges of `RouteEdges` and adds the end points of the open rows |
| RouteNetwork.AddConnectorEdges | src/models/route_network.py:62-71 | the nested connector loops produce exactly the edges of `AddConnectors` and add no node |
| RouteNetwork.CreateNetwork | src/models/route_network.py:20-78 | the built graph's nodes are all areas, all centers and the ends of open routes; its edges are the route edges followed by the connectors |
| TextFormat.StripPadded | src/api/sensor_integration.py:64 | `strip()` removes exactly trailing white space added to a string with no white space at either end |
| TextFormat.Split | src/api/sensor_integration.py:64 | `split(":")` yields at least one piece and no piece contains the separator |
| TextFormat.JoinSplit | src/api/sensor_integration.py:64 | joining the pieces of a split with the separator gives back the string |
| TextFormat.SplitJoin | src/api/sensor_integration.py:64 | splitting pieces joined with a separator they do not contain gives back the pieces |
| TextFormat.ParseInt | src/api/sensor_integration.py:70 | `int()` succeeds exactly on a string of one or more decimal digits with an optional leading sign; the sign gives the sign of the result |
| TextFormat.IntRoundTrip | src/api/sensor_integration.py:85-86 | `int(str(n)) == n` for every integer |
| SensorIntegration.ParseSerialLine | src/api/sensor_integration.py:51-91 | a reading is decoded exactly when the line starts with the tag, splits after stripping into five fields, the id is an integer naming a row of the routes table and both readings are integers; it then carries that row's two areas, the status token unchanged and the parsed readings |
| SensorIntegration.FormatLineSplits | src/api/sensor_integration.py:61-64 | a line in the sensor's format, with any trailing line terminator, starts with the tag and splits into its five fields |
| SensorIntegration.SerialRoundTrip | src/api/sensor_integration.py:60-88 | a line formatted for an existing route decodes to that route's areas, the status and the two readings that were sent |
| SensorIntegration.NextEdge | src/api/sensor_integration.py:114-129 | an observed `bloqueada` removes the edge, otherwise the edge takes the observed status; entering `parcial` from any other status doubles the current weight, `parcial` to `livre` halves it, and every other change keeps it |
| SensorIntegration.ApplyReading | src/api/sensor_integration.py:107-134 | only the edge between the reading's two areas can change; a missing edge means no change; an existing edge is removed exactly when the observation is `bloqueada`, and otherwise records the observed status |
| SensorIntegration.ConnectorsUntouched | src/api/sensor_integration.py:108-112 | a reading names two areas, so it never touches a center's connector edge |
| SensorIntegration.ReadingIdempotent | src/api/sensor_integration.py:117-129 | repeating a reading changes nothing more |
| SensorIntegration.BlockedNeverRestored | src/api/sensor_integration.py:127-134 | once a reading has removed an edge, no later reading on that pair brings it back |
| SensorIntegration.PartialThenFreeRestores | src/api/sensor_integration.py:120-126 | a free edge observed `parcial` and then `livre` gets back its original status and weight |
| SensorIntegration.FreeThenPartialRestores | src/api/sensor_integration.py:120-126 | a partial edge observed `livre` and then `parcial` gets back its original status and weight |
| SensorIntegration.NoDriftOnKnownTokens | src/api/sensor_integration.py:120-129 | while only `livre`, `parcial` and `bloqueada` are observed, an edge weighing base times multiplier(status) keeps doing so after each reading |
| SensorIntegration.UnknownTokenBreaksWeight | src/api/sensor_integration.py:120-126 | an unknown token between `parcial` and `livre` leaves the edge free at twice its base time |
| SensorIntegration.MarkRouteStatus | src/api/sensor_integration.py:145-163 | every row whose ordered (origin, destination) matches takes the new status; every other row and column is kept; no match leaves the table unchanged |
| SensorIntegration.ReadingMarksItsRow | src/api/sensor_integration.py:78-83 | the row a decoded line names always takes the reported status |
| SensorIntegration.SensorLink.constructor | src/api/sensor_integration.py:9-18 | the link holds the shared graph and the routes table it is given |
| SensorIntegration.SensorLink.UpdateGraph | src/api/sensor_integration.py:93-143 | the graph's edges become `ApplyReading` of the old edges, its nodes are kept, and the routes table becomes `MarkRouteStatus` of the old table |
| SensorIntegration.SensorLink.UpdateRouteTable | src/api/sensor_integration.py:145-163 | the routes table becomes `MarkRouteStatus` of the old table |
| AllocationOrder.TierRank | src/models/resource_allocator.py:41 | the body is the label map of line 41 (`alta` 2, `média` 1, `baixa` 0, no label -1); the contract bounds the rank to -1..2 and makes a missing label the only negative rank |
| AllocationOrder.InsertSorted | src/models/resource_allocator.py:43-46 | inserting an area into a table in priority order keeps it in priority order |
| AllocationOrder.SortByPriority | src/models/resource_allocator.py:43-46 | the sorted table is a permutation of the areas table with no area outranked by a later one, by tier then population, both descending |
| AllocationOrder.InsertKeepsTies | src/models/resource_allocator.py:43-46 | inserting an area keeps the relative order of the areas that tie on both keys |
| AllocationOrder.SortKeepsTies | src/models/resource_allocator.py:43-46 | the sort is stable: areas that tie on tier and population keep their table order |
| ResourceAllocator.LoadCenters | src/models/resource_allocator.py:49-57 | the loop over the centers table yields the table `LedgerOf` describes |
| ResourceAllocator.LedgerOfSpec | src/models/resource_allocator.py:49-57 | a center is in the table exactly when some row names it, and it holds the stock and vehicles of the last such row |
| ResourceAllocator.LedgerOfDistinct | src/models/resource_allocator.py:49-57 | with distinct ids, the centers are scanned in table order |
| ResourceAllocator.EnoughIsHalf | src/models/resource_allocator.py:81-84 | the half-need test holds exactly when twice the stock covers the need for every kind of supply |
| ResourceAllocator.Pick | src/models/resource_allocator.py:76-97 | the kept index is one of the scanned centers and has an offer |
| ResourceAllocator.PickSpec | src/models/resource_allocator.py:76-97 | the kept offer is the fastest among the scanned centers; an earlier center with an offer is strictly slower, since only a strictly faster offer replaces it; no index means no scanned center has an offer |
| ResourceAllocator.FindCenter | src/models/resource_allocator.py:72-99 | the scan over the centers, skipping those without a vehicle, without half of each need or without a path, returns `Select` |
| ResourceAllocator.SelectSpec | src/models/resource_allocator.py:76-99 | the chosen center has a free vehicle and half of each need; its route leads to the area and its time is the route's weight; no center offers less; every earlier center offers strictly more; no choice exactly when no center offers |
| ResourceAllocator.SelectShortest | src/models/resource_allocator.py:90-97 | with an exact shortest-path query, an area reachable from an admitted center is served, at a time no greater than any path from any admitted center |
| ResourceAllocator.Shipment | src/models/resource_allocator.py:105-107 | each kind of supply shipped is the smaller of the need and the stock |
| ResourceAllocator.StepSpec | src/models/resource_allocator.py:101-123 | an area goes unserved exactly when no center is chosen, and the table is unchanged; a delivery carries the area's id, label and population, the route and its weight, the shipment capped by the stock; the chosen center alone loses the shipment and one vehicle |
| ResourceAllocator.ServeArea | src/models/resource_allocator.py:101-123 | one round of the main loop computes `Step`: the delivery and the new table |
| ResourceAllocator.PlanRoutes | src/models/resource_allocator.py:90-122 | the plan has no more entries than there are areas; each entry comes from a center of the table along a path to its area, and its time is that path's total weight |
| ResourceAllocator.ServedRowsOrdered | src/models/resource_allocator.py:63-115 | each plan entry has a served position in the sorted table; positions strictly increase, so each area is served at most once and in sorted order |
| ResourceAllocator.ServedRowsSpec | src/models/resource_allocator.py:115-120 | each plan entry is for the area at its served position and ships no more than that area needs |
| ResourceAllocator.StepServes | src/models/resource_allocator.py:105-120 | a delivery for an area carries its id, label and population and ships no more than it needs |
| ResourceAllocator.PlanByPriority | src/models/resource_allocator.py:34-46 | areas in priority order give a plan in non-increasing (tier, population) order |
| ResourceAllocator.StepConserves | src/models/resource_allocator.py:105-112 | one round moves the shipment and one vehicle out of the serving center and leaves every other center alone |
| ResourceAllocator.PlanConserves | src/models/resource_allocator.py:105-112 | each center ends with its initial stock less everything it shipped, and its initial vehicles less its trips |
| ResourceAllocator.ShipmentBounds | src/models/resource_allocator.py:105-109 | the stock left after a shipment is never negative; a shipment for a non-negative need from a non-negative stock is non-negative |
| ResourceAllocator.StepStaysSolvent | src/models/resource_allocator.py:76-112 | a round keeps every stock and vehicle count non-negative, because a center without a vehicle is never chosen and nothing is shipped beyond the stock |
| ResourceAllocator.PlanStaysSolvent | src/models/resource_allocator.py:76-112 | from non-negative stocks and fleets, stocks and vehicle counts never go negative; with non-negative needs every shipment is non-negative |
| ResourceAllocator.PlanFromTables | src/models/resource_allocator.py:49-64 | every plan entry names a center of the centers table and an area of the areas table |
| ResourceAllocator.Allocate | src/models/resource_allocator.py:19-123 | the plan is `Plan` over the sorted areas and the loaded centers; it has at most one entry per area, is in non-increasing (tier, population) order, and each entry links a center and an area of the tables by a path whose weight is its time |

## Left out

- File I/O is not modelled: the CSV and pickle reads and writes, and the plan written as a CSV file. The tables and the graph are parameters and fields.
- Console output is not modelled, and neither are the timestamps attached to readings.
- The graph is stored on the object and saved after each update. Here it is a `Graph` object shared by reference.
- Node attributes (position, type, label, population, capacity) are not modelled. Neither are the `origem`/`destino` edge attributes. None of the modelled code reads them.
- The Euclidean connector distance is floating point. It is an input function `dist(center, area)`, and the connector weight is twice its value.
- Weights are exact reals. Float rounding of the doubling, halving and path sums is not modelled.
- ResourceAllocator.Enough: the source's float comparison `stock >= need * 0.5` is exact real arithmetic here.
- The network library's shortest-path search is the parameter `sp`. Its internals and its choice among equally short paths are not modelled.
- ResourceAllocator.Allocate: a node missing from the graph makes the library raise an error that the source does not catch. The model only assumes that `sp` answers with a path or with nothing.
- The optional `criticidade_num` column is not modelled. The sort uses the rank of the label, which matches that column on the three labels.
- Missing numeric values (NaN) in the sort keys are not modelled. A missing criticality label is `None` with rank -1.
- TextFormat.ParseInt: accepts only an optional sign followed by decimal digits. Python's `int()` also accepts surrounding white space and `_` between digits.
- TextFormat.IsSpace: covers the white space of `str.strip()` on a `str` line. Byte strings are not modelled.
- SensorIntegration.ParseSerialLine: the catch-all exception handler is modelled only for the conversion errors it can meet with a string line.
- SensorIntegration.SensorLink.UpdateGraph: the source re-reads the routes table from disk on each update. Here the table is a field that persists between updates.
- The sensor simulation, the monitoring loop, the graph plot and the plan summary are not modelled. They are random, timed or visual.
- The command-line entry point, the data generator and the criticality classifier are not modelled. The criticality label is an input.
