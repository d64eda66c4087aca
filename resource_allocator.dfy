/** The greedy allocator: areas are served in priority order, each from the
    center that can reach it fastest among those with a free vehicle and at
    least half of each kind of supply the area needs. */
module ResourceAllocator {
  import opened Entities
  import opened RouteGraph
  import opened AllocationOrder

  /** What the allocator tracks for a center: remaining stock and free
      vehicles. */
  datatype Holdings = Holdings(stock: Supplies, vehicles: int)

  /** The allocator's table of centers: the center ids in the order they were
      first inserted, and the current holdings of each. */
  datatype Ledger = Ledger(order: seq<int>, holdings: map<int, Holdings>)

  /** The order lists each center of the table exactly once. */
  predicate LedgerValid(l: Ledger)
  {
    (forall i, j :: 0 <= i < j < |l.order| ==> l.order[i] != l.order[j]) &&
    (forall i :: 0 <= i < |l.order| ==> l.order[i] in l.holdings) &&
    (forall id :: id in l.holdings ==> id in l.order)
  }

  function HoldingsOf(c: Center): Holdings
  {
    Holdings(c.stock, c.vehicles)
  }

  /** Loading one row of the centers table: a new id goes to the end of the
      order, a repeated id keeps its place and takes the row's values. */
  function Load(l: Ledger, c: Center): (r: Ledger)
    requires LedgerValid(l)
    ensures LedgerValid(r)
  {
    Ledger(if c.id in l.holdings then l.order else l.order + [c.id], l.holdings[c.id := HoldingsOf(c)])
  }

  /** The table after the rows of `centers` have been loaded in order. */
  function LedgerOf(centers: seq<Center>): (l: Ledger)
    ensures LedgerValid(l)
    decreases |centers|
  {
    if centers == [] then Ledger([], map[])
    else Load(LedgerOf(centers[..|centers| - 1]), centers[|centers| - 1])
  }

  /** Index of the last row of `centers` with id `id`, or -1 when there is
      none. */
  function LastRow(centers: seq<Center>, id: int): (j: int)
    ensures -1 <= j < |centers|
    ensures j >= 0 ==> centers[j].id == id
    ensures forall i :: j < i < |centers| ==> centers[i].id != id
    decreases |centers|
  {
    if centers == [] then -1
    else if centers[|centers| - 1].id == id then |centers| - 1
    else
      var j := LastRow(centers[..|centers| - 1], id);
      assert forall i :: 0 <= i < |centers| - 1 ==> centers[..|centers| - 1][i] == centers[i];
      j
  }

  /** A center is in the table exactly when some row names it, and it holds
      the stock and vehicles of its last row. */
  lemma {:induction false} LedgerOfSpec(centers: seq<Center>, id: int)
    ensures id in LedgerOf(centers).holdings <==> LastRow(centers, id) >= 0
    ensures id in LedgerOf(centers).holdings ==>
      LedgerOf(centers).holdings[id] == HoldingsOf(centers[LastRow(centers, id)])
    decreases |centers|
  {
    if centers != [] {
      var n := |centers| - 1;
      LedgerOfSpec(centers[..n], id);
      if centers[n].id != id {
        var j := LastRow(centers[..n], id);
        assert j >= 0 ==> centers[..n][j] == centers[j];
      }
    }
  }

  /** When the ids of the table are distinct, the centers are listed in table
      order. */
  lemma {:induction false} LedgerOfDistinct(centers: seq<Center>)
    requires forall i, j :: 0 <= i < j < |centers| ==> centers[i].id != centers[j].id
    ensures |LedgerOf(centers).order| == |centers|
    ensures forall i :: 0 <= i < |centers| ==> LedgerOf(centers).order[i] == centers[i].id
    decreases |centers|
  {
    if centers != [] {
      var n := |centers| - 1;
      var p := centers[..n];
      assert forall i :: 0 <= i < n ==> p[i] == centers[i];
      LedgerOfDistinct(p);
      var l := LedgerOf(p);
      assert centers[n].id !in l.order;
    }
  }

  /** `recursos[tipo] >= necessidades[tipo] * 0.5` for each kind of supply. */
  predicate Enough(stock: Supplies, need: Supplies)
  {
    stock.water as real >= need.water as real * 0.5 &&
    stock.food as real >= need.food as real * 0.5 &&
    stock.medicine as real >= need.medicine as real * 0.5
  }

  /** The half-need test on whole numbers: twice the stock covers the need,
      for every kind of supply. */
  lemma EnoughIsHalf(stock: Supplies, need: Supplies)
    ensures Enough(stock, need) <==> forall r :: 2 * Amount(stock, r) >= Amount(need, r)
  {
    assert Amount(stock, Water) == stock.water && Amount(need, Water) == need.water;
    assert Amount(stock, Food) == stock.food && Amount(need, Food) == need.food;
    assert Amount(stock, Medicine) == stock.medicine && Amount(need, Medicine) == need.medicine;
  }

  /** A center's offer to an area: the route the query returns and its
      travel time. */
  datatype Choice = Choice(center: int, route: seq<Node>, time: real)

  /** What center `cid`, holding `h`, offers area `a`: nothing when it has
      no free vehicle, less than half of some need, or no path to the area. */
  function Offer(edges: EdgeMap, sp: (Node, Node) -> Option<seq<Node>>, cid: int, h: Holdings, a: Area): Option<Choice>
    requires AnswersArePaths(edges, sp)
  {
    if h.vehicles <= 0 || !Enough(h.stock, a.need) then None
    else
      match sp(CenterNode(cid), AreaNode(a.id))
      case None => None
      case Some(p) => Some(Choice(cid, p, PathCost(edges, p)))
  }

  /** The offer of the `i`-th center of the ledger. */
  function OfferAt(edges: EdgeMap, sp: (Node, Node) -> Option<seq<Node>>, l: Ledger, a: Area, i: int): Option<Choice>
    requires AnswersArePaths(edges, sp) && LedgerValid(l) && 0 <= i < |l.order|
  {
    Offer(edges, sp, l.order[i], l.holdings[l.order[i]], a)
  }

  /** Index of the offer kept after scanning the first `n` centers, or -1 if
      none of them made one. */
  function Pick(edges: EdgeMap, sp: (Node, Node) -> Option<seq<Node>>, l: Ledger, a: Area, n: int): (j: int)
    requires AnswersArePaths(edges, sp) && LedgerValid(l) && 0 <= n <= |l.order|
    ensures -1 <= j < n
    ensures j >= 0 ==> OfferAt(edges, sp, l, a, j).Some?
    decreases n
  {
    if n == 0 then -1
    else
      var j := Pick(edges, sp, l, a, n - 1);
      var o := OfferAt(edges, sp, l, a, n - 1);
      if o.Some? && (j == -1 || o.value.time < OfferAt(edges, sp, l, a, j).value.time) then n - 1 else j
  }

  /** The kept offer is the fastest of the first `n`, and on a tie the
      earliest, since a later offer replaces the kept one only when strictly
      faster; -1 means none of them made an offer. */
  lemma {:induction false} PickSpec(edges: EdgeMap, sp: (Node, Node) -> Option<seq<Node>>, l: Ledger, a: Area, n: int)
    requires AnswersArePaths(edges, sp) && LedgerValid(l) && 0 <= n <= |l.order|
    ensures var j := Pick(edges, sp, l, a, n);
      (j == -1 ==> forall i :: 0 <= i < n ==> OfferAt(edges, sp, l, a, i).None?) &&
      (j >= 0 ==> OfferAt(edges, sp, l, a, j).Some?) &&
      (j >= 0 ==> forall i :: 0 <= i < n && OfferAt(edges, sp, l, a, i).Some? ==>
        OfferAt(edges, sp, l, a, j).value.time <= OfferAt(edges, sp, l, a, i).value.time) &&
      (j >= 0 ==> forall i :: 0 <= i < j && OfferAt(edges, sp, l, a, i).Some? ==>
        OfferAt(edges, sp, l, a, j).value.time < OfferAt(edges, sp, l, a, i).value.time)
    decreases n
  {
    if n > 0 {
      PickSpec(edges, sp, l, a, n - 1);
    }
  }

  /** The center chosen for area `a`, with its route and travel time; `None`
      when no center can serve the area. */
  function Select(edges: EdgeMap, sp: (Node, Node) -> Option<seq<Node>>, l: Ledger, a: Area): (c: Option<Choice>)
    requires AnswersArePaths(edges, sp) && LedgerValid(l)
  {
    var j := Pick(edges, sp, l, a, |l.order|);
    if j < 0 then None else OfferAt(edges, sp, l, a, j)
  }

  /** The chosen center has a free vehicle and half of each need, the route
      leads from it to the area and the time is the route's weight; no center
      of the ledger offers a shorter time, and every center before it in the
      ledger offers a strictly longer one. No choice means no center of the
      ledger makes an offer. */
  lemma SelectSpec(edges: EdgeMap, sp: (Node, Node) -> Option<seq<Node>>, l: Ledger, a: Area)
    requires AnswersArePaths(edges, sp) && LedgerValid(l)
    ensures Select(edges, sp, l, a).None? <==>
      forall i :: 0 <= i < |l.order| ==> OfferAt(edges, sp, l, a, i).None?
    ensures Select(edges, sp, l, a).Some? ==>
      var c := Select(edges, sp, l, a).value;
      c.center in l.holdings &&
      l.holdings[c.center].vehicles > 0 && Enough(l.holdings[c.center].stock, a.need) &&
      IsPath(edges, c.route, CenterNode(c.center), AreaNode(a.id)) &&
      c.time == PathCost(edges, c.route) &&
      (forall i :: 0 <= i < |l.order| && OfferAt(edges, sp, l, a, i).Some? ==>
        c.time <= OfferAt(edges, sp, l, a, i).value.time) &&
      (forall i :: 0 <= i < |l.order| && l.order[i] == c.center ==>
        forall i' :: 0 <= i' < i && OfferAt(edges, sp, l, a, i').Some? ==>
          c.time < OfferAt(edges, sp, l, a, i').value.time)
  {
    var j := Pick(edges, sp, l, a, |l.order|);
    PickSpec(edges, sp, l, a, |l.order|);
    if j >= 0 {
      var c := OfferAt(edges, sp, l, a, j).value;
      forall i | 0 <= i < |l.order| && l.order[i] == c.center
        ensures i == j
      {
      }
    }
  }

  /** With an exact shortest-path query, the chosen time is the least weight
      of any path to the area from any center with a free vehicle and half of
      each need; and the area goes unserved exactly when no such center can
      reach it. */
  lemma SelectShortest(edges: EdgeMap, sp: (Node, Node) -> Option<seq<Node>>, l: Ledger, a: Area, id: int, q: seq<Node>)
    requires ShortestPathOracle(edges, sp) && LedgerValid(l)
    requires id in l.holdings && l.holdings[id].vehicles > 0 && Enough(l.holdings[id].stock, a.need)
    requires IsPath(edges, q, CenterNode(id), AreaNode(a.id))
    ensures AnswersArePaths(edges, sp)
    ensures Select(edges, sp, l, a).Some?
    ensures Select(edges, sp, l, a).value.time <= PathCost(edges, q)
  {
    SelectSpec(edges, sp, l, a);
    var i :| 0 <= i < |l.order| && l.order[i] == id;
    assert !Unreachable(edges, CenterNode(id), AreaNode(a.id));
    var o := OfferAt(edges, sp, l, a, i);
    assert o.Some?;
    assert IsShortestPath(edges, o.value.route, CenterNode(id), AreaNode(a.id));
  }

  /** Per kind of supply, the need capped by the stock: `min(need, stock)`. */
  function Shipment(stock: Supplies, need: Supplies): (s: Supplies)
    ensures forall r :: Amount(s, r) <= Amount(need, r) && Amount(s, r) <= Amount(stock, r)
    ensures forall r :: Amount(s, r) == Amount(need, r) || Amount(s, r) == Amount(stock, r)
  {
    Supplies(Min(need.water, stock.water), Min(need.food, stock.food), Min(need.medicine, stock.medicine))
  }

  function Plus(a: Supplies, b: Supplies): Supplies
  {
    Supplies(a.water + b.water, a.food + b.food, a.medicine + b.medicine)
  }

  function Minus(a: Supplies, b: Supplies): Supplies
  {
    Supplies(a.water - b.water, a.food - b.food, a.medicine - b.medicine)
  }

  /** One entry of the allocation plan. */
  datatype Delivery = Delivery(center: int, area: int, level: Option<Level>, people: int, shipped: Supplies, route: seq<Node>, time: real)

  /** The delivery travels along a path from its center to its area, and its
      time is that path's total weight. */
  ghost predicate Routed(edges: EdgeMap, d: Delivery)
  {
    IsPath(edges, d.route, CenterNode(d.center), AreaNode(d.area)) && d.time == PathCost(edges, d.route)
  }

  /** `d` may be listed after `e`: `e`'s area is not outranked by `d`'s. */
  predicate NotAhead(d: Delivery, e: Delivery)
  {
    TierRank(d.level) < TierRank(e.level) ||
    (TierRank(d.level) == TierRank(e.level) && d.people <= e.people)
  }

  /** Serving area `a`: the delivery from the chosen center, if any, and the
      ledger after that center has shipped the supplies and sent a vehicle. */
  function Step(edges: EdgeMap, sp: (Node, Node) -> Option<seq<Node>>, l: Ledger, a: Area): (r: (Option<Delivery>, Ledger))
    requires AnswersArePaths(edges, sp) && LedgerValid(l)
    ensures LedgerValid(r.1) && r.1.order == l.order
  {
    SelectSpec(edges, sp, l, a);
    match Select(edges, sp, l, a)
    case None => (None, l)
    case Some(c) =>
      var h := l.holdings[c.center];
      var s := Shipment(h.stock, a.need);
      (Some(Delivery(c.center, a.id, a.level, a.population, s, c.route, c.time)),
       Ledger(l.order, l.holdings[c.center := Holdings(Minus(h.stock, s), h.vehicles - 1)]))
  }

  /** An area goes unserved exactly when no center is selected, and then the
      ledger is unchanged. A delivery names the area, its label and
      population; it comes from a center with a free vehicle over a path from
      that center to the area, timed by the path's weight; it ships the need
      capped by the center's stock, and that center alone loses the shipment
      and one vehicle. */
  lemma StepSpec(edges: EdgeMap, sp: (Node, Node) -> Option<seq<Node>>, l: Ledger, a: Area)
    requires AnswersArePaths(edges, sp) && LedgerValid(l)
    ensures var r := Step(edges, sp, l, a);
      (r.0.None? <==> Select(edges, sp, l, a).None?) &&
      (r.0.None? ==> r.1 == l) &&
      (r.0.Some? ==>
        var d := r.0.value;
        d.center in l.holdings &&
        d.area == a.id && d.level == a.level && d.people == a.population &&
        IsPath(edges, d.route, CenterNode(d.center), AreaNode(d.area)) &&
        d.time == PathCost(edges, d.route) &&
        d.shipped == Shipment(l.holdings[d.center].stock, a.need) &&
        l.holdings[d.center].vehicles > 0 &&
        r.1.holdings == l.holdings[d.center := Holdings(Minus(l.holdings[d.center].stock, d.shipped), l.holdings[d.center].vehicles - 1)])
  {
    SelectSpec(edges, sp, l, a);
  }

  /** The plan and the final ledger after serving `areas` in order. */
  function Plan(edges: EdgeMap, sp: (Node, Node) -> Option<seq<Node>>, areas: seq<Area>, l: Ledger): (r: (seq<Delivery>, Ledger))
    requires AnswersArePaths(edges, sp) && LedgerValid(l)
    ensures LedgerValid(r.1) && r.1.order == l.order
    decreases |areas|
  {
    if areas == [] then ([], l)
    else
      var prev := Plan(edges, sp, areas[..|areas| - 1], l);
      var step := Step(edges, sp, prev.1, areas[|areas| - 1]);
      (prev.0 + (if step.0.Some? then [step.0.value] else []), step.1)
  }

  /** Every entry of the plan comes from a center of the ledger, along a path
      from that center to the area, timed by the path's weight. */
  lemma {:induction false} PlanRoutes(edges: EdgeMap, sp: (Node, Node) -> Option<seq<Node>>, areas: seq<Area>, l: Ledger)
    requires AnswersArePaths(edges, sp) && LedgerValid(l)
    ensures var plan := Plan(edges, sp, areas, l).0;
      |plan| <= |areas| &&
      forall k :: 0 <= k < |plan| ==>
        plan[k].center in l.holdings && Routed(edges, plan[k])
    decreases |areas|
  {
    if areas != [] {
      var n := |areas| - 1;
      PlanRoutes(edges, sp, areas[..n], l);
      PlanSnoc(edges, sp, areas, n, l);
      assert areas[..n + 1] == areas;
      var prev := Plan(edges, sp, areas[..n], l);
      StepSpec(edges, sp, prev.1, areas[n]);
    }
  }

  /** Serving one more area extends the plan by that area's delivery, if
      any. */
  lemma PlanSnoc(edges: EdgeMap, sp: (Node, Node) -> Option<seq<Node>>, areas: seq<Area>, i: int, l: Ledger)
    requires AnswersArePaths(edges, sp) && LedgerValid(l) && 0 <= i < |areas|
    ensures var prev := Plan(edges, sp, areas[..i], l);
      var step := Step(edges, sp, prev.1, areas[i]);
      Plan(edges, sp, areas[..i + 1], l) == (prev.0 + (if step.0.Some? then [step.0.value] else []), step.1)
  {
    assert areas[..i + 1][..i] == areas[..i];
  }

  /** Positions in `areas` of the areas that receive a delivery, in plan
      order. */
  function ServedRows(edges: EdgeMap, sp: (Node, Node) -> Option<seq<Node>>, areas: seq<Area>, l: Ledger): seq<int>
    requires AnswersArePaths(edges, sp) && LedgerValid(l)
    decreases |areas|
  {
    if areas == [] then []
    else
      var n := |areas| - 1;
      var prev := Plan(edges, sp, areas[..n], l);
      ServedRows(edges, sp, areas[..n], l) + if Step(edges, sp, prev.1, areas[n]).0.Some? then [n] else []
  }

  /** Delivery `d` is for area `a`: it carries the area's id, label and
      population and ships no more of any supply than the area needs. */
  predicate Serves(d: Delivery, a: Area)
  {
    d.area == a.id && d.level == a.level && d.people == a.population &&
    d.shipped.water <= a.need.water && d.shipped.food <= a.need.food && d.shipped.medicine <= a.need.medicine
  }

  /** One served position per plan entry, each a position of the table,
      strictly increasing: each area is served at most once, in table order. */
  lemma {:induction false} ServedRowsOrdered(edges: EdgeMap, sp: (Node, Node) -> Option<seq<Node>>, areas: seq<Area>, l: Ledger)
    requires AnswersArePaths(edges, sp) && LedgerValid(l)
    ensures var idx := ServedRows(edges, sp, areas, l);
      |idx| == |Plan(edges, sp, areas, l).0| &&
      (forall k :: 0 <= k < |idx| ==> 0 <= idx[k] < |areas|) &&
      (forall k, m :: 0 <= k < m < |idx| ==> idx[k] < idx[m])
    decreases |areas|
  {
    if areas != [] {
      var n := |areas| - 1;
      ServedRowsOrdered(edges, sp, areas[..n], l);
      PlanSnoc(edges, sp, areas, n, l);
      assert areas[..n + 1] == areas;
      var prev := Plan(edges, sp, areas[..n], l);
      var prevIdx := ServedRows(edges, sp, areas[..n], l);
      var idx := ServedRows(edges, sp, areas, l);
      var tail := if Step(edges, sp, prev.1, areas[n]).0.Some? then [n] else [];
      assert idx == prevIdx + tail;
      forall k | 0 <= k < |idx| ensures 0 <= idx[k] < |areas| && (k < |prevIdx| ==> idx[k] < n) {
        if k < |prevIdx| {
          assert idx[k] == prevIdx[k];
        }
      }
      forall k, m | 0 <= k < m < |idx| ensures idx[k] < idx[m] {
        assert idx[k] == prevIdx[k];
        if m < |prevIdx| {
          assert idx[m] == prevIdx[m];
        }
      }
    }
  }

  /** Each entry of the plan is for the area at its served position. */
  lemma {:induction false} ServedRowsSpec(edges: EdgeMap, sp: (Node, Node) -> Option<seq<Node>>, areas: seq<Area>, l: Ledger)
    requires AnswersArePaths(edges, sp) && LedgerValid(l)
    ensures var idx := ServedRows(edges, sp, areas, l);
      var plan := Plan(edges, sp, areas, l).0;
      |idx| == |plan| &&
      (forall k :: 0 <= k < |idx| ==> 0 <= idx[k] < |areas|) &&
      forall k :: 0 <= k < |idx| ==> Serves(plan[k], areas[idx[k]])
    decreases |areas|
  {
    ServedRowsOrdered(edges, sp, areas, l);
    if areas != [] {
      var n := |areas| - 1;
      ServedRowsSpec(edges, sp, areas[..n], l);
      PlanSnoc(edges, sp, areas, n, l);
      assert areas[..n + 1] == areas;
      var prev := Plan(edges, sp, areas[..n], l);
      var prevIdx := ServedRows(edges, sp, areas[..n], l);
      var step := Step(edges, sp, prev.1, areas[n]);
      var plan := Plan(edges, sp, areas, l).0;
      var idx := ServedRows(edges, sp, areas, l);
      if step.0.Some? {
        var d := step.0.value;
        assert idx == prevIdx + [n];
        assert plan == prev.0 + [d];
        StepServes(edges, sp, prev.1, areas[n]);
        forall k | 0 <= k < |idx| ensures Serves(plan[k], areas[idx[k]]) {
          if k < |prevIdx| {
            assert plan[k] == prev.0[k] && idx[k] == prevIdx[k];
            assert areas[..n][prevIdx[k]] == areas[prevIdx[k]];
          }
        }
      } else {
        assert idx == prevIdx && plan == prev.0;
        forall k | 0 <= k < |idx| ensures Serves(plan[k], areas[idx[k]]) {
          assert areas[..n][idx[k]] == areas[idx[k]];
        }
      }
    }
  }

  /** A delivery made for an area serves that area. */
  lemma StepServes(edges: EdgeMap, sp: (Node, Node) -> Option<seq<Node>>, l: Ledger, a: Area)
    requires AnswersArePaths(edges, sp) && LedgerValid(l)
    ensures Step(edges, sp, l, a).0.Some? ==> Serves(Step(edges, sp, l, a).0.value, a)
  {
    StepSpec(edges, sp, l, a);
    var r := Step(edges, sp, l, a);
    if r.0.Some? {
      var d := r.0.value;
      assert Amount(d.shipped, Water) <= Amount(a.need, Water);
      assert Amount(d.shipped, Food) <= Amount(a.need, Food);
      assert Amount(d.shipped, Medicine) <= Amount(a.need, Medicine);
    }
  }

  /** Areas given in priority order are served in priority order. */
  lemma PlanByPriority(edges: EdgeMap, sp: (Node, Node) -> Option<seq<Node>>, areas: seq<Area>, l: Ledger)
    requires AnswersArePaths(edges, sp) && LedgerValid(l)
    requires ByPriority(areas)
    ensures var plan := Plan(edges, sp, areas, l).0;
      forall k, m :: 0 <= k < m < |plan| ==> NotAhead(plan[m], plan[k])
  {
    var plan := Plan(edges, sp, areas, l).0;
    var idx := ServedRows(edges, sp, areas, l);
    ServedRowsOrdered(edges, sp, areas, l);
    ServedRowsSpec(edges, sp, areas, l);
    forall k, m | 0 <= k < m < |plan| ensures NotAhead(plan[m], plan[k]) {
      assert !Outranks(areas[idx[m]], areas[idx[k]]);
    }
  }

  /** Total shipped by center `cid` over a plan. */
  function ShippedFrom(plan: seq<Delivery>, cid: int): Supplies
    decreases |plan|
  {
    if plan == [] then Supplies(0, 0, 0)
    else
      var s := ShippedFrom(plan[..|plan| - 1], cid);
      if plan[|plan| - 1].center == cid then Plus(s, plan[|plan| - 1].shipped) else s
  }

  /** Number of deliveries made by center `cid` in a plan. */
  function TripsFrom(plan: seq<Delivery>, cid: int): int
    decreases |plan|
  {
    if plan == [] then 0
    else TripsFrom(plan[..|plan| - 1], cid) + (if plan[|plan| - 1].center == cid then 1 else 0)
  }

  /** One step moves the shipment and one vehicle out of the serving
      center's holdings and leaves every other center alone. */
  lemma StepConserves(edges: EdgeMap, sp: (Node, Node) -> Option<seq<Node>>, l: Ledger, a: Area, cid: int)
    requires AnswersArePaths(edges, sp) && LedgerValid(l) && cid in l.holdings
    ensures var r := Step(edges, sp, l, a);
      var sent := if r.0.Some? && r.0.value.center == cid then r.0.value.shipped else Supplies(0, 0, 0);
      var trips := if r.0.Some? && r.0.value.center == cid then 1 else 0;
      Plus(r.1.holdings[cid].stock, sent) == l.holdings[cid].stock &&
      r.1.holdings[cid].vehicles + trips == l.holdings[cid].vehicles
  {
    StepSpec(edges, sp, l, a);
  }

  lemma PlusRegroup(a: Supplies, x: Supplies, s: Supplies)
    ensures Plus(a, Plus(s, x)) == Plus(Plus(a, x), s)
  {
  }

  /** Nothing is created or lost: each center ends with its initial stock less
      what it shipped, and its initial vehicles less its trips. */
  lemma {:induction false} PlanConserves(edges: EdgeMap, sp: (Node, Node) -> Option<seq<Node>>, areas: seq<Area>, l: Ledger, cid: int)
    requires AnswersArePaths(edges, sp) && LedgerValid(l) && cid in l.holdings
    ensures var r := Plan(edges, sp, areas, l);
      Plus(r.1.holdings[cid].stock, ShippedFrom(r.0, cid)) == l.holdings[cid].stock &&
      r.1.holdings[cid].vehicles + TripsFrom(r.0, cid) == l.holdings[cid].vehicles
    decreases |areas|
  {
    if areas != [] {
      var n := |areas| - 1;
      PlanConserves(edges, sp, areas[..n], l, cid);
      PlanSnoc(edges, sp, areas, n, l);
      assert areas[..n + 1] == areas;
      var prev := Plan(edges, sp, areas[..n], l);
      var step := Step(edges, sp, prev.1, areas[n]);
      StepConserves(edges, sp, prev.1, areas[n], cid);
      var plan := Plan(edges, sp, areas, l).0;
      var before := prev.1.holdings[cid];
      var after := step.1.holdings[cid];
      if step.0.Some? {
        var d := step.0.value;
        assert plan == prev.0 + [d];
        assert plan[..|plan| - 1] == prev.0;
        if d.center == cid {
          assert ShippedFrom(plan, cid) == Plus(ShippedFrom(prev.0, cid), d.shipped);
          assert TripsFrom(plan, cid) == TripsFrom(prev.0, cid) + 1;
          assert Plus(after.stock, d.shipped) == before.stock;
          PlusRegroup(after.stock, d.shipped, ShippedFrom(prev.0, cid));
        } else {
          assert ShippedFrom(plan, cid) == ShippedFrom(prev.0, cid);
          assert TripsFrom(plan, cid) == TripsFrom(prev.0, cid);
          assert after == before;
        }
      } else {
        assert plan == prev.0;
        assert after == before;
      }
    }
  }

  predicate NonNegative(s: Supplies)
  {
    s.water >= 0 && s.food >= 0 && s.medicine >= 0
  }

  /** Every center has a non-negative stock and fleet. */
  predicate Solvent(l: Ledger)
  {
    forall id :: id in l.holdings ==> l.holdings[id].vehicles >= 0 && NonNegative(l.holdings[id].stock)
  }

  /** The stock left after a shipment is never negative, and a shipment
      from a non-negative stock for a non-negative need is not negative. */
  lemma ShipmentBounds(stock: Supplies, need: Supplies)
    ensures NonNegative(Minus(stock, Shipment(stock, need)))
    ensures NonNegative(stock) && NonNegative(need) ==> NonNegative(Shipment(stock, need))
  {
    assert Amount(Shipment(stock, need), Water) <= Amount(stock, Water);
    assert Amount(Shipment(stock, need), Food) <= Amount(stock, Food);
    assert Amount(Shipment(stock, need), Medicine) <= Amount(stock, Medicine);
  }

  lemma StepStaysSolvent(edges: EdgeMap, sp: (Node, Node) -> Option<seq<Node>>, l: Ledger, a: Area)
    requires AnswersArePaths(edges, sp) && LedgerValid(l) && Solvent(l)
    ensures Solvent(Step(edges, sp, l, a).1)
    ensures NonNegative(a.need) && Step(edges, sp, l, a).0.Some? ==> NonNegative(Step(edges, sp, l, a).0.value.shipped)
  {
    StepSpec(edges, sp, l, a);
    var r := Step(edges, sp, l, a);
    if r.0.Some? {
      var h := l.holdings[r.0.value.center];
      ShipmentBounds(h.stock, a.need);
    }
  }

  predicate NeedsNonNegative(areas: seq<Area>)
  {
    forall i :: 0 <= i < |areas| ==> NonNegative(areas[i].need)
  }

  predicate ShipmentsNonNegative(plan: seq<Delivery>)
  {
    forall k :: 0 <= k < |plan| ==> NonNegative(plan[k].shipped)
  }

  /** Starting from non-negative stocks and fleets, no center ever ships more
      than it holds or sends a vehicle it does not have; with non-negative
      needs, every shipment is non-negative too. */
  lemma {:induction false} PlanStaysSolvent(edges: EdgeMap, sp: (Node, Node) -> Option<seq<Node>>, areas: seq<Area>, l: Ledger)
    requires AnswersArePaths(edges, sp) && LedgerValid(l) && Solvent(l)
    ensures Solvent(Plan(edges, sp, areas, l).1)
    ensures NeedsNonNegative(areas) ==> ShipmentsNonNegative(Plan(edges, sp, areas, l).0)
    decreases |areas|
  {
    if areas != [] {
      var n := |areas| - 1;
      PlanStaysSolvent(edges, sp, areas[..n], l);
      PlanSnoc(edges, sp, areas, n, l);
      assert areas[..n + 1] == areas;
      var prev := Plan(edges, sp, areas[..n], l);
      var step := Step(edges, sp, prev.1, areas[n]);
      StepStaysSolvent(edges, sp, prev.1, areas[n]);
      var plan := Plan(edges, sp, areas, l).0;
      assert plan == prev.0 + (if step.0.Some? then [step.0.value] else []);
      if NeedsNonNegative(areas) {
        assert NeedsNonNegative(areas[..n]) by {
          assert forall i :: 0 <= i < n ==> areas[..n][i] == areas[i];
        }
        assert NonNegative(areas[n].need);
        assert ShipmentsNonNegative(prev.0);
      }
    }
  }

  /** Loads the centers table into the allocator's table, row by row. */
  method LoadCenters(centers: seq<Center>) returns (ids: seq<int>, holdings: map<int, Holdings>)
    ensures Ledger(ids, holdings) == LedgerOf(centers)
  {
    ids := [];
    holdings := map[];
    for i := 0 to |centers|
      invariant Ledger(ids, holdings) == LedgerOf(centers[..i])
    {
      var c := centers[i];
      assert centers[..i + 1][..i] == centers[..i];
      if c.id !in holdings {
        ids := ids + [c.id];
      }
      holdings := holdings[c.id := Holdings(c.stock, c.vehicles)];
    }
    assert centers[..|centers|] == centers;
  }

  /** Scans the centers in table order for the fastest one that can serve
      area `a`, keeping the current best unless a strictly faster one turns
      up. */
  method FindCenter(g: Graph, sp: (Node, Node) -> Option<seq<Node>>, ids: seq<int>, holdings: map<int, Holdings>, a: Area)
    returns (best: Option<Choice>)
    requires AnswersArePaths(g.edges, sp) && LedgerValid(Ledger(ids, holdings))
    ensures best == Select(g.edges, sp, Ledger(ids, holdings), a)
  {
    ghost var l := Ledger(ids, holdings);
    best := None;
    for k := 0 to |ids|
      invariant best == (var j := Pick(g.edges, sp, l, a, k); if j < 0 then None else OfferAt(g.edges, sp, l, a, j))
    {
      var cid := ids[k];
      var h := holdings[cid];
      if h.vehicles <= 0 {
        continue;
      }
      if !Enough(h.stock, a.need) {
        continue;
      }
      var route := sp(CenterNode(cid), AreaNode(a.id));
      if route.None? {
        continue;
      }
      var time := PathCost(g.edges, route.value);
      if best.None? || time < best.value.time {
        best := Some(Choice(cid, route.value, time));
      }
    }
  }

  /** One round of the main loop: finds the center for area `a` and, if
      there is one, ships the need capped by its stock and takes one of its
      vehicles. */
  method ServeArea(g: Graph, sp: (Node, Node) -> Option<seq<Node>>, ids: seq<int>, holdings: map<int, Holdings>, a: Area)
    returns (delivery: Option<Delivery>, after: map<int, Holdings>)
    requires AnswersArePaths(g.edges, sp) && LedgerValid(Ledger(ids, holdings))
    ensures (delivery, Ledger(ids, after)) == Step(g.edges, sp, Ledger(ids, holdings), a)
  {
    var best := FindCenter(g, sp, ids, holdings, a);
    delivery, after := None, holdings;
    if best.Some? {
      var c := best.value;
      var h := holdings[c.center];
      var shipped := Shipment(h.stock, a.need);
      after := holdings[c.center := Holdings(Minus(h.stock, shipped), h.vehicles - 1)];
      delivery := Some(Delivery(c.center, a.id, a.level, a.population, shipped, c.route, c.time));
    }
  }

  /** `alocar_recursos`: sorts the areas by priority, loads the centers table,
      then serves each area from the fastest center that can serve it. */
  method Allocate(g: Graph, sp: (Node, Node) -> Option<seq<Node>>, areas: seq<Area>, centers: seq<Center>)
    returns (plan: seq<Delivery>)
    requires AnswersArePaths(g.edges, sp)
    ensures plan == Plan(g.edges, sp, SortByPriority(areas), LedgerOf(centers)).0
    ensures |plan| <= |areas|
    ensures forall k, m :: 0 <= k < m < |plan| ==> NotAhead(plan[m], plan[k])
    ensures forall k :: 0 <= k < |plan| ==> FromTables(plan[k], areas, centers) && Routed(g.edges, plan[k])
  {
    var order := SortByPriority(areas);
    var ids, holdings := LoadCenters(centers);
    ghost var start := Ledger(ids, holdings);

    plan := [];
    for i := 0 to |order|
      invariant (plan, Ledger(ids, holdings)) == Plan(g.edges, sp, order[..i], start)
    {
      var a := order[i];
      PlanSnoc(g.edges, sp, order, i, start);
      ghost var before := Ledger(ids, holdings);
      ghost var served := plan;
      var delivery;
      delivery, holdings := ServeArea(g, sp, ids, holdings, a);
      if delivery.Some? {
        plan := plan + [delivery.value];
      }
      assert Plan(g.edges, sp, order[..i], start) == (served, before);
      assert (delivery, Ledger(ids, holdings)) == Step(g.edges, sp, before, order[i]);
      assert plan == served + (if delivery.Some? then [delivery.value] else []);
    }
    assert order[..|order|] == order;
    PlanByPriority(g.edges, sp, order, start);
    PlanRoutes(g.edges, sp, order, start);
    PlanFromTables(g.edges, sp, areas, centers);
  }

  /** The delivery comes from a center of the centers table and goes to an
      area of the areas table. */
  ghost predicate FromTables(d: Delivery, areas: seq<Area>, centers: seq<Center>)
  {
    (exists i :: 0 <= i < |centers| && centers[i].id == d.center) &&
    (exists i :: 0 <= i < |areas| && areas[i].id == d.area)
  }

  /** Every entry of the plan built from the two tables names a center and an
      area of those tables. */
  lemma PlanFromTables(edges: EdgeMap, sp: (Node, Node) -> Option<seq<Node>>, areas: seq<Area>, centers: seq<Center>)
    requires AnswersArePaths(edges, sp)
    ensures var plan := Plan(edges, sp, SortByPriority(areas), LedgerOf(centers)).0;
      forall k :: 0 <= k < |plan| ==> FromTables(plan[k], areas, centers)
  {
    var order := SortByPriority(areas);
    var start := LedgerOf(centers);
    var plan := Plan(edges, sp, order, start).0;
    PlanRoutes(edges, sp, order, start);
    ServedRowsSpec(edges, sp, order, start);
    var idx := ServedRows(edges, sp, order, start);
    forall k | 0 <= k < |plan| ensures FromTables(plan[k], areas, centers) {
      LedgerOfSpec(centers, plan[k].center);
      assert centers[LastRow(centers, plan[k].center)].id == plan[k].center;
      assert order[idx[k]] in multiset(areas);
      var i :| 0 <= i < |areas| && areas[i] == order[idx[k]];
      assert areas[i].id == plan[k].area;
    }
  }
}
