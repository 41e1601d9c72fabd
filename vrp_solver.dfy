/**
 * The naive nearest-neighbour router and the early checks of the OR-Tools
 * entry point. Vehicles are filled one at a time from the depot; each step
 * takes the closest unvisited customer that still fits the capacity, its time
 * window, the depot's closing time and the maximum route duration.
 */
module VrpSolver {
  import opened Wrappers
  import opened DataUtils

  /** The inputs of run_naive_solution other than the vehicle count. */
  datatype Problem = Problem(
    stops: seq<Stop>,
    dist: Matrix,          // km
    time: Matrix,          // minutes
    capacity: Option<real>,
    maxHours: Option<real>,
    depotOpen: int,        // minutes from midnight
    depotClose: int)

  predicate HasDepot(stops: seq<Stop>) {
    exists i :: 0 <= i < |stops| && stops[i].isDepot
  }

  ghost predicate Valid(p: Problem) {
    HasDepot(p.stops) && IsSquare(p.dist, |p.stops|) && IsSquare(p.time, |p.stops|)
  }

  function FirstDepotFrom(stops: seq<Stop>, k: nat): (d: nat)
    requires k <= |stops| && exists i :: k <= i < |stops| && stops[i].isDepot
    ensures k <= d < |stops| && stops[d].isDepot
    ensures forall i :: k <= i < d ==> !stops[i].isDepot
    decreases |stops| - k
  {
    if stops[k].isDepot then k else FirstDepotFrom(stops, k + 1)
  }

  /** `df[df['is_depot']].index[0]`: the first depot row. */
  function DepotIndex(stops: seq<Stop>): (d: nat)
    requires HasDepot(stops)
    ensures d < |stops| && stops[d].isDepot
  {
    FirstDepotFrom(stops, 0)
  }

  /** The rows that are not depots: the router's initial `unvisited` set. */
  function Customers(stops: seq<Stop>): set<nat> {
    set i: nat | i < |stops| && !stops[i].isDepot
  }

  function TotalDemand(stops: seq<Stop>): real {
    if stops == [] then 0.0 else TotalDemand(stops[..|stops| - 1]) + stops[|stops| - 1].demand
  }

  /** Capacity is enforced only when one is given and the demand column sums to more than 0. */
  predicate UsesCapacity(p: Problem) {
    p.capacity.Some? && TotalDemand(p.stops) > 0.0
  }

  /** Time windows, depot closing and the duration cap are checked only when a duration is given. */
  predicate UsesDuration(p: Problem) {
    p.maxHours.Some?
  }

  ghost predicate Below(p: Problem, avail: set<nat>) {
    forall c :: c in avail ==> c < |p.stops|
  }

  ghost predicate InRange(p: Problem, xs: seq<nat>) {
    forall k :: 0 <= k < |xs| ==> xs[k] < |p.stops|
  }

  function Elems(xs: seq<nat>): set<nat> {
    set x | x in xs
  }

  // ---------------------------------------------------------------------
  // One vehicle's state and the feasibility test of a candidate
  // ---------------------------------------------------------------------

  /** Where the vehicle is (`route[-1]`), its `current_capacity` and its `current_time`. */
  datatype VehicleState = VehicleState(at: nat, load: real, clock: real)

  function Start(p: Problem): VehicleState
    requires HasDepot(p.stops)
  {
    VehicleState(DepotIndex(p.stops), 0.0, p.depotOpen as real)
  }

  /** Arrival at `next`, raised to its earliest time when the vehicle would be early. */
  function Arrival(p: Problem, s: VehicleState, next: nat): real
    requires Valid(p) && s.at < |p.stops| && next < |p.stops|
  {
    var a := s.clock + p.time[s.at][next];
    var e := p.stops[next].earliest;
    if e.Some? && a < e.value as real then e.value as real else a
  }

  /** Service at `next` done, then straight back to the depot. */
  function ReturnTime(p: Problem, s: VehicleState, next: nat): real
    requires Valid(p) && s.at < |p.stops| && next < |p.stops|
  {
    Arrival(p, s, next) + p.stops[next].serviceTime + p.time[next][DepotIndex(p.stops)]
  }

  /** The checks a candidate must pass before its distance is even compared. */
  ghost predicate Feasible(p: Problem, s: VehicleState, next: nat)
    requires Valid(p) && s.at < |p.stops| && next < |p.stops|
  {
    && (UsesCapacity(p) ==> s.load + p.stops[next].demand <= p.capacity.value)
    && (UsesDuration(p) ==>
          && (p.stops[next].latest.Some? ==> Arrival(p, s, next) <= p.stops[next].latest.value as real)
          && ReturnTime(p, s, next) <= p.depotClose as real
          && ReturnTime(p, s, next) - p.depotOpen as real <= p.maxHours.value * 60.0)
  }

  /** The vehicle's state once `next` is appended; each accumulator moves only when its constraint is in use. */
  function Advance(p: Problem, s: VehicleState, next: nat): VehicleState
    requires Valid(p) && s.at < |p.stops| && next < |p.stops|
  {
    VehicleState(
      next,
      if UsesCapacity(p) then s.load + p.stops[next].demand else s.load,
      if UsesDuration(p) then Arrival(p, s, next) + p.stops[next].serviceTime else s.clock)
  }

  ghost predicate Stuck(p: Problem, s: VehicleState, avail: set<nat>)
    requires Valid(p) && s.at < |p.stops| && Below(p, avail)
  {
    forall c :: c in avail ==> !Feasible(p, s, c)
  }

  /** `next` is a feasible candidate at least as close as every other feasible one. */
  ghost predicate GreedyChoice(p: Problem, s: VehicleState, avail: set<nat>, next: nat)
    requires Valid(p) && s.at < |p.stops| && Below(p, avail)
  {
    && next in avail
    && Feasible(p, s, next)
    && forall c :: c in avail && Feasible(p, s, c) ==> p.dist[s.at][next] <= p.dist[s.at][c]
  }

  // ---------------------------------------------------------------------
  // What a route and a whole plan built by the router look like
  // ---------------------------------------------------------------------

  /** The state after visiting `inner` from the depot. */
  function StateAfter(p: Problem, inner: seq<nat>): (s: VehicleState)
    requires Valid(p) && InRange(p, inner)
    ensures s.at < |p.stops|
  {
    if inner == [] then Start(p)
    else Advance(p, StateAfter(p, inner[..|inner| - 1]), inner[|inner| - 1])
  }

  /** Every stop of `inner` was the greedy choice among the stops of `avail` not yet taken. */
  ghost predicate GreedyInterior(p: Problem, inner: seq<nat>, avail: set<nat>)
    requires Valid(p) && Below(p, avail)
  {
    if inner == [] then true
    else
      var init := inner[..|inner| - 1];
      && GreedyInterior(p, init, avail)
      && InRange(p, init)
      && GreedyChoice(p, StateAfter(p, init), avail - Elems(init), inner[|inner| - 1])
  }

  /** The stops strictly between a route's two depot visits. */
  function Interior(r: seq<nat>): seq<nat> {
    if |r| >= 2 then r[1..|r| - 1] else []
  }

  /**
   * One vehicle's route: depot-bracketed, greedy inside, and closed only when
   * every stop of `avail` is taken or none of the rest is feasible.
   */
  ghost predicate GreedyRoute(p: Problem, route: seq<nat>, avail: set<nat>)
    requires Valid(p) && Below(p, avail)
  {
    && |route| >= 2
    && route[0] == DepotIndex(p.stops)
    && route[|route| - 1] == DepotIndex(p.stops)
    && GreedyInterior(p, Interior(route), avail)
    && InRange(p, Interior(route))
    && (avail - Elems(Interior(route)) == {} || Stuck(p, StateAfter(p, Interior(route)), avail - Elems(Interior(route))))
  }

  /** Every stop visited by some route. */
  function Visited(routes: seq<seq<nat>>): set<nat> {
    if routes == [] then {} else Visited(routes[..|routes| - 1]) + Elems(Interior(routes[|routes| - 1]))
  }

  /** Routes in vehicle order; each starts while some stop of `avail` is unvisited and is greedy over the rest. */
  ghost predicate GreedyPlan(p: Problem, routes: seq<seq<nat>>, avail: set<nat>)
    requires Valid(p) && Below(p, avail)
  {
    if routes == [] then true
    else
      var init := routes[..|routes| - 1];
      && GreedyPlan(p, init, avail)
      && avail - Visited(init) != {}
      && GreedyRoute(p, routes[|routes| - 1], avail - Visited(init))
  }

  // ---------------------------------------------------------------------
  // The router
  // ---------------------------------------------------------------------

  /** The inner `for next_idx in unvisited` scan: nearest feasible candidate, strict `<` on distance. */
  method PickNearest(p: Problem, current: nat, load: real, clock: real, unvisited: set<nat>) returns (best: Option<nat>)
    requires Valid(p) && current < |p.stops| && Below(p, unvisited)
    ensures best.None? <==> Stuck(p, VehicleState(current, load, clock), unvisited)
    ensures best.Some? ==> GreedyChoice(p, VehicleState(current, load, clock), unvisited, best.value)
  {
    var depot := DepotIndex(p.stops);
    ghost var s := VehicleState(current, load, clock);
    best := None;
    var bestDistance := 0.0;  // stands for float('inf') while best is None
    var todo := unvisited;
    while todo != {}
      invariant todo <= unvisited
      invariant best.None? ==> forall c :: c in unvisited - todo ==> !Feasible(p, s, c)
      invariant best.Some? ==>
                  && best.value in unvisited - todo
                  && Feasible(p, s, best.value)
                  && bestDistance == p.dist[current][best.value]
                  && forall c :: c in unvisited - todo && Feasible(p, s, c) ==> bestDistance <= p.dist[current][c]
      decreases |todo|
    {
      var next :| next in todo;
      todo := todo - {next};
      if UsesCapacity(p) {
        if load + p.stops[next].demand > p.capacity.value {
          continue;
        }
      }
      if UsesDuration(p) {
        var travelTime := p.time[current][next];
        var serviceTime := p.stops[next].serviceTime;
        var arrivalTime := clock + travelTime;
        var earliest := p.stops[next].earliest;
        var latest := p.stops[next].latest;
        if earliest.Some? {
          if arrivalTime < earliest.value as real {
            arrivalTime := earliest.value as real;
          }
        }
        if latest.Some? {
          if arrivalTime > latest.value as real {
            continue;
          }
        }
        var departureTime := arrivalTime + serviceTime;
        var returnTime := departureTime + p.time[next][depot];
        if returnTime > p.depotClose as real || returnTime - p.depotOpen as real > p.maxHours.value * 60.0 {
          continue;
        }
      }
      var dist := p.dist[current][next];
      if best.None? || dist < bestDistance {
        best := Some(next);
        bestDistance := dist;
      }
    }
  }

  /** Appending a greedy choice keeps the interior greedy and advances the state by one step. */
  lemma ExtendInterior(p: Problem, inner: seq<nat>, avail: set<nat>, next: nat)
    requires Valid(p) && Below(p, avail) && InRange(p, inner)
    requires GreedyInterior(p, inner, avail)
    requires GreedyChoice(p, StateAfter(p, inner), avail - Elems(inner), next)
    ensures InRange(p, inner + [next]) && GreedyInterior(p, inner + [next], avail)
    ensures StateAfter(p, inner + [next]) == Advance(p, StateAfter(p, inner), next)
    ensures Elems(inner + [next]) == Elems(inner) + {next}
    ensures avail - Elems(inner + [next]) == (avail - Elems(inner)) - {next}
  {
    assert (inner + [next])[..|inner|] == inner;
  }

  /** The running load and clock once `next` is appended (the "update capacity and time" block). */
  method UpdateState(p: Problem, currentIdx: nat, currentCapacity: real, currentTime: real, next: nat)
    returns (newCapacity: real, newTime: real)
    requires Valid(p) && currentIdx < |p.stops| && next < |p.stops|
    ensures VehicleState(next, newCapacity, newTime) == Advance(p, VehicleState(currentIdx, currentCapacity, currentTime), next)
  {
    newCapacity, newTime := currentCapacity, currentTime;
    if UsesCapacity(p) {
      newCapacity := currentCapacity + p.stops[next].demand;
    }
    if UsesDuration(p) {
      var travelTime := p.time[currentIdx][next];
      var serviceTime := p.stops[next].serviceTime;
      var arrivalTime := currentTime + travelTime;
      var earliest := p.stops[next].earliest;
      if earliest.Some? && arrivalTime < earliest.value as real {
        arrivalTime := earliest.value as real;
      }
      newTime := arrivalTime + serviceTime;
    }
  }

  /** One pass of the `for vehicle_id` loop body: a route from the depot, greedy until stuck or out of stops. */
  method FillVehicle(p: Problem, avail: set<nat>) returns (route: seq<nat>, unvisited: set<nat>)
    requires Valid(p) && Below(p, avail)
    ensures GreedyRoute(p, route, avail)
    ensures unvisited == avail - Elems(Interior(route))
  {
    var depot := DepotIndex(p.stops);
    unvisited := avail;
    var inner: seq<nat> := [];   // route[1:] of the source; route[0] is the depot
    var currentIdx := depot;      // route[-1]
    var currentCapacity := 0.0;
    var currentTime := p.depotOpen as real;
    while unvisited != {}
      invariant InRange(p, inner) && GreedyInterior(p, inner, avail)
      invariant VehicleState(currentIdx, currentCapacity, currentTime) == StateAfter(p, inner)
      invariant unvisited == avail - Elems(inner)
      decreases |unvisited|
    {
      var bestNext := PickNearest(p, currentIdx, currentCapacity, currentTime, unvisited);
      if bestNext.None? {
        break;
      }
      var next := bestNext.value;
      ExtendInterior(p, inner, avail, next);
      inner := inner + [next];
      unvisited := unvisited - {next};
      currentCapacity, currentTime := UpdateState(p, currentIdx, currentCapacity, currentTime, next);
      currentIdx := next;
    }
    route := [depot] + inner + [depot];
    CloseRoute(p, inner, avail);
  }

  /** Bracketing a greedy interior that took every stop, or got stuck, with the depot gives a greedy route. */
  lemma CloseRoute(p: Problem, inner: seq<nat>, avail: set<nat>)
    requires Valid(p) && Below(p, avail) && InRange(p, inner) && GreedyInterior(p, inner, avail)
    requires avail - Elems(inner) == {} || Stuck(p, StateAfter(p, inner), avail - Elems(inner))
    ensures Interior([DepotIndex(p.stops)] + inner + [DepotIndex(p.stops)]) == inner
    ensures GreedyRoute(p, [DepotIndex(p.stops)] + inner + [DepotIndex(p.stops)], avail)
  {
    assert Interior([DepotIndex(p.stops)] + inner + [DepotIndex(p.stops)]) == inner;
  }

  /** A plan grows by one route that is greedy over the customers still unvisited. */
  lemma PlanSnoc(p: Problem, routes: seq<seq<nat>>, route: seq<nat>, avail: set<nat>)
    requires Valid(p) && Below(p, avail) && GreedyPlan(p, routes, avail)
    requires avail - Visited(routes) != {} && GreedyRoute(p, route, avail - Visited(routes))
    ensures GreedyPlan(p, routes + [route], avail)
    ensures Visited(routes + [route]) == Visited(routes) + Elems(Interior(route))
  {
    assert (routes + [route])[..|routes|] == routes;
  }

  /** The first half of run_naive_solution: one route per vehicle until no stop is left. */
  method BuildRoutes(p: Problem, nVehicles: nat) returns (routes: seq<seq<nat>>)
    requires Valid(p)
    ensures |routes| <= nVehicles
    ensures GreedyPlan(p, routes, Customers(p.stops))
    ensures |routes| == nVehicles || Customers(p.stops) <= Visited(routes)
  {
    ghost var customers := Customers(p.stops);
    var unvisited := Customers(p.stops);
    routes := [];
    var vehicleId := 0;
    while vehicleId < nVehicles
      invariant vehicleId <= nVehicles && |routes| == vehicleId
      invariant unvisited == customers - Visited(routes)
      invariant GreedyPlan(p, routes, customers)
    {
      if unvisited == {} {
        break;
      }
      var route;
      route, unvisited := FillVehicle(p, unvisited);
      PlanSnoc(p, routes, route, customers);
      routes := routes + [route];
      vehicleId := vehicleId + 1;
    }
  }

  // ---------------------------------------------------------------------
  // Route metrics and the solution record
  // ---------------------------------------------------------------------

  /** One entry of `route_details`. */
  datatype RouteDetail = RouteDetail(
    vehicleId: nat,
    stops: seq<nat>,
    distance: real,
    time: real,
    demand: real,
    nStops: nat)

  /** The solution dictionary; `error` is present only on the early exits. */
  datatype Solution = Solution(
    routes: seq<seq<nat>>,
    totalDistance: real,
    totalTime: real,
    details: seq<RouteDetail>,
    nVehiclesUsed: nat,
    error: Option<string>)

  function ErrorSolution(message: string): Solution {
    Solution([], 0.0, 0.0, [], 0, Some(message))
  }

  /** The sum of `m[r[i]][r[i+1]]` over consecutive legs of `r`. */
  function LegSum(p: Problem, m: Matrix, r: seq<nat>): real
    requires IsSquare(m, |p.stops|) && InRange(p, r)
  {
    if |r| < 2 then 0.0 else LegSum(p, m, r[..|r| - 1]) + m[r[|r| - 2]][r[|r| - 1]]
  }

  function ServiceSum(p: Problem, xs: seq<nat>): real
    requires InRange(p, xs)
  {
    if xs == [] then 0.0 else ServiceSum(p, xs[..|xs| - 1]) + p.stops[xs[|xs| - 1]].serviceTime
  }

  function DemandSum(p: Problem, xs: seq<nat>): real
    requires InRange(p, xs)
  {
    if xs == [] then 0.0 else DemandSum(p, xs[..|xs| - 1]) + p.stops[xs[|xs| - 1]].demand
  }

  ghost predicate AllInRange(p: Problem, routes: seq<seq<nat>>) {
    forall k :: 0 <= k < |routes| ==> InRange(p, routes[k])
  }

  /** The detail of route `vehicleId`: legs summed, service of the inner stops added. */
  function DetailOf(p: Problem, vehicleId: nat, r: seq<nat>): RouteDetail
    requires Valid(p) && InRange(p, r) && |r| > 2
  {
    RouteDetail(vehicleId, r, LegSum(p, p.dist, r), LegSum(p, p.time, r) + ServiceSum(p, Interior(r)),
                DemandSum(p, Interior(r)), |r| - 2)
  }

  /** `route_details`: one entry per route longer than depot -> depot, in vehicle order. */
  function Details(p: Problem, routes: seq<seq<nat>>): seq<RouteDetail>
    requires Valid(p) && AllInRange(p, routes)
  {
    if routes == [] then []
    else
      var last := routes[|routes| - 1];
      Details(p, routes[..|routes| - 1]) + (if |last| <= 2 then [] else [DetailOf(p, |routes| - 1, last)])
  }

  function SumDistance(ds: seq<RouteDetail>): real {
    if ds == [] then 0.0 else SumDistance(ds[..|ds| - 1]) + ds[|ds| - 1].distance
  }

  function SumTime(ds: seq<RouteDetail>): real {
    if ds == [] then 0.0 else SumTime(ds[..|ds| - 1]) + ds[|ds| - 1].time
  }

  /** `len([r for r in routes if len(r) > 2])`. */
  function CountUsed(routes: seq<seq<nat>>): nat {
    if routes == [] then 0 else CountUsed(routes[..|routes| - 1]) + (if |routes[|routes| - 1]| > 2 then 1 else 0)
  }

  /** The metric pass of run_naive_solution: per-route sums and the two totals. */
  method ComputeMetrics(p: Problem, routes: seq<seq<nat>>) returns (details: seq<RouteDetail>, totalDistance: real, totalTime: real)
    requires Valid(p) && AllInRange(p, routes)
    ensures details == Details(p, routes)
    ensures totalDistance == SumDistance(details) && totalTime == SumTime(details)
  {
    details, totalDistance, totalTime := [], 0.0, 0.0;
    for vehicleId := 0 to |routes|
      invariant details == Details(p, routes[..vehicleId])
      invariant totalDistance == SumDistance(details) && totalTime == SumTime(details)
    {
      assert routes[..vehicleId + 1][..vehicleId] == routes[..vehicleId];
      var route := routes[vehicleId];
      if |route| > 2 {
        var detail := MeasureRoute(p, vehicleId, route);
        details := details + [detail];
        totalDistance := totalDistance + detail.distance;
        totalTime := totalTime + detail.time;
      }
    }
    assert routes[..|routes|] == routes;
  }

  /** One iteration of the metric pass: the legs summed, then the service and demand of the inner stops. */
  method MeasureRoute(p: Problem, vehicleId: nat, route: seq<nat>) returns (detail: RouteDetail)
    requires Valid(p) && InRange(p, route) && |route| > 2
    ensures detail == DetailOf(p, vehicleId, route)
  {
    var routeDist, routeTime, routeDemand := 0.0, 0.0, 0.0;
    for i := 0 to |route| - 1
      invariant routeDist == LegSum(p, p.dist, route[..i + 1])
      invariant routeTime == LegSum(p, p.time, route[..i + 1])
    {
      assert route[..i + 2][..i + 1] == route[..i + 1];
      routeDist := routeDist + p.dist[route[i]][route[i + 1]];
      routeTime := routeTime + p.time[route[i]][route[i + 1]];
    }
    assert route[..|route|] == route;
    for k := 1 to |route| - 1
      invariant routeTime == LegSum(p, p.time, route) + ServiceSum(p, route[1..k])
      invariant routeDemand == DemandSum(p, route[1..k])
    {
      assert route[1..k + 1][..k - 1] == route[1..k];
      routeTime := routeTime + p.stops[route[k]].serviceTime;
      routeDemand := routeDemand + p.stops[route[k]].demand;
    }
    detail := RouteDetail(vehicleId, route, routeDist, routeTime, routeDemand, |route| - 2);
  }

  /** Lemmas the router's caller needs: a greedy plan only uses customer rows. */
  lemma {:induction false} InteriorWithin(p: Problem, inner: seq<nat>, avail: set<nat>)
    requires Valid(p) && Below(p, avail) && GreedyInterior(p, inner, avail)
    ensures InRange(p, inner) && Elems(inner) <= avail
  {
    if inner != [] {
      InteriorWithin(p, inner[..|inner| - 1], avail);
      assert inner == inner[..|inner| - 1] + [inner[|inner| - 1]];
    }
  }

  lemma RouteWithin(p: Problem, route: seq<nat>, avail: set<nat>)
    requires Valid(p) && Below(p, avail) && GreedyRoute(p, route, avail)
    ensures InRange(p, route) && Elems(Interior(route)) <= avail
  {
    InteriorWithin(p, Interior(route), avail);
    forall k | 0 < k < |route| - 1
      ensures route[k] < |p.stops|
    {
      assert route[k] == Interior(route)[k - 1];
    }
  }

  lemma {:induction false} PlanWithin(p: Problem, routes: seq<seq<nat>>, avail: set<nat>)
    requires Valid(p) && Below(p, avail) && GreedyPlan(p, routes, avail)
    ensures AllInRange(p, routes) && Visited(routes) <= avail
  {
    if routes != [] {
      var init := routes[..|routes| - 1];
      PlanWithin(p, init, avail);
      RouteWithin(p, routes[|routes| - 1], avail - Visited(init));
      forall k | 0 <= k < |routes| - 1
        ensures InRange(p, routes[k])
      {
        assert routes[k] == init[k];
      }
    }
  }

  // ---------------------------------------------------------------------
  // What every plan of the router guarantees
  // ---------------------------------------------------------------------

  /** Position by position: stop `k` was the greedy choice after the first `k` stops. */
  lemma {:induction false} InteriorSteps(p: Problem, inner: seq<nat>, avail: set<nat>)
    requires Valid(p) && Below(p, avail) && GreedyInterior(p, inner, avail)
    ensures forall k :: 0 <= k < |inner| ==>
              InRange(p, inner[..k]) && GreedyChoice(p, StateAfter(p, inner[..k]), avail - Elems(inner[..k]), inner[k])
  {
    if inner != [] {
      var init := inner[..|inner| - 1];
      InteriorSteps(p, init, avail);
      forall k | 0 <= k < |inner|
        ensures InRange(p, inner[..k]) && GreedyChoice(p, StateAfter(p, inner[..k]), avail - Elems(inner[..k]), inner[k])
      {
        if k < |inner| - 1 {
          assert inner[..k] == init[..k];
          assert inner[k] == init[k];
        } else {
          assert inner[..k] == init;
        }
      }
    }
  }

  /** Route by route: route `k` is greedy over the customers the earlier routes left. */
  lemma PlanSteps(p: Problem, routes: seq<seq<nat>>, avail: set<nat>)
    requires Valid(p) && Below(p, avail) && GreedyPlan(p, routes, avail)
    ensures forall k :: 0 <= k < |routes| ==>
              avail - Visited(routes[..k]) != {} && GreedyRoute(p, routes[k], avail - Visited(routes[..k]))
  {
    forall k | 0 <= k < |routes|
      ensures avail - Visited(routes[..k]) != {} && GreedyRoute(p, routes[k], avail - Visited(routes[..k]))
    {
      PlanStep(p, routes, avail, k);
    }
  }

  lemma {:induction false} PlanStep(p: Problem, routes: seq<seq<nat>>, avail: set<nat>, k: nat)
    requires Valid(p) && Below(p, avail) && GreedyPlan(p, routes, avail) && k < |routes|
    ensures avail - Visited(routes[..k]) != {} && GreedyRoute(p, routes[k], avail - Visited(routes[..k]))
    decreases |routes|
  {
    var init := routes[..|routes| - 1];
    if k < |routes| - 1 {
      PlanStep(p, init, avail, k);
      assert routes[..k] == init[..k];
      assert routes[k] == init[k];
    } else {
      assert routes[..k] == init;
    }
  }

  /** The stops of route `j` are among those visited by the routes before `k`, for every `j < k`. */
  lemma {:induction false} VisitedCovers(routes: seq<seq<nat>>, j: nat, k: nat)
    requires j < k <= |routes|
    ensures Elems(Interior(routes[j])) <= Visited(routes[..k])
    decreases k
  {
    assert routes[..k][..k - 1] == routes[..k - 1];
    if j < k - 1 {
      VisitedCovers(routes, j, k - 1);
    }
  }

  /** One route over a set of customers: depot at both ends, customers in between. */
  lemma RouteShape(p: Problem, route: seq<nat>, avail: set<nat>)
    requires Valid(p) && avail <= Customers(p.stops) && GreedyRoute(p, route, avail)
    ensures forall i :: 0 < i < |route| - 1 ==> route[i] < |p.stops| && !p.stops[route[i]].isDepot
  {
    RouteWithin(p, route, avail);
    forall i | 0 < i < |route| - 1
      ensures route[i] < |p.stops| && !p.stops[route[i]].isDepot
    {
      assert route[i] == Interior(route)[i - 1];
      assert route[i] in Customers(p.stops);
    }
  }

  /** Each route starts and ends at the depot and visits customers only. */
  lemma PlanShape(p: Problem, routes: seq<seq<nat>>)
    requires Valid(p) && GreedyPlan(p, routes, Customers(p.stops))
    ensures forall k :: 0 <= k < |routes| ==>
              && |routes[k]| >= 2
              && routes[k][0] == DepotIndex(p.stops)
              && routes[k][|routes[k]| - 1] == DepotIndex(p.stops)
    ensures forall k, i :: 0 <= k < |routes| && 0 < i < |routes[k]| - 1 ==>
              routes[k][i] < |p.stops| && !p.stops[routes[k][i]].isDepot
  {
    var avail := Customers(p.stops);
    PlanSteps(p, routes, avail);
    forall k | 0 <= k < |routes|
      ensures |routes[k]| >= 2
      ensures routes[k][0] == DepotIndex(p.stops) && routes[k][|routes[k]| - 1] == DepotIndex(p.stops)
      ensures forall i :: 0 < i < |routes[k]| - 1 ==> routes[k][i] < |p.stops| && !p.stops[routes[k][i]].isDepot
    {
      RouteShape(p, routes[k], avail - Visited(routes[..k]));
    }
  }

  /** Within one route no stop is visited twice. */
  lemma InteriorDistinct(p: Problem, inner: seq<nat>, avail: set<nat>)
    requires Valid(p) && Below(p, avail) && GreedyInterior(p, inner, avail)
    ensures forall i, j :: 0 <= i < j < |inner| ==> inner[i] != inner[j]
  {
    InteriorSteps(p, inner, avail);
    forall i, j | 0 <= i < j < |inner|
      ensures inner[i] != inner[j]
    {
      assert inner[i] in Elems(inner[..j]) by { assert inner[..j][i] == inner[i]; }
    }
  }

  /** No customer is delivered twice: two interior positions of the plan hold different stops. */
  lemma PlanNoRepeats(p: Problem, routes: seq<seq<nat>>)
    requires Valid(p) && GreedyPlan(p, routes, Customers(p.stops))
    ensures forall k1, i1, k2, i2 ::
              && 0 <= k1 < |routes| && 0 < i1 < |routes[k1]| - 1
              && 0 <= k2 < |routes| && 0 < i2 < |routes[k2]| - 1
              && (k1, i1) != (k2, i2)
              ==> routes[k1][i1] != routes[k2][i2]
  {
    var avail := Customers(p.stops);
    PlanSteps(p, routes, avail);
    forall k1, i1, k2, i2 |
        && 0 <= k1 < |routes| && 0 < i1 < |routes[k1]| - 1
        && 0 <= k2 < |routes| && 0 < i2 < |routes[k2]| - 1
        && (k1, i1) != (k2, i2)
      ensures routes[k1][i1] != routes[k2][i2]
    {
      DistinctPositions(p, routes, avail, k1, i1, k2, i2);
    }
  }

  /** Two interior positions of a plan, given that their two routes are greedy over what was left. */
  lemma DistinctPositions(p: Problem, routes: seq<seq<nat>>, avail: set<nat>, k1: nat, i1: nat, k2: nat, i2: nat)
    requires Valid(p) && Below(p, avail)
    requires k1 < |routes| && 0 < i1 < |routes[k1]| - 1 && k2 < |routes| && 0 < i2 < |routes[k2]| - 1
    requires (k1, i1) != (k2, i2)
    requires GreedyRoute(p, routes[k1], avail - Visited(routes[..k1]))
    requires GreedyRoute(p, routes[k2], avail - Visited(routes[..k2]))
    ensures routes[k1][i1] != routes[k2][i2]
  {
    assert routes[k1][i1] == Interior(routes[k1])[i1 - 1];
    assert routes[k2][i2] == Interior(routes[k2])[i2 - 1];
    if k1 == k2 {
      InteriorDistinct(p, Interior(routes[k1]), avail - Visited(routes[..k1]));
    } else if k1 < k2 {
      NotRevisited(p, routes, avail, k1, k2, i2 - 1);
      assert routes[k1][i1] in Elems(Interior(routes[k1]));
    } else {
      NotRevisited(p, routes, avail, k2, k1, i1 - 1);
      assert routes[k2][i2] in Elems(Interior(routes[k2]));
    }
  }

  /** A later route never holds a stop of an earlier one. */
  lemma NotRevisited(p: Problem, routes: seq<seq<nat>>, avail: set<nat>, j: nat, k: nat, i: nat)
    requires Valid(p) && Below(p, avail)
    requires j < k < |routes| && 0 <= i < |Interior(routes[k])|
    requires GreedyRoute(p, routes[k], avail - Visited(routes[..k]))
    ensures Interior(routes[k])[i] !in Elems(Interior(routes[j]))
  {
    VisitedCovers(routes, j, k);
    InteriorWithin(p, Interior(routes[k]), avail - Visited(routes[..k]));
    assert Interior(routes[k])[i] in Elems(Interior(routes[k]));
  }

  /** With capacity in use the running load is the demand delivered so far. */
  lemma {:induction false} LoadIsDemand(p: Problem, inner: seq<nat>)
    requires Valid(p) && InRange(p, inner) && UsesCapacity(p)
    ensures StateAfter(p, inner).load == DemandSum(p, inner)
  {
    if inner != [] {
      LoadIsDemand(p, inner[..|inner| - 1]);
    }
  }

  /** A vehicle that leaves the depot never carries more than its capacity. */
  lemma RouteCapacity(p: Problem, route: seq<nat>, avail: set<nat>)
    requires Valid(p) && Below(p, avail) && GreedyRoute(p, route, avail) && UsesCapacity(p)
    ensures |route| > 2 ==> DemandSum(p, Interior(route)) <= p.capacity.value
  {
    var inner := Interior(route);
    if inner != [] {
      var init := inner[..|inner| - 1];
      LoadIsDemand(p, init);
    }
  }

  /** The clock once the last stop of `inner` is served and the vehicle is back at the depot. */
  function RouteEnd(p: Problem, inner: seq<nat>): real
    requires Valid(p) && InRange(p, inner) && inner != []
  {
    StateAfter(p, inner).clock + p.time[inner[|inner| - 1]][DepotIndex(p.stops)]
  }

  /**
   * With a duration limit in use: every stop is reached no later than its
   * latest time (and served no earlier than its earliest), and the vehicle is
   * back before the depot closes and within the maximum duration.
   */
  lemma RouteTimes(p: Problem, route: seq<nat>, avail: set<nat>)
    requires Valid(p) && Below(p, avail) && GreedyRoute(p, route, avail) && UsesDuration(p)
    ensures var inner := Interior(route);
            forall k :: 0 <= k < |inner| ==>
              && InRange(p, inner[..k])
              && (p.stops[inner[k]].latest.Some? ==>
                    Arrival(p, StateAfter(p, inner[..k]), inner[k]) <= p.stops[inner[k]].latest.value as real)
              && (p.stops[inner[k]].earliest.Some? ==>
                    p.stops[inner[k]].earliest.value as real <= Arrival(p, StateAfter(p, inner[..k]), inner[k]))
    ensures |route| > 2 ==>
              && RouteEnd(p, Interior(route)) <= p.depotClose as real
              && RouteEnd(p, Interior(route)) - p.depotOpen as real <= p.maxHours.value * 60.0
  {
    var inner := Interior(route);
    InteriorSteps(p, inner, avail);
  }

  /** The capacity and duration guarantees for every route of a plan. */
  lemma PlanConstraints(p: Problem, routes: seq<seq<nat>>)
    requires Valid(p) && GreedyPlan(p, routes, Customers(p.stops))
    ensures UsesCapacity(p) ==> forall k :: 0 <= k < |routes| && |routes[k]| > 2 ==>
              InRange(p, Interior(routes[k])) && DemandSum(p, Interior(routes[k])) <= p.capacity.value
    ensures UsesDuration(p) ==> forall k :: 0 <= k < |routes| && |routes[k]| > 2 ==>
              && InRange(p, Interior(routes[k]))
              && RouteEnd(p, Interior(routes[k])) <= p.depotClose as real
              && RouteEnd(p, Interior(routes[k])) - p.depotOpen as real <= p.maxHours.value * 60.0
  {
    var avail := Customers(p.stops);
    PlanSteps(p, routes, avail);
    forall k | 0 <= k < |routes| && |routes[k]| > 2
      ensures InRange(p, Interior(routes[k]))
      ensures UsesCapacity(p) ==> DemandSum(p, Interior(routes[k])) <= p.capacity.value
      ensures UsesDuration(p) ==>
                && RouteEnd(p, Interior(routes[k])) <= p.depotClose as real
                && RouteEnd(p, Interior(routes[k])) - p.depotOpen as real <= p.maxHours.value * 60.0
    {
      if UsesCapacity(p) {
        RouteCapacity(p, routes[k], avail - Visited(routes[..k]));
      }
      if UsesDuration(p) {
        RouteTimes(p, routes[k], avail - Visited(routes[..k]));
      }
    }
  }

  /** One detail per route that left the depot. */
  lemma {:induction false} DetailsCount(p: Problem, routes: seq<seq<nat>>)
    requires Valid(p) && AllInRange(p, routes)
    ensures |Details(p, routes)| == CountUsed(routes)
  {
    if routes != [] {
      DetailsCount(p, routes[..|routes| - 1]);
    }
  }

  /**
   * Each detail describes the route of its vehicle, that route left the depot,
   * and the details come in increasing vehicle order.
   */
  lemma {:induction false} DetailsSound(p: Problem, routes: seq<seq<nat>>)
    requires Valid(p) && AllInRange(p, routes)
    ensures forall j :: 0 <= j < |Details(p, routes)| ==>
              var d := Details(p, routes)[j];
              d.vehicleId < |routes| && |routes[d.vehicleId]| > 2 && d == DetailOf(p, d.vehicleId, routes[d.vehicleId])
    ensures forall i, j :: 0 <= i < j < |Details(p, routes)| ==>
              Details(p, routes)[i].vehicleId < Details(p, routes)[j].vehicleId
  {
    if routes != [] {
      var init := routes[..|routes| - 1];
      DetailsSound(p, init);
      forall k | 0 <= k < |init|
        ensures routes[k] == init[k]
      {
      }
    }
  }

  /** Every route that left the depot has its detail. */
  lemma {:induction false} DetailsComplete(p: Problem, routes: seq<seq<nat>>, k: nat)
    requires Valid(p) && AllInRange(p, routes) && k < |routes| && |routes[k]| > 2
    ensures exists j :: 0 <= j < |Details(p, routes)| && Details(p, routes)[j].vehicleId == k
  {
    var init := routes[..|routes| - 1];
    if k == |routes| - 1 {
      assert Details(p, routes)[|Details(p, init)|].vehicleId == k;
    } else {
      assert routes[k] == init[k];
      DetailsComplete(p, init, k);
      var j :| 0 <= j < |Details(p, init)| && Details(p, init)[j].vehicleId == k;
      assert Details(p, routes)[j] == Details(p, init)[j];
    }
  }

  const NotEnoughStopsOrVehicles := "Not enough stops or vehicles to build routes."

  /**
   * run_naive_solution. Fewer than two rows or no vehicle gives the error
   * record; otherwise the routes are a greedy plan over the customers and the
   * details and totals are their metrics.
   */
  method RunNaiveSolution(p: Problem, nVehicles: int) returns (sol: Solution)
    requires |p.stops| < 2 || nVehicles < 1 || Valid(p)
    ensures |p.stops| < 2 || nVehicles < 1 ==> sol == ErrorSolution(NotEnoughStopsOrVehicles)
    ensures |p.stops| >= 2 && nVehicles >= 1 ==>
              && sol.error.None?
              && |sol.routes| <= nVehicles
              && GreedyPlan(p, sol.routes, Customers(p.stops))
              && (|sol.routes| == nVehicles || Customers(p.stops) <= Visited(sol.routes))
              && AllInRange(p, sol.routes)
              && sol.details == Details(p, sol.routes)
              && sol.totalDistance == SumDistance(sol.details)
              && sol.totalTime == SumTime(sol.details)
              && sol.nVehiclesUsed == CountUsed(sol.routes)
  {
    if |p.stops| < 2 || nVehicles < 1 {
      return ErrorSolution(NotEnoughStopsOrVehicles);
    }
    var routes := BuildRoutes(p, nVehicles);
    PlanWithin(p, routes, Customers(p.stops));
    var details, totalDistance, totalTime := ComputeMetrics(p, routes);
    sol := Solution(routes, totalDistance, totalTime, details, CountUsed(routes), None);
  }

  // ---------------------------------------------------------------------
  // The early exits of run_ortools_solution
  // ---------------------------------------------------------------------

  const NotEnoughStops := "Not enough stops to build a route."
  const TooFewVehicles := "Number of vehicles must be at least 1."

  /** The checks run_ortools_solution makes before building any model; None means it goes on. */
  function OrToolsPrecheck(nStops: nat, nVehicles: int): (r: Option<Solution>)
    ensures r.None? <==> nStops >= 2 && nVehicles >= 1
    ensures r.Some? ==> r.value.routes == [] && r.value.details == [] && r.value.nVehiclesUsed == 0
                        && r.value.totalDistance == 0.0 && r.value.totalTime == 0.0 && r.value.error.Some?
    ensures nStops < 2 ==> r == Some(ErrorSolution(NotEnoughStops))
    ensures nStops >= 2 && nVehicles < 1 ==> r == Some(ErrorSolution(TooFewVehicles))
  {
    if nStops < 2 then Some(ErrorSolution(NotEnoughStops))
    else if nVehicles < 1 then Some(ErrorSolution(TooFewVehicles))
    else None
  }
}
