# Fuel-stop planner core, modelled in Dafny

The model covers the route-segmentation and stop-selection engine of the fuel-route
planner API (`routeapi/utils.py`). It has three parts:

- **Running distance.** `cumulative_distances` turns the route polyline into a running
  distance.
- **Station locator.** `find_station_for_point` finds a station for a point. It takes the
  cheapest station within the search radius, with distance breaking price ties. If no
  station is inside the radius, it takes the nearest station overall.
- **Stop planner.** `compute_stops` walks the running distances greedily. Each forced stop
  goes at the first vertex at or beyond the last stop plus one tank range. The planner asks
  the locator for a station there, buys fuel for the rest of the route (at most one tank),
  and totals distance, fuel and cost. The loop stops after at most 50 iterations.

Modules:

- `RouteTypes` (`route_types.dfy`): points, stations, stops, the plan result, the options
  with their defaults, miles conversion, and the distance primitive.
- `Cumulative` (`cumulative.dfy`): the running-distance loop and its specification
  function.
- `Locator` (`locator.dfy`): the candidate loop, and the selection rule as predicates. A
  stable sort returns the *first* element of minimal key, so the rule is stated on
  positions, and the locator's answer is unique.
- `Planner` (`planner.dfy`): the stop loop. Every `Ok` plan's stop list is a
  `GreedySchedule`: each stop is the stop made after the previous one, and the loop ended
  by its guard or by its cap.
- `PlanProperties` (`plan_properties.dfy`): what every greedy schedule satisfies, and that
  it is unique.
- `PlanScenarios` (`plan_scenarios.dfy`): two worked routes.

Modelling choices:

- **Distance.** The haversine distance is a parameter of type `(Point, Point) -> real`.
  Properties that need non-negative segments say so with `NonNegative(dist)`.
- **Python exceptions become `Result` errors.**
  - Indexing the empty sorted station list becomes `NoStations` in the locator and
    `NoStationsAvailable` in the planner.
  - Dividing by a zero fuel economy becomes `DivisionByZero`.
  - The errors keep the source's order. In a loop iteration the station lookup comes before
    the division. In the one-tank branch only the division can fail.
- **Consecutive stops are at least one tank range apart, not at most.** `compute_stops`
  (routeapi/utils.py:193) places each stop at the first vertex at or beyond the end of the
  range. `StopAtFirstVertexPastRange` proves this. `PlanScenarios.StopBeyondTankRange`
  gives a 600-mile route where the only stop lies 600 miles out on a 500-mile tank. That
  stop is on the destination vertex and buys no fuel.

## Model

| member | source | states |
|---|---|---|
| RouteTypes.MetersToMiles | routeapi/utils.py:19-20 | converting the result back to metres gives the input; the result is non-negative exactly when the input is |
| Cumulative.CumulativeOf | routeapi/utils.py:148-155 | the running distance has one entry per vertex (one entry for an empty route) and starts at 0 |
| Cumulative.CumulativeStep | routeapi/utils.py:150-154 | each running distance is the previous one plus the segment from the previous vertex |
| Cumulative.CumulativeMonotone | routeapi/utils.py:148-155 | with non-negative segments the running distance never decreases |
| Cumulative.CumulativeBoundedByTotal | routeapi/utils.py:148-155 | with non-negative segments every running distance lies between 0 and the total |
| Cumulative.CumulativeDistances | routeapi/utils.py:148-155 | the loop builds exactly the running-distance sequence |
| Locator.CheapestIndex | routeapi/utils.py:139-141 | the position a stable sort by (price, distance) puts first: no candidate has a smaller key, and every earlier candidate has a strictly larger key |
| Locator.NearestIndex | routeapi/utils.py:143-145 | the position a stable sort by distance puts first: a nearest station, with every earlier station strictly farther |
| Locator.SelectedAtUnique | routeapi/utils.py:132-145 | at most one position meets the selection rule |
| Locator.SelectedUnique | routeapi/utils.py:132-145 | the selection rule determines the station |
| Locator.SelectedMeansCheapestOrNearest | routeapi/utils.py:132-145 | the selected station is one of the stations; with a station in the radius it is in the radius, no in-radius station is cheaper, and an equally priced in-radius one is no nearer; otherwise no station is nearer |
| Locator.CollectedSkip | routeapi/utils.py:134-137 | a station outside the radius leaves the candidate list unchanged |
| Locator.CollectedTake | routeapi/utils.py:134-137 | a station inside the radius is appended with its distance, after all earlier candidates |
| Locator.CollectInRadius | routeapi/utils.py:133-137 | the candidates are the in-radius stations with their distances, in catalog order: each is a catalog station within the radius, and the list is empty exactly when no station is within the radius |
| Locator.FirstCheapestCandidateSelected | routeapi/utils.py:139-141 | the first cheapest candidate is the station the selection rule picks |
| Locator.FindStationForPoint | routeapi/utils.py:132-145 | fails exactly when there are no stations; otherwise returns the station the selection rule picks |
| Planner.Min | routeapi/utils.py:198 | the smaller of the two numbers: at most each, and equal to one of them |
| Planner.FillDistance | routeapi/utils.py:197-198 | no contract: its body is the source expression `min(total - cum[idx], max_range_m)`; PlanProperties.FillDistanceBounds states its bounds |
| Planner.Gallons | routeapi/utils.py:199 | no contract: its body is the source expression `(meters / 1609.344) / mpg`, also used for the totals at lines 179 and 213; its properties are PlanProperties.GallonsMonotone and PlanProperties.GallonsAdd |
| Planner.PurchaseCost | routeapi/utils.py:200 | no contract: its body is the source expression `gallons * price` |
| Planner.SumCosts | routeapi/utils.py:214 | no contract: its body is the left-to-right sum of the stop costs; Planner.ComputeStops states the estimated cost is this sum |
| Cumulative.TotalDistance | routeapi/utils.py:172 | no contract: its body is the last running distance, `cum[-1]`; Cumulative.CumulativeBoundedByTotal bounds every running distance by it |
| Locator.DistanceTo | routeapi/utils.py:135 | no contract: its body is the distance from the point to the station's position |
| Locator.InRadius | routeapi/utils.py:136 | no contract: its body is the source comparison `d <= radius_m` |
| Planner.FirstAtOrBeyond | routeapi/utils.py:193 | the first index whose running distance reaches the target, or the last index when none does; when the target is at most the total, the index reaches it |
| Planner.FirstAtOrBeyondIsBoundary | routeapi/utils.py:193 | on a non-decreasing sequence, an index reaches the target exactly when it is at or after the found index |
| Planner.ExtendSchedule | routeapi/utils.py:201-211 | appending the stop made after the last stop keeps the list scheduled |
| Planner.ScheduledAt | routeapi/utils.py:188-211 | in a scheduled list, every stop is the stop made after the one before it |
| Planner.AllScheduledEvery | routeapi/utils.py:188-211 | a scheduled list has every stop scheduled |
| Planner.ForcedStop | routeapi/utils.py:191-211 | one iteration: fails with no stations, then with a zero economy; otherwise returns the stop made after the last one |
| Planner.ComputeStops | routeapi/utils.py:158-222 | fewer than two vertices give all zeros and no stops; the no-station error exactly when a stop is needed and the catalog is empty; the division error exactly when the economy is zero and there is no earlier error; on success the totals are the route's distance, miles and consumption, the cost is the sum of the stop costs, and the stops form the greedy schedule; a route within one tank has no stops and zero cost |
| PlanProperties.PlacedAt | routeapi/utils.py:189-194 | each stop is at the first vertex at or beyond the previous stop plus the range, and that point is short of the destination |
| PlanProperties.PricedAt | routeapi/utils.py:197-200 | each stop buys the fuel for its fill distance at the given economy, and pays the station's price for it |
| PlanProperties.ChosenAt | routeapi/utils.py:196 | each stop's station is the one the locator picks at the stop's vertex |
| PlanProperties.StopAtFirstVertexPastRange | routeapi/utils.py:189-193 | each stop is at least one range past the previous stop, at a vertex with every earlier vertex short of that point |
| PlanProperties.StopWithinRoute | routeapi/utils.py:193-210 | with non-negative segments, each stop lies between the start and the destination |
| PlanProperties.StopsIncrease | routeapi/utils.py:189-210 | with a positive range, stop distances strictly increase |
| PlanProperties.StopDistanceAtLeast | routeapi/utils.py:189-210 | stop k lies at least k + 1 ranges from the start |
| PlanProperties.CapNeverBindsOnShortRoutes | routeapi/utils.py:189 | on a route of at most 50 ranges, with a positive range, the loop ends by its guard: the last range reaches the destination |
| PlanProperties.StopCountBound | routeapi/utils.py:189-211 | with a positive range and non-negative segments, the number of stops times the range is at most the total |
| PlanProperties.GallonsMonotone | routeapi/utils.py:199 | with a positive economy, more distance needs at least as much fuel |
| PlanProperties.GallonsAdd | routeapi/utils.py:199 | fuel for two distances adds up to fuel for their sum |
| PlanProperties.FillDistanceBounds | routeapi/utils.py:197-198 | the fill distance lies between 0 and one tank, and within the rest of the route |
| PlanProperties.FillBounds | routeapi/utils.py:197-199 | a fill buys between none and one tank of fuel, and no more than the rest of the route needs |
| PlanProperties.FillWithinTank | routeapi/utils.py:197-199 | each stop's fill distance is between 0 and the range; it buys between none and one tank, and no more than the rest of the route needs |
| PlanProperties.PurchasesTelescope | routeapi/utils.py:197-214 | the fuel bought up to a stop is at most the consumption from the first stop to that stop, plus that stop's purchase |
| PlanProperties.PurchasesBoundedByConsumption | routeapi/utils.py:197-214 | the stops together buy no more fuel than the route beyond the first tank consumes |
| PlanProperties.PrevStopOfCommonPrefix | routeapi/utils.py:210 | two lists with a common prefix agree on where the next stop starts from |
| PlanProperties.SameNextStop | routeapi/utils.py:191-211 | two greedy schedules that agree up to a stop agree on that stop |
| PlanProperties.ScheduleDeterministicUpTo | routeapi/utils.py:188-211 | two greedy schedules over the same inputs agree on their common length |
| PlanProperties.StopMeansRangeShort | routeapi/utils.py:189 | a stop exists only where the range from the stop before falls short of the destination |
| PlanProperties.ScheduleLengthsEqual | routeapi/utils.py:189 | two greedy schedules that agree as far as the shorter goes have the same length |
| PlanProperties.ScheduleDeterministic | routeapi/utils.py:158-222 | the stop list of a plan is determined by its inputs |
| PlanScenarios.RouteDistances | routeapi/utils.py:148-155 | the running distances of a 500 + 100 mile route |
| PlanScenarios.MiddleStopIsMade | routeapi/utils.py:191-211 | on that route the stop is at the 500-mile vertex, buys 10 gallons and costs 30 |
| PlanScenarios.SixHundredMileRoute | routeapi/utils.py:158-222 | on that route, with one station at the 500-mile vertex and the default options, every successful plan has exactly that stop |
| PlanScenarios.LongLegDistances | routeapi/utils.py:148-155 | the running distances of a 400 + 200 mile route |
| PlanScenarios.DestinationStopIsMade | routeapi/utils.py:191-211 | on that route the stop lands on the destination vertex, uses the nearest-station fallback and buys nothing |
| PlanScenarios.StopBeyondTankRange | routeapi/utils.py:189-211 | on that route every successful plan has one stop, more than one range from the start |

## Left out

- `load_stations` (routeapi/utils.py:23-128) is not modelled. It is file and CSV I/O over a library the model cannot see. The station catalog is an input.
- `haversine_m` (routeapi/utils.py:7-16) is replaced by a distance parameter. Its floating-point trigonometry is not modelled. Non-negativity is stated where a property needs it.
- The `round(...)` calls in the result records are not modelled, and all quantities are exact reals. The source's `estimated_cost` sums the already rounded per-stop costs; the model sums the unrounded ones.
- Floating-point behaviour (NaN, infinities, the order of float comparisons in the sort keys) is not modelled.
- Stations are records compared by value. The source returns the dictionary object itself, so object identity is not modelled.
- The Django views, the URL tables and the HTTP test (routeapi/views.py, routeapi/urls.py, fuel_route_project/urls.py, routeapi/tests.py) are not part of this model.
- Planner.ForcedStop: the body of the stop loop is a method of its own, and the loop calls it once per iteration.
- Locator.CollectInRadius: the candidate loop is a method of its own, called by the locator before the sort.
- Locator.FindStationForPoint: the sorts are not performed as sorts. The first element of each stable sort is computed directly by `CheapestIndex` and `NearestIndex`.
- PlanProperties.FillWithinTank: bounds each stop's distance and fuel but not its cost. Cost follows from fuel and the station's price through PlanProperties.PricedAt.
- PlanScenarios: the worked routes use a distance along the equator of 500 miles per degree of longitude, not the haversine distance.
