/**
 * The stop planner: walks the running distances of the route, places a
 * forced stop at the first vertex at or beyond the last stop plus one tank
 * range, asks the locator for a station there, and totals fuel and cost.
 */
module Planner {
  import opened RouteTypes
  import opened Cumulative
  import opened Locator

  /** The runaway guard on the number of loop iterations. */
  const MaxStops: nat := 50

  /** The failures of a planning call: indexing an empty station list, and dividing by a zero economy. */
  datatype PlanError = NoStationsAvailable | DivisionByZero

  /** Python's min on two numbers. */
  function Min(a: real, b: real): (m: real)
    ensures m <= a && m <= b
    ensures m == a || m == b
  {
    if b < a then b else a
  }

  /**
   * The first index whose running distance is at least the target, or the
   * last index when there is none.
   */
  function FirstAtOrBeyond(cum: seq<real>, target: real): (i: nat)
    requires |cum| > 0
    ensures i < |cum|
    ensures (exists j :: 0 <= j < |cum| && cum[j] >= target) ==>
      cum[i] >= target && forall j :: 0 <= j < i ==> cum[j] < target
    ensures (forall j :: 0 <= j < |cum| ==> cum[j] < target) ==> i == |cum| - 1
    ensures target <= cum[|cum| - 1] ==> cum[i] >= target
    decreases |cum|
  {
    if cum[0] >= target || |cum| == 1 then 0
    else
      var rest := FirstAtOrBeyond(cum[1..], target);
      assert forall j :: 1 <= j < |cum| ==> cum[1..][j - 1] == cum[j];
      1 + rest
  }

  /** On a non-decreasing sequence the first index at or beyond the target splits it in two. */
  lemma FirstAtOrBeyondIsBoundary(cum: seq<real>, target: real, j: nat)
    requires |cum| > 0 && target <= cum[|cum| - 1]
    requires forall a, b :: 0 <= a <= b < |cum| ==> cum[a] <= cum[b]
    requires j < |cum|
    ensures cum[j] >= target <==> j >= FirstAtOrBeyond(cum, target)
  {
    var i := FirstAtOrBeyond(cum, target);
    if j >= i {
      assert cum[i] <= cum[j];
    }
  }

  /** The running distance of the previous stop, 0 before the first one. */
  function PrevStopM(stops: seq<Stop>, k: nat): real
    requires k <= |stops|
  {
    if k == 0 then 0.0 else stops[k - 1].distanceFromStartM
  }

  /** The distance a stop's purchase covers: what is left of the route, at most one tank. */
  function FillDistance(totalM: real, atM: real, maxRangeM: real): real
  {
    Min(totalM - atM, maxRangeM)
  }

  /** The fuel a distance in metres takes at an economy in miles per gallon. */
  function Gallons(meters: real, mpg: real): real
    requires mpg != 0.0
  {
    (meters / MetersPerMile) / mpg
  }

  /** What a purchase costs at a station's price per gallon. */
  function PurchaseCost(gallons: real, pricePerGallon: real): real
  {
    gallons * pricePerGallon
  }

  /** Python's sum over the stop costs, left to right from 0. */
  function SumCosts(stops: seq<Stop>): real
  {
    if stops == [] then 0.0 else SumCosts(stops[..|stops| - 1]) + stops[|stops| - 1].cost
  }

  /**
   * Where a stop goes when the previous stop was at running distance
   * `prevM`: the range ends short of the destination, and the stop is at the
   * first vertex at or beyond the end of the range.
   */
  ghost predicate StopPlaced(coords: seq<Point>, dist: Distance, maxRangeM: real, prevM: real, stop: Stop)
    requires |coords| > 0
  {
    var cum := CumulativeOf(coords, dist);
    var i := FirstAtOrBeyond(cum, prevM + maxRangeM);
    && prevM + maxRangeM < cum[|cum| - 1]
    && stop.stopCoord == coords[i]
    && stop.distanceFromStartM == cum[i]
  }

  /**
   * What a stop buys and pays: fuel for the rest of the route capped at one
   * tank, at the station's price.
   */
  ghost predicate StopPriced(totalM: real, opts: PlanOptions, stop: Stop)
  {
    && opts.mpg != 0.0
    && stop.gallons == Gallons(FillDistance(totalM, stop.distanceFromStartM, opts.maxRangeM), opts.mpg)
    && stop.cost == PurchaseCost(stop.gallons, stop.station.price)
  }

  /**
   * `stop` is the stop the planner makes after a stop at `prevM`: placed as
   * above, priced as above, at the station the locator picks at its vertex.
   */
  ghost predicate IsStop(coords: seq<Point>, stations: seq<Station>, opts: PlanOptions, dist: Distance,
                         prevM: real, stop: Stop)
    requires |coords| > 0
  {
    && StopPlaced(coords, dist, opts.maxRangeM, prevM, stop)
    && StopPriced(TotalDistance(coords, dist), opts, stop)
    && Selected(stop.stopCoord, stations, opts.radiusM, dist, stop.station)
  }

  /** Stop k of the list is the stop made after stop k - 1 (after the start for k = 0). */
  ghost predicate ScheduledStop(coords: seq<Point>, stations: seq<Station>, opts: PlanOptions, dist: Distance,
                                stops: seq<Stop>, k: nat)
    requires |coords| > 0 && k < |stops|
  {
    IsStop(coords, stations, opts, dist, PrevStopM(stops, k), stops[k])
  }

  /**
   * Every stop of the list is the stop made after the one before it (after
   * the start for the first): the list is scheduled if its front is and its
   * last stop follows the one before.
   */
  ghost predicate AllScheduled(coords: seq<Point>, stations: seq<Station>, opts: PlanOptions, dist: Distance,
                               stops: seq<Stop>)
    requires |coords| > 0
    decreases |stops|
  {
    stops == [] ||
    (AllScheduled(coords, stations, opts, dist, stops[..|stops| - 1]) &&
     ScheduledStop(coords, stations, opts, dist, stops, |stops| - 1))
  }

  /** Appending the stop made after the last one keeps the list scheduled. */
  lemma ExtendSchedule(coords: seq<Point>, stations: seq<Station>, opts: PlanOptions, dist: Distance,
                       stops: seq<Stop>, stop: Stop)
    requires |coords| > 0
    requires AllScheduled(coords, stations, opts, dist, stops)
    requires IsStop(coords, stations, opts, dist, PrevStopM(stops, |stops|), stop)
    ensures AllScheduled(coords, stations, opts, dist, stops + [stop])
  {
    var extended := stops + [stop];
    assert extended[..|stops|] == stops;
    assert PrevStopM(extended, |stops|) == PrevStopM(stops, |stops|) by {
      if |stops| > 0 {
        assert extended[|stops| - 1] == stops[|stops| - 1];
      }
    }
  }

  /** In a scheduled list, every stop k is the stop made after stop k - 1. */
  lemma {:induction false} ScheduledAt(coords: seq<Point>, stations: seq<Station>, opts: PlanOptions, dist: Distance,
                                       stops: seq<Stop>, k: nat)
    requires |coords| > 0 && AllScheduled(coords, stations, opts, dist, stops)
    requires k < |stops|
    ensures ScheduledStop(coords, stations, opts, dist, stops, k)
    decreases |stops|
  {
    var front := stops[..|stops| - 1];
    if k < |front| {
      ScheduledAt(coords, stations, opts, dist, front, k);
      assert front[k] == stops[k];
      assert PrevStopM(front, k) == PrevStopM(stops, k) by {
        if k > 0 {
          assert front[k - 1] == stops[k - 1];
        }
      }
    }
  }

  /** A scheduled list has every stop scheduled. */
  lemma AllScheduledEvery(coords: seq<Point>, stations: seq<Station>, opts: PlanOptions, dist: Distance,
                          stops: seq<Stop>)
    requires |coords| > 0 && AllScheduled(coords, stations, opts, dist, stops)
    ensures forall k :: 0 <= k < |stops| ==> ScheduledStop(coords, stations, opts, dist, stops, k)
  {
    forall k | 0 <= k < |stops|
      ensures ScheduledStop(coords, stations, opts, dist, stops, k)
    {
      ScheduledAt(coords, stations, opts, dist, stops, k);
    }
  }

  /**
   * One iteration of the stop loop: find the first vertex at or beyond the
   * target, ask the locator for a station there, and price the fill.
   */
  method ForcedStop(coords: seq<Point>, cum: seq<real>, stations: seq<Station>, opts: PlanOptions, dist: Distance,
                    lastStopM: real)
    returns (r: Result<Stop, PlanError>)
    requires |coords| >= 2 && cum == CumulativeOf(coords, dist)
    requires lastStopM + opts.maxRangeM < cum[|cum| - 1]
    ensures r == Err(NoStationsAvailable) <==> stations == []
    ensures r == Err(DivisionByZero) <==> stations != [] && opts.mpg == 0.0
    ensures r.Ok? ==> IsStop(coords, stations, opts, dist, lastStopM, r.value)
  {
    var totalM := cum[|cum| - 1];
    var targetM := lastStopM + opts.maxRangeM;
    var idx := FirstAtOrBeyond(cum, targetM);
    var point := coords[idx];

    var found := FindStationForPoint(point, stations, opts.radiusM, dist);
    if found.Err? {
      return Err(NoStationsAvailable);
    }
    var station := found.value;
    var fillM := FillDistance(totalM, cum[idx], opts.maxRangeM);
    if opts.mpg == 0.0 {
      return Err(DivisionByZero);
    }
    var gallons := Gallons(fillM, opts.mpg);
    var cost := PurchaseCost(gallons, station.price);

    var stop := Stop(station, point, cum[idx], gallons, cost);
    assert StopPlaced(coords, dist, opts.maxRangeM, lastStopM, stop);
    assert StopPriced(totalM, opts, stop);
    r := Ok(stop);
  }

  /**
   * The greedy schedule: at most MaxStops stops, each made after the one
   * before it, and either the cap is reached or the last range covers the
   * rest of the route.
   */
  ghost predicate GreedySchedule(coords: seq<Point>, stations: seq<Station>, opts: PlanOptions, dist: Distance,
                                 stops: seq<Stop>)
    requires |coords| > 0
  {
    && |stops| <= MaxStops
    && (forall k :: 0 <= k < |stops| ==> ScheduledStop(coords, stations, opts, dist, stops, k))
    && (|stops| == MaxStops || PrevStopM(stops, |stops|) + opts.maxRangeM >= TotalDistance(coords, dist))
  }

  /**
   * Plan the refuelling stops along a route. A route of fewer than two
   * vertices is a zero-distance trip; a route within one tank needs no stop;
   * otherwise stops follow the greedy schedule, total fuel is the whole
   * route's consumption and the estimated cost is the sum of the stop costs.
   */
  method ComputeStops(coords: seq<Point>, stations: seq<Station>, opts: PlanOptions, dist: Distance)
    returns (r: Result<PlanResult, PlanError>)
    ensures |coords| < 2 ==> r == Ok(PlanResult(0.0, 0.0, 0.0, [], 0.0))
    ensures |coords| >= 2 ==>
      (r == Err(NoStationsAvailable) <==> opts.maxRangeM < TotalDistance(coords, dist) && stations == [])
    ensures |coords| >= 2 ==>
      (r == Err(DivisionByZero) <==> opts.mpg == 0.0 && !(opts.maxRangeM < TotalDistance(coords, dist) && stations == []))
    ensures |coords| >= 2 && r.Ok? ==>
      && opts.mpg != 0.0
      && r.value.totalDistanceM == TotalDistance(coords, dist)
      && r.value.totalDistanceMiles == MetersToMiles(TotalDistance(coords, dist))
      && r.value.totalGallons == Gallons(TotalDistance(coords, dist), opts.mpg)
      && r.value.estimatedCost == SumCosts(r.value.stops)
      && GreedySchedule(coords, stations, opts, dist, r.value.stops)
    ensures |coords| >= 2 && r.Ok? && TotalDistance(coords, dist) <= opts.maxRangeM ==>
      r.value.stops == [] && r.value.estimatedCost == 0.0
  {
    if |coords| < 2 {
      return Ok(PlanResult(0.0, 0.0, 0.0, [], 0.0));
    }

    var cum := CumulativeDistances(coords, dist);
    var totalM := cum[|cum| - 1];
    var stops: seq<Stop> := [];
    var lastStopM := 0.0;
    var remainingRange := opts.maxRangeM;

    // the trip fits in one tank
    if totalM <= remainingRange {
      if opts.mpg == 0.0 {
        return Err(DivisionByZero);
      }
      return Ok(PlanResult(totalM, MetersToMiles(totalM), Gallons(totalM, opts.mpg), [], 0.0));
    }

    var safeCounter := 0;
    while lastStopM + remainingRange < totalM && safeCounter < MaxStops
      invariant 0 <= safeCounter <= MaxStops && |stops| == safeCounter
      invariant remainingRange == opts.maxRangeM
      invariant lastStopM == PrevStopM(stops, |stops|)
      invariant AllScheduled(coords, stations, opts, dist, stops)
      invariant stops != [] ==> stations != [] && opts.mpg != 0.0
      decreases MaxStops - safeCounter
    {
      safeCounter := safeCounter + 1;

      var made := ForcedStop(coords, cum, stations, opts, dist, lastStopM);
      if made.Err? {
        return Err(made.error);
      }
      var stop := made.value;
      ExtendSchedule(coords, stations, opts, dist, stops, stop);
      stops := stops + [stop];

      lastStopM := stop.distanceFromStartM;
      remainingRange := opts.maxRangeM;
    }

    // the loop ran at least once, so the economy is non-zero here
    assert stops != [];
    AllScheduledEvery(coords, stations, opts, dist, stops);
    var totalGallons := Gallons(totalM, opts.mpg);
    var totalCost := SumCosts(stops);
    return Ok(PlanResult(totalM, MetersToMiles(totalM), totalGallons, stops, totalCost));
  }
}
