/**
 * What the greedy schedule guarantees: where stops fall, how far apart they
 * are, how much each buys, and that a plan is determined by its inputs.
 */
module PlanProperties {
  import opened RouteTypes
  import opened Cumulative
  import opened Locator
  import opened Planner

  /** The placement part of stop k of a greedy schedule. */
  lemma PlacedAt(coords: seq<Point>, stations: seq<Station>, opts: PlanOptions, dist: Distance,
                 stops: seq<Stop>, k: nat)
    requires |coords| > 0 && GreedySchedule(coords, stations, opts, dist, stops)
    requires k < |stops|
    ensures var cum := CumulativeOf(coords, dist);
      var i := FirstAtOrBeyond(cum, PrevStopM(stops, k) + opts.maxRangeM);
      && PrevStopM(stops, k) + opts.maxRangeM < TotalDistance(coords, dist)
      && stops[k].stopCoord == coords[i]
      && stops[k].distanceFromStartM == cum[i]
  {
    assert ScheduledStop(coords, stations, opts, dist, stops, k);
  }

  /** The pricing part of stop k of a greedy schedule. */
  lemma PricedAt(coords: seq<Point>, stations: seq<Station>, opts: PlanOptions, dist: Distance,
                 stops: seq<Stop>, k: nat)
    requires |coords| > 0 && GreedySchedule(coords, stations, opts, dist, stops)
    requires k < |stops|
    ensures opts.mpg != 0.0
    ensures stops[k].gallons ==
      Gallons(FillDistance(TotalDistance(coords, dist), stops[k].distanceFromStartM, opts.maxRangeM), opts.mpg)
    ensures stops[k].cost == PurchaseCost(stops[k].gallons, stops[k].station.price)
  {
    assert ScheduledStop(coords, stations, opts, dist, stops, k);
  }

  /** The station choice of stop k of a greedy schedule. */
  lemma ChosenAt(coords: seq<Point>, stations: seq<Station>, opts: PlanOptions, dist: Distance,
                 stops: seq<Stop>, k: nat)
    requires |coords| > 0 && GreedySchedule(coords, stations, opts, dist, stops)
    requires k < |stops|
    ensures Selected(stops[k].stopCoord, stations, opts.radiusM, dist, stops[k].station)
  {
    assert ScheduledStop(coords, stations, opts, dist, stops, k);
  }

  /**
   * Each stop lies at or beyond the end of the previous stop's range, and at
   * the nearest vertex that does: the vertex just before it is short of it.
   */
  lemma StopAtFirstVertexPastRange(coords: seq<Point>, stations: seq<Station>, opts: PlanOptions, dist: Distance,
                                   stops: seq<Stop>, k: nat)
    requires |coords| > 0 && GreedySchedule(coords, stations, opts, dist, stops)
    requires k < |stops|
    ensures PrevStopM(stops, k) + opts.maxRangeM <= stops[k].distanceFromStartM
    ensures exists i :: (0 <= i < |coords|
      && stops[k].stopCoord == coords[i]
      && stops[k].distanceFromStartM == CumulativeOf(coords, dist)[i]
      && forall j :: 0 <= j < i ==> CumulativeOf(coords, dist)[j] < PrevStopM(stops, k) + opts.maxRangeM)
  {
    PlacedAt(coords, stations, opts, dist, stops, k);
    var cum := CumulativeOf(coords, dist);
    var i := FirstAtOrBeyond(cum, PrevStopM(stops, k) + opts.maxRangeM);
    assert stops[k].stopCoord == coords[i];
  }

  /** With non-negative segments, no stop lies beyond the destination. */
  lemma StopWithinRoute(coords: seq<Point>, stations: seq<Station>, opts: PlanOptions, dist: Distance,
                        stops: seq<Stop>, k: nat)
    requires |coords| > 0 && GreedySchedule(coords, stations, opts, dist, stops)
    requires NonNegative(dist)
    requires k < |stops|
    ensures 0.0 <= stops[k].distanceFromStartM <= TotalDistance(coords, dist)
  {
    PlacedAt(coords, stations, opts, dist, stops, k);
    var cum := CumulativeOf(coords, dist);
    var i := FirstAtOrBeyond(cum, PrevStopM(stops, k) + opts.maxRangeM);
    CumulativeBoundedByTotal(coords, dist, i);
  }

  /** With a positive range, stops come in strictly increasing distance order. */
  lemma {:induction false} StopsIncrease(coords: seq<Point>, stations: seq<Station>, opts: PlanOptions, dist: Distance,
                                         stops: seq<Stop>, k: nat, k': nat)
    requires |coords| > 0 && GreedySchedule(coords, stations, opts, dist, stops)
    requires opts.maxRangeM > 0.0
    requires k < k' < |stops|
    ensures stops[k].distanceFromStartM < stops[k'].distanceFromStartM
    decreases k' - k
  {
    StopAtFirstVertexPastRange(coords, stations, opts, dist, stops, k');
    if k + 1 < k' {
      StopsIncrease(coords, stations, opts, dist, stops, k, k' - 1);
    }
  }

  /** Stop k lies at least k + 1 tank ranges from the start. */
  lemma {:induction false} StopDistanceAtLeast(coords: seq<Point>, stations: seq<Station>, opts: PlanOptions,
                                               dist: Distance, stops: seq<Stop>, k: nat)
    requires |coords| > 0 && GreedySchedule(coords, stations, opts, dist, stops)
    requires k < |stops|
    ensures stops[k].distanceFromStartM >= (k as real + 1.0) * opts.maxRangeM
  {
    StopAtFirstVertexPastRange(coords, stations, opts, dist, stops, k);
    if k > 0 {
      StopDistanceAtLeast(coords, stations, opts, dist, stops, k - 1);
      assert (k as real + 1.0) * opts.maxRangeM == ((k - 1) as real + 1.0) * opts.maxRangeM + opts.maxRangeM;
    }
  }

  /**
   * The cap of MaxStops iterations never cuts a plan short on a route of at
   * most MaxStops tank ranges: with a positive range the last range always
   * reaches the destination.
   */
  lemma CapNeverBindsOnShortRoutes(coords: seq<Point>, stations: seq<Station>, opts: PlanOptions,
                                   dist: Distance, stops: seq<Stop>)
    requires |coords| > 0 && GreedySchedule(coords, stations, opts, dist, stops)
    requires opts.maxRangeM > 0.0
    requires TotalDistance(coords, dist) <= (MaxStops as real) * opts.maxRangeM
    ensures PrevStopM(stops, |stops|) + opts.maxRangeM >= TotalDistance(coords, dist)
  {
    if |stops| == MaxStops {
      StopDistanceAtLeast(coords, stations, opts, dist, stops, MaxStops - 1);
    }
  }

  /** With a positive range and non-negative segments, the number of stops is at most the route over the range. */
  lemma StopCountBound(coords: seq<Point>, stations: seq<Station>, opts: PlanOptions,
                       dist: Distance, stops: seq<Stop>)
    requires |coords| > 0 && GreedySchedule(coords, stations, opts, dist, stops)
    requires NonNegative(dist) && opts.maxRangeM > 0.0
    ensures (|stops| as real) * opts.maxRangeM <= TotalDistance(coords, dist)
  {
    if |stops| > 0 {
      StopDistanceAtLeast(coords, stations, opts, dist, stops, |stops| - 1);
      StopWithinRoute(coords, stations, opts, dist, stops, |stops| - 1);
      assert (|stops| - 1) as real + 1.0 == |stops| as real;
    } else {
      CumulativeBoundedByTotal(coords, dist, 0);
    }
  }

  /** With a positive economy, a longer distance takes at least as much fuel. */
  lemma GallonsMonotone(a: real, b: real, mpg: real)
    requires mpg > 0.0 && a <= b
    ensures Gallons(a, mpg) <= Gallons(b, mpg)
  {
    var x, y := a / MetersPerMile, b / MetersPerMile;
    assert y / mpg - x / mpg == (y - x) / mpg;
  }

  /** The fuel for two distances adds up to the fuel for their sum. */
  lemma GallonsAdd(a: real, b: real, mpg: real)
    requires mpg != 0.0
    ensures Gallons(a, mpg) + Gallons(b, mpg) == Gallons(a + b, mpg)
  {
    var x, y := a / MetersPerMile, b / MetersPerMile;
    assert (a + b) / MetersPerMile == x + y;
    assert x / mpg + y / mpg == (x + y) / mpg;
  }

  /** The distance a purchase covers lies between none and one tank, and within the rest of the route. */
  lemma FillDistanceBounds(totalM: real, atM: real, maxRangeM: real)
    requires atM <= totalM && maxRangeM >= 0.0
    ensures 0.0 <= FillDistance(totalM, atM, maxRangeM) <= maxRangeM
    ensures FillDistance(totalM, atM, maxRangeM) <= totalM - atM
  {
  }

  /** A purchase at running distance `atM` on the route buys between none and one tank, and no more than the rest needs. */
  lemma FillBounds(totalM: real, atM: real, maxRangeM: real, mpg: real)
    requires 0.0 <= atM <= totalM && maxRangeM >= 0.0 && mpg > 0.0
    ensures 0.0 <= Gallons(FillDistance(totalM, atM, maxRangeM), mpg) <= Gallons(maxRangeM, mpg)
    ensures Gallons(FillDistance(totalM, atM, maxRangeM), mpg) <= Gallons(totalM - atM, mpg)
  {
    var fill := FillDistance(totalM, atM, maxRangeM);
    GallonsMonotone(0.0, fill, mpg);
    GallonsMonotone(fill, maxRangeM, mpg);
    GallonsMonotone(fill, totalM - atM, mpg);
  }

  /**
   * With non-negative segments and range, each stop buys fuel for at most
   * one tank and never a negative amount, no more than the rest of the
   * route needs.
   */
  lemma FillWithinTank(coords: seq<Point>, stations: seq<Station>, opts: PlanOptions, dist: Distance,
                       stops: seq<Stop>, k: nat)
    requires |coords| > 0 && GreedySchedule(coords, stations, opts, dist, stops)
    requires NonNegative(dist) && opts.maxRangeM >= 0.0 && opts.mpg > 0.0
    requires k < |stops|
    ensures 0.0 <= FillDistance(TotalDistance(coords, dist), stops[k].distanceFromStartM, opts.maxRangeM)
                <= opts.maxRangeM
    ensures 0.0 <= stops[k].gallons <= Gallons(opts.maxRangeM, opts.mpg)
    ensures stops[k].gallons <= Gallons(TotalDistance(coords, dist) - stops[k].distanceFromStartM, opts.mpg)
  {
    PricedAt(coords, stations, opts, dist, stops, k);
    StopWithinRoute(coords, stations, opts, dist, stops, k);
    FillDistanceBounds(TotalDistance(coords, dist), stops[k].distanceFromStartM, opts.maxRangeM);
    FillBounds(TotalDistance(coords, dist), stops[k].distanceFromStartM, opts.maxRangeM, opts.mpg);
  }

  /** The fuel the stops buy, summed in route order. */
  function SumGallons(stops: seq<Stop>): real
  {
    if stops == [] then 0.0 else SumGallons(stops[..|stops| - 1]) + stops[|stops| - 1].gallons
  }

  /**
   * Up to stop n - 1, the fuel bought is at most what the route between the
   * first and the (n-1)-th stop consumes, plus what stop n - 1 buys.
   */
  lemma {:induction false} PurchasesTelescope(coords: seq<Point>, stations: seq<Station>, opts: PlanOptions,
                                              dist: Distance, stops: seq<Stop>, n: nat)
    requires |coords| > 0 && GreedySchedule(coords, stations, opts, dist, stops)
    requires opts.mpg > 0.0
    requires 1 <= n <= |stops|
    ensures SumGallons(stops[..n]) <= Gallons(stops[n - 1].distanceFromStartM - stops[0].distanceFromStartM, opts.mpg)
                                      + stops[n - 1].gallons
  {
    var c0 := stops[0].distanceFromStartM;
    if n == 1 {
      assert stops[..1][..0] == [];
      assert Gallons(0.0, opts.mpg) == 0.0;
    } else {
      PurchasesTelescope(coords, stations, opts, dist, stops, n - 1);
      assert stops[..n][..n - 1] == stops[..n - 1];
      var prev, here := stops[n - 2], stops[n - 1];
      // the fill at stop n - 2 is at most one tank, and one tank is at most the gap to stop n - 1
      PricedAt(coords, stations, opts, dist, stops, n - 2);
      StopAtFirstVertexPastRange(coords, stations, opts, dist, stops, n - 1);
      var total := TotalDistance(coords, dist);
      var fill := FillDistance(total, prev.distanceFromStartM, opts.maxRangeM);
      assert prev.gallons == Gallons(fill, opts.mpg);
      assert fill <= here.distanceFromStartM - prev.distanceFromStartM;
      GallonsMonotone(fill, here.distanceFromStartM - prev.distanceFromStartM, opts.mpg);
      GallonsAdd(prev.distanceFromStartM - c0, here.distanceFromStartM - prev.distanceFromStartM, opts.mpg);
    }
  }

  /**
   * The stops never buy more fuel than the route consumes beyond the first
   * tank: the purchases total at most the consumption of the distance past
   * the start of the first forced stop's range.
   */
  lemma PurchasesBoundedByConsumption(coords: seq<Point>, stations: seq<Station>, opts: PlanOptions,
                                      dist: Distance, stops: seq<Stop>)
    requires |coords| > 0 && GreedySchedule(coords, stations, opts, dist, stops)
    requires opts.mpg > 0.0
    requires stops != []
    ensures SumGallons(stops) <= Gallons(TotalDistance(coords, dist) - opts.maxRangeM, opts.mpg)
  {
    var n := |stops|;
    var total := TotalDistance(coords, dist);
    var c0, last := stops[0].distanceFromStartM, stops[n - 1];
    PurchasesTelescope(coords, stations, opts, dist, stops, n);
    assert stops[..n] == stops;
    PricedAt(coords, stations, opts, dist, stops, n - 1);
    var fill := FillDistance(total, last.distanceFromStartM, opts.maxRangeM);
    assert last.gallons == Gallons(fill, opts.mpg);
    GallonsMonotone(fill, total - last.distanceFromStartM, opts.mpg);
    GallonsAdd(last.distanceFromStartM - c0, total - last.distanceFromStartM, opts.mpg);
    StopAtFirstVertexPastRange(coords, stations, opts, dist, stops, 0);
    GallonsMonotone(total - c0, total - opts.maxRangeM, opts.mpg);
  }

  /** Two schedules that agree on their first m stops agree on where stop m starts from. */
  lemma PrevStopOfCommonPrefix(s1: seq<Stop>, s2: seq<Stop>, m: nat)
    requires m <= |s1| && m <= |s2| && s1[..m] == s2[..m]
    ensures PrevStopM(s1, m) == PrevStopM(s2, m)
  {
    if m > 0 {
      assert s1[..m][m - 1] == s2[..m][m - 1];
    }
  }

  /** Stop k of two greedy schedules with a common prefix before it is the same stop. */
  lemma SameNextStop(coords: seq<Point>, stations: seq<Station>, opts: PlanOptions,
                     dist: Distance, s1: seq<Stop>, s2: seq<Stop>, k: nat)
    requires |coords| > 0
    requires GreedySchedule(coords, stations, opts, dist, s1)
    requires GreedySchedule(coords, stations, opts, dist, s2)
    requires k < |s1| && k < |s2| && s1[..k] == s2[..k]
    ensures s1[k] == s2[k]
  {
    PrevStopOfCommonPrefix(s1, s2, k);
    PlacedAt(coords, stations, opts, dist, s1, k);
    PlacedAt(coords, stations, opts, dist, s2, k);
    assert s1[k].stopCoord == s2[k].stopCoord && s1[k].distanceFromStartM == s2[k].distanceFromStartM;
    ChosenAt(coords, stations, opts, dist, s1, k);
    ChosenAt(coords, stations, opts, dist, s2, k);
    SelectedUnique(s1[k].stopCoord, stations, opts.radiusM, dist, s1[k].station, s2[k].station);
    PricedAt(coords, stations, opts, dist, s1, k);
    PricedAt(coords, stations, opts, dist, s2, k);
  }

  /** Two greedy schedules over the same inputs agree on their first n stops. */
  lemma {:induction false} ScheduleDeterministicUpTo(coords: seq<Point>, stations: seq<Station>, opts: PlanOptions,
                                                     dist: Distance, s1: seq<Stop>, s2: seq<Stop>, n: nat)
    requires |coords| > 0
    requires GreedySchedule(coords, stations, opts, dist, s1)
    requires GreedySchedule(coords, stations, opts, dist, s2)
    requires n <= |s1| && n <= |s2|
    ensures s1[..n] == s2[..n]
  {
    if n > 0 {
      ScheduleDeterministicUpTo(coords, stations, opts, dist, s1, s2, n - 1);
      SameNextStop(coords, stations, opts, dist, s1, s2, n - 1);
      assert s1[..n] == s1[..n - 1] + [s1[n - 1]] && s2[..n] == s2[..n - 1] + [s2[n - 1]];
    }
  }

  /** If a greedy schedule has a stop n, the range from the stop before it falls short of the destination. */
  lemma StopMeansRangeShort(coords: seq<Point>, stations: seq<Station>, opts: PlanOptions,
                            dist: Distance, stops: seq<Stop>, n: nat)
    requires |coords| > 0 && GreedySchedule(coords, stations, opts, dist, stops)
    requires n <= |stops|
    ensures n < |stops| ==> PrevStopM(stops, n) + opts.maxRangeM < TotalDistance(coords, dist)
  {
    if n < |stops| {
      PlacedAt(coords, stations, opts, dist, stops, n);
    }
  }

  /** Two greedy schedules that agree as far as the shorter goes have the same length. */
  lemma ScheduleLengthsEqual(coords: seq<Point>, stations: seq<Station>, opts: PlanOptions,
                             dist: Distance, s1: seq<Stop>, s2: seq<Stop>, m: nat)
    requires |coords| > 0
    requires GreedySchedule(coords, stations, opts, dist, s1)
    requires GreedySchedule(coords, stations, opts, dist, s2)
    requires m == if |s1| < |s2| then |s1| else |s2|
    requires s1[..m] == s2[..m]
    ensures |s1| == |s2|
  {
    PrevStopOfCommonPrefix(s1, s2, m);
    StopMeansRangeShort(coords, stations, opts, dist, s1, m);
    StopMeansRangeShort(coords, stations, opts, dist, s2, m);
  }

  /** A plan is determined by its inputs: two greedy schedules over the same inputs are the same list. */
  lemma ScheduleDeterministic(coords: seq<Point>, stations: seq<Station>, opts: PlanOptions,
                              dist: Distance, s1: seq<Stop>, s2: seq<Stop>)
    requires |coords| > 0
    requires GreedySchedule(coords, stations, opts, dist, s1)
    requires GreedySchedule(coords, stations, opts, dist, s2)
    ensures s1 == s2
  {
    var m := if |s1| < |s2| then |s1| else |s2|;
    ScheduleDeterministicUpTo(coords, stations, opts, dist, s1, s2, m);
    ScheduleLengthsEqual(coords, stations, opts, dist, s1, s2, m);
    assert s1[..m] == s1 && s2[..m] == s2;
  }
}
