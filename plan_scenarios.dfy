/**
 * Worked plans with the default options on routes along the equator, with
 * a distance of 500 miles per degree of longitude standing in for the
 * great-circle distance.
 */
module PlanScenarios {
  import opened RouteTypes
  import opened Cumulative
  import opened Locator
  import opened Planner
  import opened PlanProperties

  const Start: Point := Point(0.0, 0.0)
  const Middle: Point := Point(1.0, 0.0)
  const End: Point := Point(1.2, 0.0)

  /** 500 miles per degree of longitude, measured along the equator. */
  function LineDistance(p: Point, q: Point): real
  {
    (if q.lon >= p.lon then q.lon - p.lon else p.lon - q.lon) * 804672.0
  }

  const Route: seq<Point> := [Start, Middle, End]

  /** A station standing on the middle vertex. */
  const MiddleStation: Station := Station("Middle", 0.0, 1.0, 3.0)

  const ExpectedStop: Stop := Stop(MiddleStation, Middle, 804672.0, 10.0, 30.0)

  lemma RouteDistances()
    ensures CumulativeOf(Route, LineDistance) == [0.0, 804672.0, 965606.4]
    ensures TotalDistance(Route, LineDistance) == 965606.4
  {
    assert Route[..2] == [Start, Middle];
    assert Route[..2][..1] == [Start];
    assert CumulativeOf([Start, Middle], LineDistance) == [0.0, 804672.0];
  }

  /** The stop the planner makes at the middle vertex is the expected one. */
  lemma MiddleStopIsMade()
    ensures IsStop(Route, [MiddleStation], DefaultOptions, LineDistance, 0.0, ExpectedStop)
  {
    RouteDistances();
    var cum := CumulativeOf(Route, LineDistance);
    assert FirstAtOrBeyond(cum, 804672.0) == 1 by {
      assert cum[0] < 804672.0 <= cum[1];
    }
    assert StationPoint(MiddleStation) == Middle;
    assert SelectedAt(Middle, [MiddleStation], DefaultOptions.radiusM, LineDistance, 0) by {
      assert InRadius(Middle, MiddleStation, DefaultOptions.radiusM, LineDistance);
    }
    assert FillDistance(965606.4, 804672.0, DefaultOptions.maxRangeM) == 160934.4;
    assert Gallons(160934.4, 10.0) == 10.0;
  }

  /** Any greedy schedule for this route is the single expected stop. */
  lemma SixHundredMileRoute(stops: seq<Stop>)
    requires GreedySchedule(Route, [MiddleStation], DefaultOptions, LineDistance, stops)
    ensures stops == [ExpectedStop]
  {
    RouteDistances();
    MiddleStopIsMade();
    var expected := [ExpectedStop];
    assert ScheduledStop(Route, [MiddleStation], DefaultOptions, LineDistance, expected, 0);
    assert GreedySchedule(Route, [MiddleStation], DefaultOptions, LineDistance, expected);
    ScheduleDeterministic(Route, [MiddleStation], DefaultOptions, LineDistance, stops, expected);
  }

  // A 600-mile route whose middle vertex is at 400 miles: the first vertex at
  // or beyond the 500-mile range is the destination itself.
  const Short: Point := Point(0.8, 0.0)
  const LongLegRoute: seq<Point> := [Start, Short, End]

  const DestinationStop: Stop := Stop(MiddleStation, End, 965606.4, 0.0, 0.0)

  lemma LongLegDistances()
    ensures CumulativeOf(LongLegRoute, LineDistance) == [0.0, 643737.6, 965606.4]
    ensures TotalDistance(LongLegRoute, LineDistance) == 965606.4
  {
    assert LongLegRoute[..2] == [Start, Short];
    assert LongLegRoute[..2][..1] == [Start];
    assert CumulativeOf([Start, Short], LineDistance) == [0.0, 643737.6];
  }

  /** The forced stop lands on the destination, where the nearest station is the only one and nothing is bought. */
  lemma DestinationStopIsMade()
    ensures IsStop(LongLegRoute, [MiddleStation], DefaultOptions, LineDistance, 0.0, DestinationStop)
  {
    LongLegDistances();
    var cum := CumulativeOf(LongLegRoute, LineDistance);
    assert FirstAtOrBeyond(cum, 804672.0) == 2 by {
      assert cum[0] < 804672.0 && cum[1] < 804672.0 <= cum[2];
    }
    assert !InRadius(End, MiddleStation, DefaultOptions.radiusM, LineDistance);
    assert !AnyInRadius(End, [MiddleStation], DefaultOptions.radiusM, LineDistance);
    assert SelectedAt(End, [MiddleStation], DefaultOptions.radiusM, LineDistance, 0);
    assert FillDistance(965606.4, 965606.4, DefaultOptions.maxRangeM) == 0.0;
  }

  /**
   * Stops do not keep within the tank range: on this route any greedy
   * schedule has one stop, 600 miles from the start on a 500-mile tank, at
   * the destination, buying no fuel.
   */
  lemma StopBeyondTankRange(stops: seq<Stop>)
    requires GreedySchedule(LongLegRoute, [MiddleStation], DefaultOptions, LineDistance, stops)
    ensures stops == [DestinationStop]
    ensures stops[0].distanceFromStartM - PrevStopM(stops, 0) > DefaultOptions.maxRangeM
    ensures stops[0].gallons == 0.0
  {
    LongLegDistances();
    DestinationStopIsMade();
    var expected := [DestinationStop];
    assert ScheduledStop(LongLegRoute, [MiddleStation], DefaultOptions, LineDistance, expected, 0);
    assert GreedySchedule(LongLegRoute, [MiddleStation], DefaultOptions, LineDistance, expected);
    ScheduleDeterministic(LongLegRoute, [MiddleStation], DefaultOptions, LineDistance, stops, expected);
  }
}
