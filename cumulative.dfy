/** The polyline distance accumulator. */
module Cumulative {
  import opened RouteTypes

  /**
   * The running along-route distance: element i is the length of the
   * polyline from its first vertex to vertex i. A polyline of at most one
   * vertex gives [0.0].
   */
  function CumulativeOf(coords: seq<Point>, dist: Distance): (cum: seq<real>)
    ensures |cum| == if |coords| == 0 then 1 else |coords|
    ensures cum[0] == 0.0
    decreases |coords|
  {
    if |coords| <= 1 then [0.0]
    else
      var prefix := CumulativeOf(coords[..|coords| - 1], dist);
      prefix + [prefix[|prefix| - 1] + dist(coords[|coords| - 2], coords[|coords| - 1])]
  }

  /** The length of the whole route: the last running distance. */
  function TotalDistance(coords: seq<Point>, dist: Distance): real
  {
    var cum := CumulativeOf(coords, dist);
    cum[|cum| - 1]
  }

  /** Each running distance is the previous one plus the segment between them. */
  lemma {:induction false} CumulativeStep(coords: seq<Point>, dist: Distance, i: nat)
    requires 1 <= i < |coords|
    ensures CumulativeOf(coords, dist)[i] == CumulativeOf(coords, dist)[i - 1] + dist(coords[i - 1], coords[i])
  {
    var n := |coords|;
    var front := coords[..n - 1];
    if i < n - 1 {
      CumulativeStep(front, dist, i);
      assert front[i - 1] == coords[i - 1] && front[i] == coords[i];
    }
  }

  /** With non-negative segments the running distance never decreases. */
  lemma {:induction false} CumulativeMonotone(coords: seq<Point>, dist: Distance, i: nat, j: nat)
    requires NonNegative(dist)
    requires i <= j < |CumulativeOf(coords, dist)|
    ensures CumulativeOf(coords, dist)[i] <= CumulativeOf(coords, dist)[j]
    decreases j
  {
    if i < j {
      CumulativeMonotone(coords, dist, i, j - 1);
      CumulativeStep(coords, dist, j);
    }
  }

  /** With non-negative segments no running distance exceeds the total, and the total is non-negative. */
  lemma CumulativeBoundedByTotal(coords: seq<Point>, dist: Distance, i: nat)
    requires NonNegative(dist)
    requires i < |CumulativeOf(coords, dist)|
    ensures 0.0 <= CumulativeOf(coords, dist)[i] <= TotalDistance(coords, dist)
  {
    var n := |CumulativeOf(coords, dist)|;
    CumulativeMonotone(coords, dist, 0, i);
    CumulativeMonotone(coords, dist, i, n - 1);
  }

  /** The loop of `cumulative_distances`: start from [0.0] and append one running sum per segment. */
  method CumulativeDistances(coords: seq<Point>, dist: Distance) returns (cum: seq<real>)
    ensures cum == CumulativeOf(coords, dist)
  {
    cum := [0.0];
    var i := 1;
    while i < |coords|
      invariant 1 <= i
      invariant |coords| >= 1 ==> i <= |coords| && cum == CumulativeOf(coords[..i], dist)
      invariant |coords| == 0 ==> cum == [0.0]
    {
      var next := coords[..i + 1];
      assert next[..i] == coords[..i];
      assert next[i - 1] == coords[i - 1] && next[i] == coords[i];
      cum := cum + [cum[|cum| - 1] + dist(coords[i - 1], coords[i])];
      i := i + 1;
    }
    if |coords| >= 1 {
      assert coords[..i] == coords;
    }
  }
}
