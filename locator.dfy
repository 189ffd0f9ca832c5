/**
 * The station locator: the cheapest station within the search radius of a
 * point, distance breaking price ties, and the nearest station overall when
 * none is within the radius.
 */
module Locator {
  import opened RouteTypes

  datatype LookupError = NoStations

  /** The distance from a point to a station. */
  function DistanceTo(p: Point, s: Station, dist: Distance): real
  {
    dist(p, StationPoint(s))
  }

  /** The station lies within the search radius of the point. */
  predicate InRadius(p: Point, s: Station, radiusM: real, dist: Distance)
  {
    DistanceTo(p, s, dist) <= radiusM
  }

  /** A station found within the radius, with its distance: the source's (d, s) pair. */
  datatype Candidate = Candidate(d: real, station: Station)

  /** Strictly smaller in the tuple order on the sort key (price, distance). */
  predicate KeyBefore(price1: real, d1: real, price2: real, d2: real)
  {
    price1 < price2 || (price1 == price2 && d1 < d2)
  }

  predicate CandidateBefore(a: Candidate, b: Candidate)
  {
    KeyBefore(a.station.price, a.d, b.station.price, b.d)
  }

  /**
   * The position of the element a stable sort by (price, distance) puts
   * first: a minimal key, and the earliest among equal minimal keys.
   */
  function CheapestIndex(cands: seq<Candidate>): (k: nat)
    requires |cands| > 0
    ensures k < |cands|
    ensures forall j :: 0 <= j < |cands| ==> !CandidateBefore(cands[j], cands[k])
    ensures forall j :: 0 <= j < k ==> CandidateBefore(cands[k], cands[j])
    decreases |cands|
  {
    if |cands| == 1 then 0
    else
      var k' := CheapestIndex(cands[..|cands| - 1]);
      if CandidateBefore(cands[|cands| - 1], cands[k']) then |cands| - 1 else k'
  }

  /**
   * The position of the element a stable sort by distance puts first: a
   * nearest station, and the earliest among equally near ones.
   */
  function NearestIndex(p: Point, stations: seq<Station>, dist: Distance): (k: nat)
    requires |stations| > 0
    ensures k < |stations|
    ensures forall j :: 0 <= j < |stations| ==> DistanceTo(p, stations[k], dist) <= DistanceTo(p, stations[j], dist)
    ensures forall j :: 0 <= j < k ==> DistanceTo(p, stations[k], dist) < DistanceTo(p, stations[j], dist)
    decreases |stations|
  {
    if |stations| == 1 then 0
    else
      var k' := NearestIndex(p, stations[..|stations| - 1], dist);
      if DistanceTo(p, stations[|stations| - 1], dist) < DistanceTo(p, stations[k'], dist)
      then |stations| - 1 else k'
  }

  ghost predicate AnyInRadius(p: Point, stations: seq<Station>, radiusM: real, dist: Distance)
  {
    exists j :: 0 <= j < |stations| && InRadius(p, stations[j], radiusM, dist)
  }

  /** Station j comes strictly before station k in the (price, distance) order seen from p. */
  predicate StationBefore(p: Point, stations: seq<Station>, dist: Distance, j: nat, k: nat)
    requires j < |stations| && k < |stations|
  {
    KeyBefore(stations[j].price, DistanceTo(p, stations[j], dist),
              stations[k].price, DistanceTo(p, stations[k], dist))
  }

  /** Station k is the first in-radius station of minimal (price, distance). */
  ghost predicate CheapestInRadiusAt(p: Point, stations: seq<Station>, radiusM: real, dist: Distance, k: nat)
  {
    && k < |stations|
    && InRadius(p, stations[k], radiusM, dist)
    && (forall j :: 0 <= j < |stations| && InRadius(p, stations[j], radiusM, dist) ==>
          !StationBefore(p, stations, dist, j, k))
    && (forall j :: 0 <= j < k && InRadius(p, stations[j], radiusM, dist) ==>
          StationBefore(p, stations, dist, k, j))
  }

  /** Station k is the first station of minimal distance. */
  ghost predicate NearestAt(p: Point, stations: seq<Station>, dist: Distance, k: nat)
  {
    && k < |stations|
    && (forall j :: 0 <= j < |stations| ==> DistanceTo(p, stations[k], dist) <= DistanceTo(p, stations[j], dist))
    && (forall j :: 0 <= j < k ==> DistanceTo(p, stations[k], dist) < DistanceTo(p, stations[j], dist))
  }

  /** The station the locator picks is the one at position k. */
  ghost predicate SelectedAt(p: Point, stations: seq<Station>, radiusM: real, dist: Distance, k: nat)
  {
    if AnyInRadius(p, stations, radiusM, dist) then CheapestInRadiusAt(p, stations, radiusM, dist, k)
    else NearestAt(p, stations, dist, k)
  }

  ghost predicate Selected(p: Point, stations: seq<Station>, radiusM: real, dist: Distance, s: Station)
  {
    exists k: nat :: SelectedAt(p, stations, radiusM, dist, k) && stations[k] == s
  }

  /** At most one position meets the selection rule. */
  lemma SelectedAtUnique(p: Point, stations: seq<Station>, radiusM: real, dist: Distance, k1: nat, k2: nat)
    requires SelectedAt(p, stations, radiusM, dist, k1)
    requires SelectedAt(p, stations, radiusM, dist, k2)
    ensures k1 == k2
  {
    // Naming the comparison terms lets the solver instantiate each station's
    // "no one before me" fact at the other: neither can come strictly first,
    // and the earlier of two ties would come first, so the indices meet.
    if AnyInRadius(p, stations, radiusM, dist) {
      var before12 := StationBefore(p, stations, dist, k1, k2);
      var before21 := StationBefore(p, stations, dist, k2, k1);
    } else {
      var d1 := DistanceTo(p, stations[k1], dist);
      var d2 := DistanceTo(p, stations[k2], dist);
    }
  }

  /** The selection rule picks one station: the locator's answer is determined by its inputs. */
  lemma SelectedUnique(p: Point, stations: seq<Station>, radiusM: real, dist: Distance, s1: Station, s2: Station)
    requires Selected(p, stations, radiusM, dist, s1)
    requires Selected(p, stations, radiusM, dist, s2)
    ensures s1 == s2
  {
    var k1: nat :| SelectedAt(p, stations, radiusM, dist, k1) && stations[k1] == s1;
    var k2: nat :| SelectedAt(p, stations, radiusM, dist, k2) && stations[k2] == s2;
    SelectedAtUnique(p, stations, radiusM, dist, k1, k2);
  }

  /**
   * What the selection rule means: the station is one of the catalog; within
   * the radius it is in radius, cheapest, and nearest among the cheapest;
   * otherwise it is nearest overall.
   */
  lemma SelectedMeansCheapestOrNearest(p: Point, stations: seq<Station>, radiusM: real, dist: Distance, s: Station)
    requires Selected(p, stations, radiusM, dist, s)
    ensures s in stations
    ensures AnyInRadius(p, stations, radiusM, dist) ==>
      && InRadius(p, s, radiusM, dist)
      && (forall t :: t in stations && InRadius(p, t, radiusM, dist) ==>
            s.price <= t.price && (t.price == s.price ==> DistanceTo(p, s, dist) <= DistanceTo(p, t, dist)))
    ensures !AnyInRadius(p, stations, radiusM, dist) ==>
      forall t :: t in stations ==> DistanceTo(p, s, dist) <= DistanceTo(p, t, dist)
  {
    var k: nat :| SelectedAt(p, stations, radiusM, dist, k) && stations[k] == s;
    forall t | t in stations
      ensures AnyInRadius(p, stations, radiusM, dist) && InRadius(p, t, radiusM, dist) ==>
        s.price <= t.price && (t.price == s.price ==> DistanceTo(p, s, dist) <= DistanceTo(p, t, dist))
      ensures !AnyInRadius(p, stations, radiusM, dist) ==> DistanceTo(p, s, dist) <= DistanceTo(p, t, dist)
    {
      var j :| 0 <= j < |stations| && stations[j] == t;
      if AnyInRadius(p, stations, radiusM, dist) && InRadius(p, t, radiusM, dist) {
        assert !StationBefore(p, stations, dist, j, k);
      }
    }
  }

  /** Positions `origin` of `stations` that lie in the radius, in increasing order, with their candidates. */
  ghost predicate Collected(p: Point, stations: seq<Station>, radiusM: real, dist: Distance,
                            n: nat, candidates: seq<Candidate>, origin: seq<nat>)
  {
    && |origin| == |candidates|
    && (forall c :: 0 <= c < |candidates| ==>
          origin[c] < n && origin[c] < |stations| &&
          candidates[c] == Candidate(DistanceTo(p, stations[origin[c]], dist), stations[origin[c]]) &&
          InRadius(p, stations[origin[c]], radiusM, dist))
    && (forall c, c' :: 0 <= c < c' < |candidates| ==> origin[c] < origin[c'])
    && (forall j :: 0 <= j < n && j < |stations| && InRadius(p, stations[j], radiusM, dist) ==>
          exists c :: 0 <= c < |candidates| && origin[c] == j)
  }

  /** The first cheapest collected candidate is the station the selection rule picks. */
  lemma FirstCheapestCandidateSelected(p: Point, stations: seq<Station>, radiusM: real, dist: Distance,
                                       candidates: seq<Candidate>, origin: seq<nat>, k: nat)
    requires Collected(p, stations, radiusM, dist, |stations|, candidates, origin)
    requires |candidates| > 0 && k == CheapestIndex(candidates)
    ensures SelectedAt(p, stations, radiusM, dist, origin[k])
    ensures candidates[k].station == stations[origin[k]]
  {
    var at := origin[k];
    forall j | 0 <= j < |stations| && InRadius(p, stations[j], radiusM, dist)
      ensures !StationBefore(p, stations, dist, j, at)
      ensures j < at ==> StationBefore(p, stations, dist, at, j)
    {
      var c :| 0 <= c < |candidates| && origin[c] == j;
      assert !CandidateBefore(candidates[c], candidates[k]);
      if j < at {
        assert c < k;
        assert CandidateBefore(candidates[k], candidates[c]);
      }
    }
    assert CheapestInRadiusAt(p, stations, radiusM, dist, at);
  }

  /** A station outside the radius adds nothing to the collection. */
  lemma CollectedSkip(p: Point, stations: seq<Station>, radiusM: real, dist: Distance,
                      i: nat, candidates: seq<Candidate>, origin: seq<nat>)
    requires i < |stations| && !InRadius(p, stations[i], radiusM, dist)
    requires Collected(p, stations, radiusM, dist, i, candidates, origin)
    ensures Collected(p, stations, radiusM, dist, i + 1, candidates, origin)
  {
  }

  /** A station within the radius is collected at the end, after every earlier one. */
  lemma CollectedTake(p: Point, stations: seq<Station>, radiusM: real, dist: Distance,
                      i: nat, candidates: seq<Candidate>, origin: seq<nat>)
    requires i < |stations| && InRadius(p, stations[i], radiusM, dist)
    requires Collected(p, stations, radiusM, dist, i, candidates, origin)
    ensures Collected(p, stations, radiusM, dist, i + 1,
                      candidates + [Candidate(DistanceTo(p, stations[i], dist), stations[i])], origin + [i])
  {
    var candidates', origin' := candidates + [Candidate(DistanceTo(p, stations[i], dist), stations[i])], origin + [i];
    forall j | 0 <= j < i + 1 && j < |stations| && InRadius(p, stations[j], radiusM, dist)
      ensures exists c :: 0 <= c < |candidates'| && origin'[c] == j
    {
      if j == i {
        assert origin'[|candidates|] == j;
      } else {
        var c :| 0 <= c < |candidates| && origin[c] == j;
        assert origin'[c] == j;
      }
    }
  }

  /** The candidate loop of `find_station_for_point`: the stations within the radius with their distances, in catalog order. */
  method CollectInRadius(p: Point, stations: seq<Station>, radiusM: real, dist: Distance)
    returns (candidates: seq<Candidate>, ghost origin: seq<nat>)
    ensures Collected(p, stations, radiusM, dist, |stations|, candidates, origin)
    ensures forall c :: 0 <= c < |candidates| ==>
      candidates[c].station in stations && candidates[c].d == DistanceTo(p, candidates[c].station, dist) <= radiusM
    ensures |candidates| == 0 <==> forall j :: 0 <= j < |stations| ==> !InRadius(p, stations[j], radiusM, dist)
  {
    candidates := [];
    origin := [];
    for i := 0 to |stations|
      invariant Collected(p, stations, radiusM, dist, i, candidates, origin)
    {
      var d := DistanceTo(p, stations[i], dist);
      if d <= radiusM {
        CollectedTake(p, stations, radiusM, dist, i, candidates, origin);
        candidates := candidates + [Candidate(d, stations[i])];
        origin := origin + [i];
      } else {
        CollectedSkip(p, stations, radiusM, dist, i, candidates, origin);
      }
    }
    if |candidates| > 0 {
      assert InRadius(p, stations[origin[0]], radiusM, dist);
    }
  }

  /**
   * Collect the stations within the radius, in catalog order, then take the
   * first of them by (price, distance); with none in radius, take the first
   * nearest station; with no stations at all, fail as indexing the empty
   * sorted list does.
   */
  method FindStationForPoint(p: Point, stations: seq<Station>, radiusM: real, dist: Distance)
    returns (r: Result<Station, LookupError>)
    ensures r.Err? <==> stations == []
    ensures r.Ok? ==> Selected(p, stations, radiusM, dist, r.value)
  {
    var candidates, origin := CollectInRadius(p, stations, radiusM, dist);
    if |candidates| > 0 {
      var k := CheapestIndex(candidates);
      FirstCheapestCandidateSelected(p, stations, radiusM, dist, candidates, origin, k);
      return Ok(candidates[k].station);
    }

    // fallback: the nearest station
    if |stations| == 0 {
      return Err(NoStations);
    }
    assert !AnyInRadius(p, stations, radiusM, dist);
    var k := NearestIndex(p, stations, dist);
    assert SelectedAt(p, stations, radiusM, dist, k);
    r := Ok(stations[k]);
  }
}
