/**
 * The decision logic of lib/geolocation.ts: the nearest of a list of places,
 * the proximity check and the distance label. The great-circle distance is a
 * parameter `dist(lat1, lon1, lat2, lon2)` in metres; nothing is assumed of it.
 */
module Geolocation {
  import opened Basics
  import opened Constants
  import opened Text

  datatype Location = Location(latitude: real, longitude: real)

  /** A location with the id of the report it belongs to. */
  datatype Place = Place(id: string, latitude: real, longitude: real)

  datatype Nearest = Nearest(location: Place, distance: real)

  type Distance = (real, real, real, real) -> real

  function DistanceTo(dist: Distance, user: Location, p: Place): real
  {
    dist(user.latitude, user.longitude, p.latitude, p.longitude)
  }

  /**
   * The index the scan over `places[..n]` settles on: a later place replaces
   * the current one only when it is strictly closer.
   */
  function NearestIndex(dist: Distance, user: Location, places: seq<Place>, n: nat): (k: nat)
    requires 0 < n <= |places|
    ensures k < n
    ensures forall j :: 0 <= j < n ==> DistanceTo(dist, user, places[k]) <= DistanceTo(dist, user, places[j])
    ensures forall j :: 0 <= j < k ==> DistanceTo(dist, user, places[j]) > DistanceTo(dist, user, places[k])
  {
    if n == 1 then 0
    else
      var k := NearestIndex(dist, user, places, n - 1);
      if DistanceTo(dist, user, places[n - 1]) < DistanceTo(dist, user, places[k]) then n - 1 else k
  }

  /**
   * What `findNearestLocation` returns: nothing for an empty list; otherwise
   * the place the scan keeps and its distance.
   */
  function FindNearest(dist: Distance, user: Location, places: seq<Place>): (r: Option<Nearest>)
    ensures r.None? <==> |places| == 0
    ensures r.Some? ==>
      r.value.location in places && r.value.distance == DistanceTo(dist, user, r.value.location)
    ensures r.Some? ==> forall j :: 0 <= j < |places| ==> r.value.distance <= DistanceTo(dist, user, places[j])
  {
    if |places| == 0 then None
    else
      var k := NearestIndex(dist, user, places, |places|);
      Some(Nearest(places[k], DistanceTo(dist, user, places[k])))
  }

  /** On ties the earliest of the closest places wins. */
  lemma FindNearestEarliest(dist: Distance, user: Location, places: seq<Place>)
    requires |places| > 0
    ensures var r := FindNearest(dist, user, places).value;
      exists k :: 0 <= k < |places| && places[k] == r.location
        && forall j :: 0 <= j < k ==> DistanceTo(dist, user, places[j]) > r.distance
  {
    var k := NearestIndex(dist, user, places, |places|);
    assert places[k] == FindNearest(dist, user, places).value.location;
  }

  /** `findNearestLocation`: a single scan keeping the closest place so far. */
  method FindNearestLocation(dist: Distance, user: Location, places: seq<Place>) returns (r: Option<Nearest>)
    ensures r == FindNearest(dist, user, places)
  {
    if |places| == 0 {
      return None;
    }
    var nearest := places[0];
    var minDistance := DistanceTo(dist, user, nearest);
    ghost var k := 0;
    for i := 1 to |places|
      invariant k == NearestIndex(dist, user, places, i)
      invariant nearest == places[k] && minDistance == DistanceTo(dist, user, nearest)
    {
      var distance := DistanceTo(dist, user, places[i]);
      if distance < minDistance {
        minDistance := distance;
        nearest := places[i];
        k := i;
      }
    }
    return Some(Nearest(nearest, minDistance));
  }

  /** `isWithinProximity`, with the radius defaulting to 50 m. */
  function IsWithinProximity(dist: Distance, a: Location, b: Location, radius: real := ProximityRadiusMeters): (within: bool)
  {
    dist(a.latitude, a.longitude, b.latitude, b.longitude) <= radius
  }

  /** Without a radius the check uses 50 m, and any radius of 50 m or more accepts what it accepts. */
  lemma ProximityDefaultRadius(dist: Distance, a: Location, b: Location, r: real)
    ensures IsWithinProximity(dist, a, b) == IsWithinProximity(dist, a, b, 50.0)
    ensures r >= 50.0 && IsWithinProximity(dist, a, b) ==> IsWithinProximity(dist, a, b, r)
  {}

  /** A wider radius keeps every location that a narrower one accepts. */
  lemma ProximityRadiusMonotone(dist: Distance, a: Location, b: Location, r1: real, r2: real)
    requires r1 <= r2 && IsWithinProximity(dist, a, b, r1)
    ensures IsWithinProximity(dist, a, b, r2)
  {}

  /**
   * `formatDistance`: below 1000 the metres rounded to a whole number with
   * "m"; from 1000 on the kilometres with one decimal (`toFixed(1)`, which
   * rounds halves up for positive values) and "km".
   */
  function FormatDistance(meters: real): (s: string)
    ensures meters < 1000.0 ==> |s| >= 2 && s[|s| - 1] == 'm' && s[|s| - 2] != 'k'
    ensures meters >= 1000.0 ==> |s| >= 5 && s[|s| - 2..] == "km" && s[|s| - 4] == '.'
  {
    if meters < 1000.0 then IntToString(Round(meters)) + "m"
    else
      var tenths: nat := Round(meters / 100.0);
      NatToString(tenths / 10) + "." + [DigitChar(tenths % 10)] + "km"
  }

  /**
   * The label reads back: below 1000 m the digits before "m" are the rounded
   * metres; from 1000 m on, the digits around the point are the distance in
   * tenths of a kilometre, rounded.
   */
  lemma FormatDistanceReadsBack(meters: real)
    ensures 0.0 <= meters < 1000.0 ==>
      var s := FormatDistance(meters);
      AllDigits(s[..|s| - 1]) && ParseNat(s[..|s| - 1]) == Round(meters)
    ensures meters >= 1000.0 ==>
      var s := FormatDistance(meters);
      var whole := s[..|s| - 4];
      AllDigits(whole) && IsDigit(s[|s| - 3])
      && ParseNat(whole) * 10 + DigitValue(s[|s| - 3]) == Round(meters / 100.0)
  {
    var s := FormatDistance(meters);
    if 0.0 <= meters < 1000.0 {
      var n := Round(meters);
      assert s[..|s| - 1] == NatToString(n);
      ParseNatToString(n);
    } else if meters >= 1000.0 {
      var tenths: nat := Round(meters / 100.0);
      assert s[..|s| - 4] == NatToString(tenths / 10);
      ParseNatToString(tenths / 10);
    }
  }
}
