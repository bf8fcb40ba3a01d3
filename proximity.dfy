/**
 * hooks/useProximityCalculator.ts: the temperature the monitor writes into the
 * store from the user's location and the report list. The monitor's one
 * effect, `setTemperature`, is the function's result; `None` stands for the
 * branch in which nothing is written.
 */
module Proximity {
  import opened Basics
  import opened Tables
  import opened Geolocation
  import opened Temperature

  /** The `{ id, latitude, longitude }` projection handed to the nearest-place scan. */
  function PlaceOf(r: Report): Place
  {
    Place(r.id, r.latitude, r.longitude)
  }

  function Places(reports: seq<Report>): (ps: seq<Place>)
    ensures |ps| == |reports|
    ensures forall i :: 0 <= i < |ps| ==> ps[i] == PlaceOf(reports[i])
  {
    if reports == [] then [] else [PlaceOf(reports[0])] + Places(reports[1..])
  }

  /**
   * The whole decision: no location or no report gives the normal state;
   * otherwise the state of the nearest report's distance. The distance is
   * measured to some report and is no larger than the distance to any report.
   */
  function CalculateProximity(dist: Distance, location: Option<Location>, reports: seq<Report>)
    : (r: Option<TemperatureState>)
    ensures location.None? || |reports| == 0 ==> r == Some(TemperatureState(Normal, 0.0, None))
    ensures location.Some? && |reports| > 0 ==>
      && r.Some? && r.value.nearestDistance.Some?
      && var d := r.value.nearestDistance.value;
      && r.value == CreateTemperatureState(Some(d))
      && (exists i :: 0 <= i < |reports| && d == DistanceTo(dist, location.value, PlaceOf(reports[i])))
      && forall i :: 0 <= i < |reports| ==> d <= DistanceTo(dist, location.value, PlaceOf(reports[i]))
  {
    match location
    case None => Some(NormalState)
    case Some(user) =>
      if |reports| == 0 then Some(NormalState)
      else
        match FindNearest(dist, user, Places(reports))
        case Some(nearest) => Some(CreateTemperatureState(Some(nearest.distance)))
        case None => None
  }

  /** With a location the monitor always writes: the `if (nearest)` guard never fails. */
  lemma ProximityAlwaysWrites(dist: Distance, location: Option<Location>, reports: seq<Report>)
    ensures CalculateProximity(dist, location, reports).Some?
  {}

  /** The level written is the band of the nearest distance, and it is never warmer than that of any report. */
  lemma ProximityLevel(dist: Distance, user: Location, reports: seq<Report>, i: nat)
    requires i < |reports|
    ensures var s := CalculateProximity(dist, Some(user), reports).value;
      && s.level == DistanceLevel(s.nearestDistance.value)
      && Rank(TemperatureLevelOf(TemperatureValue(DistanceTo(dist, user, PlaceOf(reports[i]))))) <= Rank(s.level)
  {
    var s := CalculateProximity(dist, Some(user), reports).value;
    var d := s.nearestDistance.value;
    CreateTemperatureStateLevel(d);
    var di := DistanceTo(dist, user, PlaceOf(reports[i]));
    TemperatureMonotoneContinuous(d, di);
    LevelMonotone(TemperatureValue(di), TemperatureValue(d));
  }

  /**
   * Only the id and coordinates of the reports feed the result: lists that
   * agree on them, whatever their vote counts and expiries, give the same state.
   */
  lemma ProximityIgnoresVotes(dist: Distance, location: Option<Location>, r1: seq<Report>, r2: seq<Report>)
    requires |r1| == |r2|
    requires forall i :: 0 <= i < |r1| ==> PlaceOf(r1[i]) == PlaceOf(r2[i])
    ensures CalculateProximity(dist, location, r1) == CalculateProximity(dist, location, r2)
  {
    assert Places(r1) == Places(r2);
  }

  /** One more report never makes the temperature warmer. */
  lemma ProximityNewReportNotWarmer(dist: Distance, user: Location, reports: seq<Report>, x: Report)
    requires |reports| > 0
    ensures var before := CalculateProximity(dist, Some(user), reports).value;
      var after := CalculateProximity(dist, Some(user), reports + [x]).value;
      && before.value <= after.value
      && Rank(before.level) <= Rank(after.level)
  {
    var before := CalculateProximity(dist, Some(user), reports).value;
    var after := CalculateProximity(dist, Some(user), reports + [x]).value;
    var d := before.nearestDistance.value;
    var i :| 0 <= i < |reports| && d == DistanceTo(dist, user, PlaceOf(reports[i]));
    assert (reports + [x])[i] == reports[i];
    var d' := after.nearestDistance.value;
    TemperatureMonotoneContinuous(d', d);
    LevelMonotone(before.value, after.value);
  }
}
