/**
 * lib/temperature.ts: the piecewise-linear "temperature" of the distance to
 * the nearest report (0 far away, 100 on top of it) and its five levels.
 */
module Temperature {
  import opened Basics
  import opened Constants

  datatype TemperatureLevel = Normal | Cool | Cold | Freeze | Extreme

  /** The levels in order of increasing cold. */
  function Rank(l: TemperatureLevel): nat
  {
    match l
    case Normal => 0
    case Cool => 1
    case Cold => 2
    case Freeze => 3
    case Extreme => 4
  }

  /** `nearestDistance` is `null` when there is nothing to measure against. */
  datatype TemperatureState = TemperatureState(level: TemperatureLevel, value: real, nearestDistance: Option<real>)

  /** The state shown when there is no location or no report. */
  const NormalState := TemperatureState(Normal, NormalValue, None)

  /**
   * `calculateTemperatureValue`: linear interpolation inside each distance band,
   * with the last band's ratio clamped to 1 so that negative distances give 100.
   */
  function TemperatureValue(distance: real): (v: real)
    ensures 0.0 <= v <= 100.0
    ensures distance >= NormalThreshold ==> v == NormalValue
    ensures distance <= 0.0 ==> v == ExtremeValue
  {
    if distance >= NormalThreshold then NormalValue
    else if distance >= CoolThreshold then
      var ratio := (NormalThreshold - distance) / (NormalThreshold - CoolThreshold);
      NormalValue + ratio * (CoolValue - NormalValue)
    else if distance >= ColdThreshold then
      var ratio := (CoolThreshold - distance) / (CoolThreshold - ColdThreshold);
      CoolValue + ratio * (ColdValue - CoolValue)
    else if distance >= FreezeThreshold then
      var ratio := (ColdThreshold - distance) / (ColdThreshold - FreezeThreshold);
      ColdValue + ratio * (FreezeValue - ColdValue)
    else
      var ratio := RealMin(1.0, (FreezeThreshold - distance) / FreezeThreshold);
      FreezeValue + ratio * (ExtremeValue - FreezeValue)
  }

  /** The band boundaries land exactly on the anchor values. */
  lemma TemperatureAnchors()
    ensures TemperatureValue(NormalThreshold) == NormalValue
    ensures TemperatureValue(CoolThreshold) == CoolValue
    ensures TemperatureValue(ColdThreshold) == ColdValue
    ensures TemperatureValue(FreezeThreshold) == FreezeValue
    ensures TemperatureValue(0.0) == ExtremeValue
  {}

  /**
   * The value never rises with distance, and it changes by at most a quarter
   * of the distance moved (the steepest band's slope), so it has no jump at
   * any band boundary.
   */
  lemma TemperatureMonotoneContinuous(a: real, b: real)
    requires a <= b
    ensures TemperatureValue(b) <= TemperatureValue(a)
    ensures TemperatureValue(a) - TemperatureValue(b) <= (b - a) / 4.0
  {
    var va, vb := TemperatureValue(a), TemperatureValue(b);
    // Each band's value as a function of the distance, in the form the solver
    // compares linearly.
    assert a >= NormalThreshold ==> va == 0.0;
    assert CoolThreshold <= a < NormalThreshold ==> va == (5000.0 - a) / 120.0;
    assert ColdThreshold <= a < CoolThreshold ==> va == 25.0 + (2000.0 - a) / 60.0;
    assert FreezeThreshold <= a < ColdThreshold ==> va == 50.0 + (500.0 - a) / 16.0;
    assert 0.0 <= a < FreezeThreshold ==> va == 75.0 + (100.0 - a) / 4.0;
    assert b >= NormalThreshold ==> vb == 0.0;
    assert CoolThreshold <= b < NormalThreshold ==> vb == (5000.0 - b) / 120.0;
    assert ColdThreshold <= b < CoolThreshold ==> vb == 25.0 + (2000.0 - b) / 60.0;
    assert FreezeThreshold <= b < ColdThreshold ==> vb == 50.0 + (500.0 - b) / 16.0;
    assert 0.0 <= b < FreezeThreshold ==> vb == 75.0 + (100.0 - b) / 4.0;
  }

  /** `getTemperatureLevel`: the cutoffs 75, 50, 25 and 10. */
  function TemperatureLevelOf(value: real): TemperatureLevel
  {
    if value >= 75.0 then Extreme
    else if value >= 50.0 then Freeze
    else if value >= 25.0 then Cold
    else if value >= 10.0 then Cool
    else Normal
  }

  /** A colder value never gives a warmer level. */
  lemma LevelMonotone(v1: real, v2: real)
    requires v1 <= v2
    ensures Rank(TemperatureLevelOf(v1)) <= Rank(TemperatureLevelOf(v2))
  {}

  /**
   * The level as a function of the distance, read off the bands: extreme up
   * to 100 m, freeze up to 500 m, cold up to 2000 m (2000 m itself is cold),
   * cool up to 3800 m, where the first band reaches the value 10.
   */
  function DistanceLevel(distance: real): TemperatureLevel
  {
    if distance <= FreezeThreshold then Extreme
    else if distance <= ColdThreshold then Freeze
    else if distance <= CoolThreshold then Cold
    else if distance <= 3800.0 then Cool
    else Normal
  }

  /** Classifying the temperature value gives the level read off the distance bands. */
  lemma LevelOfDistance(distance: real)
    ensures TemperatureLevelOf(TemperatureValue(distance)) == DistanceLevel(distance)
  {
    var v := TemperatureValue(distance);
    if distance >= NormalThreshold {
    } else if distance >= CoolThreshold {
      assert v == (5000.0 - distance) / 120.0;
    } else if distance >= ColdThreshold {
      assert v == 25.0 + (2000.0 - distance) / 60.0;
    } else if distance >= FreezeThreshold {
      assert v == 50.0 + (500.0 - distance) / 16.0;
    }
  }

  /** `createTemperatureState`. */
  function CreateTemperatureState(nearestDistance: Option<real>): (s: TemperatureState)
    ensures nearestDistance == None ==> s == NormalState
    ensures s.nearestDistance == nearestDistance
    ensures 0.0 <= s.value <= 100.0
    ensures s.level == TemperatureLevelOf(s.value)
    ensures nearestDistance.Some? ==> s.value == TemperatureValue(nearestDistance.value)
  {
    match nearestDistance
    case None => TemperatureState(Normal, NormalValue, None)
    case Some(d) =>
      var value := TemperatureValue(d);
      TemperatureState(TemperatureLevelOf(value), value, Some(d))
  }

  /** A measured distance gives the level of its band. */
  lemma CreateTemperatureStateLevel(d: real)
    ensures CreateTemperatureState(Some(d)).level == DistanceLevel(d)
  {
    LevelOfDistance(d);
  }

  /** `getTemperatureDescription`. */
  function TemperatureDescription(level: TemperatureLevel): string
  {
    match level
    case Extreme => "ICE agents are extremely close!"
    case Freeze => "You're very close to a report"
    case Cold => "Getting colder..."
    case Cool => "There are reports nearby"
    case Normal => "No reports nearby"
  }

  /** Each level has its own text, so the text tells the level. */
  lemma DescriptionsDistinct(l1: TemperatureLevel, l2: TemperatureLevel)
    ensures TemperatureDescription(l1) == TemperatureDescription(l2) <==> l1 == l2
  {
  }
}
