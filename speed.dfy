/**
 * Difficulty levels and the speed policy. Speed is counted in half-steps
 * (twice the game's speed value), so the +0.5 increment is one unit and the
 * cap of 10 is 20.
 */
module Speed {
  import opened Optional

  datatype Difficulty = Easy | Medium | Hard | Extreme

  /** The speed the game has before any difficulty is applied (5). */
  const DefaultSpeed: int := 10

  /** The cap on speed (10). */
  const MaxSpeed: int := 20

  /** Speed for a whole-number slider value. */
  function FromSlider(v: int): (speed: int)
    ensures speed % 2 == 0 && speed / 2 == v
  {
    2 * v
  }

  /** Each level's initial speed: 3, 5, 7 and 9. */
  function InitialSpeed(d: Difficulty): (speed: int)
    ensures 2 <= speed < MaxSpeed && speed % 2 == 0
  {
    match d
    case Easy => FromSlider(3)
    case Medium => FromSlider(5)
    case Hard => FromSlider(7)
    case Extreme => FromSlider(9)
  }

  /** Each level's growth factor in tenths: 0.2, 0.3, 0.4 and 0.5. */
  function GrowthTenths(d: Difficulty): (g: int)
    ensures 0 < g <= 10
  {
    match d
    case Easy => 2
    case Medium => 3
    case Hard => 4
    case Extreme => 5
  }

  /**
   * The score period of speed-ups, 50 / growthFactor, when that quotient is
   * a whole number (250, 125 and 100). For Medium it is 166.66..., and no
   * reachable score is a multiple of it, so Medium has no period.
   */
  function SpeedUpPeriod(d: Difficulty): (p: Option<nat>)
    ensures p.Some? <==> 500 % GrowthTenths(d) == 0
    ensures p.Some? ==> p.value > 0 && p.value * GrowthTenths(d) == 500
  {
    var g := GrowthTenths(d);
    if 500 % g == 0 then Some(500 / g) else None
  }

  /** Whether the score that was just reached triggers a speed-up. */
  predicate SpeedUpDue(d: Difficulty, score: int) {
    match SpeedUpPeriod(d)
    case None => false
    case Some(p) => score % p == 0
  }

  /**
   * The speed after a meal: one half-step faster, capped at the maximum, when
   * the speed is below the cap and the score is on the period; unchanged
   * otherwise.
   */
  function SpeedAfterMeal(speed: int, d: Difficulty, score: int): (r: int)
    ensures speed <= r
    ensures speed <= MaxSpeed ==> r <= MaxSpeed
    ensures speed >= MaxSpeed ==> r == speed
    ensures r != speed <==> speed < MaxSpeed && SpeedUpDue(d, score)
    ensures r != speed ==> r == speed + 1
  {
    if speed < MaxSpeed && SpeedUpDue(d, score) then Min(MaxSpeed, speed + 1) else speed
  }

  function Min(a: int, b: int): int { if a <= b then a else b }

  /**
   * Within one game the speed stays between the level's initial speed and
   * the cap, whatever the scores.
   */
  lemma {:induction false} SpeedStaysInRange(speed: int, d: Difficulty, scores: seq<int>)
    requires InitialSpeed(d) <= speed <= MaxSpeed
    ensures InitialSpeed(d) <= SpeedAfterMeals(speed, d, scores) <= MaxSpeed
    decreases |scores|
  {
    if scores != [] {
      SpeedStaysInRange(SpeedAfterMeal(speed, d, scores[0]), d, scores[1..]);
    }
  }

  /** The speed after a run of meals reaching the given scores, in order. */
  function SpeedAfterMeals(speed: int, d: Difficulty, scores: seq<int>): int
    decreases |scores|
  {
    if scores == [] then speed
    else SpeedAfterMeals(SpeedAfterMeal(speed, d, scores[0]), d, scores[1..])
  }

  /** Easy speeds up for the first time at a score of 250, and not before. */
  lemma EasyFirstSpeedUpAt250(score: int)
    ensures 0 < score < 250 ==> !SpeedUpDue(Easy, score)
    ensures SpeedUpDue(Easy, 250)
  {
  }

  /** Medium never changes the speed after a meal. */
  lemma MediumNeverSpeedsUp(speed: int, score: int)
    ensures SpeedAfterMeal(speed, Medium, score) == speed
  {
  }
}
