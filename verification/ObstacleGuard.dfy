/** The obstacle guard of the web controller: which forward commands the ultrasonic readings
    allow. Ranges follow REP 117: NaN for a faulty sensor, infinity for no echo.
 */
module ObstacleGuard {
  import opened Numbers

  datatype Side = Left | Right

  datatype Reading = Stale | Faulty | NoEcho | Metres(m: real)
  {
    predicate Missing() {
      Stale? || Faulty?
    }

    /** The comparison distance < limit, which is false for NaN. */
    predicate Below(limit: real) {
      Metres? && m < limit
    }

    predicate AtLeast(limit: real) {
      NoEcho? || (Metres? && m >= limit)
    }
  }

  datatype Readings = Readings(left: Reading, right: Reading)
  {
    function At(side: Side): Reading {
      match side
      case Left => left
      case Right => right
    }
  }

  /** What holds a forward command back; a distance of None is a side without data. */
  datatype Blocking = Blocking(side: Side, distance: Option<Reading>)

  /** The order of Python tuples (distance, side), with "left" before "right". */
  predicate Nearer(a: Reading, b: Reading) {
    a.Metres? && (b.NoEcho? || (b.Metres? && a.m < b.m))
  }

  function NearestObstacle(r: Readings): Option<Side> {
    if r.left.Missing() && r.right.Missing() then None
    else if r.left.Missing() then Some(Right)
    else if r.right.Missing() then Some(Left)
    else if Nearer(r.right, r.left) then Some(Right) else Some(Left)
  }

  function GuardCommand(linear: real, r: Readings, stopDistance: real, requireData: bool)
    : (real, Option<Blocking>)
  {
    if stopDistance <= 0.0 then (linear, None)
    else
      var nearest := NearestObstacle(r);
      if nearest.Some? && r.At(nearest.value).Below(stopDistance)
      then (Min(linear, 0.0), Some(Blocking(nearest.value, Some(r.At(nearest.value)))))
      else if requireData && r.left.Missing() then (Min(linear, 0.0), Some(Blocking(Left, None)))
      else if requireData && r.right.Missing() then (Min(linear, 0.0), Some(Blocking(Right, None)))
      else (linear, None)
  }

  /** The nearest obstacle is a valid reading, and no valid reading is below it. */
  lemma NearestIsLeast(r: Readings)
    ensures NearestObstacle(r).None? <==> forall s: Side :: r.At(s).Missing()
    ensures NearestObstacle(r).Some? ==>
              var n := r.At(NearestObstacle(r).value);
              !n.Missing() && forall s: Side :: !r.At(s).Missing() ==> !Nearer(r.At(s), n)
  {
    assert r.At(Left) == r.left && r.At(Right) == r.right;
  }

  /** Forward motion is refused exactly when the guard is on and some side is too close, or
      has no data while data are required; reversing is never touched. */
  lemma GuardMeaning(linear: real, r: Readings, stopDistance: real, requireData: bool)
    ensures var (allowed, blocking) := GuardCommand(linear, r, stopDistance, requireData);
            && (blocking.Some? <==> stopDistance > 0.0 && exists s: Side ::
                  r.At(s).Below(stopDistance) || (requireData && r.At(s).Missing()))
            && allowed == (if blocking.Some? then Min(linear, 0.0) else linear)
            && (blocking.Some? && blocking.value.distance.Some? ==>
                  blocking.value.distance.value == r.At(blocking.value.side)
                  && r.At(blocking.value.side).Below(stopDistance))
            && (blocking.Some? && blocking.value.distance.None? ==>
                  r.At(blocking.value.side).Missing() && forall s: Side :: !r.At(s).Below(stopDistance))
  {
    assert r.At(Left) == r.left && r.At(Right) == r.right;
    if r.left.Below(stopDistance) || r.right.Below(stopDistance) {
      var s := if r.left.Below(stopDistance) then Left else Right;
      assert r.At(s).Below(stopDistance);
    } else if r.left.Missing() || r.right.Missing() {
      var s := if r.left.Missing() then Left else Right;
      assert r.At(s).Missing();
    }
  }

  // Braking -------------------------------------------------------------------------

  function BrakingDistance(linear: real, reactionTime: real, deceleration: real): real {
    if linear <= 0.0 then 0.0
    else
      linear * Max(reactionTime, 0.0)
      + if deceleration > 0.0 then linear * linear / (2.0 * deceleration) else 0.0
  }

  const STOP_DISTANCE_CAP := 0.3

  /** The stop distance of one timer tick, for a commanded speed. */
  function StopDistanceFor(linear: real, stop: real, reactionTime: real, deceleration: real): real {
    Min(if stop > 0.0 then stop + BrakingDistance(linear, reactionTime, deceleration) else stop,
        STOP_DISTANCE_CAP)
  }

  /** Where the robot is `t` seconds after an obstacle comes into view at forward speed v: it
      keeps going for the reaction time, then brakes evenly to a standstill. */
  function Covered(v: real, reactionTime: real, deceleration: real, t: real): real
    requires deceleration > 0.0
  {
    if t <= reactionTime then v * t
    else
      var s := Min(t - reactionTime, v / deceleration);
      v * reactionTime + v * s - deceleration * s * s / 2.0
  }

  lemma BrakingSquare(v: real, d: real, s: real)
    requires d > 0.0
    ensures v * s - d * s * s / 2.0 == v * v / (2.0 * d) - (v - d * s) * (v - d * s) / (2.0 * d)
    ensures v * s - d * s * s / 2.0 <= v * v / (2.0 * d)
  {
    var q := v - d * s;
    assert q * q == v * v - 2.0 * v * (d * s) + (d * s) * (d * s);
    assert q * q >= 0.0;
    assert (v * v - q * q) / (2.0 * d) == (2.0 * v * (d * s) - (d * s) * (d * s)) / (2.0 * d);
    assert (2.0 * v * (d * s)) / (2.0 * d) == v * s;
    assert ((d * s) * (d * s)) / (2.0 * d) == d * s * s / 2.0;
  }

  lemma SignOfProduct(x: real, y: real)
    requires y > 0.0
    ensures (x * y > 0.0) == (x > 0.0)
  {
  }

  lemma SignOfQuotient(x: real, y: real, d: real)
    requires x > 0.0 && y > 0.0 && d > 0.0
    ensures x * y / d > 0.0
  {
    SignOfProduct(x, y);
    var q := x * y / d;
    assert q * d == x * y;
    SignOfProduct(q, d);
  }

  lemma BrakingIsPositive(v: real, d: real)
    requires v > 0.0 && d > 0.0
    ensures v * v / (2.0 * d) > 0.0 && v / d > 0.0
  {
    SignOfQuotient(v, v, 2.0 * d);
    SignOfQuotient(v, 1.0, d);
  }

  /** The braking distance is exactly how far the robot gets. */
  lemma BrakingDistanceIsFarthest(v: real, reactionTime: real, deceleration: real, t: real)
    requires v > 0.0 && reactionTime >= 0.0 && deceleration > 0.0 && t >= 0.0
    ensures Covered(v, reactionTime, deceleration, t) <= BrakingDistance(v, reactionTime, deceleration)
    ensures t >= reactionTime + v / deceleration ==>
              Covered(v, reactionTime, deceleration, t) == BrakingDistance(v, reactionTime, deceleration)
  {
    if t <= reactionTime {
      assert v * t <= v * reactionTime;
      BrakingIsPositive(v, deceleration);
    } else {
      var s := Min(t - reactionTime, v / deceleration);
      BrakingSquare(v, deceleration, s);
      if s == v / deceleration {
        assert deceleration * s == v;
      }
    }
  }

  /** What the guard is for: with data required, a positive command it passes leaves at least
      the stop distance to every obstacle, throughout reaction and braking, for all readings,
      exactly when stop distance plus braking distance stay within the 0.3 m cap. */
  lemma StopDistanceIsKept(v: real, stop: real, reactionTime: real, deceleration: real)
    requires v > 0.0 && stop > 0.0 && reactionTime >= 0.0 && deceleration > 0.0
    ensures stop + BrakingDistance(v, reactionTime, deceleration) <= STOP_DISTANCE_CAP <==>
            forall r: Readings, t: real ::
              t >= 0.0 && GuardCommand(v, r, StopDistanceFor(v, stop, reactionTime, deceleration), true).0 == v ==>
              Keeps(r, Covered(v, reactionTime, deceleration, t), stop)
  {
    var braking := BrakingDistance(v, reactionTime, deceleration);
    var effective := StopDistanceFor(v, stop, reactionTime, deceleration);
    assert braking > 0.0 by {
      BrakingIsPositive(v, deceleration);
      assert v * reactionTime >= 0.0;
    }
    if stop + braking <= STOP_DISTANCE_CAP {
      forall r: Readings, t: real | t >= 0.0 && GuardCommand(v, r, effective, true).0 == v
        ensures Keeps(r, Covered(v, reactionTime, deceleration, t), stop)
      {
        GuardMeaning(v, r, effective, true);
        BrakingDistanceIsFarthest(v, reactionTime, deceleration, t);
        forall s: Side ensures r.At(s).AtLeast(Covered(v, reactionTime, deceleration, t) + stop) {
          assert !r.At(s).Below(effective) && !r.At(s).Missing();
        }
      }
    } else {
      var r, t := Readings(Metres(STOP_DISTANCE_CAP), NoEcho), reactionTime + v / deceleration;
      BrakingIsPositive(v, deceleration);
      BrakingDistanceIsFarthest(v, reactionTime, deceleration, t);
      assert GuardCommand(v, r, effective, true).0 == v;
      assert !r.At(Left).AtLeast(Covered(v, reactionTime, deceleration, t) + stop);
    }
  }

  /** After covering a distance, at least `stop` is left on every side. */
  ghost predicate Keeps(r: Readings, covered: real, stop: real) {
    forall s: Side :: r.At(s).AtLeast(covered + stop)
  }
}
