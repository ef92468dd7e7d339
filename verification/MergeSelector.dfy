/** The travel time that the merge gap search assumes of the ego vehicle (frenet/merge_selector.cpp). */
module MergeSelector {
  import opened RealMath

  // ---------------------------------------------------------------- travel time

  const MIN_TARGET_SPEED := 0.5
  const MIN_ACCEL := 0.1

  /** Accelerating from `v0` at `a` up to `target`, and cruising there. */
  datatype Drive = Drive(v0: real, target: real, a: real)

  /** The drive assumed for a vehicle: no reversing, and a floor under target speed and acceleration. */
  function DriveOf(initialSpeed: real, desiredSpeed: real, accel: real): (d: Drive)
    ensures d.v0 >= 0.0 && d.target >= MIN_TARGET_SPEED && d.a >= MIN_ACCEL
  {
    Drive(Max(0.0, initialSpeed), Max(desiredSpeed, MIN_TARGET_SPEED), Max(accel, MIN_ACCEL))
  }

  function AccelTime(d: Drive): real
    requires d.a > 0.0
  {
    (d.target - d.v0) / d.a
  }

  function AccelDistance(d: Drive): real
    requires d.a > 0.0
  {
    d.v0 * AccelTime(d) + 0.5 * d.a * AccelTime(d) * AccelTime(d)
  }

  function SquaredSpeedAfter(d: Drive, distance: real): real { d.v0 * d.v0 + 2.0 * d.a * distance }

  function RampTime(sqrt: real -> real, d: Drive, distance: real): real
    requires d.a > 0.0
  {
    (-d.v0 + sqrt(SquaredSpeedAfter(d, distance))) / d.a
  }

  function CruiseTime(d: Drive, distance: real): real
    requires d.a > 0.0 && d.target > 0.0
  {
    AccelTime(d) + (distance - AccelDistance(d)) / d.target
  }

  function TravelTime(sqrt: real -> real, d: Drive, distance: real): real
    requires d.v0 >= 0.0 && d.target >= MIN_TARGET_SPEED && d.a >= MIN_ACCEL
  {
    if d.v0 >= d.target then distance / Max(d.v0, MIN_TARGET_SPEED)
    else if distance <= AccelDistance(d) then RampTime(sqrt, d, distance)
    else CruiseTime(d, distance)
  }

  function MinimumTravelTime(sqrt: real -> real, distance: real, initialSpeed: real, desiredSpeed: real,
                             accel: real): real {
    if distance <= 0.0 then 0.0 else TravelTime(sqrt, DriveOf(initialSpeed, desiredSpeed, accel), distance)
  }

  /** The distance covered after `time`. */
  function Position(d: Drive, time: real): real
    requires d.a > 0.0
  {
    if d.v0 >= d.target then d.v0 * time
    else if time <= AccelTime(d) then d.v0 * time + 0.5 * d.a * time * time
    else AccelDistance(d) + d.target * (time - AccelTime(d))
  }

  ghost predicate Moving(d: Drive) { d.v0 >= 0.0 && d.target >= MIN_TARGET_SPEED && d.a >= MIN_ACCEL }

  lemma ScaleIncreases(v: real, s: real, u: real)
    requires v > 0.0 && s < u
    ensures v * s < v * u
  {
  }

  lemma ScaleMono(v: real, s: real, u: real)
    requires v >= 0.0 && s <= u
    ensures v * s <= v * u
  {
    assert v * (u - s) >= 0.0;
  }

  lemma RampIncreases(v: real, a: real, s: real, u: real)
    requires v >= 0.0 && a > 0.0 && 0.0 <= s < u
    ensures v * s + 0.5 * a * s * s < v * u + 0.5 * a * u * u
  {
    ScaleMono(v, s, u);
    var as', au := a * s, a * u;
    ScaleIncreases(a, s, u);
    ScaleMono(a, 0.0, s);
    ScaleMono(as', s, u);
    ScaleIncreases(u, as', au);
  }

  lemma AccelTimePositive(d: Drive)
    requires Moving(d) && d.v0 < d.target
    ensures AccelTime(d) > 0.0 && AccelTime(d) * d.a == d.target - d.v0
  {
    var at := AccelTime(d);
    assert at * d.a == d.target - d.v0;
    if at <= 0.0 {
      MulMono(at, 0.0, d.a);
    }
  }

  /** At the moment the target speed is reached, both branches give the same position. */
  lemma BranchesMeet(d: Drive, time: real)
    requires Moving(d) && d.v0 < d.target && AccelTime(d) <= time
    ensures Position(d, time) == AccelDistance(d) + d.target * (time - AccelTime(d))
  {
    hide AccelTime;
    if time == AccelTime(d) {
      assert d.target * (time - AccelTime(d)) == 0.0;
    }
  }

  lemma CruiseIncreases(d: Drive, s: real, u: real)
    requires Moving(d) && d.v0 < d.target && AccelTime(d) <= s < u
    ensures Position(d, s) < Position(d, u)
  {
    BranchesMeet(d, s);
    BranchesMeet(d, u);
    hide AccelTime, AccelDistance, Position;
    ScaleIncreases(d.target, s - AccelTime(d), u - AccelTime(d));
  }

  lemma SteadyIncreases(d: Drive, s: real, u: real)
    requires Moving(d) && d.v0 >= d.target && s < u
    ensures Position(d, s) < Position(d, u)
  {
    hide AccelTime, AccelDistance;
    ScaleIncreases(d.v0, s, u);
  }

  /** The vehicle never stands still once it drives. */
  lemma PositionIncreases(d: Drive, s: real, u: real)
    requires Moving(d) && 0.0 <= s < u
    ensures Position(d, s) < Position(d, u)
  {
    if d.v0 >= d.target {
      SteadyIncreases(d, s, u);
    } else {
      AccelTimePositive(d);
      var at := AccelTime(d);
      hide AccelTime;
      if u <= at {
        RampIncreases(d.v0, d.a, s, u);
      } else if at <= s {
        CruiseIncreases(d, s, u);
      } else {
        RampIncreases(d.v0, d.a, s, at);
        CruiseIncreases(d, at, u);
      }
    }
  }

  lemma RootOfRamp(sqrt: real -> real, d: Drive, distance: real)
    requires SquareRoot(sqrt) && Moving(d) && distance > 0.0
    ensures var time := RampTime(sqrt, d, distance);
            time >= 0.0 && d.v0 * time + 0.5 * d.a * time * time == distance
  {
    var disc := SquaredSpeedAfter(d, distance);
    assert d.a * distance > 0.0 && d.v0 * d.v0 >= 0.0;
    var r := sqrt(disc);
    assert r >= 0.0 && r * r == disc;
    RootAtLeast(r, d.v0);
    RampAtRoot(d.v0, d.a, r, RampTime(sqrt, d, distance), distance);
  }

  lemma RootAtLeast(r: real, v: real)
    requires r >= 0.0 && v >= 0.0 && r * r >= v * v
    ensures r >= v
  {
    if r < v {
      SquareIncreases(r, v);
    }
  }

  lemma RampAtRoot(v: real, a: real, r: real, time: real, distance: real)
    requires a > 0.0 && r >= v && r * r == v * v + 2.0 * a * distance && time == (r - v) / a
    ensures time >= 0.0 && v * time + 0.5 * a * time * time == distance
  {
    assert a * time == r - v;
    assert time >= 0.0 by {
      if time < 0.0 {
        ScaleIncreases(a, time, 0.0);
      }
    }
    assert a * (v * time + 0.5 * a * time * time) == v * (a * time) + 0.5 * (a * time) * (a * time);
    assert v * (r - v) + 0.5 * (r - v) * (r - v) == a * distance;
    Cancel(a, v * time + 0.5 * a * time * time, distance);
  }

  /** At the distance where the target speed is reached, the two branches of the travel time agree. */
  lemma TimesMeet(sqrt: real -> real, d: Drive)
    requires SquareRoot(sqrt) && Moving(d) && d.v0 < d.target
    ensures RampTime(sqrt, d, AccelDistance(d)) == CruiseTime(d, AccelDistance(d))
  {
    AccelTimePositive(d);
    TargetSquared(d.v0, d.target, d.a, AccelTime(d), AccelTime(d) * d.a, AccelDistance(d));
    var r := sqrt(SquaredSpeedAfter(d, AccelDistance(d)));
    assert d.target * d.target >= 0.0;
    RootOfSquare(r, d.target);
  }

  lemma TargetSquared(v0: real, target: real, a: real, time: real, gained: real, distance: real)
    requires gained == time * a == target - v0 && distance == v0 * time + 0.5 * a * time * time
    ensures v0 * v0 + 2.0 * a * distance == target * target
  {
    assert 2.0 * a * distance == 2.0 * v0 * gained + gained * gained;
  }

  lemma SteadyTime(d: Drive, distance: real)
    requires Moving(d) && d.v0 >= d.target && distance > 0.0
    ensures d.v0 * (distance / d.v0) == distance && distance / d.v0 >= 0.0
  {
  }

  /** The drive covers the distance at the travel time. */
  lemma TravelTimeCovers(sqrt: real -> real, d: Drive, distance: real)
    requires SquareRoot(sqrt) && Moving(d) && distance > 0.0
    ensures TravelTime(sqrt, d, distance) >= 0.0 && Position(d, TravelTime(sqrt, d, distance)) == distance
  {
    if d.v0 >= d.target {
      SteadyTime(d, distance);
      hide AccelTime, AccelDistance;
    } else if distance <= AccelDistance(d) {
      RootOfRamp(sqrt, d, distance);
      RampWithinAccelTime(d, RampTime(sqrt, d, distance), distance);
      hide AccelTime, AccelDistance, Position, RampTime;
    } else {
      CruiseCovers(d, distance);
      AccelTimePositive(d);
      hide AccelTime, AccelDistance, Position;
    }
  }

  lemma RampWithinAccelTime(d: Drive, time: real, distance: real)
    requires Moving(d) && d.v0 < d.target && time >= 0.0
    requires d.v0 * time + 0.5 * d.a * time * time == distance <= AccelDistance(d)
    ensures time <= AccelTime(d) && Position(d, time) == distance
  {
    AccelTimePositive(d);
    var at := AccelTime(d);
    hide AccelTime;
    if at < time {
      RampIncreases(d.v0, d.a, at, time);
    }
  }

  lemma CruiseCovers(d: Drive, distance: real)
    requires Moving(d) && d.v0 < d.target && AccelDistance(d) < distance
    ensures CruiseTime(d, distance) >= AccelTime(d) && Position(d, CruiseTime(d, distance)) == distance
  {
    hide AccelTime, AccelDistance;
    var rest := (distance - AccelDistance(d)) / d.target;
    assert rest * d.target == distance - AccelDistance(d);
    BranchesMeet(d, AccelTime(d) + rest);
  }

  /** A position is reached by a given time exactly when that time is not before the minimum travel time;
      in particular no other time will do. */
  lemma ReachedIffNotBefore(sqrt: real -> real, distance: real, initialSpeed: real, desiredSpeed: real, accel: real,
                            u: real)
    requires SquareRoot(sqrt) && distance > 0.0 && u >= 0.0
    ensures var time := MinimumTravelTime(sqrt, distance, initialSpeed, desiredSpeed, accel);
            var at := Position(DriveOf(initialSpeed, desiredSpeed, accel), u);
            time >= 0.0 && (at >= distance <==> u >= time) && (at == distance <==> u == time)
  {
    var d := DriveOf(initialSpeed, desiredSpeed, accel);
    var time := TravelTime(sqrt, d, distance);
    TravelTimeCovers(sqrt, d, distance);
    hide TravelTime, Position, DriveOf;
    if u < time {
      PositionIncreases(d, u, time);
    } else if time < u {
      PositionIncreases(d, time, u);
    }
  }

  lemma TravelTimeIncreases(sqrt: real -> real, near: real, far: real, initialSpeed: real, desiredSpeed: real,
                            accel: real)
    requires SquareRoot(sqrt) && 0.0 < near < far
    ensures MinimumTravelTime(sqrt, near, initialSpeed, desiredSpeed, accel)
            < MinimumTravelTime(sqrt, far, initialSpeed, desiredSpeed, accel)
  {
    hide TravelTime, Position, DriveOf;
    var time := MinimumTravelTime(sqrt, near, initialSpeed, desiredSpeed, accel);
    ReachedIffNotBefore(sqrt, near, initialSpeed, desiredSpeed, accel, 0.0);
    ReachedIffNotBefore(sqrt, near, initialSpeed, desiredSpeed, accel, time);
    ReachedIffNotBefore(sqrt, far, initialSpeed, desiredSpeed, accel, time);
  }
}
