/** What the entry and clearing times of the gap search mean for the drive that it assumes of the ego vehicle
    (FindRoundaboutGap in frenet/merge_selector.cpp). */
module EntryTiming {
  import opened RealMath
  import opened Collision
  import opened TrajectoryCheck
  import opened MergeSelector
  import opened TravelBound
  import opened RoundaboutGap

  // ---------------------------------------------------------------- drives

  /** The same drive, taken up at a speed it reaches. */
  ghost function Resumed(d: Drive, time: real): Drive { d.(v0 := SpeedAt(d, time)) }

  lemma SpeedWithinTarget(d: Drive, time: real)
    requires Moving(d) && time >= 0.0
    ensures SpeedAt(d, time) >= d.v0 && (d.v0 < d.target ==> SpeedAt(d, time) <= d.target)
    ensures d.v0 < d.target ==> (SpeedAt(d, time) < d.target <==> time < AccelTime(d))
    ensures d.v0 < d.target && time <= AccelTime(d) ==> SpeedAt(d, time) == d.v0 + d.a * time
  {
    MulMono(0.0, time, d.a);
    if d.v0 < d.target {
      AccelTimePositive(d);
      hide AccelTime;
      if time < AccelTime(d) {
        ScaleIncreases(d.a, time, AccelTime(d));
      } else {
        MulMono(AccelTime(d), time, d.a);
      }
    }
  }

  /** What a drive covers from some time on is what it covers when it is taken up at the speed it has then. */
  lemma DriveResumes(d: Drive, s: real, u: real)
    requires Moving(d) && s >= 0.0 && u >= 0.0
    ensures Moving(Resumed(d, s)) && Position(d, s + u) - Position(d, s) == Position(Resumed(d, s), u)
  {
    hide Position, AccelTime, AccelDistance;
    SpeedWithinTarget(d, s);
    if d.v0 >= d.target {
      SteadyResumes(d, s, u);
    } else if AccelTime(d) <= s {
      CruiseBetween(d, s, s + u);
      SteadyResumes(Resumed(d, s), 0.0, u);
      AtStart(Resumed(d, s));
    } else {
      RampResumes(d, s, u);
    }
  }

  lemma SteadyResumes(d: Drive, s: real, u: real)
    requires Moving(d) && d.v0 >= d.target
    ensures Position(d, s + u) - Position(d, s) == Position(d, u) == d.v0 * u
  {
    assert d.v0 * (s + u) == d.v0 * s + d.v0 * u;
  }

  lemma RampResumes(d: Drive, s: real, u: real)
    requires Moving(d) && d.v0 < d.target && 0.0 <= s < AccelTime(d) && u >= 0.0
    requires SpeedAt(d, s) == d.v0 + d.a * s < d.target
    ensures Position(d, s + u) - Position(d, s) == Position(Resumed(d, s), u)
  {
    hide AccelTime, AccelDistance, Position, SpeedAt;
    var e, at := Resumed(d, s), AccelTime(d);
    SpeedWithinTarget(d, s);
    RampLeft(d, s);
    RampPosition(d, s);
    if s + u <= at {
      RampPosition(d, s + u);
      RampPosition(e, u);
      RampShift(d.v0, d.a, s, u);
    } else {
      RampPosition(d, at);
      RampPosition(e, at - s);
      RampShift(d.v0, d.a, s, at - s);
      CruiseBetween(d, at, s + u);
      CruiseBetween(e, at - s, u);
    }
  }

  /** What is left of the ramp. */
  lemma RampLeft(d: Drive, s: real)
    requires Moving(d) && d.v0 < d.target && 0.0 <= s < AccelTime(d)
    requires SpeedAt(d, s) == d.v0 + d.a * s < d.target && SpeedAt(d, s) >= d.v0
    ensures Moving(Resumed(d, s)) && AccelTime(Resumed(d, s)) == AccelTime(d) - s
  {
    hide AccelTime, SpeedAt;
    var e, at := Resumed(d, s), AccelTime(d);
    AccelTimePositive(d);
    AccelTimePositive(e);
    assert (at - s) * d.a == at * d.a - s * d.a;
    Cancel(d.a, AccelTime(e), at - s);
  }

  lemma RampPosition(d: Drive, time: real)
    requires Moving(d) && d.v0 < d.target && time <= AccelTime(d)
    ensures Position(d, time) == d.v0 * time + 0.5 * d.a * time * time
  {
  }

  lemma RampShift(v: real, a: real, s: real, u: real)
    ensures (v * (s + u) + 0.5 * a * (s + u) * (s + u)) - (v * s + 0.5 * a * s * s)
         == (v + a * s) * u + 0.5 * a * u * u
  {
  }

  lemma RestAtMost(d: Drive, s: real, time: real)
    requires Moving(d) && d.v0 < d.target && 0.0 <= s <= time
    ensures Position(d, time) - Position(d, s) <= d.target * (time - s)
  {
    hide Position, AccelTime, SpeedAt;
    DriveBetween(d, s, time);
    SpeedWithinTarget(d, time);
    MulMono(SpeedAt(d, time), d.target, time - s);
  }

  lemma FasterOnRamp(d: Drive, e: Drive, time: real)
    requires Moving(d) && Moving(e) && d.v0 < e.v0 < d.target && e == d.(v0 := e.v0) && 0.0 < time <= AccelTime(e)
    ensures AccelTime(e) < AccelTime(d) && Position(d, time) < Position(e, time)
  {
    hide AccelTime, Position;
    AccelTimePositive(d);
    AccelTimePositive(e);
    SoonerAtTarget(d, e, AccelTime(d), AccelTime(e));
    RampPosition(d, time);
    RampPosition(e, time);
    ScaleIncreases(time, d.v0, e.v0);
  }

  lemma FasterThanRamp(d: Drive, e: Drive, time: real)
    requires Moving(d) && Moving(e) && d.v0 < d.target == e.v0 && e == d.(v0 := e.v0) && time > 0.0
    ensures Position(d, time) < Position(e, time)
  {
    AccelTimePositive(d);
    SteadyResumes(e, 0.0, time);
    hide AccelTime, Position;
    var until := if time < AccelTime(d) then time else AccelTime(d);
    BelowTarget(d, until);
    RestAtMost(d, until, time);
    assert e.v0 * until + e.v0 * (time - until) == e.v0 * time;
  }

  /** Of two drives to the same target, the one that sets out faster is ahead at every later time. */
  lemma FasterIsAhead(d: Drive, e: Drive, time: real)
    requires Moving(d) && Moving(e) && d.v0 < e.v0 && e == d.(v0 := e.v0) && time > 0.0
    ensures Position(d, time) < Position(e, time)
  {
    hide Position, AccelTime;
    if d.v0 >= d.target {
      SteadyResumes(d, 0.0, time);
      SteadyResumes(e, 0.0, time);
      ScaleIncreases(time, d.v0, e.v0);
    } else if e.v0 < e.target {
      AccelTimePositive(e);
      var end := AccelTime(e);
      if time <= end {
        FasterOnRamp(d, e, time);
      } else {
        FasterOnRamp(d, e, end);
        CruiseBetween(e, end, time);
        RestAtMost(d, end, time);
      }
    } else {
      var f := d.(v0 := d.target);
      FasterThanRamp(d, f, time);
      SteadyResumes(f, 0.0, time);
      SteadyResumes(e, 0.0, time);
      MulMono(f.v0, e.v0, time);
    }
  }

  lemma SoonerAtTarget(d: Drive, e: Drive, at: real, end: real)
    requires d.v0 < e.v0 && d.a == e.a > 0.0 && d.target == e.target
    requires at * d.a == d.target - d.v0 && end * e.a == e.target - e.v0
    ensures end < at
  {
    if end >= at {
      MulMono(at, end, d.a);
    }
  }

  lemma BelowTarget(d: Drive, time: real)
    requires Moving(d) && d.v0 < d.target && 0.0 < time <= AccelTime(d)
    ensures Position(d, time) < d.target * time
  {
    RampPosition(d, time);
    SpeedWithinTarget(d, time);
    hide AccelTime, Position;
    var gained := d.a * time;
    assert d.v0 + gained <= d.target && gained > 0.0;
    ScaleIncreases(time, d.v0 + 0.5 * gained, d.target);
    assert d.v0 * time + 0.5 * d.a * time * time == (d.v0 + 0.5 * gained) * time;
  }

  /** It takes longer from a lower speed. */
  lemma SlowerTakesLonger(sqrt: real -> real, distance: real, slow: real, fast: real, desiredSpeed: real, accel: real)
    requires SquareRoot(sqrt) && distance > 0.0 && 0.0 <= slow < fast
    ensures MinimumTravelTime(sqrt, distance, fast, desiredSpeed, accel)
            < MinimumTravelTime(sqrt, distance, slow, desiredSpeed, accel)
  {
    hide MinimumTravelTime, Position;
    var time := MinimumTravelTime(sqrt, distance, slow, desiredSpeed, accel);
    var d, e := DriveOf(slow, desiredSpeed, accel), DriveOf(fast, desiredSpeed, accel);
    ReachedIffNotBefore(sqrt, distance, slow, desiredSpeed, accel, 0.0);
    ReachedIffNotBefore(sqrt, distance, slow, desiredSpeed, accel, time);
    AtStart(d);
    FasterIsAhead(d, e, time);
    ReachedIffNotBefore(sqrt, distance, fast, desiredSpeed, accel, time);
  }

  // ---------------------------------------------------------------- the entry

  /** The drive that the search assumes of the ego vehicle. */
  function EgoDrive(sc: Scene): (d: Drive)
    ensures Moving(d)
  {
    DriveOf(sc.ego.sDot, sc.desiredSpeed, sc.maxAccel)
  }

  /** The first entry time is the least one at which the assumed drive has brought the vehicle to the conflict. */
  lemma ArrivesAtConflict(sc: Scene, u: real)
    requires SquareRoot(sc.sqrt) && u >= 0.0
    ensures Earliest(sc) >= 0.0
    ensures sc.ego.s + Position(EgoDrive(sc), u) >= sc.cfg.conflictS <==> u >= Earliest(sc)
    ensures sc.ego.s < sc.cfg.conflictS ==> sc.ego.s + Position(EgoDrive(sc), Earliest(sc)) == sc.cfg.conflictS
  {
    var gap := sc.cfg.conflictS - sc.ego.s;
    if gap > 0.0 {
      ReachedIffNotBefore(sc.sqrt, gap, sc.ego.sDot, sc.desiredSpeed, sc.maxAccel, u);
      ReachedIffNotBefore(sc.sqrt, gap, sc.ego.sDot, sc.desiredSpeed, sc.maxAccel, Earliest(sc));
    } else {
      AtStart(EgoDrive(sc));
      if u > 0.0 {
        PositionIncreases(EgoDrive(sc), 0.0, u);
      }
    }
    hide Position, MinimumTravelTime, DriveOf;
  }

  // ---------------------------------------------------------------- the clearing time

  lemma SquareGrows(d: Drive, near: real, far: real)
    requires Moving(d) && near < far
    ensures SquaredSpeedAfter(d, near) < SquaredSpeedAfter(d, far)
  {
    ScaleIncreases(2.0 * d.a, near, far);
  }

  /** The target speed is reached at the end of the ramp. */
  lemma SquareAtTarget(d: Drive, square: real)
    requires Moving(d) && d.v0 < d.target && square == d.target * d.target
    ensures SquaredSpeedAfter(d, AccelDistance(d)) == square
  {
    AccelTimePositive(d);
    TargetSquared(d.v0, d.target, d.a, AccelTime(d), AccelTime(d) * d.a, AccelDistance(d));
  }

  /** The squared speed tells whether the distance ends on the ramp. */
  lemma SquareTells(d: Drive, distance: real, square: real)
    requires Moving(d) && d.v0 < d.target && square == d.target * d.target
    ensures distance < AccelDistance(d) <==> SquaredSpeedAfter(d, distance) < square
  {
    hide AccelDistance, SquaredSpeedAfter;
    SquareAtTarget(d, square);
    if distance < AccelDistance(d) {
      SquareGrows(d, distance, AccelDistance(d));
    } else if distance > AccelDistance(d) {
      SquareGrows(d, AccelDistance(d), distance);
    }
  }

  lemma RampSpeed(sqrt: real -> real, d: Drive, distance: real)
    requires SquareRoot(sqrt) && Moving(d) && d.v0 < d.target && 0.0 < distance <= AccelDistance(d)
    ensures var time := RampTime(sqrt, d, distance);
            d.v0 + d.a * time == sqrt(SquaredSpeedAfter(d, distance)) && 0.0 <= time <= AccelTime(d)
  {
    hide AccelDistance, AccelTime, Position, SquaredSpeedAfter, SquareRoot;
    RootOfRamp(sqrt, d, distance);
    RampWithinAccelTime(d, RampTime(sqrt, d, distance), distance);
  }

  lemma CruiseSpeed(d: Drive, distance: real)
    requires Moving(d) && d.v0 < d.target && distance > AccelDistance(d)
    ensures CruiseTime(d, distance) > AccelTime(d)
  {
    hide AccelDistance, AccelTime;
    var rest := (distance - AccelDistance(d)) / d.target;
    assert rest * d.target == distance - AccelDistance(d);
    if rest <= 0.0 {
      MulMono(rest, 0.0, d.target);
    }
  }

  lemma RootsOrdered(sqrt: real -> real, x: real, y: real)
    requires SquareRoot(sqrt) && 0.0 <= x <= y
    ensures sqrt(x) <= sqrt(y) && (x < y ==> sqrt(x) < sqrt(y)) && sqrt(x) >= 0.0
  {
    if sqrt(y) < sqrt(x) {
      SquareIncreases(sqrt(y), sqrt(x));
    }
  }

  lemma RootOfSquared(sqrt: real -> real, v: real, vv: real)
    requires SquareRoot(sqrt) && vv == v * v
    ensures vv >= 0.0 && sqrt(vv) == Abs(v)
  {
    assert Abs(v) * Abs(v) == v * v >= 0.0;
    RootOfSquare(sqrt(vv), Abs(v));
  }

  /** The speed of the assumed drive when it has covered the distance: the root of the squared speed an unbounded
      acceleration would reach, and at most the target, unless the drive sets out faster. */
  lemma SpeedThere(sqrt: real -> real, d: Drive, distance: real, time: real)
    requires SquareRoot(sqrt) && Moving(d) && distance >= 0.0
    requires time == if distance > 0.0 then TravelTime(sqrt, d, distance) else 0.0
    ensures time >= 0.0 && SquaredSpeedAfter(d, distance) >= 0.0
    ensures d.v0 >= d.target ==> SpeedAt(d, time) == d.v0
    ensures d.v0 < d.target ==> SpeedAt(d, time) == Min(d.target, sqrt(SquaredSpeedAfter(d, distance)))
  {
    hide AccelDistance, AccelTime, SquareRoot, SquaredSpeedAfter, RampTime, CruiseTime, Position;
    SquareNotNegative(d, distance);
    if distance > 0.0 {
      TravelTimeCovers(sqrt, d, distance);
    }
    if d.v0 < d.target {
      SpeedWithinTarget(d, time);
      AccelTimePositive(d);
      var square := d.target * d.target;
      RootOfSquared(sqrt, d.target, square);
      SquareTells(d, distance, square);
      if distance > AccelDistance(d) {
        CruiseIsPositive(d);
        CruiseSpeed(d, distance);
        RootsOrdered(sqrt, square, SquaredSpeedAfter(d, distance));
      } else if distance > 0.0 {
        RampSpeed(sqrt, d, distance);
      } else {
        SquareAtStart(d);
        RootOfSquared(sqrt, d.v0, SquaredSpeedAfter(d, distance));
      }
    }
  }

  lemma SquareNotNegative(d: Drive, distance: real)
    requires Moving(d) && distance >= 0.0
    ensures SquaredSpeedAfter(d, distance) >= 0.0
  {
    assert d.v0 * d.v0 >= 0.0;
    MulMono(0.0, distance, d.a);
  }

  lemma SquareAtStart(d: Drive)
    ensures SquaredSpeedAfter(d, 0.0) == d.v0 * d.v0
  {
  }

  lemma CruiseIsPositive(d: Drive)
    requires Moving(d) && d.v0 < d.target
    ensures AccelDistance(d) >= 0.0
  {
    AccelTimePositive(d);
    hide AccelTime;
    MulMono(0.0, AccelTime(d), d.v0);
    var at := d.a * AccelTime(d);
    MulMono(0.0, AccelTime(d), d.a);
    MulMono(0.0, AccelTime(d), at);
  }

  /** The squared target speed. */
  function TargetSquare(sc: Scene): real { EgoDrive(sc).target * EgoDrive(sc).target }

  /** The entry speed the clearing time is taken from is that of the assumed drive at the conflict, held to the target
      speed, unless the vehicle rolls backwards and the drive does not reach its target before the conflict: then it
      is too high. */
  lemma EntrySpeedIsReached(sc: Scene)
    requires SquareRoot(sc.sqrt)
    ensures var reached := SpeedAt(EgoDrive(sc), Earliest(sc));
            && 0.0 <= EntrySpeed(sc)
            && (sc.ego.sDot >= 0.0 ==> EntrySpeed(sc) == Min(EgoDrive(sc).target, reached))
            && (sc.ego.sDot < 0.0 && SquareGained(sc) >= TargetSquare(sc) ==> EntrySpeed(sc) == reached)
            && (sc.ego.sDot < 0.0 && SquareGained(sc) < TargetSquare(sc) ==>
                  reached == sc.sqrt(SquareGained(sc)) < EntrySpeed(sc))
  {
    hide Earliest, DistanceToConflict, SpeedAt, EntrySpeed, SquareGained, TargetSquare, SquaredSpeedAfter, EgoDrive;
    var d, gained, square := EgoDrive(sc), SquareGained(sc), SquareNow(sc);
    EntrySpeedOf(sc);
    RootsOrdered(sc.sqrt, square, square + gained);
    RootsOrdered(sc.sqrt, gained, square + gained);
    if gained >= TargetSquare(sc) {
      RootsOrdered(sc.sqrt, TargetSquare(sc), gained);
    } else {
      RootsOrdered(sc.sqrt, gained, TargetSquare(sc));
    }
  }

  lemma EntrySpeedOf(sc: Scene)
    requires SquareRoot(sc.sqrt)
    ensures var d, reached, gained := EgoDrive(sc), SpeedAt(EgoDrive(sc), Earliest(sc)), SquareGained(sc);
            && SquareNow(sc) >= 0.0 && gained >= 0.0 && TargetSquare(sc) >= 0.0 && d.target >= 0.0
            && sc.sqrt(TargetSquare(sc)) == d.target && sc.sqrt(SquareNow(sc)) == Abs(sc.ego.sDot)
            && d.v0 == Max(0.0, sc.ego.sDot) && (sc.ego.sDot < 0.0 ==> SquareNow(sc) > 0.0)
            && EntrySpeed(sc) == Min(d.target, sc.sqrt(SquareNow(sc) + gained))
            && (d.v0 >= d.target ==> reached == d.v0)
            && (d.v0 < d.target ==>
                  reached == Min(d.target, sc.sqrt(gained + if sc.ego.sDot < 0.0 then 0.0 else SquareNow(sc))))
  {
    hide *;
    SquaresOf(sc);
    EntryRoot(sc);
    ReachedRoot(sc);
  }

  lemma SquaresOf(sc: Scene)
    requires SquareRoot(sc.sqrt)
    ensures SquareNow(sc) >= 0.0 && SquareGained(sc) >= 0.0 && TargetSquare(sc) >= 0.0 && EgoDrive(sc).target >= 0.0
    ensures sc.sqrt(TargetSquare(sc)) == EgoDrive(sc).target && sc.sqrt(SquareNow(sc)) == Abs(sc.ego.sDot)
    ensures EgoDrive(sc).v0 == Max(0.0, sc.ego.sDot) && (sc.ego.sDot < 0.0 ==> SquareNow(sc) > 0.0)
  {
    MulMono(0.0, DistanceToConflict(sc), EgoDrive(sc).a);
    RootOfSquared(sc.sqrt, EgoDrive(sc).target, TargetSquare(sc));
    RootOfSquared(sc.sqrt, sc.ego.sDot, SquareNow(sc));
    if sc.ego.sDot < 0.0 {
      SquareIncreases(0.0, -sc.ego.sDot);
    }
  }

  lemma EntryRoot(sc: Scene)
    requires SquareNow(sc) >= 0.0 && SquareGained(sc) >= 0.0
    ensures EntrySpeed(sc) == Min(EgoDrive(sc).target, sc.sqrt(SquareNow(sc) + SquareGained(sc)))
  {
    hide SquareNow, SquareGained;
  }

  lemma ReachedRoot(sc: Scene)
    requires SquareRoot(sc.sqrt)
    ensures var d, reached := EgoDrive(sc), SpeedAt(EgoDrive(sc), Earliest(sc));
            && (d.v0 >= d.target ==> reached == d.v0)
            && (d.v0 < d.target ==>
                  reached == Min(d.target, sc.sqrt(SquareGained(sc) + if sc.ego.sDot < 0.0 then 0.0
                                                   else SquareNow(sc))))
  {
    hide SpeedAt, TravelTime, SquareRoot, SquareGained, SquareNow, SquaredSpeedAfter, DistanceToConflict;
    SquareThere(sc);
    SpeedThere(sc.sqrt, EgoDrive(sc), DistanceToConflict(sc), Earliest(sc));
  }

  lemma SquareThere(sc: Scene)
    ensures DistanceToConflict(sc) >= 0.0
    ensures SquaredSpeedAfter(EgoDrive(sc), DistanceToConflict(sc))
         == SquareGained(sc) + if sc.ego.sDot < 0.0 then 0.0 else SquareNow(sc)
  {
  }

  /** From the first entry time on the assumed drive leaves the conflict zone within the clearing time. */
  ghost predicate ClearsInTime(sc: Scene) {
    Position(EgoDrive(sc), Earliest(sc) + ClearDuration(sc)) - Position(EgoDrive(sc), Earliest(sc))
    >= sc.cfg.completionDistance
  }

  /** The vehicle rolls backwards, its drive does not reach the target speed before the conflict, and the configured
      floor is shorter than the time that the speed reached there takes to leave the zone. */
  predicate EntersTooSlow(sc: Scene) {
    && sc.ego.sDot < 0.0 && SquareGained(sc) < TargetSquare(sc) && sc.cfg.completionDistance > 0.0
    && sc.cfg.egoClearTime < MinimumTravelTime(sc.sqrt, sc.cfg.completionDistance, sc.sqrt(SquareGained(sc)),
                                               sc.desiredSpeed, sc.maxAccel)
  }

  /** The time to leave the zone from the speed that is reached. */
  function NeededTime(sc: Scene, reached: real): real {
    MinimumTravelTime(sc.sqrt, sc.cfg.completionDistance, reached, sc.desiredSpeed, sc.maxAccel)
  }

  /** A drive that is resumed at some speed covers the distance by a given time exactly when that is not before the
      travel time from that speed. */
  lemma ResumedCovers(sc: Scene, time: real, u: real)
    requires SquareRoot(sc.sqrt) && time >= 0.0 && u >= 0.0
    ensures var d, reached := EgoDrive(sc), SpeedAt(EgoDrive(sc), time);
            Position(d, time + u) - Position(d, time) >= sc.cfg.completionDistance <==> u >= NeededTime(sc, reached)
  {
    hide Position, SpeedAt;
    var d, reached := EgoDrive(sc), SpeedAt(EgoDrive(sc), time);
    SpeedWithinTarget(d, time);
    DriveResumes(d, time, u);
    assert Resumed(d, time) == DriveOf(reached, sc.desiredSpeed, sc.maxAccel);
    if sc.cfg.completionDistance > 0.0 {
      hide MinimumTravelTime, DriveOf;
      ReachedIffNotBefore(sc.sqrt, sc.cfg.completionDistance, reached, sc.desiredSpeed, sc.maxAccel, u);
    } else {
      AtStart(Resumed(d, time));
      if u > 0.0 {
        PositionIncreases(Resumed(d, time), 0.0, u);
      }
    }
  }

  lemma NeededIsPositive(sc: Scene, reached: real)
    requires SquareRoot(sc.sqrt)
    ensures NeededTime(sc, reached) >= 0.0
    ensures sc.cfg.completionDistance <= 0.0 ==> NeededTime(sc, reached) == 0.0
  {
    if sc.cfg.completionDistance > 0.0 {
      ReachedIffNotBefore(sc.sqrt, sc.cfg.completionDistance, reached, sc.desiredSpeed, sc.maxAccel, 0.0);
    }
  }

  lemma NeededFalls(sc: Scene, slow: real, fast: real)
    requires SquareRoot(sc.sqrt) && 0.0 <= slow <= fast
    ensures NeededTime(sc, fast) <= NeededTime(sc, slow)
    ensures slow < fast && sc.cfg.completionDistance > 0.0 ==> NeededTime(sc, fast) < NeededTime(sc, slow)
  {
    hide MinimumTravelTime, SquareRoot;
    if slow < fast && sc.cfg.completionDistance > 0.0 {
      SlowerTakesLonger(sc.sqrt, sc.cfg.completionDistance, slow, fast, sc.desiredSpeed, sc.maxAccel);
    } else if sc.cfg.completionDistance <= 0.0 {
      NeededIsPositive(sc, slow);
      NeededIsPositive(sc, fast);
    }
  }

  /** The drive leaves the zone within the clearing time exactly when the vehicle does not enter too slow. */
  lemma ClearsUnlessTooSlow(sc: Scene)
    requires SquareRoot(sc.sqrt)
    ensures ClearsInTime(sc) <==> !EntersTooSlow(sc)
  {
    hide Position, SpeedAt, Earliest, EntrySpeed, MinimumTravelTime, SquareRoot, SquareGained, TargetSquare;
    var reached := SpeedAt(EgoDrive(sc), Earliest(sc));
    ArrivesAtConflict(sc, 0.0);
    EntrySpeedIsReached(sc);
    NeededIsPositive(sc, EntrySpeed(sc));
    NeededIsPositive(sc, reached);
    assert ClearDuration(sc) == Max(sc.cfg.egoClearTime, NeededTime(sc, EntrySpeed(sc)));
    ResumedCovers(sc, Earliest(sc), ClearDuration(sc));
    ReachedAtLeastZero(sc);
    if EntrySpeed(sc) <= reached {
      NeededFalls(sc, EntrySpeed(sc), reached);
    } else {
      NeededFalls(sc, reached, EntrySpeed(sc));
    }
  }

  lemma ReachedAtLeastZero(sc: Scene)
    requires Earliest(sc) >= 0.0
    ensures SpeedAt(EgoDrive(sc), Earliest(sc)) >= 0.0
  {
    hide Earliest, SpeedAt;
    SpeedWithinTarget(EgoDrive(sc), Earliest(sc));
  }

  /** What the times of a safe result mean for the drive: at the entry time the vehicle has reached the conflict, and
      unless it enters too slow it leaves the zone within the clearing time after it. */
  lemma SafeEntryIsDriven(sc: Scene, r: Gap)
    requires SquareRoot(sc.sqrt) && GapOutcome(sc, r) && r.safe
    ensures r.entryTime >= Earliest(sc) >= 0.0
    ensures sc.ego.s + Position(EgoDrive(sc), r.entryTime) >= sc.cfg.conflictS
    ensures !EntersTooSlow(sc) ==>
              sc.ego.s + Position(EgoDrive(sc), r.entryTime + r.clearTime)
              >= sc.cfg.conflictS + sc.cfg.completionDistance
  {
    hide Position, SpeedAt, EntrySpeed, MinimumTravelTime, SquareRoot, EntersTooSlow;
    var d, earliest := EgoDrive(sc), Earliest(sc);
    ArrivesAtConflict(sc, 0.0);
    EntryNotBefore(sc, r);
    ArrivesAtConflict(sc, r.entryTime);
    NeededIsPositive(sc, EntrySpeed(sc));
    if !EntersTooSlow(sc) {
      ClearsUnlessTooSlow(sc);
      ResumedCovers(sc, earliest, r.clearTime);
      ResumedCovers(sc, r.entryTime, r.clearTime);
      SpeedGrows(d, earliest, r.entryTime);
      ReachedAtLeastZero(sc);
      NeededFalls(sc, SpeedAt(d, earliest), SpeedAt(d, r.entryTime));
    }
  }

  lemma EntryNotBefore(sc: Scene, r: Gap)
    requires GapOutcome(sc, r) && r.safe
    ensures r.entryTime >= Earliest(sc) && r.clearTime == ClearDuration(sc)
  {
    hide Earliest, ClearDuration, SearchOutcome, Sorted;
    var a, k: nat, n :| Searched(sc, r, a, k, n);
  }

  /** Vehicle `o` arrives at prediction step `k`. */
  ghost predicate Comes(sc: Scene, o: Obstacle, k: nat) {
    o in sc.obstacles && ArrivesAt(sc.t, sc.hypot, sc.conflict, o, sc.yawRates, sc.cfg, k)
  }

  /** An entry at `entry`, with the zone left `clear` later, keeps the front gap to a vehicle that has passed by then
      and the rear gap to one that has not. */
  predicate KeepsGaps(cfg: MergeConfig, entry: real, clear: real, time: real) {
    && (time <= entry ==> entry - time >= cfg.minFrontGap)
    && (entry < time ==> time - (entry + clear) >= cfg.minRearGap)
  }

  /** A safe result keeps both gaps to every vehicle that arrives; a confirmed unsafe one means that at every grid time
      up to the waiting limit some vehicle would be too close. */
  lemma GapsToVehicles(sc: Scene, r: Gap)
    requires GapOutcome(sc, r) && forall o | o in sc.obstacles :: o.id >= 0
    ensures r.safe ==>
              forall o, k: nat | Comes(sc, o, k) :: KeepsGaps(sc.cfg, r.entryTime, r.clearTime, PredictionTime(k))
    ensures r.confirmed && !r.safe ==>
              forall j: nat | EntryTime(Earliest(sc), j) <= sc.cfg.maxWaitTime ::
                exists o, k: nat ::
                  Comes(sc, o, k)
                  && !KeepsGaps(sc.cfg, EntryTime(Earliest(sc), j), r.clearTime, PredictionTime(k))
  {
    hide ArrivesAt, PredictionTime, Earliest, EntryTime, GapOutcome, Comes, KeepsGaps, ArrivalsOf, LeavesAll;
    forall x | x in Arrivals(sc)
      ensures x.id >= 0
    {
      var o, k := VehicleOf(sc, x);
    }
    GapMeaning(sc, r);
    ClearTimeOf(sc, r);
    if r.safe {
      forall o, k: nat | Comes(sc, o, k)
        ensures KeepsGaps(sc.cfg, r.entryTime, r.clearTime, PredictionTime(k))
      {
        ArrivalHere(sc, o, k);
        GapsOfRoom(sc, Arrival(o.id, PredictionTime(k)), r.entryTime);
        RoomAt(sc, r.entryTime, Arrival(o.id, PredictionTime(k)));
      }
    }
    if r.confirmed && !r.safe {
      forall j: nat | EntryTime(Earliest(sc), j) <= sc.cfg.maxWaitTime
        ensures exists o, k: nat ::
                  Comes(sc, o, k)
                  && !KeepsGaps(sc.cfg, EntryTime(Earliest(sc), j), r.clearTime, PredictionTime(k))
      {
        assert OnGrid(Earliest(sc), sc.cfg.maxWaitTime, j);
        var x := TooClose(sc, EntryTime(Earliest(sc), j));
        var o, k := VehicleOf(sc, x);
        GapsOfRoom(sc, x, EntryTime(Earliest(sc), j));
      }
    }
  }

  lemma ClearTimeOf(sc: Scene, r: Gap)
    requires GapOutcome(sc, r)
    ensures r.safe || r.confirmed ==> r.clearTime == ClearDuration(sc)
  {
    hide ClearDuration, Earliest, Searched, Arrivals;
  }

  lemma GapsOfRoom(sc: Scene, x: Arrival, entry: real)
    ensures Leaves(x, entry, RoomNeeded(sc)) <==> KeepsGaps(sc.cfg, entry, ClearDuration(sc), x.time)
  {
    hide ClearDuration;
  }

  lemma RoomAt(sc: Scene, entry: real, x: Arrival)
    requires LeavesAll(Arrivals(sc), entry, RoomNeeded(sc)) && x in Arrivals(sc)
    ensures Leaves(x, entry, RoomNeeded(sc))
  {
    hide Leaves;
  }

  lemma TooClose(sc: Scene, entry: real) returns (x: Arrival)
    requires !LeavesAll(Arrivals(sc), entry, RoomNeeded(sc))
    ensures x in Arrivals(sc) && !Leaves(x, entry, RoomNeeded(sc))
  {
    hide Leaves;
    x :| x in Arrivals(sc) && !Leaves(x, entry, RoomNeeded(sc));
  }

  lemma ArrivalHere(sc: Scene, o: Obstacle, k: nat)
    requires Comes(sc, o, k)
    ensures Arrival(o.id, PredictionTime(k)) in Arrivals(sc)
  {
    hide ArrivesAt, PredictionTime, ArrivalsOf;
    ArrivalsExactly(sc.t, sc.hypot, sc.conflict, sc.obstacles, sc.yawRates, sc.cfg, Arrival(o.id, PredictionTime(k)));
  }

  lemma VehicleOf(sc: Scene, x: Arrival) returns (o: Obstacle, k: nat)
    requires x in Arrivals(sc)
    ensures o in sc.obstacles && Comes(sc, o, k) && x == Arrival(o.id, PredictionTime(k))
  {
    hide ArrivesAt, PredictionTime, ArrivalsOf;
    ArrivalsExactly(sc.t, sc.hypot, sc.conflict, sc.obstacles, sc.yawRates, sc.cfg, x);
    o, k :| o in sc.obstacles && x == Arrival(o.id, PredictionTime(k))
            && ArrivesAt(sc.t, sc.hypot, sc.conflict, o, sc.yawRates, sc.cfg, k);
  }

  /** A vehicle that rolls backwards at the conflict itself: the clearing time is 2, in which the drive covers 2 of the
      6 that the zone takes. */
  lemma ReversingClearsLate(sc: Scene)
    requires SquareRoot(sc.sqrt) && sc.ego == Ego(5.0, -2.0) && sc.cfg.conflictS == 5.0
    requires sc.desiredSpeed == 10.0 && sc.maxAccel == 1.0
    requires sc.cfg.completionDistance == 6.0 && sc.cfg.egoClearTime == 0.0
    ensures Earliest(sc) == 0.0 && ClearDuration(sc) == 2.0
    ensures Position(EgoDrive(sc), 2.0) == 2.0 && !ClearsInTime(sc)
  {
    RootOfSquared(sc.sqrt, 2.0, 4.0);
    RootOfSquared(sc.sqrt, 4.0, 16.0);
    assert SquareNow(sc) == 4.0 && SquareGained(sc) == 0.0;
    assert EntrySpeed(sc) == 2.0;
    var d := DriveOf(2.0, 10.0, 1.0);
    assert AccelTime(d) == 8.0 && AccelDistance(d) == 48.0;
    assert SquaredSpeedAfter(d, 6.0) == 16.0;
  }
}
