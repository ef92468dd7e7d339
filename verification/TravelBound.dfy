/** The minimum travel time against every other way of driving (frenet/merge_selector.cpp). */
module TravelBound {
  import opened RealMath
  import opened MergeSelector

  /** The speed the drive has after `time`: the envelope no other drive is to exceed. */
  ghost function SpeedAt(d: Drive, time: real): real {
    if d.v0 >= d.target then d.v0 else Min(d.v0 + d.a * time, d.target)
  }

  /** A course of positions that never covers more ground than the envelope's speed at the end of a stretch
      allows; nothing else is asked of it, neither continuity nor a direction. */
  ghost predicate UnderEnvelope(p: real -> real, d: Drive) {
    forall s, u | 0.0 <= s <= u :: p(u) - p(s) <= Ground(d, s, u)
  }

  ghost function Ground(d: Drive, s: real, u: real): real { SpeedAt(d, u) * (u - s) }

  lemma SpeedGrows(d: Drive, s: real, u: real)
    requires Moving(d) && 0.0 <= s <= u
    ensures SpeedAt(d, s) <= SpeedAt(d, u) <= SpeedAt(d, s) + d.a * (u - s)
  {
    MulMono(s, u, d.a);
    assert d.a * (u - s) == d.a * u - d.a * s;
  }

  lemma RampGround(v0: real, a: real, s: real, u: real)
    requires a >= 0.0 && 0.0 <= s <= u
    ensures var gone := (v0 * u + 0.5 * a * u * u) - (v0 * s + 0.5 * a * s * s);
            (v0 + a * s) * (u - s) <= gone <= (v0 + a * u) * (u - s)
  {
    var h := u - s;
    assert (v0 * u + 0.5 * a * u * u) - (v0 * s + 0.5 * a * s * s) == v0 * h + 0.5 * a * (u + s) * h;
    var ah := a * h;
    assert ah >= 0.0;
    assert 0.5 * a * (u + s) * h - a * s * h == 0.5 * ah * h;
    assert a * u * h - 0.5 * a * (u + s) * h == 0.5 * ah * h;
    assert ah * h >= 0.0;
  }

  /** During the ramp, and from its end on, the ground covered lies between the speeds at both ends. */
  lemma RampBetween(d: Drive, s: real, u: real)
    requires Moving(d) && d.v0 < d.target && 0.0 <= s <= u <= AccelTime(d)
    ensures SpeedAt(d, s) * (u - s) <= Position(d, u) - Position(d, s) <= Ground(d, s, u)
  {
    AccelTimePositive(d);
    MulMono(s, AccelTime(d), d.a);
    MulMono(u, AccelTime(d), d.a);
    assert SpeedAt(d, s) == d.v0 + d.a * s && SpeedAt(d, u) == d.v0 + d.a * u;
    RampGround(d.v0, d.a, s, u);
    hide AccelTime, SpeedAt;
  }

  lemma CruiseBetween(d: Drive, s: real, u: real)
    requires Moving(d) && d.v0 < d.target && AccelTime(d) <= s <= u
    ensures Position(d, u) - Position(d, s) == d.target * (u - s) && SpeedAt(d, s) == d.target
            && SpeedAt(d, u) == d.target
  {
    AccelTimePositive(d);
    MulMono(AccelTime(d), s, d.a);
    MulMono(AccelTime(d), u, d.a);
    BranchesMeet(d, s);
    BranchesMeet(d, u);
    hide Position, AccelTime, AccelDistance;
    assert d.target * (u - AccelTime(d)) - d.target * (s - AccelTime(d)) == d.target * (u - s);
  }

  /** Over any stretch the drive covers at least its starting and at most its final speed times the time taken. */
  lemma DriveBetween(d: Drive, s: real, u: real)
    requires Moving(d) && 0.0 <= s <= u
    ensures SpeedAt(d, s) * (u - s) <= Position(d, u) - Position(d, s) <= Ground(d, s, u)
  {
    if d.v0 >= d.target {
      assert d.v0 * (u - s) == d.v0 * u - d.v0 * s;
    } else if u <= AccelTime(d) {
      RampBetween(d, s, u);
    } else if AccelTime(d) <= s {
      CruiseBetween(d, s, u);
    } else {
      RampThenCruise(d, s, AccelTime(d), u);
    }
  }

  lemma RampThenCruise(d: Drive, s: real, at: real, u: real)
    requires Moving(d) && d.v0 < d.target && at == AccelTime(d) && 0.0 <= s <= at <= u
    ensures SpeedAt(d, s) * (u - s) <= Position(d, u) - Position(d, s) <= Ground(d, s, u)
  {
    RampBetween(d, s, at);
    CruiseBetween(d, at, u);
    SpeedGrows(d, s, at);
    hide Position, AccelTime, AccelDistance, SpeedAt;
    MulMono(SpeedAt(d, s), d.target, u - at);
    var v := SpeedAt(d, s);
    assert v * (at - s) + v * (u - at) == v * (u - s);
    assert d.target * (at - s) + d.target * (u - at) == d.target * (u - s);
  }

  /** The drive itself respects the envelope. */
  lemma DriveIsUnderEnvelope(d: Drive)
    requires Moving(d)
    ensures UnderEnvelope(time => if d.a > 0.0 then Position(d, time) else 0.0, d)
  {
    forall s, u | 0.0 <= s <= u
      ensures Position(d, u) - Position(d, s) <= Ground(d, s, u)
    {
      DriveBetween(d, s, u);
    }
  }

  // ---------------------------------------------------------------- no course gets ahead

  /** By how much a course gains on the drive over a stretch. */
  ghost function Gain(p: real -> real, d: Drive, s: real, u: real): real
    requires d.a > 0.0
  {
    (p(u) - p(s)) - (Position(d, u) - Position(d, s))
  }

  lemma GainIsSmall(p: real -> real, d: Drive, s: real, u: real, h: real)
    requires Moving(d) && UnderEnvelope(p, d) && 0.0 <= s <= u && h == u - s
    ensures Gain(p, d, s, u) <= d.a * h * h
  {
    hide Position, SpeedAt;
    DriveBetween(d, s, u);
    SpeedGrows(d, s, u);
    assert p(u) - p(s) <= Ground(d, s, u);
    SmallDifference(SpeedAt(d, s), SpeedAt(d, u), d.a, h, p(u) - p(s), Position(d, u) - Position(d, s));
  }

  lemma SmallDifference(slow: real, fast: real, a: real, h: real, upper: real, lower: real)
    requires h >= 0.0 && fast <= slow + a * h && upper <= fast * h && lower >= slow * h
    ensures upper - lower <= a * h * h
  {
    assert (slow + a * h - fast) * h >= 0.0;
  }

  ghost function Steps(n: nat, h: real): real { n as real * h }

  /** Cut into `n` equal stretches, the gain is at most `n` times that of one. */
  lemma {:induction false} GainOfSteps(p: real -> real, d: Drive, n: nat, h: real)
    requires Moving(d) && UnderEnvelope(p, d) && h >= 0.0
    ensures Gain(p, d, 0.0, Steps(n, h)) <= Steps(n, d.a * h * h)
  {
    hide Steps, Position, UnderEnvelope;
    StepsGrow(n, h);
    StepsGrow(n, d.a * h * h);
    if n > 0 {
      GainOfSteps(p, d, n - 1, h);
      GainIsSmall(p, d, Steps(n - 1, h), Steps(n, h), h);
    }
  }

  lemma StepsGrow(n: nat, h: real)
    ensures Steps(n, h) == if n == 0 then 0.0 else Steps(n - 1, h) + h
    ensures h >= 0.0 ==> Steps(n, h) >= 0.0
    ensures h >= 0.0 && n > 0 ==> Steps(n - 1, h) >= 0.0
  {
  }

  /** Equal stretches of [0, time] bound the gain by a * time^2 / n. */
  lemma GainBound(p: real -> real, d: Drive, time: real, n: nat)
    requires Moving(d) && UnderEnvelope(p, d) && time >= 0.0 && n > 0
    ensures Gain(p, d, 0.0, time) * n as real <= d.a * time * time
  {
    hide UnderEnvelope, Position, Gain;
    var r := n as real;
    var h := time / r;
    assert h * r == time;
    assert h >= 0.0;
    GainOfSteps(p, d, n, h);
    var q := d.a * h * h;
    assert Steps(n, h) == time && Steps(n, q) == r * q;
    hide *;
    Rescaled(Gain(p, d, 0.0, time), d.a, h, r, time, q);
  }

  lemma Rescaled(gain: real, a: real, h: real, r: real, time: real, q: real)
    requires r > 0.0 && h * r == time && q == a * h * h && gain <= r * q
    ensures gain * r <= a * time * time
  {
    assert (r * q - gain) * r >= 0.0;
    var qr := q * r;
    assert qr * r == a * (h * r) * (h * r);
  }

  /** No course under the envelope is ever ahead of the drive. */
  lemma NeverAhead(p: real -> real, d: Drive, time: real)
    requires Moving(d) && UnderEnvelope(p, d) && time >= 0.0
    ensures p(time) - p(0.0) <= Position(d, time) - Position(d, 0.0)
  {
    hide Position, UnderEnvelope;
    var gain := Gain(p, d, 0.0, time);
    if gain > 0.0 {
      var n := Archimedes(gain, d.a * time * time);
      GainBound(p, d, time, n);
      assert false;
    }
  }

  /** Enough copies of a positive real exceed any bound. */
  lemma Archimedes(gain: real, bound: real) returns (n: nat)
    requires gain > 0.0
    ensures n > 0 && gain * n as real > bound
  {
    var q := bound / gain;
    assert q * gain == bound;
    n := if q < 0.0 then 1 else q.Floor + 1;
    var r := n as real;
    assert r > q;
    assert (r - q) * gain > 0.0;
  }

  /** No course under the speed envelope covers the distance sooner than MinimumTravelTime says. */
  lemma NoCourseIsFaster(sqrt: real -> real, p: real -> real, distance: real, initialSpeed: real, desiredSpeed: real,
                         accel: real, time: real)
    requires SquareRoot(sqrt) && time >= 0.0
    requires UnderEnvelope(p, DriveOf(initialSpeed, desiredSpeed, accel))
    requires p(time) - p(0.0) >= distance
    ensures time >= MinimumTravelTime(sqrt, distance, initialSpeed, desiredSpeed, accel)
  {
    var d := DriveOf(initialSpeed, desiredSpeed, accel);
    if distance > 0.0 {
      NeverAhead(p, d, time);
      AtStart(d);
      ReachedIffNotBefore(sqrt, distance, initialSpeed, desiredSpeed, accel, time);
    }
  }

  lemma AtStart(d: Drive)
    requires Moving(d)
    ensures Position(d, 0.0) == 0.0
  {
    if d.v0 < d.target {
      AccelTimePositive(d);
    }
  }
}
