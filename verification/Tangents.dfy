/** What the vehicle model does: the step follows the heading, and the linear model is its tangent
    (model/vehicle_model.cpp). */
module Tangents {
  import opened RealMath
  import opened Angles
  import opened VehicleModel

  // ---------------------------------------------------------------- the nonlinear step

  /** One step covers speed times sample time along the heading, and nothing across it. */
  ghost predicate Advances(t: Trig, s: State, z: State, dt: real) {
    && (z.x - s.x) * t.cos(s.yaw) + (z.y - s.y) * t.sin(s.yaw) == s.vx * dt
    && (z.y - s.y) * t.cos(s.yaw) - (z.x - s.x) * t.sin(s.yaw) == 0.0
  }

  /** A moving vehicle turns by the distance covered times the curvature of its steering angle, up to whole turns; one
      that stands does not. */
  ghost predicate Veers(t: Trig, s: State, u: Control, v: Vehicle, z: State) {
    if Abs(s.vx) <= STANDSTILL then z.yaw == s.yaw
    else exists k: int :: (z.yaw - s.yaw - Turns(k)) * v.wheelbase == s.vx * v.dt * t.tan(u.delta)
  }

  /** The speed gains the acceleration times the sample time, within its bounds. */
  predicate Gains(s: State, u: Control, v: Vehicle, z: State) {
    && (v.vMin <= s.vx + u.accel * v.dt <= v.vMax ==> z.vx == s.vx + u.accel * v.dt)
    && (v.vMin <= v.vMax ==> v.vMin <= z.vx <= v.vMax)
  }

  /** One step moves the vehicle by speed times sample time along its heading and not sideways; a moving vehicle turns
      by that distance times the curvature its steering angle stands for; the speed gains the acceleration. */
  lemma StepFollowsHeading(t: Trig, s: State, u: Control, v: Vehicle)
    requires UnitCircle(t) && v.wheelbase != 0.0
    ensures var z := UpdateVehicleState(t, s, u, v);
            Advances(t, s, z, v.dt) && Veers(t, s, u, v, z) && Gains(s, u, v, z)
  {
    hide NormalizeAngle, Turns, Turn, Covered, UnitCircle, Advances, Gains;
    OnUnitCircle(t, s.yaw);
    StepAdvances(t, s, u, v);
    StepGains(t, s, u, v);
    if Abs(s.vx) > STANDSTILL {
      Turned(s.yaw, s.vx, v.wheelbase, t.tan(u.delta), v.dt, UpdateVehicleState(t, s, u, v).yaw);
    }
  }

  lemma StepAdvances(t: Trig, s: State, u: Control, v: Vehicle)
    requires v.wheelbase != 0.0 && t.sin(s.yaw) * t.sin(s.yaw) + t.cos(s.yaw) * t.cos(s.yaw) == 1.0
    ensures Advances(t, s, UpdateVehicleState(t, s, u, v), v.dt)
  {
    hide NormalizeAngle, Turn, Covered, Clip;
    var z := UpdateVehicleState(t, s, u, v);
    AlongAndAcross(t.cos(s.yaw), t.sin(s.yaw), s.vx, v.dt, z.x - s.x, z.y - s.y);
  }

  lemma StepGains(t: Trig, s: State, u: Control, v: Vehicle)
    requires v.wheelbase != 0.0
    ensures Gains(s, u, v, UpdateVehicleState(t, s, u, v))
  {
    hide NormalizeAngle, Turn, Covered;
  }

  lemma Turned(yaw: real, speed: real, wheelbase: real, tangent: real, dt: real, next: real)
    requires wheelbase != 0.0 && next == NormalizeAngle(yaw + Turn(speed, wheelbase, tangent, dt))
    ensures exists k: int :: (next - yaw - Turns(k)) * wheelbase == speed * dt * tangent
  {
    hide NormalizeAngle, Turns, Turn;
    var turn := Turn(speed, wheelbase, tangent, dt);
    NormalizedByWholeTurns(yaw + turn);
    var k: int :| NormalizeAngle(yaw + turn) == yaw + turn + Turns(k);
    TurnTimesWheelbase(speed, wheelbase, tangent, dt);
    assert next - yaw - Turns(k) == turn;
  }

  lemma AlongAndAcross(c: real, s: real, speed: real, dt: real, dx: real, dy: real)
    requires s * s + c * c == 1.0 && dx == Covered(speed, c, dt) && dy == Covered(speed, s, dt)
    ensures dx * c + dy * s == speed * dt && dy * c - dx * s == 0.0
  {
    assert dx * c + dy * s == speed * dt * (s * s + c * c);
  }

  lemma TurnTimesWheelbase(speed: real, wheelbase: real, tangent: real, dt: real)
    requires wheelbase != 0.0
    ensures Turn(speed, wheelbase, tangent, dt) * wheelbase == speed * dt * tangent
  {
    var q := speed / wheelbase;
    assert q * wheelbase == speed;
    assert q * tangent * dt * wheelbase == (q * wheelbase) * tangent * dt;
  }

  // ---------------------------------------------------------------- mirrored drives

  function MirrorState(s: State): State { State(s.x, -s.y, -s.yaw, s.vx) }

  function MirrorControl(u: Control): Control { Control(-u.delta, u.accel) }

  function MirrorControls(us: seq<Control>): (r: seq<Control>)
    ensures |r| == |us|
  {
    seq(|us|, i requires 0 <= i < |us| => MirrorControl(us[i]))
  }

  lemma {:induction false} NormalizeIsOdd(angle: real)
    ensures NormalizeAngle(-angle) == -NormalizeAngle(angle)
    decreases if angle > PI then angle else if angle < -PI then -angle else 0.0
  {
    if angle > PI {
      NormalizeIsOdd(angle - TWO_PI);
      assert -(angle - TWO_PI) == -angle + TWO_PI;
    } else if angle < -PI {
      NormalizeIsOdd(angle + TWO_PI);
      assert -(angle + TWO_PI) == -angle - TWO_PI;
    }
  }

  lemma MirroredStep(t: Trig, s: State, u: Control, v: Vehicle)
    requires Reflects(t) && v.wheelbase != 0.0
    ensures UpdateVehicleState(t, MirrorState(s), MirrorControl(u), v) == MirrorState(UpdateVehicleState(t, s, u, v))
  {
    hide NormalizeAngle, Turn, Covered;
    assert ReflectsAt(t, s.yaw) && ReflectsAt(t, u.delta);
    TurnReversed(s.vx, v.wheelbase, t.tan(u.delta), v.dt);
    CoveredBack(s.vx, t.sin(s.yaw), v.dt);
    var turn := Turn(s.vx, v.wheelbase, t.tan(u.delta), v.dt);
    NormalizeIsOdd(s.yaw + turn);
    assert -s.yaw + -turn == -(s.yaw + turn);
    assert MirrorControl(u).accel * v.dt == u.accel * v.dt;
  }

  lemma TurnReversed(speed: real, wheelbase: real, tangent: real, dt: real)
    requires wheelbase != 0.0
    ensures Turn(speed, wheelbase, -tangent, dt) == -Turn(speed, wheelbase, tangent, dt)
  {
    CoveredBack(speed / wheelbase, tangent, dt);
  }

  lemma CoveredBack(speed: real, share: real, dt: real)
    ensures Covered(speed, -share, dt) == -Covered(speed, share, dt)
  {
  }

  /** Steering the other way from the mirrored start drives the mirrored course. */
  lemma {:induction false} MirroredRollout(t: Trig, x0: State, us: seq<Control>, v: Vehicle, k: nat)
    requires Reflects(t) && v.wheelbase != 0.0 && k <= |us|
    ensures Rollout(t, MirrorState(x0), MirrorControls(us), v)[k] == MirrorState(Rollout(t, x0, us, v)[k])
  {
    hide Rollout, UpdateVehicleState;
    if k > 0 {
      MirroredRollout(t, x0, us, v, k - 1);
      MirroredStep(t, Rollout(t, x0, us, v)[k - 1], us[k - 1], v);
      var mirrored := Rollout(t, MirrorState(x0), MirrorControls(us), v);
      assert mirrored[k - 1 + 1] == UpdateVehicleState(t, mirrored[k - 1], MirrorControls(us)[k - 1], v);
      assert Rollout(t, x0, us, v)[k - 1 + 1] == UpdateVehicleState(t, Rollout(t, x0, us, v)[k - 1], us[k - 1], v);
    }
  }

  // ---------------------------------------------------------------- the linear step

  predicate Drives(s: State) { Abs(s.vx) > STANDSTILL }

  /** The linear model taken at `s`, used at a state `z`, adds its state matrix times the difference. */
  lemma LinearRows(t: Trig, s: State, u: Control, v: Vehicle, z: State)
    requires v.wheelbase != 0.0
    ensures var m, f := LinearizeBicycle(t, s, u, v), RawStep(t, s, u, v);
            LtvStep(m, z, u) == State(f.x + AX(m.a.0, z) - AX(m.a.0, s), f.y + AX(m.a.1, z) - AX(m.a.1, s),
                                      NormalizeAngle(f.yaw + AX(m.a.2, z) - AX(m.a.2, s)),
                                      Clip(f.vx + AX(m.a.3, z) - AX(m.a.3, s), LTV_SPEED_MIN, LTV_SPEED_MAX))
  {
    hide AX, BU, RawStep, NormalizeAngle, Clip, SteeringGain;
    var m, f := LinearizeBicycle(t, s, u, v), RawStep(t, s, u, v);
    assert m.c.yaw + AX(m.a.2, z) + BU(m.b.2, u) == f.yaw + AX(m.a.2, z) - AX(m.a.2, s);
    assert m.c.vx + AX(m.a.3, z) + BU(m.b.3, u) == f.vx + AX(m.a.3, z) - AX(m.a.3, s);
  }

  lemma RowDifference(r: StateRow, z: State, s: State)
    ensures AX(r, z) - AX(r, s)
         == r.x * (z.x - s.x) + r.y * (z.y - s.y) + r.yaw * (z.yaw - s.yaw) + r.vx * (z.vx - s.vx)
  {
  }

  /** The position the linear model taken at `s` gives a state `z`. */
  lemma LinearPosition(t: Trig, s: State, u: Control, v: Vehicle, z: State)
    requires v.wheelbase != 0.0
    ensures var l := LtvStep(LinearizeBicycle(t, s, u, v), z, u);
            && l.x == z.x + Covered(z.vx, t.cos(s.yaw), v.dt) - Covered(s.vx, t.sin(s.yaw), v.dt) * (z.yaw - s.yaw)
            && l.y == z.y + Covered(z.vx, t.sin(s.yaw), v.dt) + Covered(s.vx, t.cos(s.yaw), v.dt) * (z.yaw - s.yaw)
  {
    hide LtvStep, AX, NormalizeAngle, Clip, SteeringGain, Turn;
    var m := LinearizeBicycle(t, s, u, v);
    LinearRows(t, s, u, v, z);
    RowDifference(m.a.0, z, s);
    RowDifference(m.a.1, z, s);
    CoveredMore(s.vx, z.vx, t.cos(s.yaw), v.dt);
    CoveredMore(s.vx, z.vx, t.sin(s.yaw), v.dt);
  }

  lemma CoveredMore(speed: real, more: real, share: real, dt: real)
    ensures Covered(more, share, dt) == Covered(speed, share, dt) + share * dt * (more - speed)
  {
  }

  lemma LinearYawAndSpeed(t: Trig, s: State, u: Control, v: Vehicle, z: State)
    requires v.wheelbase != 0.0 && Drives(s) && Drives(z)
    ensures var l, f := LtvStep(LinearizeBicycle(t, s, u, v), z, u), RawStep(t, z, u, v);
            l.yaw == NormalizeAngle(f.yaw) && l.vx == Clip(f.vx, LTV_SPEED_MIN, LTV_SPEED_MAX)
  {
    hide LtvStep, LinearizeBicycle, AX, BU, NormalizeAngle, Clip, SteeringGain, Turn, Covered;
    var m := LinearizeBicycle(t, s, u, v);
    LinearRows(t, s, u, v, z);
    LastRows(t, s, u, v, z);
    TurnPerSpeed(s.vx, v.wheelbase, t.tan(u.delta), v.dt, m.a.2.vx);
    TurnPerSpeed(z.vx, v.wheelbase, t.tan(u.delta), v.dt, m.a.2.vx);
    var f0, f := RawStep(t, s, u, v), RawStep(t, z, u, v);
    assert f.yaw == f0.yaw + AX(m.a.2, z) - AX(m.a.2, s);
    assert f.vx == f0.vx + AX(m.a.3, z) - AX(m.a.3, s);
  }

  lemma LastRows(t: Trig, s: State, u: Control, v: Vehicle, z: State)
    requires v.wheelbase != 0.0
    ensures var m := LinearizeBicycle(t, s, u, v);
            && AX(m.a.2, z) - AX(m.a.2, s) == z.yaw - s.yaw + (m.a.2.vx * z.vx - m.a.2.vx * s.vx)
            && AX(m.a.3, z) - AX(m.a.3, s) == z.vx - s.vx
            && m.a.2.vx == t.tan(u.delta) / v.wheelbase * v.dt
  {
    hide RawStep, SteeringGain;
  }

  lemma TurnPerSpeed(speed: real, wheelbase: real, tangent: real, dt: real, k: real)
    requires wheelbase != 0.0 && k == tangent / wheelbase * dt
    ensures Turn(speed, wheelbase, tangent, dt) == k * speed
  {
    var q := 1.0 / wheelbase;
    assert q * wheelbase == 1.0;
    Quotient(speed, speed * q, wheelbase);
    Quotient(tangent, tangent * q, wheelbase);
  }

  /** By how much the exact and the linear position differ along one axis, whose direction is at (c, s). */
  lemma SecondOrder(c: real, s: real, ch: real, sh: real, h: real, hh: real, exact: real, speed: real, at: real,
                    dt: real, gap: real)
    requires Abs(s) <= 1.0 && Abs(c) <= 1.0 && exact == c * ch - s * sh && hh == h * h
    requires Abs(sh - h) <= 0.5 * hh && Abs(ch - 1.0) <= 0.5 * hh
    requires gap == Covered(speed, exact, dt) - Covered(speed, c, dt) + Covered(at, s, dt) * h
    ensures Abs(gap) <= Slack(dt, speed, speed - at, h)
  {
    hide *;
    var bend := c * (ch - 1.0) - s * (sh - h);
    var error := speed * bend - (speed - at) * (s * h);
    GapFactors(c, s, ch, sh, h, exact, speed, at, dt, gap, bend, error);
    BendIsSmall(c, s, ch - 1.0, sh - h, 0.5 * hh, bend);
    ErrorIsSmall(s, h, speed, speed - at, bend, hh, error);
    SlackOf(dt, speed, speed - at, h, hh);
    ErrorScaled(dt, error, Abs(speed) * hh + Abs(speed - at) * Abs(h), gap);
  }

  lemma SlackOf(dt: real, speed: real, more: real, h: real, hh: real)
    requires hh == h * h
    ensures Slack(dt, speed, more, h) == Abs(dt) * (Abs(speed) * hh + Abs(more) * Abs(h))
  {
  }

  lemma ErrorIsSmall(s: real, h: real, speed: real, more: real, bend: real, hh: real, error: real)
    requires Abs(s) <= 1.0 && Abs(bend) <= hh && error == speed * bend - more * (s * h)
    ensures Abs(error) <= Abs(speed) * hh + Abs(more) * Abs(h)
  {
    hide *;
    var turned := s * h;
    ProductAtMost(s, h, 1.0, Abs(h));
    OneTimes(Abs(h));
    ProductAtMost(speed, bend, Abs(speed), hh);
    ProductAtMost(more, turned, Abs(more), Abs(h));
    Difference(speed * bend, more * turned, error, Abs(speed) * hh, Abs(more) * Abs(h));
  }

  lemma OneTimes(x: real)
    ensures 1.0 * x == x
  {
  }

  lemma Difference(x: real, y: real, z: real, xMax: real, yMax: real)
    requires z == x - y && Abs(x) <= xMax && Abs(y) <= yMax
    ensures Abs(z) <= xMax + yMax
  {
  }

  lemma GapFactors(c: real, s: real, ch: real, sh: real, h: real, exact: real, speed: real, at: real, dt: real,
                   gap: real, bend: real, error: real)
    requires exact == c * ch - s * sh
    requires gap == Covered(speed, exact, dt) - Covered(speed, c, dt) + Covered(at, s, dt) * h
    requires bend == c * (ch - 1.0) - s * (sh - h) && error == speed * bend - (speed - at) * (s * h)
    ensures gap == dt * error
  {
    assert exact - c == bend - s * h;
    assert speed * (exact - c) + at * s * h == error;
    assert gap == dt * (speed * (exact - c) + at * s * h);
  }

  /** A term of second order in the differences `more` in speed and `h` in yaw. */
  function Slack(dt: real, speed: real, more: real, h: real): real {
    Abs(dt) * (Abs(speed) * (h * h) + Abs(more) * Abs(h))
  }

  /** A linear model is tangent to the nonlinear step in the state: at any other state `z` its position is off by at
      most a second-order term in the yaw and speed differences, and it is exact in yaw and speed as long as
      the vehicle drives. */
  lemma ModelIsTangent(t: Trig, s: State, u: Control, v: Vehicle, z: State)
    requires UnitCircle(t) && AdditionLaws(t) && SmallAngles(t) && v.wheelbase != 0.0
    ensures var l, f := LtvStep(LinearizeBicycle(t, s, u, v), z, u), RawStep(t, z, u, v);
            var h := z.yaw - s.yaw;
            var slack := Slack(v.dt, z.vx, z.vx - s.vx, h);
            && Abs(f.x - l.x) <= slack && Abs(f.y - l.y) <= slack
            && (Drives(s) && Drives(z) ==>
                  l.yaw == NormalizeAngle(f.yaw) && l.vx == Clip(f.vx, LTV_SPEED_MIN, LTV_SPEED_MAX))
  {
    hide LtvStep, LinearizeBicycle, NormalizeAngle, Clip, Covered, Turn, Slack, UnitCircle, AdditionLaws, SmallAngles;
    var h := z.yaw - s.yaw;
    LinearPosition(t, s, u, v, z);
    if Drives(s) && Drives(z) {
      LinearYawAndSpeed(t, s, u, v, z);
    }
    var l, f := LtvStep(LinearizeBicycle(t, s, u, v), z, u), RawStep(t, z, u, v);
    var dx := Covered(z.vx, t.cos(z.yaw), v.dt) - Covered(z.vx, t.cos(s.yaw), v.dt)
              + Covered(s.vx, t.sin(s.yaw), v.dt) * h;
    var dy := Covered(z.vx, t.sin(z.yaw), v.dt) - Covered(z.vx, t.sin(s.yaw), v.dt)
              - Covered(s.vx, t.cos(s.yaw), v.dt) * h;
    assert f.x - l.x == dx && f.y - l.y == dy;
    PositionGap(t, s.yaw, z.yaw, z.vx, s.vx, v.dt, dx, dy);
  }

  lemma PositionGap(t: Trig, yaw: real, yaw': real, speed: real, at: real, dt: real, dx: real, dy: real)
    requires UnitCircle(t) && AdditionLaws(t) && SmallAngles(t)
    requires dx == Covered(speed, t.cos(yaw'), dt) - Covered(speed, t.cos(yaw), dt)
                   + Covered(at, t.sin(yaw), dt) * (yaw' - yaw)
    requires dy == Covered(speed, t.sin(yaw'), dt) - Covered(speed, t.sin(yaw), dt)
                   - Covered(at, t.cos(yaw), dt) * (yaw' - yaw)
    ensures Abs(dx) <= Slack(dt, speed, speed - at, yaw' - yaw) && Abs(dy) <= Slack(dt, speed, speed - at, yaw' - yaw)
  {
    hide *;
    var h := yaw' - yaw;
    var hh := h * h;
    Turning(t, yaw, yaw', h, hh);
    CoveredBack(at, t.cos(yaw), dt);
    SecondOrder(t.cos(yaw), t.sin(yaw), t.cos(h), t.sin(h), h, hh, t.cos(yaw'), speed, at, dt, dx);
    SecondOrder(t.sin(yaw), -t.cos(yaw), t.cos(h), t.sin(h), h, hh, t.sin(yaw'), speed, at, dt, dy);
  }

  lemma Turning(t: Trig, yaw: real, yaw': real, h: real, hh: real)
    requires UnitCircle(t) && AdditionLaws(t) && SmallAngles(t) && yaw' == yaw + h && hh == h * h
    ensures Abs(t.cos(yaw)) <= 1.0 && Abs(t.sin(yaw)) <= 1.0 && Abs(-t.cos(yaw)) <= 1.0
    ensures t.cos(yaw') == t.cos(yaw) * t.cos(h) - t.sin(yaw) * t.sin(h)
    ensures t.sin(yaw') == t.sin(yaw) * t.cos(h) - -t.cos(yaw) * t.sin(h)
    ensures Abs(t.sin(h) - h) <= 0.5 * hh && Abs(t.cos(h) - 1.0) <= 0.5 * hh
  {
    hide *;
    WithinOne(t, yaw);
    Reaching(t, yaw, h);
  }

  lemma Reaching(t: Trig, yaw: real, h: real)
    requires AdditionLaws(t) && SmallAngles(t)
    ensures t.cos(yaw + h) == t.cos(yaw) * t.cos(h) - t.sin(yaw) * t.sin(h)
    ensures t.sin(yaw + h) == t.sin(yaw) * t.cos(h) - -t.cos(yaw) * t.sin(h)
    ensures Abs(t.sin(h) - h) <= 0.5 * (h * h) && Abs(t.cos(h) - 1.0) <= 0.5 * (h * h)
  {
    hide AdditionLaws, SmallAngles;
    AddsAt(t, yaw, h);
    SmallAt(t, h);
  }

  /** Between two steering angles with cosines `c` and `c'`, `h` apart, the turn follows the slope `gain`. */
  predicate NearSlope(turned: real, c: real, c': real, gain: real, h: real) {
    Abs(turned * c * c' - gain * h) <= Abs(gain) * (0.5 * (h * h))
  }

  /** The steering gain is the slope of the yaw step, but for the constant that keeps the squared secant finite: the
      turn gained by steering `h` more differs from the gain times `h` by a second-order term. */
  lemma GainIsTangent(t: Trig, s: State, u: Control, v: Vehicle, h: real)
    requires UnitCircle(t) && AdditionLaws(t) && SmallAngles(t) && TangentIsRatio(t) && v.wheelbase != 0.0 && Drives(s)
    ensures var c, c' := t.cos(u.delta), t.cos(u.delta + h);
            var turned := RawStep(t, s, u.(delta := u.delta + h), v).yaw - RawStep(t, s, u, v).yaw;
            var turnPerTangent := Turn(s.vx, v.wheelbase, 1.0, v.dt);
            && SteeringGain(t, s, u, v) * (c * c + 0.000001) == turnPerTangent
            && NearSlope(turned, c, c', turnPerTangent, h)
  {
    hide RawStep, Abs, TangentIsRatio, SmallAngles, UnitCircle, AdditionLaws, SteeringGain, Turn;
    var d, q := u.delta, Turn(s.vx, v.wheelbase, 1.0, v.dt);
    var c, c', a, a' := t.cos(d), t.cos(d + h), t.tan(d), t.tan(d + h);
    var turned := RawStep(t, s, u.(delta := d + h), v).yaw - RawStep(t, s, u, v).yaw;
    TurnsByTangent(t, s, u, v, h);
    GainTimesSquare(t, s, u, v);
    SineOfDifference(t, d, h);
    Ratios(t, d, h);
    SmallAt(t, h);
    TurnTimesCosines(q, a, a', c, c', t.sin(d), t.sin(d + h), t.sin(h), turned, h);
  }

  lemma TurnsByTangent(t: Trig, s: State, u: Control, v: Vehicle, h: real)
    requires v.wheelbase != 0.0 && Drives(s)
    ensures RawStep(t, s, u.(delta := u.delta + h), v).yaw - RawStep(t, s, u, v).yaw
         == Turn(s.vx, v.wheelbase, 1.0, v.dt) * (t.tan(u.delta + h) - t.tan(u.delta))
  {
    var g := s.vx / v.wheelbase;
    assert g * t.tan(u.delta + h) * v.dt - g * t.tan(u.delta) * v.dt
        == g * 1.0 * v.dt * (t.tan(u.delta + h) - t.tan(u.delta));
  }

  lemma GainTimesSquare(t: Trig, s: State, u: Control, v: Vehicle)
    requires v.wheelbase != 0.0
    ensures var c := t.cos(u.delta);
            SteeringGain(t, s, u, v) * (c * c + 0.000001) == Turn(s.vx, v.wheelbase, 1.0, v.dt)
  {
    var c, g, secant := t.cos(u.delta), s.vx / v.wheelbase, Secant2(t.cos(u.delta));
    SecantCancels(c);
    hide Secant2;
    var cc := c * c + 0.000001;
    assert g * secant * v.dt * cc == g * v.dt * (secant * cc);
  }

  lemma Ratios(t: Trig, d: real, h: real)
    requires TangentIsRatio(t)
    ensures t.tan(d) * t.cos(d) == t.sin(d) && t.tan(d + h) * t.cos(d + h) == t.sin(d + h)
  {
  }

  lemma TurnTimesCosines(q: real, a: real, a': real, c: real, c': real, s: real, s': real, sh: real, turned: real,
                         h: real)
    requires a * c == s && a' * c' == s' && s' * c - s * c' == sh && turned == q * (a' - a)
    requires Abs(sh - h) <= 0.5 * (h * h)
    ensures NearSlope(turned, c, c', q, h)
  {
    hide Abs;
    assert turned * c * c' == q * ((a' * c') * c - (a * c) * c');
    ErrorScaled(q, sh - h, 0.5 * (h * h), turned * c * c' - q * h);
  }

  lemma SecantCancels(c: real)
    ensures Secant2(c) * (c * c + 0.000001) == 1.0
  {
    assert c * c >= 0.0;
  }

  lemma SineOfDifference(t: Trig, d: real, h: real)
    requires UnitCircle(t) && AdditionLaws(t)
    ensures t.sin(d + h) * t.cos(d) - t.sin(d) * t.cos(d + h) == t.sin(h)
  {
    hide AdditionLaws, UnitCircle;
    AddsAt(t, d, h);
    OnUnitCircle(t, d);
    var c, sn, ch, sh := t.cos(d), t.sin(d), t.cos(h), t.sin(h);
    assert (sn * ch + c * sh) * c - sn * (c * ch - sn * sh) == (sn * sn + c * c) * sh;
  }
}
