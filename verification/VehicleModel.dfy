/** The kinematic bicycle, its linearisation, and the two rollouts (model/vehicle_model.cpp and the
    rollout of solver/mpc_solver.cpp). */
module VehicleModel {
  import opened RealMath

  datatype State = State(x: real, y: real, yaw: real, vx: real)

  datatype Control = Control(delta: real, accel: real)

  datatype Vehicle = Vehicle(dt: real, wheelbase: real, vMin: real, vMax: real)

  /** Below this speed the yaw angle is held. */
  const STANDSTILL := 0.001

  /** Bounds the rollout of the linear models puts on the speed, whatever the vehicle's own bounds are. */
  const LTV_SPEED_MIN := 0.0
  const LTV_SPEED_MAX := 100.0

  /** What one step covers along an axis that has `share` of the heading. */
  function Covered(speed: real, share: real, dt: real): real { speed * share * dt }

  /** The turn of one step. */
  function Turn(speed: real, wheelbase: real, tangent: real, dt: real): real
    requires wheelbase != 0.0
  {
    (speed / wheelbase) * tangent * dt
  }

  function UpdateVehicleState(t: Trig, s: State, u: Control, v: Vehicle): State
    requires v.wheelbase != 0.0
  {
    State(s.x + Covered(s.vx, t.cos(s.yaw), v.dt),
          s.y + Covered(s.vx, t.sin(s.yaw), v.dt),
          if Abs(s.vx) > STANDSTILL then NormalizeAngle(s.yaw + Turn(s.vx, v.wheelbase, t.tan(u.delta), v.dt))
              else s.yaw,
          Clip(s.vx + u.accel * v.dt, v.vMin, v.vMax))
  }

  /** The nonlinear rollout: the state before each control, and the state after the last. */
  function Rollout(t: Trig, x0: State, us: seq<Control>, v: Vehicle): (r: seq<State>)
    requires v.wheelbase != 0.0
    ensures |r| == |us| + 1 && r[0] == x0
    ensures forall k | 0 <= k < |us| :: r[k + 1] == UpdateVehicleState(t, r[k], us[k], v)
  {
    if us == [] then [x0]
    else
      var r := Rollout(t, x0, us[..|us| - 1], v);
      r + [UpdateVehicleState(t, r[|us| - 1], us[|us| - 1], v)]
  }

  method PredictTrajectory(t: Trig, x0: State, us: seq<Control>, v: Vehicle) returns (traj: seq<State>)
    requires v.wheelbase != 0.0
    ensures traj == Rollout(t, x0, us, v)
  {
    traj := [x0];
    var cur := x0;
    for k := 0 to |us|
      invariant traj == Rollout(t, x0, us[..k], v) && cur == traj[k]
    {
      cur := UpdateVehicleState(t, cur, us[k], v);
      traj := traj + [cur];
      assert us[..k + 1][..k] == us[..k];
    }
    assert us[..|us|] == us;
  }

  // ---------------------------------------------------------------- linearisation

  datatype StateRow = StateRow(x: real, y: real, yaw: real, vx: real)

  datatype ControlRow = ControlRow(delta: real, accel: real)

  /** x' = A x + B u + c, one row per state component. */
  datatype LinearizedModel = LinearizedModel(a: (StateRow, StateRow, StateRow, StateRow),
                                             b: (ControlRow, ControlRow, ControlRow, ControlRow),
                                             c: StateRow)

  function AX(r: StateRow, s: State): real { r.x * s.x + r.y * s.y + r.yaw * s.yaw + r.vx * s.vx }

  function BU(r: ControlRow, u: Control): real { r.delta * u.delta + r.accel * u.accel }

  /** The bicycle step before angle wrapping and speed clipping. */
  function RawStep(t: Trig, s: State, u: Control, v: Vehicle): StateRow
    requires v.wheelbase != 0.0
  {
    StateRow(s.x + Covered(s.vx, t.cos(s.yaw), v.dt),
             s.y + Covered(s.vx, t.sin(s.yaw), v.dt),
             if Abs(s.vx) > STANDSTILL then s.yaw + Turn(s.vx, v.wheelbase, t.tan(u.delta), v.dt) else s.yaw,
             s.vx + u.accel * v.dt)
  }

  /** The squared secant, kept finite. */
  function Secant2(cosD: real): real {
    assert cosD * cosD >= 0.0;
    1.0 / (cosD * cosD + 0.000001)
  }

  /** How much of a steering angle one step turns into yaw. */
  function SteeringGain(t: Trig, s: State, u: Control, v: Vehicle): real
    requires v.wheelbase != 0.0
  {
    (s.vx / v.wheelbase) * Secant2(t.cos(u.delta)) * v.dt
  }

  function LinearizeBicycle(t: Trig, s: State, u: Control, v: Vehicle): LinearizedModel
    requires v.wheelbase != 0.0
  {
    var a := (StateRow(1.0, 0.0, -s.vx * t.sin(s.yaw) * v.dt, t.cos(s.yaw) * v.dt),
              StateRow(0.0, 1.0, s.vx * t.cos(s.yaw) * v.dt, t.sin(s.yaw) * v.dt),
              StateRow(0.0, 0.0, 1.0, t.tan(u.delta) / v.wheelbase * v.dt),
              StateRow(0.0, 0.0, 0.0, 1.0));
    var b := (ControlRow(0.0, 0.0),
              ControlRow(0.0, 0.0),
              ControlRow(SteeringGain(t, s, u, v), 0.0),
              ControlRow(0.0, v.dt));
    var f := RawStep(t, s, u, v);
    LinearizedModel(a, b, StateRow(f.x - AX(a.0, s) - BU(b.0, u),
                                   f.y - AX(a.1, s) - BU(b.1, u),
                                   f.yaw - AX(a.2, s) - BU(b.2, u),
                                   f.vx - AX(a.3, s) - BU(b.3, u)))
  }

  function LtvStep(m: LinearizedModel, s: State, u: Control): State {
    State(m.c.x + AX(m.a.0, s) + BU(m.b.0, u),
          m.c.y + AX(m.a.1, s) + BU(m.b.1, u),
          NormalizeAngle(m.c.yaw + AX(m.a.2, s) + BU(m.b.2, u)),
          Clip(m.c.vx + AX(m.a.3, s) + BU(m.b.3, u), LTV_SPEED_MIN, LTV_SPEED_MAX))
  }

  /** One linear model per control, each taken at the state the nonlinear rollout has there. */
  function Models(t: Trig, x0: State, us: seq<Control>, v: Vehicle): (ms: seq<LinearizedModel>)
    requires v.wheelbase != 0.0
    ensures |ms| == |us|
  {
    var r := Rollout(t, x0, us, v);
    seq(|us|, k requires 0 <= k < |us| => LinearizeBicycle(t, r[k], us[k], v))
  }

  lemma {:induction false} RolloutPrefix(t: Trig, x0: State, us: seq<Control>, v: Vehicle, k: nat)
    requires v.wheelbase != 0.0 && k <= |us|
    ensures Rollout(t, x0, us[..k], v) == Rollout(t, x0, us, v)[..k + 1]
    decreases |us|
  {
    if k == |us| {
      assert us[..k] == us;
    } else {
      var init := us[..|us| - 1];
      RolloutPrefix(t, x0, init, v, k);
      assert init[..k] == us[..k];
    }
  }

  method BuildLTVModels(t: Trig, x0: State, us: seq<Control>, v: Vehicle) returns (models: seq<LinearizedModel>)
    requires v.wheelbase != 0.0
    ensures models == Models(t, x0, us, v)
  {
    models := [];
    var cur := x0;
    ghost var r := Rollout(t, x0, us, v);
    for k := 0 to |us|
      invariant models == Models(t, x0, us, v)[..k] && cur == r[k]
    {
      models := models + [LinearizeBicycle(t, cur, us[k], v)];
      cur := UpdateVehicleState(t, cur, us[k], v);
    }
  }

  function LtvRollout(x0: State, us: seq<Control>, ms: seq<LinearizedModel>): (r: seq<State>)
    requires |ms| == |us|
    ensures |r| == |us| + 1 && r[0] == x0
    ensures forall k | 0 <= k < |us| :: r[k + 1] == LtvStep(ms[k], r[k], us[k])
  {
    if us == [] then [x0]
    else
      var n := |us| - 1;
      var r := LtvRollout(x0, us[..n], ms[..n]);
      r + [LtvStep(ms[n], r[n], us[n])]
  }

  method PredictTrajectoryLTV(x0: State, us: seq<Control>, models: seq<LinearizedModel>) returns (traj: seq<State>)
    requires |models| == |us|
    ensures traj == LtvRollout(x0, us, models)
  {
    traj := [x0];
    var cur := x0;
    for k := 0 to |us|
      invariant traj == LtvRollout(x0, us[..k], models[..k]) && cur == traj[k]
    {
      cur := LtvStep(models[k], cur, us[k]);
      traj := traj + [cur];
      assert us[..k + 1][..k] == us[..k] && models[..k + 1][..k] == models[..k];
    }
    assert us[..|us|] == us && models[..|us|] == models;
  }

  // ---------------------------------------------------------------- when the two rollouts agree

  /** At this state and control the linear step and the nonlinear step treat angle and speed alike: a
      standing vehicle's yaw is already normalised, and the two speed ranges clip the next speed alike. */
  predicate StepAgrees(s: State, u: Control, v: Vehicle) {
    && (Abs(s.vx) > STANDSTILL || -PI <= s.yaw <= PI)
    && Clip(s.vx + u.accel * v.dt, v.vMin, v.vMax) == Clip(s.vx + u.accel * v.dt, LTV_SPEED_MIN, LTV_SPEED_MAX)
  }

  /** A linear model is exact at the point it was taken, up to wrapping and clipping. */
  lemma LtvStepExact(t: Trig, s: State, u: Control, v: Vehicle)
    requires v.wheelbase != 0.0
    ensures LtvStep(LinearizeBicycle(t, s, u, v), s, u) == UpdateVehicleState(t, s, u, v) <==> StepAgrees(s, u, v)
  {
    hide LinearizeBicycle, LtvStep, RawStep, UpdateVehicleState;
    LinearAtItsPoint(t, s, u, v);
    NonlinearFromRaw(t, s, u, v);
  }

  lemma LinearAtItsPoint(t: Trig, s: State, u: Control, v: Vehicle)
    requires v.wheelbase != 0.0
    ensures var f := RawStep(t, s, u, v);
            LtvStep(LinearizeBicycle(t, s, u, v), s, u)
            == State(f.x, f.y, NormalizeAngle(f.yaw), Clip(f.vx, LTV_SPEED_MIN, LTV_SPEED_MAX))
  {
    hide AX, BU, RawStep;
  }

  /** At the state a model was taken, the linear step is affine in the control. */
  lemma LinearElsewhere(t: Trig, s: State, u: Control, v: Vehicle, w: Control)
    requires v.wheelbase != 0.0
    ensures var f := RawStep(t, s, u, v);
            LtvStep(LinearizeBicycle(t, s, u, v), s, w)
            == State(f.x, f.y, NormalizeAngle(f.yaw
                                              + SteeringGain(t, s, u, v) * w.delta - SteeringGain(t, s, u,
                                                                                                  v) * u.delta),
                     Clip(f.vx + v.dt * w.accel - v.dt * u.accel, LTV_SPEED_MIN, LTV_SPEED_MAX))
  {
    hide AX, RawStep, SteeringGain, NormalizeAngle, Clip;
    var m, f := LinearizeBicycle(t, s, u, v), RawStep(t, s, u, v);
    assert BU(m.b.0, w) == BU(m.b.0, u) == 0.0 && BU(m.b.1, w) == BU(m.b.1, u) == 0.0;
    var gw, gu := SteeringGain(t, s, u, v) * w.delta, SteeringGain(t, s, u, v) * u.delta;
    assert BU(m.b.2, w) == gw && BU(m.b.2, u) == gu;
    var aw, au := v.dt * w.accel, v.dt * u.accel;
    assert BU(m.b.3, w) == aw && BU(m.b.3, u) == au;
    assert m.c.yaw + AX(m.a.2, s) + BU(m.b.2, w) == f.yaw + gw - gu;
    assert m.c.vx + AX(m.a.3, s) + BU(m.b.3, w) == f.vx + aw - au;
  }

  lemma NonlinearFromRaw(t: Trig, s: State, u: Control, v: Vehicle)
    requires v.wheelbase != 0.0
    ensures var f := RawStep(t, s, u, v);
            && UpdateVehicleState(t, s, u, v)
               == State(f.x, f.y, if Abs(s.vx) > STANDSTILL then NormalizeAngle(f.yaw)
                        else f.yaw, Clip(f.vx, v.vMin, v.vMax))
            && (Abs(s.vx) <= STANDSTILL ==> f.yaw == s.yaw) && f.vx == s.vx + u.accel * v.dt
  {
  }

  ghost predicate RolloutAgrees(t: Trig, x0: State, us: seq<Control>, v: Vehicle)
    requires v.wheelbase != 0.0
  {
    forall k | 0 <= k < |us| :: StepAgrees(Rollout(t, x0, us, v)[k], us[k], v)
  }

  /** The linear rollout through the models of a control sequence is the nonlinear rollout of that
      sequence exactly when every step agrees. */
  lemma LtvRolloutExact(t: Trig, x0: State, us: seq<Control>, v: Vehicle)
    requires v.wheelbase != 0.0
    ensures LtvRollout(x0, us, Models(t, x0, us, v)) == Rollout(t, x0, us, v) <==> RolloutAgrees(t, x0, us, v)
  {
    var ms, r := Models(t, x0, us, v), Rollout(t, x0, us, v);
    var l := LtvRollout(x0, us, ms);
    if RolloutAgrees(t, x0, us, v) {
      for k := 0 to |us|
        invariant forall j | 0 <= j <= k :: l[j] == r[j]
      {
        LtvStepExact(t, r[k], us[k], v);
      }
    }
    if l == r {
      forall k | 0 <= k < |us|
        ensures StepAgrees(r[k], us[k], v)
      {
        LtvStepExact(t, r[k], us[k], v);
        assert l[k + 1] == r[k + 1];
      }
    }
  }

  /** The most that `k` controls can add to the speed. */
  function Gain(k: nat, step: real): real { k as real * step }

  lemma NoGain(step: real)
    ensures Gain(0, step) == 0.0
  {
  }

  lemma GainGrows(k: nat, n: nat, step: real)
    requires k < n && step >= 0.0
    ensures 0.0 <= Gain(k, step) && Gain(k + 1, step) == Gain(k, step) + step <= Gain(n, step)
  {
    MulMono(k as real + 1.0, n as real, step);
  }

  /** A condition on the inputs alone: a normalised start, and no way to outrun the speed bound within
      the horizon when one control adds at most `step` to the speed. */
  lemma AgreesBelowSpeedBound(t: Trig, x0: State, us: seq<Control>, v: Vehicle, step: real)
    requires v.wheelbase != 0.0 && step >= 0.0
    requires v.vMin == 0.0 && v.vMax <= LTV_SPEED_MAX && -PI <= x0.yaw <= PI
    requires forall k | 0 <= k < |us| :: us[k].accel * v.dt <= step
    requires Max(0.0, x0.vx) + Gain(|us|, step) <= v.vMax
    ensures RolloutAgrees(t, x0, us, v)
  {
    hide Rollout, UpdateVehicleState, StepAgrees, Gain;
    var r := Rollout(t, x0, us, v);
    NoGain(step);
    for k := 0 to |us|
      invariant -PI <= r[k].yaw <= PI && r[k].vx <= Max(0.0, x0.vx) + Gain(k, step)
      invariant forall j | 0 <= j < k :: StepAgrees(r[j], us[j], v)
    {
      GainGrows(k, |us|, step);
      var bound := Max(0.0, x0.vx) + Gain(k, step);
      assert 0.0 <= bound + step <= v.vMax;
      SpeedGrowsAtMost(t, r[k], us[k], v, bound, step);
    }
  }

  lemma SpeedGrowsAtMost(t: Trig, s: State, u: Control, v: Vehicle, bound: real, step: real)
    requires v.wheelbase != 0.0 && u.accel * v.dt <= step
    requires v.vMin == 0.0 && v.vMax <= LTV_SPEED_MAX && -PI <= s.yaw <= PI
    requires s.vx <= bound && 0.0 <= bound + step <= v.vMax
    ensures StepAgrees(s, u, v)
    ensures var s' := UpdateVehicleState(t, s, u, v); -PI <= s'.yaw <= PI && s'.vx <= bound + step
  {
    ClipAtMost(s.vx + u.accel * v.dt, v.vMin, v.vMax, bound + step);
  }
}
