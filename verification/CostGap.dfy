/** A problem, with the limits, weights and vehicle of the shipped configuration and a horizon of one step, on which the
    cost the solver reports is not the cost of the trajectory it reports (solver/mpc_solver.cpp,
    config/mpc_params.yaml). */
module CostGap {
  import opened RealMath
  import opened VehicleModel
  import opened Constraints
  import opened CostFunction
  import opened MpcSolver

  const START := State(0.0, 0.0, 0.0, 60.0)
  const FULL := Control(0.0, 2.0)
  const VEHICLE := Vehicle(0.05, 3.0, 0.0, 60.0)
  const LIMITS := Limits(0.6981, 0.05, -5.0, 2.0)
  const WEIGHTS := Weights(6.0, 3.0, 2.0, 1.25, 100.0, 4.5, 8.0)
  const REFS := [RefSample(0.0, 0.0, 0.0, 67.9125, 0.0)]

  /** At the top speed, accelerating fully, towards a higher one. */
  function TopSpeedProblem(t: Trig, solver: Solver): Problem {
    Problem(t, START, REFS, FULL, Params(1, VEHICLE, LIMITS, WEIGHTS, solver))
  }

  /** The angle functions at zero. */
  ghost predicate AtZero(t: Trig) { t.cos(0.0) == 1.0 && t.tan(0.0) == 0.0 }

  // ---------------------------------------------------------------- the cost of one step

  /** The part of the cost that the control itself adds. */
  function ControlPart(u: Control): real {
    0.5 * ControlEffortCost(u, 1.25, 0.625) + 2.0 * ControlRateCost(FULL, u, 100.0, 4.5)
  }

  /** The part of the cost that the start adds. */
  function StartPart(): real {
    0.5 * PathErrorCost(START, REFS[0], 6.0) + 0.5 * HeadingErrorCost(START, REFS[0], 3.0)
    + 0.5 * SpeedErrorCost(START, 67.9125, 2.0)
  }

  lemma OneStage(s: State, u: Control)
    ensures Stages([START, s], [u], REFS, FULL, WEIGHTS, 0.05, 1).Total() == StartPart() + ControlPart(u)
  {
    hide PathErrorCost, HeadingErrorCost, SpeedErrorCost, ControlEffortCost, ControlRateCost;
    var none := Breakdown(0.0, 0.0, 0.0, 0.0, 0.0, 0.0);
    assert Stages([START, s], [u], REFS, FULL, WEIGHTS, 0.05, 0) == none;
    var b := AddStage(none, START, FULL, u, REFS, 0, WEIGHTS, 0.05);
    assert Stages([START, s], [u], REFS, FULL, WEIGHTS, 0.05, 1) == b;
    assert 0.05 / TUNED_DT == 0.5 && TUNED_DT / 0.05 == 2.0;
  }

  /** The cost of ending in `s` after control `u`. */
  function StepCost(s: State, u: Control): real { StartPart() + ControlPart(u) + TerminalCost(s, REFS, 1, WEIGHTS) }

  lemma CostOfStep(s: State, u: Control)
    ensures TotalCost([START, s], [u], REFS, FULL, WEIGHTS, 0.05) == StepCost(s, u)
  {
    hide Stages, StartPart, ControlPart, TerminalCost, Breakdown.Total;
    OneStage(s, u);
  }

  // ---------------------------------------------------------------- the step

  ghost function Model(t: Trig): LinearizedModel { LinearizeBicycle(t, START, FULL, VEHICLE) }

  /** How much of the steering angle reaches the yaw. */
  function YawGain(): real { 20.0 * (1.0 / 1.000001) * 0.05 }

  lemma SecantAtZero()
    ensures Secant2(1.0) == 1.0 / 1.000001
  {
  }

  lemma LinearStep(t: Trig, u: Control)
    requires AtZero(t)
    ensures var f := RawStep(t, START, FULL, VEHICLE);
            LtvStep(Model(t), START, u)
            == State(f.x, f.y, NormalizeAngle(YawGain() * u.delta),
                     Clip(60.0 + 0.05 * u.accel, LTV_SPEED_MIN, LTV_SPEED_MAX))
  {
    hide NormalizeAngle, Clip, LinearizeBicycle, LtvStep, Secant2;
    LinearElsewhere(t, START, FULL, VEHICLE, u);
    SecantAtZero();
    assert SteeringGain(t, START, FULL, VEHICLE) == YawGain();
    var f := RawStep(t, START, FULL, VEHICLE);
    assert f.yaw == 0.0 && f.vx == 60.1;
  }

  lemma OneRollout(u: Control, m: LinearizedModel)
    ensures LtvRollout(START, [u], [m]) == [START, LtvStep(m, START, u)]
  {
    hide LtvStep;
    assert LtvRollout(START, [], []) == [START];
  }

  lemma OneModel(t: Trig)
    ensures Models(t, START, [FULL], VEHICLE) == [Model(t)]
  {
    hide LinearizeBicycle;
  }

  /** The cost of a control along the model taken at full acceleration. */
  lemma CostOfControl(t: Trig, solver: Solver, u: Control)
    ensures LtvCost(TopSpeedProblem(t, solver), [u], Models(t, START, [FULL], VEHICLE))
         == StepCost(LtvStep(Model(t), START, u), u)
  {
    hide LtvStep, LinearizeBicycle, TotalCost, StepCost, Models, LtvRollout;
    OneModel(t);
    OneRollout(u, Model(t));
    CostOfStep(LtvStep(Model(t), START, u), u);
  }

  // ---------------------------------------------------------------- no slope

  lemma SmallAngle(a: real)
    requires -1.0 <= a <= 1.0
    ensures AngleDiff(NormalizeAngle(a), 0.0) == a
  {
  }

  /** Steering to either side costs the same. */
  lemma SteeringIsEven(x: real, y: real, e: real, vx: real, a: real)
    requires -1.0 <= e <= 1.0
    ensures StepCost(State(x, y, NormalizeAngle(YawGain() * e), vx), Control(e, a))
         == StepCost(State(x, y, NormalizeAngle(YawGain() * -e), vx), Control(-e, a))
  {
    var g := YawGain() * e;
    assert YawGain() * -e == -g && -1.0 <= g <= 1.0;
    SmallAngle(g);
    SmallAngle(-g);
    hide NormalizeAngle, AngleDiff, StartPart;
    assert ControlPart(Control(e, a)) == ControlPart(Control(-e, a));
  }

  /** What a little more acceleration costs in effort it gains in speed. */
  lemma AccelerationIsLevel(x: real, y: real, yaw: real)
    ensures StepCost(State(x, y, yaw, 60.10005), Control(0.0, 2.001))
         == StepCost(State(x, y, yaw, 60.09995), Control(0.0, 1.999))
  {
    hide StartPart, AngleDiff;
    var faster, slower := State(x, y, yaw, 60.10005), State(x, y, yaw, 60.09995);
    assert ControlPart(Control(0.0, 2.001)) == ControlPart(Control(0.0, 1.999)) + 0.0025;
    assert SpeedErrorCost(faster, 67.9125, 1.6) == SpeedErrorCost(slower, 67.9125, 1.6) - 0.0025;
    assert PathErrorCost(faster, REFS[0], 8.0) == PathErrorCost(slower, REFS[0], 8.0);
    assert HeadingErrorCost(faster, REFS[0], 4.0) == HeadingErrorCost(slower, REFS[0], 4.0);
    hide ControlPart, SpeedErrorCost, PathErrorCost, HeadingErrorCost;
  }

  lemma NoSlope(t: Trig, solver: Solver)
    requires AtZero(t)
    ensures Gradient(TopSpeedProblem(t, solver), [FULL]) == [Control(0.0, 0.0)]
  {
    hide LtvStep, LinearizeBicycle, StepCost, Models, LtvCost, NormalizeAngle, RawStep;
    var q, ms := TopSpeedProblem(t, solver), Models(t, START, [FULL], VEHICLE);
    var f := RawStep(t, START, FULL, VEHICLE);
    var left, right := Control(DIFF_EPS, 2.0), Control(-DIFF_EPS, 2.0);
    var faster, slower := Control(0.0, 2.001), Control(0.0, 1.999);
    assert Nudged([FULL], 0, DIFF_EPS, 0.0) == [left] && Nudged([FULL], 0, -DIFF_EPS, 0.0) == [right];
    assert Nudged([FULL], 0, 0.0, DIFF_EPS) == [faster] && Nudged([FULL], 0, 0.0, -DIFF_EPS) == [slower];
    CostOfControl(t, solver, left);
    CostOfControl(t, solver, right);
    CostOfControl(t, solver, faster);
    CostOfControl(t, solver, slower);
    LinearStep(t, left);
    LinearStep(t, right);
    LinearStep(t, faster);
    LinearStep(t, slower);
    SteeringIsEven(f.x, f.y, DIFF_EPS, 60.1, 2.0);
    AccelerationIsLevel(f.x, f.y, NormalizeAngle(YawGain() * 0.0));
    assert Slope(q, [FULL], ms, 0) == Control(0.0, 0.0);
  }

  // ---------------------------------------------------------------- the gap

  /** Both rollouts reach the same place; the linear one arrives faster than the vehicle can go. */
  lemma LastStatesDiffer(t: Trig)
    ensures LtvRollout(START, [FULL], Models(t, START, [FULL], VEHICLE))
         == [START, UpdateVehicleState(t, START, FULL, VEHICLE).(vx := 60.1)]
    ensures Rollout(t, START, [FULL], VEHICLE) == [START, UpdateVehicleState(t, START, FULL, VEHICLE)]
    ensures UpdateVehicleState(t, START, FULL, VEHICLE).vx == 60.0
  {
    LinearAtItsPoint(t, START, FULL, VEHICLE);
    NonlinearFromRaw(t, START, FULL, VEHICLE);
    hide LinearizeBicycle, LtvStep, RawStep, UpdateVehicleState;
    OneModel(t);
    OneRollout(FULL, Model(t));
    assert Rollout(t, START, [], VEHICLE) == [START];
  }

  lemma TerminalCostsDiffer(s: State)
    requires s.vx == 60.0
    ensures TerminalCost(s.(vx := 60.1), REFS, 1, WEIGHTS) == TerminalCost(s, REFS, 1, WEIGHTS) - 2.516
  {
    hide AngleDiff;
    assert SpeedErrorCost(s.(vx := 60.1), 67.9125, 1.6) == SpeedErrorCost(s, 67.9125, 1.6) - 2.516;
  }

  lemma OwnCostIsLower(t: Trig, solver: Solver)
    ensures OwnCost(TopSpeedProblem(t, solver), [FULL]) == TrueCost(TopSpeedProblem(t, solver), [FULL]) - 2.516
  {
    hide TerminalCost, LtvRollout, Rollout, Models, TotalCost, StartPart, ControlPart, UpdateVehicleState;
    LastStatesDiffer(t);
    var s := UpdateVehicleState(t, START, FULL, VEHICLE);
    CostOfStep(s, FULL);
    CostOfStep(s.(vx := 60.1), FULL);
    TerminalCostsDiffer(s);
  }

  lemma FullIsFeasible()
    ensures Feasible([FULL], FULL, LIMITS)
  {
    forall i | 0 <= i < 1
      ensures FeasibleAt([FULL], FULL, LIMITS, i)
    {
    }
  }

  lemma StartsAtFull(t: Trig, solver: Solver)
    ensures Start(TopSpeedProblem(t, solver), []) == [FULL]
  {
    hide Projected, Feasible;
    assert ShiftedStart([], FULL, 1) == [FULL];
    FullIsFeasible();
    FeasibleUnchanged([FULL], FULL, LIMITS);
  }

  /** The reported cost need not be that of the reported trajectory: started without a previous solution, whatever
      the solver settings, full acceleration is kept and the cost reported is 2.516 too low. */
  lemma CostNotAlwaysTrueCost(t: Trig, solver: Solver, r: Result)
    requires AtZero(t) && SolvedFrom(TopSpeedProblem(t, solver), [], r)
    ensures r.controls == [FULL] && r.cost == TrueCost(TopSpeedProblem(t, solver), r.controls) - 2.516
  {
    hide Gradient, Start, Steps, OwnCost, TrueCost, Rollout, Feasible;
    var q := TopSpeedProblem(t, solver);
    StartsAtFull(t, solver);
    FullIsFeasible();
    NoSlope(t, solver);
    StationaryStays(q, [FULL], solver.lrInit, Iterations(q));
    OwnCostIsLower(t, solver);
  }
}
