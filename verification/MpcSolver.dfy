/** Projected gradient descent with an Armijo line search over re-linearised models
    (solver/mpc_solver.cpp). */
module MpcSolver {
  import opened Wrappers
  import opened RealMath
  import opened VehicleModel
  import opened Constraints
  import opened CostFunction

  datatype Solver = Solver(maxIterations: int, lineSearchSteps: int, lrInit: real, lrMin: real, convergenceEps: real)

  datatype Params = Params(horizon: int, vehicle: Vehicle, limits: Limits, weights: Weights, solver: Solver) {
    predicate Usable() { vehicle.wheelbase != 0.0 && vehicle.dt != 0.0 }
  }

  /** What stays the same during one call of the solver. */
  datatype Problem = Problem(t: Trig, x0: State, refs: seq<RefSample>, prev: Control, p: Params)

  datatype Result =
    | Solved(controls: seq<Control>, predicted: seq<State>, cost: real, control: Control)
    | NoReference(control: Control)
    | BadHorizon

  /** Step of the central differences, and the fraction of the predicted decrease a step must deliver. */
  const DIFF_EPS := 0.001
  const ARMIJO := 0.0001

  /** The cost of `us` along the nonlinear rollout. */
  function TrueCost(q: Problem, us: seq<Control>): real
    requires q.p.Usable()
  {
    TotalCost(Rollout(q.t, q.x0, us, q.p.vehicle), us, q.refs, q.prev, q.p.weights, q.p.vehicle.dt)
  }

  /** The cost of `us` along the linear rollout through `ms`. */
  function LtvCost(q: Problem, us: seq<Control>, ms: seq<LinearizedModel>): real
    requires q.p.Usable() && |ms| == |us|
  {
    TotalCost(LtvRollout(q.x0, us, ms), us, q.refs, q.prev, q.p.weights, q.p.vehicle.dt)
  }

  /** The cost of `us` along the linear rollout through the models taken at `us` itself. */
  function OwnCost(q: Problem, us: seq<Control>): real
    requires q.p.Usable()
  {
    LtvCost(q, us, Models(q.t, q.x0, us, q.p.vehicle))
  }

  /** With models of the right number the cost is taken along the linear rollout, otherwise along the
      nonlinear one. */
  method EvalCost(q: Problem, us: seq<Control>, models: seq<LinearizedModel>) returns (cost: real, traj: seq<State>)
    requires q.p.Usable()
    ensures |models| == |us| ==> cost == LtvCost(q, us, models) && traj == LtvRollout(q.x0, us, models)
    ensures |models| != |us| ==> cost == TrueCost(q, us) && traj == Rollout(q.t, q.x0, us, q.p.vehicle)
  {
    if |models| == |us| {
      traj := PredictTrajectoryLTV(q.x0, us, models);
    } else {
      traj := PredictTrajectory(q.t, q.x0, us, q.p.vehicle);
    }
    cost := ComputeTotalCost(traj, us, q.refs, q.prev, q.p.weights, q.p.vehicle.dt);
  }

  // ---------------------------------------------------------------- gradient

  function Nudged(us: seq<Control>, k: nat, dDelta: real, dAccel: real): (r: seq<Control>)
    requires k < |us|
    ensures |r| == |us|
  {
    us[k := Control(us[k].delta + dDelta, us[k].accel + dAccel)]
  }

  /** Central differences of the linear-rollout cost in the two inputs of step `k`. */
  function Slope(q: Problem, us: seq<Control>, ms: seq<LinearizedModel>, k: nat): Control
    requires q.p.Usable() && |ms| == |us| && k < |us|
  {
    var left, right := LtvCost(q, Nudged(us, k, DIFF_EPS, 0.0), ms), LtvCost(q, Nudged(us, k, -DIFF_EPS, 0.0), ms);
    var faster, slower := LtvCost(q, Nudged(us, k, 0.0, DIFF_EPS), ms), LtvCost(q, Nudged(us, k, 0.0, -DIFF_EPS), ms);
    Control((left - right) / (2.0 * DIFF_EPS), (faster - slower) / (2.0 * DIFF_EPS))
  }

  /** The gradient at `us`, with the models taken there. */
  function Gradient(q: Problem, us: seq<Control>): (r: seq<Control>)
    requires q.p.Usable()
    ensures |r| == |us|
  {
    var ms := Models(q.t, q.x0, us, q.p.vehicle);
    seq(|us|, k requires 0 <= k < |us| => Slope(q, us, ms, k))
  }

  /** The two central differences of step `k`. */
  method SlopeAt(q: Problem, us: seq<Control>, ms: seq<LinearizedModel>, k: nat) returns (slope: Control)
    requires q.p.Usable() && |ms| == |us| && k < |us|
    ensures slope == Slope(q, us, ms, k)
  {
    hide LtvCost, TrueCost, Nudged;
    var left, _ := EvalCost(q, Nudged(us, k, DIFF_EPS, 0.0), ms);
    var right, _ := EvalCost(q, Nudged(us, k, -DIFF_EPS, 0.0), ms);
    var faster, _ := EvalCost(q, Nudged(us, k, 0.0, DIFF_EPS), ms);
    var slower, _ := EvalCost(q, Nudged(us, k, 0.0, -DIFF_EPS), ms);
    slope := Control((left - right) / (2.0 * DIFF_EPS), (faster - slower) / (2.0 * DIFF_EPS));
  }

  method ComputeGradient(q: Problem, us: seq<Control>, ms: seq<LinearizedModel>) returns (grad: seq<Control>)
    requires q.p.Usable() && |ms| == |us|
    ensures |grad| == |us| && forall k | 0 <= k < |us| :: grad[k] == Slope(q, us, ms, k)
    ensures ms == Models(q.t, q.x0, us, q.p.vehicle) ==> grad == Gradient(q, us)
  {
    hide Models, Slope;
    grad := [];
    for k := 0 to |us|
      invariant |grad| == k && forall j | 0 <= j < k :: grad[j] == Slope(q, us, ms, j)
    {
      var slope := SlopeAt(q, us, ms, k);
      grad := grad + [slope];
    }
  }

  /** Where the cost is quadratic in one input, as it is while neither wrapping nor clipping acts, the slope is its
      derivative there. */
  lemma SlopeIsDerivative(q: Problem, us: seq<Control>, ms: seq<LinearizedModel>, k: nat, c0: real, c1: real, c2: real)
    requires q.p.Usable() && |ms| == |us| && k < |us|
    ensures (forall h | -DIFF_EPS <= h <= DIFF_EPS ::
               LtvCost(q, Nudged(us, k, h, 0.0), ms) == c0 + c1 * h + c2 * h * h) ==>
              Slope(q, us, ms, k).delta == c1
    ensures (forall h | -DIFF_EPS <= h <= DIFF_EPS ::
               LtvCost(q, Nudged(us, k, 0.0, h), ms) == c0 + c1 * h + c2 * h * h) ==>
              Slope(q, us, ms, k).accel == c1
  {
    hide LtvCost;
    var eps := DIFF_EPS;
    assert (c0 + c1 * eps + c2 * eps * eps) - (c0 + c1 * -eps + c2 * -eps * -eps) == c1 * (2.0 * eps);
  }

  /** Away from zero no input is moved: what is nudged is the input of the step, and only that. */
  lemma NudgedAt(us: seq<Control>, k: nat, dDelta: real, dAccel: real, i: nat)
    requires k < |us| && i < |us|
    ensures Nudged(us, k, dDelta, dAccel)[i].delta - us[i].delta == if i == k then dDelta else 0.0
    ensures Nudged(us, k, dDelta, dAccel)[i].accel - us[i].accel == if i == k then dAccel else 0.0
  {
  }

  function SquaredNorm(grad: seq<Control>): (r: real)
    ensures r >= 0.0
  {
    if grad == [] then 0.0
    else
      var g := grad[|grad| - 1];
      assert g.delta * g.delta >= 0.0 && g.accel * g.accel >= 0.0;
      SquaredNorm(grad[..|grad| - 1]) + g.delta * g.delta + g.accel * g.accel
  }

  method GradientNorm(grad: seq<Control>) returns (norm2: real)
    ensures norm2 == SquaredNorm(grad)
  {
    norm2 := 0.0;
    for k := 0 to |grad|
      invariant norm2 == SquaredNorm(grad[..k])
    {
      assert grad[..k + 1][..k] == grad[..k];
      norm2 := norm2 + grad[k].delta * grad[k].delta + grad[k].accel * grad[k].accel;
    }
    assert grad[..|grad|] == grad;
  }

  // ---------------------------------------------------------------- the solver

  /** The previous solution shifted by one step, or the last control held throughout. */
  function ShiftedStart(warm: seq<Control>, prev: Control, n: nat): (r: seq<Control>)
    requires n > 0
    ensures |r| == n
  {
    if |warm| >= n then warm[1..n] + [warm[n - 1]] else seq(n, _ => prev)
  }

  method WarmStart(warm: seq<Control>, prev: Control, n: nat) returns (u: array<Control>)
    requires n > 0
    ensures fresh(u) && u.Length == n && u[..] == ShiftedStart(warm, prev, n)
  {
    u := new Control[n](_ => prev);
    if |warm| >= n {
      for i := 0 to n - 1
        invariant forall j | 0 <= j < i :: u[j] == warm[j + 1]
      {
        u[i] := warm[i + 1];
      }
      u[n - 1] := warm[n - 1];
    }
    assert u[..] == ShiftedStart(warm, prev, n);
  }

  /** Weight of step `k` in the descent direction. */
  function StepWeight(k: nat): real { 1.0 / (1.0 + 0.1 * k as real) }

  function SteppedControl(u: Control, g: Control, alpha: real, k: nat): Control {
    Control(u.delta - alpha * StepWeight(k) * g.delta, u.accel - alpha * StepWeight(k) * g.accel)
  }

  /** A step goes downhill, both inputs in the same proportion: all of it at the first control, and less the later the
      control. */
  lemma StepsDownhill(u: Control, g: Control, alpha: real, k: nat)
    ensures 0.0 < StepWeight(k + 1) < StepWeight(k) <= StepWeight(0) == 1.0
    ensures var z, down := SteppedControl(u, g, alpha, k), alpha * StepWeight(k);
            && z.delta + down * g.delta == u.delta && z.accel + down * g.accel == u.accel
            && (alpha > 0.0 ==>
                  (z.delta - u.delta) * g.delta <= 0.0 && (z.accel - u.accel) * g.accel <= 0.0)
  {
    var a, b := 1.0 + 0.1 * k as real, 1.0 + 0.1 * (k + 1) as real;
    assert StepWeight(k) * a == 1.0 && StepWeight(k + 1) * b == 1.0;
    WeightFalls(StepWeight(k), StepWeight(k + 1), a, b);
    if alpha > 0.0 {
      var down := alpha * StepWeight(k);
      MulMono(0.0, StepWeight(k), alpha);
      NotUphill(down, g.delta);
      NotUphill(down, g.accel);
    }
  }

  lemma WeightFalls(x: real, y: real, a: real, b: real)
    requires 1.0 <= a < b && x * a == 1.0 && y * b == 1.0
    ensures 0.0 < y < x <= 1.0
  {
    if y <= 0.0 {
      MulMono(y, 0.0, b);
    }
    if x <= 0.0 {
      MulMono(x, 0.0, a);
    }
    if y >= x {
      MulMono(x, y, a);
      assert y * b - y * a == y * (b - a) > 0.0;
    }
    if x > 1.0 {
      MulMono(1.0, a, x);
    }
  }

  lemma NotUphill(down: real, g: real)
    requires down >= 0.0
    ensures (-down * g) * g <= 0.0
  {
    assert g * g >= 0.0;
    MulMono(0.0, g * g, down);
  }

  /** A gradient step of length `alpha` from `us`, before projection. */
  function Stepped(us: seq<Control>, grad: seq<Control>, alpha: real): (r: seq<Control>)
    requires |grad| == |us|
    ensures |r| == |us|
  {
    seq(|us|, k requires 0 <= k < |us| => SteppedControl(us[k], grad[k], alpha, k))
  }

  /** The projection of a gradient step. */
  method Trial(us: array<Control>, grad: seq<Control>, alpha: real, prev: Control, l: Limits)
    returns (trial: array<Control>)
    requires |grad| == us.Length
    ensures fresh(trial) && trial.Length == us.Length
    ensures trial[..] == Projected(Stepped(us[..], grad, alpha), prev, l)
  {
    hide SteppedControl, Projected;
    trial := new Control[us.Length](_ => prev);
    ghost var goal := Stepped(us[..], grad, alpha);
    for k := 0 to us.Length
      invariant trial[..k] == goal[..k]
    {
      trial[k] := SteppedControl(us[k], grad[k], alpha, k);
      assert trial[..k + 1] == trial[..k] + [goal[k]];
    }
    assert trial[..] == goal;
    ProjectControls(trial, prev, l);
  }

  // ---------------------------------------------------------------- the descent

  function Norm2(q: Problem, us: seq<Control>): (r: real)
    requires q.p.Usable()
    ensures r >= 0.0
  {
    SquaredNorm(Gradient(q, us))
  }

  /** The projected gradient step of length `alpha` from `us`. */
  function Moved(q: Problem, us: seq<Control>, alpha: real): (r: seq<Control>)
    requires q.p.Usable()
    ensures |r| == |us|
  {
    Projected(Stepped(us, Gradient(q, us), alpha), q.prev, q.p.limits)
  }

  /** The step lowers the cost by more than its sufficient decrease. */
  predicate Sufficient(q: Problem, us: seq<Control>, alpha: real)
    requires q.p.Usable()
  {
    OwnCost(q, Moved(q, us, alpha)) < OwnCost(q, us) - ARMIJO * alpha * Norm2(q, us)
  }

  function Halved(lr: real, k: nat): real { if k == 0 then lr else Halved(lr, k - 1) * 0.5 }

  /** The first sufficient step length among the halvings of `lr` from the `k`-th on that the line search tries. */
  function FirstHalving(q: Problem, us: seq<Control>, lr: real, k: nat): Option<nat>
    requires q.p.Usable()
    decreases q.p.solver.lineSearchSteps - k
  {
    if k >= q.p.solver.lineSearchSteps then None
    else if Sufficient(q, us, Halved(lr, k)) then Some(k)
    else FirstHalving(q, us, lr, k + 1)
  }

  /** The line search accepts the first halving that is sufficient, and rejects only when none is. */
  lemma {:induction false} FirstHalvingIsFirst(q: Problem, us: seq<Control>, lr: real, k: nat)
    requires q.p.Usable()
    ensures var r := FirstHalving(q, us, lr, k);
            && (r.Some? ==> k <= r.value < q.p.solver.lineSearchSteps && Sufficient(q, us, Halved(lr, r.value)))
            && forall j: nat | k <= j < q.p.solver.lineSearchSteps && (r.Some? ==> j < r.value) ::
                 !Sufficient(q, us, Halved(lr, j))
    decreases q.p.solver.lineSearchSteps - k
  {
    hide Sufficient, Halved;
    if k < q.p.solver.lineSearchSteps && !Sufficient(q, us, Halved(lr, k)) {
      FirstHalvingIsFirst(q, us, lr, k + 1);
    }
  }

  predicate Flat(q: Problem, us: seq<Control>)
    requires q.p.Usable()
  {
    Norm2(q, us) < q.p.solver.convergenceEps * q.p.solver.convergenceEps
  }

  /** One accepted step, from `us` to `next`. */
  datatype Accepted = Accepted(us: seq<Control>, next: seq<Control>, alpha: real)

  /** The steps that up to `n` further iterations accept from `us`, the first trying step length `lr`. */
  function Steps(q: Problem, us: seq<Control>, lr: real, n: nat): (r: seq<Accepted>)
    requires q.p.Usable()
    ensures |r| <= n
    decreases n
  {
    if n == 0 || Flat(q, us) then []
    else
      match FirstHalving(q, us, lr, 0)
      case None => if lr * 0.5 < q.p.solver.lrMin then [] else Steps(q, us, lr * 0.5, n - 1)
      case Some(k) =>
        var alpha := Halved(lr, k);
        var next := Moved(q, us, alpha);
        [Accepted(us, next, alpha)]
        + if OwnCost(q, us) - OwnCost(q, next) < q.p.solver.convergenceEps then []
          else Steps(q, next, Min(q.p.solver.lrInit, alpha * 1.5), n - 1)
  }

  /** Where a chain of steps ends. */
  function Last(us: seq<Control>, steps: seq<Accepted>): seq<Control> {
    if steps == [] then us else steps[|steps| - 1].next
  }

  /** A projected gradient step that lowers the cost by more than its sufficient decrease. */
  ghost predicate IsStep(q: Problem, a: Accepted)
    requires q.p.Usable()
  {
    && a.next == Moved(q, a.us, a.alpha)
    && OwnCost(q, a.next) < OwnCost(q, a.us) - ARMIJO * a.alpha * Norm2(q, a.us)
  }

  /** Each step starts where the one before it ended, the first one at `us`. */
  ghost predicate Descent(q: Problem, us: seq<Control>, steps: seq<Accepted>)
    requires q.p.Usable()
    decreases |steps|
  {
    steps == [] || (steps[0].us == us && IsStep(q, steps[0]) && Descent(q, steps[0].next, steps[1..]))
  }

  /** What the steps have to lower the cost by together. */
  function Decrease(q: Problem, steps: seq<Accepted>): real
    requires q.p.Usable()
    decreases |steps|
  {
    if steps == [] then 0.0 else ARMIJO * steps[0].alpha * Norm2(q, steps[0].us) + Decrease(q, steps[1..])
  }

  ghost predicate Forward(steps: seq<Accepted>) { forall i | 0 <= i < |steps| :: steps[i].alpha > 0.0 }

  lemma {:induction false} HalvedIsPositive(lr: real, k: nat)
    requires lr > 0.0
    ensures Halved(lr, k) > 0.0
  {
    if k > 0 {
      HalvedIsPositive(lr, k - 1);
    }
  }

  /** What the solver accepts is a descent; every step goes forward when the step lengths are positive. */
  lemma {:induction false} StepsDescend(q: Problem, us: seq<Control>, lr: real, n: nat)
    requires q.p.Usable()
    ensures Descent(q, us, Steps(q, us, lr, n))
    ensures lr > 0.0 && q.p.solver.lrInit > 0.0 ==> Forward(Steps(q, us, lr, n))
    decreases n
  {
    hide OwnCost, Moved, Norm2, Flat, Sufficient, FirstHalving, Halved, Descent, Forward;
    NoStepsDescend(q, us);
    if n > 0 && !Flat(q, us) {
      var first := FirstHalving(q, us, lr, 0);
      if first.None? {
        StepsDescend(q, us, lr * 0.5, n - 1);
      } else {
        var alpha := Halved(lr, first.value);
        var next := Moved(q, us, alpha);
        FirstHalvingIsFirst(q, us, lr, 0);
        if lr > 0.0 {
          HalvedIsPositive(lr, first.value);
        }
        NoStepsDescend(q, next);
        StepsDescend(q, next, Min(q.p.solver.lrInit, alpha * 1.5), n - 1);
        var rest := if OwnCost(q, us) - OwnCost(q, next) < q.p.solver.convergenceEps then []
                    else Steps(q, next, Min(q.p.solver.lrInit, alpha * 1.5), n - 1);
        assert Steps(q, us, lr, n) == [Accepted(us, next, alpha)] + rest;
        DescentGoesOn(q, us, alpha, rest);
      }
    }
  }

  lemma NoStepsDescend(q: Problem, us: seq<Control>)
    requires q.p.Usable()
    ensures Descent(q, us, []) && Forward([])
  {
  }

  lemma DescentGoesOn(q: Problem, us: seq<Control>, alpha: real, rest: seq<Accepted>)
    requires q.p.Usable() && Sufficient(q, us, alpha) && Descent(q, Moved(q, us, alpha), rest)
    ensures var steps := [Accepted(us, Moved(q, us, alpha), alpha)] + rest;
            Descent(q, us, steps) && (alpha > 0.0 && Forward(rest) ==> Forward(steps))
  {
    hide OwnCost, Moved, Norm2;
    var a := Accepted(us, Moved(q, us, alpha), alpha);
    assert ([a] + rest)[1..] == rest;
  }

  /** The sufficient decreases of all steps together are paid for by the cost at the start; when every step
      went forward, the cost never rises. */
  lemma {:induction false} DescentPays(q: Problem, us: seq<Control>, steps: seq<Accepted>)
    requires q.p.Usable() && Descent(q, us, steps)
    ensures OwnCost(q, Last(us, steps)) + Decrease(q, steps) <= OwnCost(q, us)
    ensures steps != [] ==> OwnCost(q, Last(us, steps)) + Decrease(q, steps) < OwnCost(q, us)
    ensures Forward(steps) ==> Decrease(q, steps) >= 0.0
    ensures forall i | 0 <= i < |steps| :: IsStep(q, steps[i])
    decreases |steps|
  {
    hide OwnCost, Moved, Norm2;
    if steps != [] {
      var a := steps[0];
      DescentPays(q, a.next, steps[1..]);
      assert Last(us, steps) == Last(a.next, steps[1..]);
      forall i | 0 <= i < |steps|
        ensures IsStep(q, steps[i])
      {
        assert i > 0 ==> steps[i] == steps[1..][i - 1];
      }
      if Forward(steps) {
        assert Forward(steps[1..]);
        MulMono(0.0, a.alpha, Norm2(q, a.us));
        assert ARMIJO * a.alpha * Norm2(q, a.us) == ARMIJO * (a.alpha * Norm2(q, a.us)) >= 0.0;
      }
    }
  }

  // ---------------------------------------------------------------- the solver

  /** Halves the step length until the projected step delivers its sufficient decrease. */
  method LineSearch(q: Problem, us: array<Control>, cost: real, grad: seq<Control>, norm2: real, lr: real)
    returns (accepted: bool, trial: array<Control>, models: seq<LinearizedModel>, trialCost: real, alpha: real)
    requires q.p.Usable() && grad == Gradient(q, us[..]) && norm2 == Norm2(q, us[..]) && cost == OwnCost(q, us[..])
    ensures accepted <==> FirstHalving(q, us[..], lr, 0).Some?
    ensures !accepted ==> forall j: nat | j < q.p.solver.lineSearchSteps :: !Sufficient(q, us[..], Halved(lr, j))
    ensures accepted ==>
              && alpha == Halved(lr, FirstHalving(q, us[..], lr, 0).value)
              && fresh(trial) && trial.Length == us.Length && trial[..] == Moved(q, us[..], alpha)
              && models == Models(q.t, q.x0, trial[..], q.p.vehicle) && trialCost == OwnCost(q, trial[..])
  {
    hide OwnCost, Models, Projected, Stepped, Gradient, Norm2, Moved, Sufficient, FirstHalving;
    alpha, accepted, trial, models, trialCost := lr, false, us, [], cost;
    var ls := 0;
    while ls < q.p.solver.lineSearchSteps
      invariant ls >= 0 && alpha == Halved(lr, ls) && !accepted
      invariant FirstHalving(q, us[..], lr, 0) == FirstHalving(q, us[..], lr, ls)
    {
      trial := Trial(us, grad, alpha, q.prev, q.p.limits);
      models := BuildLTVModels(q.t, q.x0, trial[..], q.p.vehicle);
      trialCost := CostAtOwnModels(q, trial[..], models);
      TrialIsMove(q, us[..], alpha, ls, lr);
      if trialCost < cost - ARMIJO * alpha * norm2 {
        accepted := true;
        break;
      }
      alpha := alpha * 0.5;
      ls := ls + 1;
    }
    if !accepted {
      NoneLeft(q, us[..], lr, ls);
      FirstHalvingIsFirst(q, us[..], lr, 0);
    }
  }

  lemma TrialIsMove(q: Problem, us: seq<Control>, alpha: real, k: nat, lr: real)
    requires q.p.Usable() && alpha == Halved(lr, k) && k < q.p.solver.lineSearchSteps
    ensures Moved(q, us, alpha) == Projected(Stepped(us, Gradient(q, us), alpha), q.prev, q.p.limits)
    ensures FirstHalving(q, us, lr, k)
         == if OwnCost(q, Moved(q, us, alpha)) < OwnCost(q, us) - ARMIJO * alpha * Norm2(q, us) then Some(k)
            else FirstHalving(q, us, lr, k + 1)
  {
    hide OwnCost, Norm2, Projected, Stepped, Gradient;
  }

  lemma NoneLeft(q: Problem, us: seq<Control>, lr: real, k: nat)
    requires q.p.Usable() && k >= q.p.solver.lineSearchSteps
    ensures FirstHalving(q, us, lr, k).None?
  {
    hide Sufficient;
  }

  method CostAtOwnModels(q: Problem, us: seq<Control>, models: seq<LinearizedModel>) returns (cost: real)
    requires q.p.Usable() && models == Models(q.t, q.x0, us, q.p.vehicle)
    ensures cost == OwnCost(q, us)
  {
    hide LtvCost, Models;
    var c, _ := EvalCost(q, us, models);
    cost := c;
  }

  /** The starting point of the descent. */
  function Start(q: Problem, warm: seq<Control>): (r: seq<Control>)
    requires q.p.horizon > 0
    ensures |r| == q.p.horizon
  {
    Projected(ShiftedStart(warm, q.prev, q.p.horizon), q.prev, q.p.limits)
  }

  function Iterations(q: Problem): nat { if q.p.solver.maxIterations > 0 then q.p.solver.maxIterations else 0 }

  /** The steps the solver takes on a problem. */
  function Path(q: Problem, warm: seq<Control>): seq<Accepted>
    requires q.p.Usable() && q.p.horizon > 0
  {
    Steps(q, Start(q, warm), q.p.solver.lrInit, Iterations(q))
  }

  /** What a solved problem reports: the end of the descent from the start, its first control, its nonlinear
      rollout, and its own cost. */
  ghost predicate SolvedFrom(q: Problem, warm: seq<Control>, r: Result)
    requires q.p.Usable() && q.p.horizon > 0
  {
    && r.Solved?
    && r.controls == Last(Start(q, warm), Path(q, warm))
    && |r.controls| == q.p.horizon && r.control == r.controls[0]
    && r.predicted == Rollout(q.t, q.x0, r.controls, q.p.vehicle)
    && r.cost == OwnCost(q, r.controls)
  }

  lemma {:induction false} LastLength(q: Problem, us: seq<Control>, steps: seq<Accepted>)
    requires q.p.Usable() && Descent(q, us, steps)
    ensures |Last(us, steps)| == |us|
    decreases |steps|
  {
    hide OwnCost, Norm2, Moved;
    if steps != [] {
      LastLength(q, steps[0].next, steps[1..]);
      assert Last(us, steps) == Last(steps[0].next, steps[1..]);
    }
  }

  method SolveMPC(q: Problem, warm: seq<Control>) returns (r: Result)
    requires q.p.Usable()
    ensures q.refs == [] ==> r == NoReference(Control(0.0, Max(q.p.limits.accelMin, -1.0)))
    ensures q.refs != [] && q.p.horizon <= 0 ==> r == BadHorizon
    ensures r.Solved? <==> q.refs != [] && q.p.horizon > 0
    ensures r.Solved? ==> SolvedFrom(q, warm, r)
  {
    hide OwnCost, LtvCost, TrueCost, Models, Rollout, Projected, Norm2, Gradient, ShiftedStart, FirstHalving, Moved,
         Flat, Steps, Last, Halved, SquaredNorm, Slope;
    if q.refs == [] {
      return NoReference(Control(0.0, Max(q.p.limits.accelMin, -1.0)));
    }
    var n := q.p.horizon;
    if n <= 0 {
      return BadHorizon;
    }
    var u := WarmStart(warm, q.prev, n);
    ProjectControls(u, q.prev, q.p.limits);
    var models := BuildLTVModels(q.t, q.x0, u[..], q.p.vehicle);
    var cost := CostAtOwnModels(q, u[..], models);
    var lr := q.p.solver.lrInit;
    ghost var goal := Last(Start(q, warm), Path(q, warm));
    var iter := 0;
    while iter < q.p.solver.maxIterations
      invariant iter >= 0 && fresh(u) && u.Length == n
      invariant models == Models(q.t, q.x0, u[..], q.p.vehicle) && cost == OwnCost(q, u[..])
      invariant iter <= Iterations(q) && goal == Last(u[..], Steps(q, u[..], lr, Iterations(q) - iter))
    {
      var grad := ComputeGradient(q, u[..], models);
      var norm2 := GradientNorm(grad);
      NormOf(q, u[..], grad);
      LastAfter(q, u[..], lr, Iterations(q) - iter);
      if norm2 < q.p.solver.convergenceEps * q.p.solver.convergenceEps {
        break;
      }
      var accepted, trial, trialModels, trialCost, alpha := LineSearch(q, u, cost, grad, norm2, lr);
      if accepted {
        u, models := trial, trialModels;
        lr := Min(q.p.solver.lrInit, alpha * 1.5);
        var gain := cost - trialCost;
        cost := trialCost;
        if gain < q.p.solver.convergenceEps {
          break;
        }
      } else {
        lr := lr * 0.5;
        if lr < q.p.solver.lrMin {
          break;
        }
      }
      iter := iter + 1;
    }
    LastAtEnd(q, u[..], lr);
    assert goal == u[..];
    var predicted := PredictTrajectory(q.t, q.x0, u[..], q.p.vehicle);
    r := Solved(u[..], predicted, cost, u[0]);
  }

  lemma NormOf(q: Problem, us: seq<Control>, grad: seq<Control>)
    requires q.p.Usable() && grad == Gradient(q, us)
    ensures SquaredNorm(grad) == Norm2(q, us)
    ensures SquaredNorm(grad) < q.p.solver.convergenceEps * q.p.solver.convergenceEps <==> Flat(q, us)
  {
    hide SquaredNorm, Gradient;
  }

  /** The end of the descent, one iteration on. */
  lemma LastAfter(q: Problem, us: seq<Control>, lr: real, n: nat)
    requires q.p.Usable() && n > 0
    ensures Last(us, Steps(q, us, lr, n))
         == if Flat(q, us) then us
            else match FirstHalving(q, us, lr, 0)
              case None => if lr * 0.5 < q.p.solver.lrMin then us else Last(us, Steps(q, us, lr * 0.5, n - 1))
              case Some(k) =>
                var alpha := Halved(lr, k);
                var next := Moved(q, us, alpha);
                if OwnCost(q, us) - OwnCost(q, next) < q.p.solver.convergenceEps then next
                else Last(next, Steps(q, next, Min(q.p.solver.lrInit, alpha * 1.5), n - 1))
  {
    hide OwnCost, Moved, Flat, FirstHalving, Last, Halved;
    NothingLeads(us);
    if !Flat(q, us) && FirstHalving(q, us, lr, 0).Some? {
      var alpha := Halved(lr, FirstHalving(q, us, lr, 0).value);
      var next := Moved(q, us, alpha);
      var rest := if OwnCost(q, us) - OwnCost(q, next) < q.p.solver.convergenceEps then []
                  else Steps(q, next, Min(q.p.solver.lrInit, alpha * 1.5), n - 1);
      assert Steps(q, us, lr, n) == [Accepted(us, next, alpha)] + rest;
      NothingLeads(next);
      LastGoesOn(us, Accepted(us, next, alpha), rest);
    }
  }

  lemma NothingLeads(us: seq<Control>)
    ensures Last(us, []) == us
  {
  }

  lemma LastGoesOn(us: seq<Control>, a: Accepted, rest: seq<Accepted>)
    ensures Last(us, [a] + rest) == Last(a.next, rest)
  {
  }

  lemma LastAtEnd(q: Problem, us: seq<Control>, lr: real)
    requires q.p.Usable()
    ensures Last(us, Steps(q, us, lr, 0)) == us
  {
  }

  // ---------------------------------------------------------------- what a solved problem guarantees

  lemma {:induction false} DescentStaysProjected(q: Problem, us: seq<Control>, steps: seq<Accepted>, raw: seq<Control>)
    returns (last: seq<Control>)
    requires q.p.Usable() && Descent(q, us, steps) && us == Projected(raw, q.prev, q.p.limits)
    ensures Last(us, steps) == Projected(last, q.prev, q.p.limits)
    decreases |steps|
  {
    hide OwnCost, Norm2, Projected, Gradient, Stepped;
    last := raw;
    if steps != [] {
      var a := steps[0];
      last := DescentStaysProjected(q, a.next, steps[1..], Stepped(a.us, Gradient(q, a.us), a.alpha));
      assert Last(us, steps) == Last(a.next, steps[1..]);
    }
  }

  /** The steps taken lead from the projected warm start to the reported controls, each a projected gradient step
      that lowers the cost by more than its sufficient decrease; so the reported cost is at most that of the
      projected warm start less all these decreases. With a usable previous control the reported sequence obeys
      every limit. */
  lemma SolvedGuarantees(q: Problem, warm: seq<Control>, r: Result)
    requires q.p.Usable() && q.p.horizon > 0 && SolvedFrom(q, warm, r)
    ensures Descent(q, Start(q, warm), Path(q, warm)) && r.controls == Last(Start(q, warm), Path(q, warm))
    ensures forall i | 0 <= i < |Path(q, warm)| :: IsStep(q, Path(q, warm)[i])
    ensures r.cost + Decrease(q, Path(q, warm)) <= OwnCost(q, Start(q, warm))
    ensures Sane(q.p.limits) && -q.p.limits.steerMax <= q.prev.delta <= q.p.limits.steerMax ==>
              Feasible(r.controls, q.prev, q.p.limits)
    ensures q.p.solver.lrInit > 0.0 ==>
              && Forward(Path(q, warm)) && r.cost <= OwnCost(q, Start(q, warm)) && 0.0 <= Decrease(q, Path(q, warm))
    ensures q.p.vehicle.dt > 0.0 && NonNegativeWeights(q.p.weights) ==>
              0.0 <= r.cost && Decrease(q, Path(q, warm)) <= OwnCost(q, Start(q, warm))
  {
    hide Steps, Descent, Decrease, TotalCost, LtvRollout, Models, Rollout, Projected;
    StepsDescend(q, Start(q, warm), q.p.solver.lrInit, Iterations(q));
    DescentPays(q, Start(q, warm), Path(q, warm));
    if Sane(q.p.limits) && -q.p.limits.steerMax <= q.prev.delta <= q.p.limits.steerMax {
      var last := DescentStaysProjected(q, Start(q, warm), Path(q, warm), ShiftedStart(warm, q.prev, q.p.horizon));
      ProjectedIsFeasible(last, q.prev, q.p.limits);
    }
    if q.p.vehicle.dt > 0.0 && NonNegativeWeights(q.p.weights) {
      TotalCostNonNegative(LtvRollout(q.x0, r.controls, Models(q.t, q.x0, r.controls, q.p.vehicle)), r.controls,
                           q.refs, q.prev, q.p.weights, q.p.vehicle.dt);
    }
  }

  /** The reported cost is the nonlinear cost of the reported trajectory whenever the speed bounds and the
      starting yaw let the two rollouts of the reported controls agree; and so for the warm start. */
  lemma CostIsTrueCost(q: Problem, warm: seq<Control>, r: Result)
    requires q.p.Usable() && q.p.horizon > 0 && SolvedFrom(q, warm, r)
    requires RolloutAgrees(q.t, q.x0, r.controls, q.p.vehicle)
    ensures r.cost == TrueCost(q, r.controls)
    ensures r.cost == TotalCost(r.predicted, r.controls, q.refs, q.prev, q.p.weights, q.p.vehicle.dt)
    ensures q.p.solver.lrInit > 0.0 && RolloutAgrees(q.t, q.x0, Start(q, warm), q.p.vehicle) ==>
              r.cost <= TrueCost(q, Start(q, warm))
  {
    hide TotalCost, LtvRollout, Models, Rollout, Start, Path, Decrease, Descent;
    LtvRolloutExact(q.t, q.x0, r.controls, q.p.vehicle);
    LtvRolloutExact(q.t, q.x0, Start(q, warm), q.p.vehicle);
    SolvedGuarantees(q, warm, r);
  }

  /** With the speed bound out of reach over the horizon, no solved problem reports another cost. */
  lemma CostIsTrueCostBelowSpeedBound(q: Problem, warm: seq<Control>, r: Result)
    requires q.p.Usable() && q.p.horizon > 0 && SolvedFrom(q, warm, r)
    requires q.p.vehicle.dt > 0.0 && Sane(q.p.limits) && -q.p.limits.steerMax <= q.prev.delta <= q.p.limits.steerMax
    requires q.p.limits.accelMax >= 0.0 && q.p.vehicle.vMin == 0.0 && q.p.vehicle.vMax <= LTV_SPEED_MAX
    requires -PI <= q.x0.yaw <= PI
    requires Max(0.0, q.x0.vx) + Gain(q.p.horizon, q.p.limits.accelMax * q.p.vehicle.dt) <= q.p.vehicle.vMax
    ensures r.cost == TrueCost(q, r.controls)
  {
    hide TotalCost, LtvRollout, Models, Rollout, Projected, Gain, Descent, Decrease, Start, Path;
    SolvedGuarantees(q, warm, r);
    var step := q.p.limits.accelMax * q.p.vehicle.dt;
    MulMono(0.0, q.p.limits.accelMax, q.p.vehicle.dt);
    forall k | 0 <= k < |r.controls|
      ensures r.controls[k].accel * q.p.vehicle.dt <= step
    {
      assert FeasibleAt(r.controls, q.prev, q.p.limits, k);
      MulMono(r.controls[k].accel, q.p.limits.accelMax, q.p.vehicle.dt);
    }
    AgreesBelowSpeedBound(q.t, q.x0, r.controls, q.p.vehicle, step);
    CostIsTrueCost(q, warm, r);
  }

  // ---------------------------------------------------------------- stationary sequences

  /** A sequence without a slope stays where it is, if it obeys the limits; no step from it lowers the cost. */
  lemma StationaryStays(q: Problem, us: seq<Control>, lr: real, n: nat)
    requires q.p.Usable() && Feasible(us, q.prev, q.p.limits)
    requires forall k | 0 <= k < |us| :: Gradient(q, us)[k] == Control(0.0, 0.0)
    ensures Steps(q, us, lr, n) == []
    decreases n
  {
    hide OwnCost, Gradient, Projected;
    NoNorm(Gradient(q, us));
    forall alpha
      ensures !Sufficient(q, us, alpha)
    {
      assert Stepped(us, Gradient(q, us), alpha) == us by {
        forall k | 0 <= k < |us|
          ensures SteppedControl(us[k], Control(0.0, 0.0), alpha, k) == us[k]
        {
        }
      }
      FeasibleUnchanged(us, q.prev, q.p.limits);
    }
    hide Sufficient, Flat, Halved;
    FirstHalvingIsFirst(q, us, lr, 0);
    if n > 0 && !Flat(q, us) && lr * 0.5 >= q.p.solver.lrMin {
      StationaryStays(q, us, lr * 0.5, n - 1);
    }
  }

  lemma {:induction false} NoNorm(grad: seq<Control>)
    requires forall k | 0 <= k < |grad| :: grad[k] == Control(0.0, 0.0)
    ensures SquaredNorm(grad) == 0.0
  {
    if grad != [] {
      NoNorm(grad[..|grad| - 1]);
    }
  }
}
