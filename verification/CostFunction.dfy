/** The tracking cost of a predicted trajectory (cost/cost_function.cpp). */
module CostFunction {
  import opened RealMath
  import opened VehicleModel

  /** One sample of the time-aligned reference path. */
  datatype RefSample = RefSample(x: real, y: real, yaw: real, v: real, kappa: real)

  datatype Weights = Weights(pathError: real, headingError: real, speedError: real, control: real,
                             controlRate: real, controlRateAccel: real, terminal: real)

  /** The sample time the stage weights were tuned for. */
  const TUNED_DT := 0.1

  datatype Breakdown = Breakdown(path: real, heading: real, speed: real, control: real, rate: real, terminal: real) {
    function Total(): real { path + heading + speed + control + rate + terminal }
  }

  function PathErrorCost(s: State, r: RefSample, weight: real): real {
    var dx, dy := s.x - r.x, s.y - r.y;
    weight * (dx * dx + dy * dy)
  }

  function HeadingErrorCost(s: State, r: RefSample, weight: real): real {
    var e := AngleDiff(s.yaw, r.yaw);
    weight * e * e
  }

  function SpeedErrorCost(s: State, vRef: real, weight: real): real {
    var e := s.vx - vRef;
    weight * e * e
  }

  function ControlEffortCost(u: Control, steer: real, accel: real): real {
    steer * u.delta * u.delta + accel * u.accel * u.accel
  }

  function ControlRateCost(prev: Control, u: Control, steer: real, accel: real): real {
    var dd, da := u.delta - prev.delta, u.accel - prev.accel;
    steer * dd * dd + accel * da * da
  }

  /** The reference sample of step `i`: past the end of the reference, its last sample. */
  function RefAt(refs: seq<RefSample>, i: nat): RefSample
    requires refs != []
  {
    if i < |refs| then refs[i] else refs[|refs| - 1]
  }

  /** The costs of step `i` before they are scaled. */
  function StageCost(s: State, prev: Control, u: Control, refs: seq<RefSample>, i: nat, w: Weights): Breakdown {
    Breakdown(if refs == [] then 0.0 else PathErrorCost(s, RefAt(refs, i), w.pathError),
              if refs == [] then 0.0 else HeadingErrorCost(s, RefAt(refs, i), w.headingError),
              SpeedErrorCost(s, if refs == [] then 0.0 else RefAt(refs, i).v, w.speedError),
              ControlEffortCost(u, w.control, w.control * 0.5),
              ControlRateCost(prev, u, w.controlRate, w.controlRateAccel),
              0.0)
  }

  function Scaled(scale: real, cost: real): real { scale * cost }

  /** What a step adds to the breakdown `b`. Integral-like terms scale with the sample time, the difference-like rate
      term against it. */
  function Added(b: Breakdown, stage: Breakdown, dt: real): Breakdown
    requires dt != 0.0
  {
    var dtScale, rateScale := dt / TUNED_DT, TUNED_DT / dt;
    b.(path := b.path + Scaled(dtScale, stage.path),
       heading := b.heading + Scaled(dtScale, stage.heading),
       speed := b.speed + Scaled(dtScale, stage.speed),
       control := b.control + Scaled(dtScale, stage.control),
       rate := b.rate + Scaled(rateScale, stage.rate))
  }

  function AddStage(b: Breakdown, s: State, prev: Control, u: Control, refs: seq<RefSample>, i: nat, w: Weights,
                    dt: real): Breakdown
    requires dt != 0.0
  {
    Added(b, StageCost(s, prev, u, refs, i, w), dt)
  }

  /** The stage costs of the first `n` steps. */
  function Stages(states: seq<State>, us: seq<Control>, refs: seq<RefSample>, prev: Control, w: Weights, dt: real,
                  n: nat): Breakdown
    requires dt != 0.0 && n <= |us| <= |states|
  {
    if n == 0 then Breakdown(0.0, 0.0, 0.0, 0.0, 0.0, 0.0)
    else
      AddStage(Stages(states, us, refs, prev, w, dt, n - 1), states[n - 1],
               if n == 1 then prev else us[n - 2], us[n - 1], refs, n - 1, w, dt)
  }

  /** The terminal cost is taken against the reference sample of the last step. */
  function TerminalCost(s: State, refs: seq<RefSample>, n: nat, w: Weights): real {
    if refs == [] then 0.0
    else
      var r := RefAt(refs, if n > 0 then n - 1 else 0);
      PathErrorCost(s, r, w.terminal) + HeadingErrorCost(s, r, w.terminal * 0.5)
          + SpeedErrorCost(s, r.v, w.terminal * 0.2)
  }

  function TotalCost(states: seq<State>, us: seq<Control>, refs: seq<RefSample>, prev: Control, w: Weights,
                     dt: real): real
    requires dt != 0.0 && |us| <= |states|
  {
    if states == [] then 0.0
    else Stages(states, us, refs, prev, w, dt, |us|).Total() + TerminalCost(states[|states| - 1], refs, |us|, w)
  }

  method ComputeTotalCost(states: seq<State>, us: seq<Control>, refs: seq<RefSample>, prev: Control, w: Weights,
                          dt: real)
    returns (total: real)
    requires dt != 0.0 && |us| <= |states|
    ensures total == TotalCost(states, us, refs, prev, w, dt)
  {
    var b := Breakdown(0.0, 0.0, 0.0, 0.0, 0.0, 0.0);
    if states == [] {
      return b.Total();
    }
    for i := 0 to |us|
      invariant b == Stages(states, us, refs, prev, w, dt, i)
      invariant b.terminal == 0.0
    {
      b := AddStage(b, states[i], if i == 0 then prev else us[i - 1], us[i], refs, i, w, dt);
    }
    b := b.(terminal := b.terminal + TerminalCost(states[|states| - 1], refs, |us|, w));
    total := b.Total();
  }

  // ---------------------------------------------------------------- the cost is never negative

  predicate NonNegativeWeights(w: Weights) {
    && w.pathError >= 0.0 && w.headingError >= 0.0 && w.speedError >= 0.0 && w.control >= 0.0
    && w.controlRate >= 0.0 && w.controlRateAccel >= 0.0 && w.terminal >= 0.0
  }

  lemma WeightedSquare(w: real, e: real)
    requires w >= 0.0
    ensures w * e * e >= 0.0
  {
    assert e * e >= 0.0;
    MulMono(0.0, w, e * e);
    assert w * e * e == w * (e * e);
  }

  lemma ErrorCostsNonNegative(s: State, r: RefSample, vRef: real, weight: real)
    requires weight >= 0.0
    ensures PathErrorCost(s, r, weight) >= 0.0 && HeadingErrorCost(s, r, weight) >= 0.0
    ensures SpeedErrorCost(s, vRef, weight) >= 0.0
  {
    WeightedSquare(weight, s.x - r.x);
    WeightedSquare(weight, s.y - r.y);
    WeightedSquare(weight, AngleDiff(s.yaw, r.yaw));
    WeightedSquare(weight, s.vx - vRef);
  }

  predicate AllNonNegative(b: Breakdown) {
    b.path >= 0.0 && b.heading >= 0.0 && b.speed >= 0.0 && b.control >= 0.0 && b.rate >= 0.0 && b.terminal >= 0.0
  }

  lemma AddedNonNegative(b: Breakdown, stage: Breakdown, dt: real)
    requires dt > 0.0 && AllNonNegative(b) && AllNonNegative(stage)
    ensures AllNonNegative(Added(b, stage, dt))
  {
    var dtScale, rateScale := dt / TUNED_DT, TUNED_DT / dt;
    assert dtScale >= 0.0 && rateScale >= 0.0;
    MulMono(0.0, stage.path, dtScale);
    MulMono(0.0, stage.heading, dtScale);
    MulMono(0.0, stage.speed, dtScale);
    MulMono(0.0, stage.control, dtScale);
    MulMono(0.0, stage.rate, rateScale);
  }

  lemma StageCostNonNegative(s: State, prev: Control, u: Control, refs: seq<RefSample>, i: nat, w: Weights)
    requires NonNegativeWeights(w)
    ensures AllNonNegative(StageCost(s, prev, u, refs, i, w))
  {
    var r := if refs == [] then RefSample(0.0, 0.0, 0.0, 0.0, 0.0) else RefAt(refs, i);
    ErrorCostsNonNegative(s, r, r.v, w.pathError);
    ErrorCostsNonNegative(s, r, r.v, w.headingError);
    ErrorCostsNonNegative(s, r, r.v, w.speedError);
    WeightedSquare(w.control, u.delta);
    WeightedSquare(w.control * 0.5, u.accel);
    WeightedSquare(w.controlRate, u.delta - prev.delta);
    WeightedSquare(w.controlRateAccel, u.accel - prev.accel);
    hide PathErrorCost, HeadingErrorCost, SpeedErrorCost;
  }

  lemma AddStageNonNegative(b: Breakdown, s: State, prev: Control, u: Control, refs: seq<RefSample>, i: nat, w: Weights,
                            dt: real)
    requires dt > 0.0 && NonNegativeWeights(w) && AllNonNegative(b)
    ensures AllNonNegative(AddStage(b, s, prev, u, refs, i, w, dt))
  {
    hide StageCost, Added;
    StageCostNonNegative(s, prev, u, refs, i, w);
    AddedNonNegative(b, StageCost(s, prev, u, refs, i, w), dt);
  }

  lemma {:induction false} StagesNonNegative(states: seq<State>, us: seq<Control>, refs: seq<RefSample>, prev: Control,
                                             w: Weights, dt: real, n: nat)
    requires dt > 0.0 && NonNegativeWeights(w) && n <= |us| <= |states|
    ensures AllNonNegative(Stages(states, us, refs, prev, w, dt, n))
  {
    if n > 0 {
      StagesNonNegative(states, us, refs, prev, w, dt, n - 1);
      AddStageNonNegative(Stages(states, us, refs, prev, w, dt, n - 1), states[n - 1],
                          if n == 1 then prev else us[n - 2], us[n - 1], refs, n - 1, w, dt);
    }
  }

  lemma TotalCostNonNegative(states: seq<State>, us: seq<Control>, refs: seq<RefSample>, prev: Control, w: Weights,
                             dt: real)
    requires dt > 0.0 && NonNegativeWeights(w) && |us| <= |states|
    ensures TotalCost(states, us, refs, prev, w, dt) >= 0.0
  {
    if states != [] {
      StagesNonNegative(states, us, refs, prev, w, dt, |us|);
      if refs != [] {
        var s, r := states[|states| - 1], RefAt(refs, if |us| > 0 then |us| - 1 else 0);
        ErrorCostsNonNegative(s, r, r.v, w.terminal);
        ErrorCostsNonNegative(s, r, r.v, w.terminal * 0.5);
        ErrorCostsNonNegative(s, r, r.v, w.terminal * 0.2);
      }
    }
  }

  // ---------------------------------------------------------------- what the cost measures

  /** The path error is the squared distance from the reference, in whatever axes it is taken. */
  lemma PathErrorInAnyAxes(s: State, r: RefSample, weight: real, cos: real, sin: real)
    requires cos * cos + sin * sin == 1.0
    ensures var along := (s.x - r.x) * cos + (s.y - r.y) * sin;
            var across := (s.y - r.y) * cos - (s.x - r.x) * sin;
            PathErrorCost(s, r, weight) == weight * (along * along + across * across)
  {
    var dx, dy := s.x - r.x, s.y - r.y;
    var along, across := dx * cos + dy * sin, dy * cos - dx * sin;
    assert along * along + across * across == (dx * dx + dy * dy) * (cos * cos + sin * sin);
  }

  predicate PositiveWeights(w: Weights) {
    && w.pathError > 0.0 && w.headingError > 0.0 && w.speedError > 0.0 && w.control > 0.0
    && w.controlRate > 0.0 && w.controlRateAccel > 0.0 && w.terminal > 0.0
  }

  /** The state is on the reference sample, headed along it up to whole turns, and at its speed. */
  predicate Follows(s: State, r: RefSample) {
    s.x == r.x && s.y == r.y && AngleDiff(s.yaw, r.yaw) == 0.0 && s.vx == r.v
  }

  const AT_REST := Control(0.0, 0.0)

  lemma SquareIsZero(w: real, e: real)
    requires w > 0.0
    ensures w * e * e >= 0.0 && (w * e * e == 0.0 <==> e == 0.0)
  {
    if e > 0.0 {
      SquareIncreases(0.0, e);
      ProductNonzero(w, e * e, w * (e * e));
    } else if e < 0.0 {
      SquareIncreases(0.0, -e);
      ProductNonzero(w, e * e, w * (e * e));
    }
    assert w * e * e == w * (e * e);
    assert e * e >= 0.0;
    MulMono(0.0, w, e * e);
  }

  lemma ErrorsAreZero(s: State, r: RefSample, path: real, heading: real, speed: real)
    requires path > 0.0 && heading > 0.0 && speed > 0.0
    ensures PathErrorCost(s, r, path) >= 0.0 && HeadingErrorCost(s, r, heading) >= 0.0
    ensures SpeedErrorCost(s, r.v, speed) >= 0.0
    ensures PathErrorCost(s, r, path) == HeadingErrorCost(s, r, heading) == SpeedErrorCost(s, r.v, speed) == 0.0
            <==> Follows(s, r)
  {
    SquareIsZero(path, s.x - r.x);
    SquareIsZero(path, s.y - r.y);
    SquareIsZero(heading, AngleDiff(s.yaw, r.yaw));
    SquareIsZero(speed, s.vx - r.v);
    hide AngleDiff;
    var dx, dy := s.x - r.x, s.y - r.y;
    assert PathErrorCost(s, r, path) == path * dx * dx + path * dy * dy;
  }

  lemma InputsAreZero(prev: Control, u: Control, w: Weights)
    requires PositiveWeights(w)
    ensures ControlEffortCost(u, w.control, w.control * 0.5) >= 0.0
    ensures ControlRateCost(prev, u, w.controlRate, w.controlRateAccel) >= 0.0
    ensures ControlEffortCost(u, w.control, w.control * 0.5) == 0.0 <==> u == AT_REST
    ensures ControlRateCost(prev, u, w.controlRate, w.controlRateAccel) == 0.0 <==> u == prev
  {
    SquareIsZero(w.control, u.delta);
    SquareIsZero(w.control * 0.5, u.accel);
    SquareIsZero(w.controlRate, u.delta - prev.delta);
    SquareIsZero(w.controlRateAccel, u.accel - prev.accel);
  }

  lemma ScaledZero(scale: real, x: real)
    requires scale > 0.0 && x >= 0.0
    ensures Scaled(scale, x) >= 0.0 && (Scaled(scale, x) == 0.0 <==> x == 0.0)
  {
    if x > 0.0 {
      ProductNonzero(scale, x, scale * x);
    }
    MulMono(0.0, x, scale);
  }

  /** `x` is what is left of `b` when something of the kind of `y` is added that is zero only when `y` is. */
  predicate Grows(x: real, b: real, y: real) { x >= b && (x == b <==> y == 0.0) }

  lemma GrowsBy(scale: real, b: real, y: real)
    requires scale > 0.0 && y >= 0.0
    ensures Grows(b + Scaled(scale, y), b, y)
  {
    ScaledZero(scale, y);
  }

  lemma PartsGrow(b: Breakdown, stage: Breakdown, dt: real)
    requires dt > 0.0 && AllNonNegative(stage)
    ensures var r := Added(b, stage, dt);
            && Grows(r.path, b.path, stage.path) && Grows(r.heading, b.heading, stage.heading)
            && Grows(r.speed, b.speed, stage.speed) && Grows(r.control, b.control, stage.control)
            && Grows(r.rate, b.rate, stage.rate) && r.terminal == b.terminal
  {
    hide Scaled, Grows;
    var dtScale, rateScale := dt / TUNED_DT, TUNED_DT / dt;
    assert dtScale > 0.0 && rateScale > 0.0;
    GrowsBy(dtScale, b.path, stage.path);
    GrowsBy(dtScale, b.heading, stage.heading);
    GrowsBy(dtScale, b.speed, stage.speed);
    GrowsBy(dtScale, b.control, stage.control);
    GrowsBy(rateScale, b.rate, stage.rate);
  }

  lemma AddsNothing(b: Breakdown, stage: Breakdown, dt: real)
    requires dt > 0.0 && AllNonNegative(b) && AllNonNegative(stage) && stage.terminal == 0.0
    ensures AllNonNegative(Added(b, stage, dt)) && Added(b, stage, dt).terminal == b.terminal
    ensures Added(b, stage, dt).Total() == 0.0 <==> b.Total() == 0.0 && stage.Total() == 0.0
  {
    hide Added;
    PartsGrow(b, stage, dt);
  }

  lemma StageVanishes(s: State, prev: Control, u: Control, refs: seq<RefSample>, i: nat, w: Weights)
    requires PositiveWeights(w) && refs != []
    ensures AllNonNegative(StageCost(s, prev, u, refs, i, w)) && StageCost(s, prev, u, refs, i, w).terminal == 0.0
    ensures StageCost(s, prev, u, refs, i, w).Total() == 0.0 <==> Follows(s, RefAt(refs, i)) && u == prev == AT_REST
  {
    hide PathErrorCost, HeadingErrorCost, SpeedErrorCost, ControlEffortCost, ControlRateCost, Follows, RefAt;
    ErrorsAreZero(s, RefAt(refs, i), w.pathError, w.headingError, w.speedError);
    InputsAreZero(prev, u, w);
  }

  /** The first `n` states follow the reference, and nothing is steered or accelerated, before or then. */
  ghost predicate Tracks(states: seq<State>, us: seq<Control>, refs: seq<RefSample>, prev: Control, n: nat)
    requires refs != [] && n <= |us| <= |states|
  {
    && (forall i | 0 <= i < n :: Follows(states[i], RefAt(refs, i)) && us[i] == AT_REST)
    && (n > 0 ==> prev == AT_REST)
  }

  lemma TracksOn(states: seq<State>, us: seq<Control>, refs: seq<RefSample>, prev: Control, n: nat)
    requires refs != [] && 0 < n <= |us| <= |states|
    ensures Tracks(states, us, refs, prev, n)
            <==> Tracks(states, us, refs, prev, n - 1) && Follows(states[n - 1], RefAt(refs, n - 1))
                 && us[n - 1] == (if n == 1 then prev else us[n - 2]) == AT_REST
  {
    hide Follows, RefAt;
  }

  lemma {:induction false} StagesVanish(states: seq<State>, us: seq<Control>, refs: seq<RefSample>, prev: Control,
                                        w: Weights, dt: real, n: nat)
    requires dt > 0.0 && PositiveWeights(w) && refs != [] && n <= |us| <= |states|
    ensures AllNonNegative(Stages(states, us, refs, prev, w, dt, n))
    ensures Stages(states, us, refs, prev, w, dt, n).terminal == 0.0
    ensures Stages(states, us, refs, prev, w, dt, n).Total() == 0.0 <==> Tracks(states, us, refs, prev, n)
  {
    hide Follows, PositiveWeights, StageCost, Added, RefAt, Tracks, AllNonNegative, Breakdown.Total;
    if n > 0 {
      var before := if n == 1 then prev else us[n - 2];
      StagesVanish(states, us, refs, prev, w, dt, n - 1);
      StageVanishes(states[n - 1], before, us[n - 1], refs, n - 1, w);
      AddsNothing(Stages(states, us, refs, prev, w, dt, n - 1),
                  StageCost(states[n - 1], before, us[n - 1], refs, n - 1, w), dt);
      TracksOn(states, us, refs, prev, n);
    } else {
      NothingAdded(states, us, refs, prev);
    }
  }

  lemma NothingAdded(states: seq<State>, us: seq<Control>, refs: seq<RefSample>, prev: Control)
    requires refs != [] && |us| <= |states|
    ensures var none := Breakdown(0.0, 0.0, 0.0, 0.0, 0.0, 0.0);
            AllNonNegative(none) && none.Total() == 0.0 && Tracks(states, us, refs, prev, 0)
  {
  }

  /** With positive weights the cost is zero exactly when the trajectory follows the reference throughout, its end the
      reference of the last step, without any control input. */
  lemma ZeroCostIffTracked(states: seq<State>, us: seq<Control>, refs: seq<RefSample>, prev: Control, w: Weights,
                           dt: real)
    requires dt > 0.0 && PositiveWeights(w) && refs != [] && |us| < |states|
    ensures TotalCost(states, us, refs, prev, w, dt) == 0.0
            <==> Tracks(states, us, refs, prev, |us|)
                 && Follows(states[|states| - 1], RefAt(refs, if |us| > 0 then |us| - 1 else 0))
  {
    hide Follows, PathErrorCost, HeadingErrorCost, SpeedErrorCost, Stages, Tracks;
    StagesVanish(states, us, refs, prev, w, dt, |us|);
    var s, r := states[|states| - 1], RefAt(refs, if |us| > 0 then |us| - 1 else 0);
    ErrorsAreZero(s, r, w.terminal, w.terminal * 0.5, w.terminal * 0.2);
  }

  /** Sampling twice as often, with the errors of a step held and its change of the control spread over both halves,
      costs the same: the error terms are sums over time, the rate term is one over changes. */
  lemma HalvedSampleTime(b: Breakdown, s: State, prev: Control, u: Control, refs: seq<RefSample>, i: nat, w: Weights,
                         dt: real)
    requires dt > 0.0
    ensures var middle := Control((prev.delta + u.delta) / 2.0, (prev.accel + u.accel) / 2.0);
            var once := AddStage(b, s, prev, u, refs, i, w, dt);
            var half := AddStage(b, s, prev, middle, refs, i, w, dt / 2.0);
            var twice := AddStage(half, s, middle, u, refs, i, w, dt / 2.0);
            && twice.path == once.path && twice.heading == once.heading && twice.speed == once.speed
            && twice.rate == once.rate
    ensures var once := AddStage(b, s, prev, u, refs, i, w, dt);
            var half := AddStage(b, s, prev, u, refs, i, w, dt / 2.0);
            AddStage(half, s, u, u, refs, i, w, dt / 2.0).control == once.control
  {
    hide PathErrorCost, HeadingErrorCost, SpeedErrorCost, ControlEffortCost, RefAt, ControlRateCost;
    var middle := Control((prev.delta + u.delta) / 2.0, (prev.accel + u.accel) / 2.0);
    SpreadChange(prev, middle, u, w.controlRate, w.controlRateAccel);
    AddedInHalves(b, StageCost(s, prev, u, refs, i, w), StageCost(s, prev, middle, refs, i, w),
                  StageCost(s, middle, u, refs, i, w), dt);
    AddedInHalves(b, StageCost(s, prev, u, refs, i, w), StageCost(s, prev, u, refs, i, w),
                  StageCost(s, u, u, refs, i, w), dt);
    hide StageCost, Added;
  }

  lemma AddedInHalves(b: Breakdown, once: Breakdown, first: Breakdown, second: Breakdown, dt: real)
    requires dt > 0.0
    ensures var whole, twice := Added(b, once, dt), Added(Added(b, first, dt / 2.0), second, dt / 2.0);
            && (first.path == second.path == once.path ==> twice.path == whole.path)
            && (first.heading == second.heading == once.heading ==> twice.heading == whole.heading)
            && (first.speed == second.speed == once.speed ==> twice.speed == whole.speed)
            && (first.control == second.control == once.control ==> twice.control == whole.control)
            && (first.rate == second.rate == once.rate / 4.0 ==> twice.rate == whole.rate)
  {
    HalvedScales(dt);
    TwoHalves(dt / TUNED_DT, once.path);
    TwoHalves(dt / TUNED_DT, once.heading);
    TwoHalves(dt / TUNED_DT, once.speed);
    TwoHalves(dt / TUNED_DT, once.control);
    TwoQuarters(TUNED_DT / dt, once.rate);
    hide Scaled;
  }

  lemma HalvedScales(dt: real)
    requires dt > 0.0
    ensures dt / 2.0 / TUNED_DT == dt / TUNED_DT / 2.0 && TUNED_DT / (dt / 2.0) == TUNED_DT / dt * 2.0
  {
    var q := TUNED_DT / dt;
    assert q * dt == TUNED_DT;
    Quotient(TUNED_DT, q * 2.0, dt / 2.0);
  }

  lemma TwoHalves(scale: real, x: real)
    ensures Scaled(scale / 2.0, x) + Scaled(scale / 2.0, x) == Scaled(scale, x)
  {
  }

  lemma TwoQuarters(rate: real, x: real)
    ensures Scaled(rate * 2.0, x / 4.0) + Scaled(rate * 2.0, x / 4.0) == Scaled(rate, x)
  {
  }

  lemma SpreadChange(prev: Control, middle: Control, u: Control, steer: real, accel: real)
    requires middle == Control((prev.delta + u.delta) / 2.0, (prev.accel + u.accel) / 2.0)
    ensures ControlRateCost(prev, middle, steer, accel) == ControlRateCost(prev, u, steer, accel) / 4.0
    ensures ControlRateCost(middle, u, steer, accel) == ControlRateCost(prev, u, steer, accel) / 4.0
  {
    var dd, da := u.delta - prev.delta, u.accel - prev.accel;
    assert middle.delta - prev.delta == dd / 2.0 == u.delta - middle.delta;
    assert middle.accel - prev.accel == da / 2.0 == u.accel - middle.accel;
    assert steer * (dd / 2.0) * (dd / 2.0) == steer * dd * dd / 4.0;
    assert accel * (da / 2.0) * (da / 2.0) == accel * da * da / 4.0;
  }
}
