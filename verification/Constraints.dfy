/** Projection of a control sequence onto the actuator limits (constraints/constraints.cpp and
    projectControls in solver/mpc_solver.cpp). */
module Constraints {
  import opened RealMath
  import opened VehicleModel

  /** `steerStep` is the steering rate limit times the sample time. */
  datatype Limits = Limits(steerMax: real, steerStep: real, accelMin: real, accelMax: real)

  predicate Sane(l: Limits) { l.steerMax >= 0.0 && l.steerStep >= 0.0 && l.accelMin <= l.accelMax }

  function ClipControl(u: Control, l: Limits): Control {
    Control(Clip(u.delta, -l.steerMax, l.steerMax), Clip(u.accel, l.accelMin, l.accelMax))
  }

  function ClipSteeringRate(u: Control, prev: Control, l: Limits): Control {
    u.(delta := prev.delta + Clip(u.delta - prev.delta, -l.steerStep, l.steerStep))
  }

  function ProjectOne(u: Control, prev: Control, l: Limits): Control {
    ClipSteeringRate(ClipControl(u, l), prev, l)
  }

  /** Each control is projected against the projection of its predecessor. */
  function Projected(us: seq<Control>, prev: Control, l: Limits): (r: seq<Control>)
    ensures |r| == |us|
  {
    if us == [] then []
    else
      var n := |us| - 1;
      var r := Projected(us[..n], prev, l);
      r + [ProjectOne(us[n], if n == 0 then prev else r[n - 1], l)]
  }

  method ProjectControls(controls: array<Control>, prev: Control, l: Limits)
    modifies controls
    ensures controls[..] == Projected(old(controls[..]), prev, l)
  {
    hide ProjectOne;
    ghost var was := controls[..];
    var uPrev := prev;
    for i := 0 to controls.Length
      invariant controls[..i] == Projected(was[..i], prev, l)
      invariant controls[i..] == was[i..]
      invariant uPrev == if i == 0 then prev else controls[i - 1]
    {
      assert was[..i + 1][..i] == was[..i] && controls[i] == was[i];
      controls[i] := ProjectOne(controls[i], uPrev, l);
      uPrev := controls[i];
      assert controls[..i + 1] == controls[..i] + [controls[i]];
    }
    assert was[..controls.Length] == was;
  }

  // ---------------------------------------------------------------- feasibility

  predicate InBox(u: Control, l: Limits) {
    -l.steerMax <= u.delta <= l.steerMax && l.accelMin <= u.accel <= l.accelMax
  }

  predicate WithinRate(u: Control, prev: Control, l: Limits) {
    Abs(u.delta - prev.delta) <= l.steerStep
  }

  function Before(us: seq<Control>, prev: Control, i: nat): Control
    requires i < |us|
  {
    if i == 0 then prev else us[i - 1]
  }

  ghost predicate FeasibleAt(us: seq<Control>, prev: Control, l: Limits, i: nat)
    requires i < |us|
  {
    InBox(us[i], l) && WithinRate(us[i], Before(us, prev, i), l)
  }

  /** Every control is inside the steering and acceleration boxes, and the steering moves by at most one
      rate step from each control to the next, starting from the control applied before. */
  ghost predicate Feasible(us: seq<Control>, prev: Control, l: Limits) {
    forall i | 0 <= i < |us| :: FeasibleAt(us, prev, l, i)
  }

  /** One projected control is feasible, and its steering is the nearest to the one asked for among all
      feasible ones. */
  lemma ProjectOneIsNearest(u: Control, prev: Control, l: Limits)
    requires Sane(l) && -l.steerMax <= prev.delta <= l.steerMax
    ensures var r := ProjectOne(u, prev, l); InBox(r, l) && WithinRate(r, prev, l)
    ensures forall v | InBox(v, l) && WithinRate(v, prev, l) ::
              && Abs(ProjectOne(u, prev, l).delta - u.delta) <= Abs(v.delta - u.delta)
              && Abs(ProjectOne(u, prev, l).accel - u.accel) <= Abs(v.accel - u.accel)
  {
  }

  lemma {:induction false} ProjectedIsFeasible(us: seq<Control>, prev: Control, l: Limits)
    requires Sane(l) && -l.steerMax <= prev.delta <= l.steerMax
    ensures Feasible(Projected(us, prev, l), prev, l)
  {
    if us != [] {
      var n := |us| - 1;
      ProjectedIsFeasible(us[..n], prev, l);
      var init, all := Projected(us[..n], prev, l), Projected(us, prev, l);
      assert n > 0 ==> FeasibleAt(init, prev, l, n - 1);
      ProjectOneIsNearest(us[n], if n == 0 then prev else init[n - 1], l);
      forall i | 0 <= i < n
        ensures FeasibleAt(all, prev, l, i)
      {
        assert FeasibleAt(init, prev, l, i);
      }
    }
  }

  lemma {:induction false} FeasibleUnchanged(us: seq<Control>, prev: Control, l: Limits)
    requires Feasible(us, prev, l)
    ensures Projected(us, prev, l) == us
  {
    if us != [] {
      var n := |us| - 1;
      forall i | 0 <= i < n
        ensures FeasibleAt(us[..n], prev, l, i)
      {
        assert FeasibleAt(us, prev, l, i);
      }
      FeasibleUnchanged(us[..n], prev, l);
      assert FeasibleAt(us, prev, l, n);
    }
  }

  /** The feasible sequences are exactly those the projection leaves as they are. */
  lemma FeasibleIffUnchanged(us: seq<Control>, prev: Control, l: Limits)
    requires Sane(l) && -l.steerMax <= prev.delta <= l.steerMax
    ensures Projected(us, prev, l) == us <==> Feasible(us, prev, l)
  {
    ProjectedIsFeasible(us, prev, l);
    if Feasible(us, prev, l) {
      FeasibleUnchanged(us, prev, l);
    }
  }
}
