/** The controller's cycle: time alignment of the planned path, the standstill watchdog, the solver, and
    the command sent (mpc_controller/src/main.cpp). */
module MpcLoop {
  import opened RealMath
  import opened VehicleModel
  import opened Constraints
  import opened CostFunction
  import opened MpcSolver

  datatype PathSample = PathSample(x: real, y: real, yaw: real, kappa: real, v: real)

  /** A received path: samples `dt` apart, and the ego state it was planned from. */
  datatype PlannedPath = PlannedPath(samples: seq<PathSample>, dt: real, ego: State)

  datatype Watchdog = Watchdog(egoSpeed: real, targetSpeed: real, minPathProgress: real, launchAccel: real,
                               timeoutCycles: nat, recoveryCycles: nat)

  datatype Command = Command(accel: real, brake: real, steer: real)

  // ---------------------------------------------------------------- time alignment

  /** Linear interpolation between two samples, the yaw along the shorter arc. */
  function Blend(a: PathSample, b: PathSample, frac: real): RefSample {
    RefSample(a.x + frac * (b.x - a.x), a.y + frac * (b.y - a.y), a.yaw + frac * AngleDiff(b.yaw, a.yaw),
              a.v + frac * (b.v - a.v), a.kappa + frac * (b.kappa - a.kappa))
  }

  /** The position in the sample list that time `t` stands for, held at both ends. */
  function IndexAt(path: PlannedPath, t: real): (idx: real)
    requires path.samples != [] && path.dt > 0.0
    ensures 0.0 <= idx <= (|path.samples| - 1) as real
  {
    Clip(t / path.dt, 0.0, (|path.samples| - 1) as real)
  }

  function Interpolated(samples: seq<PathSample>, idx: real): RefSample
    requires 0.0 <= idx <= (|samples| - 1) as real
  {
    var i0 := idx.Floor;
    var i1 := if i0 + 1 < |samples| - 1 then i0 + 1 else |samples| - 1;
    Blend(samples[i0], samples[i1], idx - i0 as real)
  }

  /** The path at time `t` after its first sample; past its end, its last sample. */
  function SampleAt(path: PlannedPath, t: real): RefSample
    requires path.samples != [] && path.dt > 0.0
  {
    Interpolated(path.samples, IndexAt(path, t))
  }

  function TimeAt(i: nat, dt: real): real { i as real * dt }

  function Aligned(path: PlannedPath, dt: real, steps: int): (r: seq<RefSample>)
    ensures path.samples == [] || path.dt <= 0.0 || steps <= 0 <==> r == []
  {
    if path.samples == [] || path.dt <= 0.0 || steps <= 0 then []
    else seq(steps, i requires 0 <= i < steps => SampleAt(path, TimeAt(i, dt)))
  }

  method ToReferencePath(path: PlannedPath, dt: real, steps: int) returns (r: seq<RefSample>)
    ensures r == Aligned(path, dt, steps)
  {
    hide SampleAt, TimeAt;
    r := [];
    if path.samples == [] || path.dt <= 0.0 {
      return;
    }
    var i := 0;
    while i < steps
      invariant 0 <= i && (i <= steps || i == 0)
      invariant |r| == i && forall j | 0 <= j < i :: r[j] == SampleAt(path, TimeAt(j, dt))
    {
      r := r + [SampleAt(path, TimeAt(i, dt))];
      i := i + 1;
    }
    assert steps > 0 ==> |r| == steps && forall j | 0 <= j < steps :: r[j] == Aligned(path, dt, steps)[j];
  }

  function AsReference(s: PathSample): RefSample { RefSample(s.x, s.y, s.yaw, s.v, s.kappa) }

  lemma BlendEnds(a: PathSample, b: PathSample, frac: real)
    ensures frac == 0.0 || a == b ==> Blend(a, b, frac) == AsReference(a)
  {
    if a == b {
      assert AngleDiff(b.yaw, a.yaw) == 0.0;
    }
  }

  lemma InterpolatedAtSample(samples: seq<PathSample>, n: nat)
    requires n < |samples|
    ensures Interpolated(samples, n as real) == AsReference(samples[n])
  {
    assert (n as real).Floor == n;
    BlendEnds(samples[n], samples[if n + 1 < |samples| - 1 then n + 1 else |samples| - 1], 0.0);
  }

  lemma IndexAtOwnRate(path: PlannedPath, i: nat)
    requires path.samples != [] && path.dt > 0.0
    ensures IndexAt(path, TimeAt(i, path.dt)) == (if i < |path.samples| then i else |path.samples| - 1) as real
  {
    assert i as real * path.dt / path.dt == i as real;
  }

  /** At equal sample times alignment copies the path, and then holds its last sample. */
  lemma AlignedAtOwnRate(path: PlannedPath, steps: int, i: nat)
    requires path.samples != [] && path.dt > 0.0 && i < steps
    ensures Aligned(path, path.dt, steps)[i]
            == AsReference(path.samples[if i < |path.samples| then i else |path.samples| - 1])
  {
    hide IndexAt, Interpolated, Blend, TimeAt;
    IndexAtOwnRate(path, i);
    InterpolatedAtSample(path.samples, if i < |path.samples| then i else |path.samples| - 1);
  }

  lemma OneSampleStandsStill(path: PlannedPath, dt: real, steps: int, i: nat)
    requires |path.samples| == 1 && path.dt > 0.0 && i < steps
    ensures Aligned(path, dt, steps)[i] == AsReference(path.samples[0])
  {
    hide IndexAt, Interpolated, Blend, TimeAt;
    assert IndexAt(path, TimeAt(i, dt)) == 0.0;
    InterpolatedAtSample(path.samples, 0);
  }

  /** Value `x` after `u` samples of a motion that adds `dx` per sample. */
  function Went(x: real, dx: real, u: real): real { x + u * dx }

  /** A motion at constant rates, `u` samples after it sets out from `from`. */
  function Motion(from: PathSample, step: PathSample, u: real): PathSample {
    PathSample(Went(from.x, step.x, u), Went(from.y, step.y, u), Went(from.yaw, step.yaw, u),
               Went(from.kappa, step.kappa, u), Went(from.v, step.v, u))
  }

  lemma WentOn(x: real, dx: real, u: real, frac: real)
    ensures Went(x, dx, u) + frac * (Went(x, dx, u + 1.0) - Went(x, dx, u)) == Went(x, dx, u + frac)
    ensures Went(x, dx, u + 1.0) - Went(x, dx, u) == dx && Went(x, dx, u) + frac * dx == Went(x, dx, u + frac)
  {
  }

  lemma BlendOfMotion(from: PathSample, step: PathSample, u: real, frac: real)
    requires -PI <= step.yaw <= PI
    ensures Blend(Motion(from, step, u), Motion(from, step, u + 1.0), frac)
         == AsReference(Motion(from, step, u + frac))
  {
    hide Went;
    WentOn(from.x, step.x, u, frac);
    WentOn(from.y, step.y, u, frac);
    WentOn(from.yaw, step.yaw, u, frac);
    WentOn(from.kappa, step.kappa, u, frac);
    WentOn(from.v, step.v, u, frac);
  }

  /** Alignment keeps a motion at constant rates exact, whatever the two sample times are, between the first and the
      last sample, and holds it before and after. */
  lemma UniformMotionKept(path: PlannedPath, from: PathSample, step: PathSample, t: real)
    requires path.samples != [] && path.dt > 0.0 && -PI <= step.yaw <= PI
    requires forall k | 0 <= k < |path.samples| :: path.samples[k] == Motion(from, step, k as real)
    ensures var last := (|path.samples| - 1) as real;
            SampleAt(path, t)
            == AsReference(Motion(from, step, if t <= 0.0 then 0.0 else if t >= path.dt * last then last
                                              else t / path.dt))
  {
    hide Motion, Blend;
    var n := |path.samples|;
    var idx := IndexAt(path, t);
    IndexOfTime(t, path.dt, (n - 1) as real);
    var i0 := idx.Floor;
    if i0 < n - 1 {
      BlendOfMotion(from, step, i0 as real, idx - i0 as real);
    } else {
      BlendEnds(path.samples[i0], path.samples[i0], 0.0);
    }
  }

  lemma IndexOfTime(t: real, dt: real, last: real)
    requires dt > 0.0 && last >= 0.0
    ensures Clip(t / dt, 0.0, last) == if t <= 0.0 then 0.0 else if t >= dt * last then last else t / dt
  {
    var q := t / dt;
    assert q * dt == t;
    if t <= 0.0 {
      assert q <= 0.0;
    } else if t >= dt * last {
      if q < last {
        MulMono(q, last, dt);
        CancelAtMost(last, q, dt, dt * last, q * dt);
      }
    } else if q >= last {
      MulMono(last, q, dt);
    }
  }

  // ---------------------------------------------------------------- intent

  function TopSpeed(r: seq<RefSample>): real {
    if r == [] then 0.0 else Max(TopSpeed(r[..|r| - 1]), r[|r| - 1].v)
  }

  method MaxReferenceSpeed(r: seq<RefSample>) returns (top: real)
    ensures top == TopSpeed(r)
  {
    top := 0.0;
    for i := 0 to |r|
      invariant top == TopSpeed(r[..i])
    {
      assert r[..i + 1][..i] == r[..i];
      top := Max(top, r[i].v);
    }
    assert r[..|r|] == r;
  }

  lemma {:induction false} TopSpeedIsGreatest(r: seq<RefSample>)
    ensures TopSpeed(r) >= 0.0
    ensures forall i | 0 <= i < |r| :: r[i].v <= TopSpeed(r)
    ensures TopSpeed(r) == 0.0 || exists i | 0 <= i < |r| :: r[i].v == TopSpeed(r)
  {
    if r != [] {
      TopSpeedIsGreatest(r[..|r| - 1]);
    }
  }

  function Progress(r: seq<RefSample>, hypot: (real, real) -> real): real {
    if |r| >= 2 then hypot(r[|r| - 1].x - r[0].x, r[|r| - 1].y - r[0].y) else 0.0
  }

  /** The planner wants to drive and the vehicle stands. */
  predicate StoppedWithIntent(r: seq<RefSample>, vx: real, w: Watchdog, hypot: (real, real) -> real) {
    TopSpeed(r) > w.targetSpeed && Progress(r, hypot) > w.minPathProgress && Abs(vx) < w.egoSpeed
  }

  /** A stop path never counts as intent: one sample makes no progress, and standstill samples no speed. */
  lemma StopPathIsNoIntent(path: PlannedPath, dt: real, steps: int, vx: real, w: Watchdog, hypot: (real, real) -> real)
    requires hypot(0.0, 0.0) == 0.0 && w.minPathProgress >= 0.0 && w.targetSpeed >= 0.0
    requires |path.samples| <= 1 || TopSpeed(Aligned(path, dt, steps)) == 0.0
    ensures !StoppedWithIntent(Aligned(path, dt, steps), vx, w, hypot)
  {
    var r := Aligned(path, dt, steps);
    if |path.samples| == 1 && |r| >= 2 {
      OneSampleStandsStill(path, dt, steps, 0);
      OneSampleStandsStill(path, dt, steps, |r| - 1);
    }
  }

  /** The vehicle stands with intent exactly when some sample of the horizon is faster than the target threshold, its
      two ends are farther apart than the progress threshold, and its own speed is below that of standing, either way.
      */
  lemma IntentExactly(r: seq<RefSample>, vx: real, w: Watchdog, hypot: (real, real) -> real)
    requires w.targetSpeed >= 0.0 && w.minPathProgress >= 0.0
    ensures StoppedWithIntent(r, vx, w, hypot)
            <==> && (exists i :: 0 <= i < |r| && r[i].v > w.targetSpeed) && |r| >= 2
                 && hypot(r[|r| - 1].x - r[0].x, r[|r| - 1].y - r[0].y) > w.minPathProgress
                 && -w.egoSpeed < vx < w.egoSpeed
  {
    TopSpeedIsGreatest(r);
  }

  // ---------------------------------------------------------------- runs

  /** One cycle as the watchdog saw it. */
  datatype Cycle = Cycle(stopped: bool, launched: bool, boosted: bool)

  /** A launch comes on the last of `timeout` cycles in a row that stand with intent, none of the earlier
      ones boosted; a boost comes within `recovery` cycles of a launch, the vehicle standing with intent
      throughout and boosted in each of these cycles. */
  ghost predicate LaunchJustified(h: seq<Cycle>, i: nat, timeout: nat)
    requires i < |h|
  {
    h[i].launched ==>
      i + 1 >= timeout && forall j | i + 1 - timeout <= j <= i :: h[j].stopped && (j < i ==> !h[j].boosted)
  }

  ghost predicate BoostJustified(h: seq<Cycle>, i: nat, recovery: nat)
    requires i < |h|
  {
    h[i].boosted ==>
      exists k :: 0 <= k <= i < k + recovery && h[k].launched && forall j | k <= j <= i :: h[j].stopped && h[j].boosted
  }

  ghost predicate Justified(h: seq<Cycle>, w: Watchdog) {
    forall i | 0 <= i < |h| :: LaunchJustified(h, i, w.timeoutCycles) && BoostJustified(h, i, w.recoveryCycles)
  }

  /** How the two counters read the history: `stuck` unboosted standing cycles lie behind, or `left` more
      boosts are due after an unbroken series of them since the launch. */
  ghost predicate CountersRead(h: seq<Cycle>, w: Watchdog, stuck: nat, left: nat) {
    && stuck < w.timeoutCycles && left < w.recoveryCycles && (left > 0 ==> stuck == 0)
    && stuck <= |h| && (forall j | |h| - stuck <= j < |h| :: h[j].stopped && !h[j].boosted)
    && (left > 0 ==>
          var k := |h| - (w.recoveryCycles - left);
          k >= 0 && h[k].launched && forall j | k <= j < |h| :: h[j].stopped && h[j].boosted)
  }

  /** The counters after the standstill test of a cycle, and whether it starts a launch. */
  function Arm(w: Watchdog, stuck: nat, left: nat, stopped: bool): (r: (bool, nat, nat)) {
    if !stopped then (false, 0, 0)
    else if left > 0 then (false, stuck, left)
    else if stuck + 1 >= w.timeoutCycles then (true, 0, w.recoveryCycles)
    else (false, stuck + 1, 0)
  }

  /** A whole cycle of the watchdog: the record it leaves, and the counters after the boost, if any. */
  function Watch(w: Watchdog, stuck: nat, left: nat, stopped: bool): (r: (Cycle, nat, nat)) {
    var (launched, stuck', left') := Arm(w, stuck, left, stopped);
    var boosted := stopped && left' > 0;
    (Cycle(stopped, launched, boosted), stuck', if boosted then left' - 1 else left')
  }

  lemma WatchKeeps(h: seq<Cycle>, w: Watchdog, stuck: nat, left: nat, stopped: bool)
    requires w.timeoutCycles >= 1 && w.recoveryCycles >= 1
    requires Justified(h, w) && CountersRead(h, w, stuck, left)
    ensures var (c, stuck', left') := Watch(w, stuck, left, stopped);
            Justified(h + [c], w) && CountersRead(h + [c], w, stuck', left')
  {
    var (c, stuck', left') := Watch(w, stuck, left, stopped);
    var h' := h + [c];
    forall i | 0 <= i < |h|
      ensures LaunchJustified(h', i, w.timeoutCycles) && BoostJustified(h', i, w.recoveryCycles)
    {
      assert LaunchJustified(h, i, w.timeoutCycles) && BoostJustified(h, i, w.recoveryCycles);
      if h[i].boosted {
        var k :| 0 <= k <= i < k + w.recoveryCycles && h[k].launched
                 && forall j | k <= j <= i :: h[j].stopped && h[j].boosted;
        assert h'[k].launched;
      }
    }
    if c.boosted {
      var k := if c.launched then |h| else |h| - (w.recoveryCycles - left);
      assert h'[k].launched;
    }
  }

  // ---------------------------------------------------------------- exactly when the watchdog acts

  /** A launch at `k` is still being followed up at `i`: few enough cycles later, the vehicle standing with intent all
      the while. */
  ghost predicate FollowsUp(h: seq<Cycle>, k: nat, i: nat, recovery: nat) {
    k <= i < |h| && i < k + recovery && h[k].launched && forall j | k <= j <= i :: h[j].stopped
  }

  /** The last `n` cycles stood with intent without a boost. */
  ghost predicate StuckFor(h: seq<Cycle>, n: nat) {
    n <= |h| && forall j | |h| - n <= j < |h| :: h[j].stopped && !h[j].boosted
  }

  /** A cycle launches exactly when it stands, `timeout` cycles with it and none of the others boosted, and no launch is
      being followed up; it boosts exactly when a launch is, its own included. */
  ghost predicate ActsExactly(h: seq<Cycle>, i: nat, w: Watchdog)
    requires i < |h| && w.timeoutCycles >= 1
  {
    && (h[i].launched <==> h[i].stopped && StuckFor(h[..i], w.timeoutCycles - 1)
                           && !exists k: nat :: k < i && FollowsUp(h, k, i, w.recoveryCycles))
    && (h[i].boosted <==> exists k: nat :: FollowsUp(h, k, i, w.recoveryCycles))
  }

  /** A launch at `k` is followed up to the end of the history and beyond. */
  ghost predicate Due(h: seq<Cycle>, k: nat, recovery: nat) {
    k < |h| < k + recovery && FollowsUp(h, k, |h| - 1, recovery)
  }

  /** The counters are exact: the one is the number of cycles stuck in a row, the other what is left of the launch that
      is being followed up, if there is one. */
  ghost predicate CountersExact(h: seq<Cycle>, w: Watchdog, stuck: nat, left: nat) {
    && StuckFor(h, stuck) && !StuckFor(h, stuck + 1)
    && (forall k: nat | Due(h, k, w.recoveryCycles) :: left == k + w.recoveryCycles - |h|)
    && (left > 0 ==> exists k: nat :: Due(h, k, w.recoveryCycles))
  }

  ghost predicate Exact(h: seq<Cycle>, w: Watchdog, stuck: nat, left: nat) {
    && w.timeoutCycles >= 1 && CountersExact(h, w, stuck, left)
    && forall i | 0 <= i < |h| :: ActsExactly(h, i, w)
  }

  lemma StuckGrows(h: seq<Cycle>, c: Cycle, n: nat)
    requires n > 0
    ensures StuckFor(h + [c], n) <==> c.stopped && !c.boosted && StuckFor(h, n - 1)
  {
    var h' := h + [c];
    assert h'[|h|] == c && forall j | 0 <= j < |h| :: h'[j] == h[j];
    if StuckFor(h', n) {
      forall j | |h| - (n - 1) <= j < |h|
        ensures h[j].stopped && !h[j].boosted
      {
        assert h'[j].stopped && !h'[j].boosted;
      }
    }
  }

  lemma StuckOnlyFor(h: seq<Cycle>, stuck: nat, n: nat)
    requires StuckFor(h, stuck) && !StuckFor(h, stuck + 1)
    ensures StuckFor(h, n) <==> n <= stuck
  {
    if n > stuck && StuckFor(h, n) {
      assert StuckFor(h, stuck + 1);
    }
  }

  lemma FollowsOn(h: seq<Cycle>, c: Cycle, k: nat, i: nat, recovery: nat)
    ensures i < |h| ==> (FollowsUp(h + [c], k, i, recovery) <==> FollowsUp(h, k, i, recovery))
    ensures k < |h| ==> (FollowsUp(h + [c], k, |h|, recovery) <==> c.stopped && Due(h, k, recovery))
    ensures FollowsUp(h + [c], |h|, |h|, recovery) <==> c.launched && c.stopped && recovery > 0
  {
    var h' := h + [c];
    assert h'[|h|] == c && forall j | 0 <= j < |h| :: h'[j] == h[j];
    if i < |h| && FollowsUp(h', k, i, recovery) {
      assert forall j | k <= j <= i :: h'[j] == h[j];
    }
    if k < |h| && FollowsUp(h', k, |h|, recovery) {
      assert forall j | k <= j <= |h| - 1 :: h'[j] == h[j];
    }
  }

  lemma ActedExactly(h: seq<Cycle>, c: Cycle, i: nat, w: Watchdog)
    requires i < |h| && w.timeoutCycles >= 1 && ActsExactly(h, i, w)
    ensures ActsExactly(h + [c], i, w)
  {
    hide FollowsUp, StuckFor, Due;
    forall k: nat
      ensures FollowsUp(h + [c], k, i, w.recoveryCycles) <==> FollowsUp(h, k, i, w.recoveryCycles)
    {
      FollowsOn(h, c, k, i, w.recoveryCycles);
    }
    assert (h + [c])[..i] == h[..i];
  }

  /** What the new cycle does, and what is due after it. */
  lemma WatchesOn(h: seq<Cycle>, w: Watchdog, stuck: nat, left: nat, stopped: bool)
    requires w.recoveryCycles >= 1 && w.timeoutCycles >= 1 && CountersExact(h, w, stuck, left)
    requires left > 0 ==> stuck == 0
    ensures var (c, stuck', left') := Watch(w, stuck, left, stopped);
            && ActsExactly(h + [c], |h|, w)
            && (forall k: nat | Due(h + [c], k, w.recoveryCycles) :: left' == k + w.recoveryCycles - (|h| + 1))
            && (left' > 0 ==> exists k: nat :: Due(h + [c], k, w.recoveryCycles))
  {
    var (c, stuck', left') := Watch(w, stuck, left, stopped);
    var h', n := h + [c], w.recoveryCycles;
    StuckOnlyFor(h, stuck, w.timeoutCycles - 1);
    forall k: nat
      ensures k < |h| ==> (FollowsUp(h', k, |h|, n) <==> c.stopped && Due(h, k, n))
      ensures FollowsUp(h', |h|, |h|, n) <==> c.launched && c.stopped && n > 0
      ensures Due(h', k, n) <==> k <= |h| && |h| + 1 < k + n && FollowsUp(h', k, |h|, n)
    {
      FollowsOn(h, c, k, |h|, n);
    }
    assert h'[..|h|] == h && h'[|h|] == c;
    DueIsWithin(h, n);
    hide FollowsUp, StuckFor, Due;
    if left > 0 {
      var k: nat :| Due(h, k, n);
      assert FollowsUp(h', k, |h|, n) <==> c.stopped;
      assert left' > 0 ==> Due(h', k, n);
    }
    if c.launched {
      assert FollowsUp(h', |h|, |h|, n);
      assert left' > 0 ==> Due(h', |h|, n);
    }
  }

  lemma DueIsWithin(h: seq<Cycle>, recovery: nat)
    ensures forall k: nat | Due(h, k, recovery) :: k < |h| < k + recovery
  {
  }

  /** Every cycle keeps the counters exact and acts as it should. */
  lemma WatchActs(h: seq<Cycle>, w: Watchdog, stuck: nat, left: nat, stopped: bool)
    requires w.recoveryCycles >= 1 && Exact(h, w, stuck, left) && (left > 0 ==> stuck == 0)
    ensures var (c, stuck', left') := Watch(w, stuck, left, stopped); Exact(h + [c], w, stuck', left')
  {
    hide ActsExactly, StuckFor, Due;
    var (c, stuck', left') := Watch(w, stuck, left, stopped);
    WatchesOn(h, w, stuck, left, stopped);
    NothingStuck(h + [c]);
    StuckGrows(h, c, 1);
    StuckGrows(h, c, stuck + 1);
    StuckGrows(h, c, stuck + 2);
    forall i | 0 <= i < |h|
      ensures ActsExactly(h + [c], i, w)
    {
      ActedExactly(h, c, i, w);
    }
  }

  lemma NothingStuck(h: seq<Cycle>)
    ensures StuckFor(h, 0)
  {
  }

  /** The command sent for an acceleration and a steering angle: throttle or brake, and steering, as
      fractions of their limits. */
  function ToCommand(delta: real, accel: real, l: Limits): (c: Command)
    requires l.steerMax != 0.0 && l.accelMin != 0.0 && l.accelMax != 0.0
    ensures 0.0 <= c.accel <= 1.0 && 0.0 <= c.brake <= 1.0 && -1.0 <= c.steer <= 1.0
    ensures c.accel == 0.0 || c.brake == 0.0
  {
    Command(if accel >= 0.0 then Clip(accel / l.accelMax, 0.0, 1.0) else 0.0,
            if accel >= 0.0 then 0.0 else Clip(-accel / Abs(l.accelMin), 0.0, 1.0),
            Clip(Clip(delta, -l.steerMax, l.steerMax) / l.steerMax, -1.0, 1.0))
  }

  /** A command delivers what was asked for, within the limits: read back as fractions of the limits, throttle less
      brake is the acceleration and the steering the angle, each held to its range. */
  lemma CommandDelivers(delta: real, accel: real, l: Limits)
    requires l.steerMax > 0.0 && l.accelMin < 0.0 < l.accelMax
    ensures var c := ToCommand(delta, accel, l);
            && c.accel * l.accelMax + c.brake * l.accelMin == Clip(accel, l.accelMin, l.accelMax)
            && c.steer * l.steerMax == Clip(delta, -l.steerMax, l.steerMax)
            && (accel >= 0.0 ==> c.brake == 0.0) && (accel <= 0.0 ==> c.accel == 0.0)
  {
    hide Clip;
    ShareDelivers(accel, l.accelMax);
    ShareDelivers(-accel, -l.accelMin);
    ClipInTwo(accel, l.accelMin, l.accelMax);
    SteerDelivers(Clip(delta, -l.steerMax, l.steerMax), l.steerMax) by {
      ClipWithin(delta, -l.steerMax, l.steerMax);
    }
  }

  lemma ShareDelivers(x: real, limit: real)
    requires limit > 0.0
    ensures Clip(x / limit, 0.0, 1.0) * limit == Clip(x, 0.0, limit) && (x <= 0.0 ==> Clip(x / limit, 0.0, 1.0) == 0.0)
  {
    var q := x / limit;
    assert q * limit == x;
    if q < 0.0 {
      MulMono(q, 0.0, limit);
    } else if q > 1.0 {
      MulMono(1.0, q, limit);
    } else {
      MulMono(0.0, q, limit);
      MulMono(q, 1.0, limit);
    }
  }

  lemma SteerDelivers(x: real, limit: real)
    requires limit > 0.0 && -limit <= x <= limit
    ensures Clip(x / limit, -1.0, 1.0) * limit == x
  {
    var q := x / limit;
    assert q * limit == x;
    if q < -1.0 {
      CancelAtMost(-1.0, q, limit, limit * -1.0, limit * q);
    } else if q > 1.0 {
      CancelAtMost(q, 1.0, limit, limit * q, limit * 1.0);
    }
  }

  lemma ClipWithin(x: real, lo: real, hi: real)
    requires lo <= hi
    ensures lo <= Clip(x, lo, hi) <= hi
  {
  }

  lemma ClipInTwo(x: real, lo: real, hi: real)
    requires lo < 0.0 < hi
    ensures Clip(x, lo, hi) == if x >= 0.0 then Clip(x, 0.0, hi) else -Clip(-x, 0.0, -lo)
  {
  }

  class Controller {
    const p: Params
    const w: Watchdog
    const t: Trig
    const hypot: (real, real) -> real

    var stuckCycles: nat
    var recoveryLeft: nat
    var warmStart: seq<Control>
    var lastControl: Control
    ghost var history: seq<Cycle>

    ghost predicate Valid()
      reads this
    {
      && p.Usable() && p.limits.steerMax != 0.0 && p.limits.accelMin != 0.0 && p.limits.accelMax != 0.0
      && w.timeoutCycles >= 1 && w.recoveryCycles >= 1
      && (Sane(p.limits) ==> -p.limits.steerMax <= lastControl.delta <= p.limits.steerMax)
      && Justified(history, w) && CountersRead(history, w, stuckCycles, recoveryLeft)
      && Exact(history, w, stuckCycles, recoveryLeft)
    }

    constructor (p: Params, w: Watchdog, t: Trig, hypot: (real, real) -> real)
      requires p.Usable() && p.limits.steerMax != 0.0 && p.limits.accelMin != 0.0 && p.limits.accelMax != 0.0
      requires w.timeoutCycles >= 1 && w.recoveryCycles >= 1
      ensures Valid() && history == [] && lastControl == Control(0.0, 0.0) && warmStart == []
    {
      this.p, this.w, this.t, this.hypot := p, w, t, hypot;
      stuckCycles, recoveryLeft, warmStart, lastControl, history := 0, 0, [], Control(0.0, 0.0), [];
    }

    /** The standstill test; a launch forgets the previous solution and control. */
    method ArmWatchdog(forwardIntent: bool, egoStopped: bool)
      modifies this
      ensures var (launched, stuck, left) := Arm(w, old(stuckCycles), old(recoveryLeft), forwardIntent && egoStopped);
              && stuckCycles == stuck && recoveryLeft == left && history == old(history)
              && warmStart == (if launched then [] else old(warmStart))
              && lastControl == if launched then Control(0.0, 0.0) else old(lastControl)
    {
      if !forwardIntent || !egoStopped {
        stuckCycles, recoveryLeft := 0, 0;
      } else if recoveryLeft == 0 {
        stuckCycles := stuckCycles + 1;
        if stuckCycles >= w.timeoutCycles {
          warmStart, lastControl := [], Control(0.0, 0.0);
          recoveryLeft, stuckCycles := w.recoveryCycles, 0;
        }
      }
    }

    /** Solves the problem at hand. A solution becomes the next warm start and previous control; anything
        else leaves them alone. */
    method Solve(ego: State, refs: seq<RefSample>) returns (u: Control, ghost r: Result)
      requires p.Usable() && (Sane(p.limits) ==> -p.limits.steerMax <= lastControl.delta <= p.limits.steerMax)
      modifies this`warmStart, this`lastControl
      ensures var q := Problem(t, ego, refs, old(lastControl), p);
              && (r.Solved? <==> refs != [] && p.horizon > 0)
              && (r.Solved? ==> SolvedFrom(q, old(warmStart), r))
      ensures warmStart == if r.Solved? then r.controls else old(warmStart)
      ensures lastControl == if r.Solved? then r.control else old(lastControl)
      ensures u == if r.BadHorizon? then Control(0.0, 0.0) else r.control
      ensures Sane(p.limits) ==> -p.limits.steerMax <= lastControl.delta <= p.limits.steerMax
    {
      hide SolvedFrom;
      var q := Problem(t, ego, refs, lastControl, p);
      var res := SolveMPC(q, warmStart);
      r, u := res, Control(0.0, 0.0);
      if res.Solved? {
        SteeringStaysInBox(q, warmStart, res);
        warmStart, lastControl, u := res.controls, res.control, res.control;
      } else if res.NoReference? {
        u := res.control;
      }
    }

    /** One control cycle on a received path. */
    method Step(path: PlannedPath)
      returns (cmd: Command, ghost problem: Problem, ghost warm: seq<Control>, ghost r: Result)
      requires Valid()
      modifies this
      ensures Valid()
      ensures var refs := Aligned(path, p.vehicle.dt, p.horizon);
              var (c, stuck, left) := Watch(w, old(stuckCycles), old(recoveryLeft),
                                            StoppedWithIntent(refs, path.ego.vx, w, hypot));
              && history == old(history) + [c] && stuckCycles == stuck && recoveryLeft == left
              // a launch restarts the solver from rest: no warm start, no previous control
              && problem == Problem(t, path.ego, refs, if c.launched then Control(0.0, 0.0) else old(lastControl), p)
              && warm == (if c.launched then [] else old(warmStart))
              // a solved problem supplies the next warm start and previous control, any other result keeps them
              && warmStart == (if r.Solved? then r.controls else warm)
              && lastControl.delta == (if r.Solved? then r.control.delta else problem.prev.delta)
              // a boost raises the acceleration sent, and remembers what was sent
              && (var u := if r.BadHorizon? then Control(0.0, 0.0) else r.control;
                  var accel := if c.boosted then Max(u.accel, w.launchAccel) else u.accel;
                  && cmd == ToCommand(u.delta, accel, p.limits)
                  && lastControl.accel == (if c.boosted then accel else if r.Solved? then u.accel
                                           else problem.prev.accel))
      ensures r.Solved? <==> problem.refs != [] && p.horizon > 0
      ensures r.Solved? ==> SolvedFrom(problem, warm, r)
    {
      hide Justified, Exact, SolvedFrom, ToCommand, Aligned;
      var refs := ToReferencePath(path, p.vehicle.dt, p.horizon);
      var top := MaxReferenceSpeed(refs);
      var forwardIntent := top > w.targetSpeed && Progress(refs, hypot) > w.minPathProgress;
      var egoStopped := Abs(path.ego.vx) < w.egoSpeed;
      WatchKeeps(history, w, stuckCycles, recoveryLeft, forwardIntent && egoStopped);
      WatchActs(history, w, stuckCycles, recoveryLeft, forwardIntent && egoStopped);
      ghost var c := Watch(w, stuckCycles, recoveryLeft, forwardIntent && egoStopped).0;
      ArmWatchdog(forwardIntent, egoStopped);
      problem, warm := Problem(t, path.ego, refs, lastControl, p), warmStart;
      var u, res := Solve(path.ego, refs);
      r := res;
      var accel := u.accel;
      if recoveryLeft > 0 && forwardIntent && egoStopped {
        accel := Max(accel, w.launchAccel);
        lastControl := lastControl.(accel := accel);
        recoveryLeft := recoveryLeft - 1;
      }
      history := history + [c];
      cmd := ToCommand(u.delta, accel, p.limits);
    }
  }

  lemma SteeringStaysInBox(q: Problem, warm: seq<Control>, r: Result)
    requires q.p.Usable() && q.p.horizon > 0 && SolvedFrom(q, warm, r)
    requires Sane(q.p.limits) ==> -q.p.limits.steerMax <= q.prev.delta <= q.p.limits.steerMax
    ensures r.Solved? && |r.controls| == q.p.horizon
    ensures Sane(q.p.limits) ==> -q.p.limits.steerMax <= r.control.delta <= q.p.limits.steerMax
  {
    SolvedGuarantees(q, warm, r);
    if Sane(q.p.limits) {
      assert FeasibleAt(r.controls, q.prev, q.p.limits, 0);
    }
  }
}
