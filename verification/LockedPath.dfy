/** The trajectory a merge commits to: its extension through the conflict zone, its replay by spatial
    progress, and the choice among candidates (frenet_planner.cpp, frenet/cost.cpp). */
module LockedPath {
  import opened RealMath
  import RefLine
  import opened Collision
  import opened TrajectoryCheck

  datatype PathPoint = PathPoint(x: real, y: real, yaw: real, kappa: real, v: real, a: real)

  function PoseOf(p: PathPoint): Pose { Pose(p.x, p.y, p.yaw) }

  function Poses(path: seq<PathPoint>): (r: seq<Pose>)
    ensures |r| == |path|
  {
    seq(|path|, i requires 0 <= i < |path| => PoseOf(path[i]))
  }

  // ---------------------------------------------------------------- extension through the conflict zone

  const MIN_EXTENSION_SPEED := 0.5
  const EXTENSION_SLACK := 0.000001

  /** The number of points from `start` to `stop` at distance `step`. */
  function PointCount(start: real, stop: real, step: real): nat
    requires step > 0.0
  {
    if stop < start then 0
    else
      assert (stop - start) / step >= 0.0;
      ((stop - start) / step).Floor + 1
  }

  function At(start: real, step: real, i: nat): real { start + i as real * step }

  function ExtensionPoint(ref: real -> RefLine.RefPoint, s: real, speed: real): PathPoint {
    PathPoint(ref(s).x, ref(s).y, ref(s).theta, ref(s).kappa, speed, 0.0)
  }

  /** The points appended to a candidate that ends at `pathEnd`. */
  function Extension(ref: real -> RefLine.RefPoint, conflict: real, completion: real, pathEnd: real, targetSpeed: real,
                     dt: real): seq<PathPoint>
    requires dt > 0.0
  {
    var speed := Max(targetSpeed, MIN_EXTENSION_SPEED);
    var step := StepLength(targetSpeed, dt);
    var start := Max(conflict, pathEnd) + step;
    seq(PointCount(start, conflict + completion + EXTENSION_SLACK, step),
        i requires 0 <= i => ExtensionPoint(ref, At(start, step, i), speed))
  }

  function StepLength(targetSpeed: real, dt: real): (step: real)
    requires dt > 0.0
    ensures step > 0.0
  {
    var speed := Max(targetSpeed, MIN_EXTENSION_SPEED);
    assert speed * dt > 0.0;
    speed * dt
  }

  function Extended(path: seq<PathPoint>, ref: real -> RefLine.RefPoint, conflict: real, completion: real,
                    pathEnd: real,
                    targetSpeed: real, dt: real): (r: seq<PathPoint>)
    requires dt > 0.0
    ensures path <= r
  {
    if path == [] then [] else path + Extension(ref, conflict, completion, pathEnd, targetSpeed, dt)
  }

  lemma CountCovers(start: real, stop: real, step: real, i: nat)
    requires step > 0.0
    ensures At(start, step, i) <= stop <==> i < PointCount(start, stop, step)
  {
    var room := stop - start;
    if room >= 0.0 {
      var q := room / step;
      assert q * step == room;
      if At(start, step, i) <= stop {
        assert i as real * step <= q * step;
        LessByFactor(i as real, q, step);
      } else {
        assert q * step < i as real * step;
        if i as real <= q {
          MulMono(i as real, q, step);
        }
      }
    } else {
      MulMono(0.0, i as real, step);
    }
  }

  lemma LessByFactor(x: real, y: real, c: real)
    requires c > 0.0 && x * c <= y * c
    ensures x <= y
  {
  }

  method ExtendMergePathThroughConflict(path: seq<PathPoint>, ref: real -> RefLine.RefPoint, conflict: real,
                                        completion: real,
                                        pathEnd: real, targetSpeed: real, dt: real) returns (r: seq<PathPoint>)
    requires dt > 0.0
    ensures r == Extended(path, ref, conflict, completion, pathEnd, targetSpeed, dt)
  {
    r := path;
    if path == [] {
      return;
    }
    var speed := Max(targetSpeed, MIN_EXTENSION_SPEED);
    var step := StepLength(targetSpeed, dt);
    var start, stop := Max(conflict, pathEnd) + step, conflict + completion + EXTENSION_SLACK;
    ghost var all := Extension(ref, conflict, completion, pathEnd, targetSpeed, dt);
    var i, s := 0, start;
    AtStart(start, step);
    CountCovers(start, stop, step, 0);
    hide At, PointCount, StepLength;
    while s <= stop
      invariant s == At(start, step, i) && i <= |all| && (s <= stop <==> i < |all|)
      invariant r == path + all[..i]
      decreases |all| - i
    {
      r := r + [ExtensionPoint(ref, s, speed)];
      AtNext(start, step, i);
      CountCovers(start, stop, step, i + 1);
      i, s := i + 1, s + step;
    }
  }

  lemma AtStart(start: real, step: real)
    ensures At(start, step, 0) == start
  {
  }

  lemma AtNext(start: real, step: real, i: nat)
    ensures At(start, step, i + 1) == At(start, step, i) + step
  {
  }

  /** The arc length of the `i`-th appended point: one step after another, beyond the conflict and the candidate. */
  function AppendedAt(conflict: real, pathEnd: real, targetSpeed: real, dt: real, i: nat): real {
    (if pathEnd < conflict then conflict else pathEnd)
    + (i + 1) as real * ((if targetSpeed < 0.5 then 0.5 else targetSpeed) * dt)
  }

  /** There is an `i`-th appended point exactly when its arc length is not past the completion of the zone, and it is
      the reference point there, passed at the speed of the steps. */
  lemma ExtensionExactly(ref: real -> RefLine.RefPoint, conflict: real, completion: real, pathEnd: real,
                         targetSpeed: real, dt: real, i: nat)
    requires dt > 0.0
    ensures var points := Extension(ref, conflict, completion, pathEnd, targetSpeed, dt);
            var s := AppendedAt(conflict, pathEnd, targetSpeed, dt, i);
            && (i < |points| <==> s <= conflict + completion + EXTENSION_SLACK)
            && (i < |points| ==>
                  && points[i].x == ref(s).x && points[i].y == ref(s).y && points[i].yaw == ref(s).theta
                  && points[i].kappa == ref(s).kappa && points[i].a == 0.0
                  && points[i].v == if targetSpeed < 0.5 then 0.5 else targetSpeed)
  {
    var step, start := StepLength(targetSpeed, dt), Max(conflict, pathEnd) + StepLength(targetSpeed, dt);
    CountCovers(start, conflict + completion + EXTENSION_SLACK, step, i);
    assert At(start, step, i) == AppendedAt(conflict, pathEnd, targetSpeed, dt, i) by {
      var v := Max(targetSpeed, MIN_EXTENSION_SPEED);
      assert step == v * dt;
      StepsOn(Max(conflict, pathEnd), step, i);
    }
    hide At, AppendedAt, StepLength, PointCount;
  }

  lemma StepsOn(from: real, step: real, i: nat)
    ensures At(from + step, step, i) == from + (i + 1) as real * step
  {
  }

  /** The extension takes up where the candidate ends, so that every sample is a sample time after the one before at its
      speed, exactly when the candidate does not end before the conflict; a candidate that does leaves a gap. */
  lemma ExtensionJoins(conflict: real, pathEnd: real, targetSpeed: real, dt: real)
    requires dt > 0.0
    ensures var speed := if targetSpeed < 0.5 then 0.5 else targetSpeed;
            && (AppendedAt(conflict, pathEnd, targetSpeed, dt, 0) - pathEnd == speed * dt <==> pathEnd >= conflict)
            && (pathEnd < conflict ==> AppendedAt(conflict, pathEnd, targetSpeed, dt, 0) > conflict)
            && forall i: nat ::
                 AppendedAt(conflict, pathEnd, targetSpeed, dt, i + 1)
                 == AppendedAt(conflict, pathEnd, targetSpeed, dt, i) + speed * dt
  {
    var speed := if targetSpeed < 0.5 then 0.5 else targetSpeed;
    var step := speed * dt;
    assert step > 0.0;
    forall i: nat
      ensures AppendedAt(conflict, pathEnd, targetSpeed, dt, i + 1)
           == AppendedAt(conflict, pathEnd, targetSpeed, dt, i) + step
    {
      assert (i + 2) as real * step == (i + 1) as real * step + step;
    }
  }

  // ---------------------------------------------------------------- replay by spatial progress

  function SquaredDistance(p: PathPoint, ego: Vec): real {
    (p.x - ego.x) * (p.x - ego.x) + (p.y - ego.y) * (p.y - ego.y)
  }

  /** The first nearest point among those from `begin` up to, not including, `end`. */
  function Nearest(path: seq<PathPoint>, ego: Vec, begin: nat, end: nat): (i: nat)
    requires begin < end <= |path|
    ensures begin <= i < end
    decreases end
  {
    if end == begin + 1 then begin
    else
      var i := Nearest(path, ego, begin, end - 1);
      if SquaredDistance(path[end - 1], ego) < SquaredDistance(path[i], ego) then end - 1 else i
  }

  lemma {:induction false} NearestIsNearest(path: seq<PathPoint>, ego: Vec, begin: nat, end: nat)
    requires begin < end <= |path|
    ensures forall j | begin <= j < end ::
            SquaredDistance(path[Nearest(path, ego, begin, end)], ego) <= SquaredDistance(path[j], ego)
    ensures forall j | begin <= j < Nearest(path, ego, begin, end) ::
              SquaredDistance(path[Nearest(path, ego, begin, end)], ego) < SquaredDistance(path[j], ego)
    decreases end
  {
    hide SquaredDistance;
    if end > begin + 1 {
      NearestIsNearest(path, ego, begin, end - 1);
    }
  }

  /** Where the replay continues: the nearest point not behind the last one. */
  function Progressed(path: seq<PathPoint>, ego: Vec, progress: nat): (i: nat)
    requires path != []
    ensures progress < |path| ==> progress <= i
    ensures i < |path|
  {
    Nearest(path, ego, if progress < |path| - 1 then progress else |path| - 1, |path|)
  }

  /** From the vehicle to a point of the path. */
  function To(p: PathPoint, ego: Vec): Vec { Minus(Vec(p.x, p.y), ego) }

  /** The replay goes on at a point no farther from the vehicle than any other that is not behind the last one, and
      nearer than all of these that come before it. */
  lemma ReplayIsNearest(path: seq<PathPoint>, ego: Vec, progress: nat, j: nat)
    requires progress <= j < |path|
    ensures var i := Progressed(path, ego, progress);
            && progress <= i
            && Dot(To(path[i], ego), To(path[i], ego)) <= Dot(To(path[j], ego), To(path[j], ego))
            && (j < i ==> Dot(To(path[i], ego), To(path[i], ego)) < Dot(To(path[j], ego), To(path[j], ego)))
  {
    NearestIsNearest(path, ego, progress, |path|);
    assert forall k | 0 <= k < |path| :: SquaredDistance(path[k], ego) == Dot(To(path[k], ego), To(path[k], ego));
    hide SquaredDistance, Dot, To;
  }

  method RemainingPath(path: seq<PathPoint>, ego: Vec, progress: nat) returns (rest: seq<PathPoint>, first: nat)
    ensures path == [] ==> rest == [] && first == progress
    ensures path != [] ==> first == Progressed(path, ego, progress) && rest == path[first..]
  {
    hide SquaredDistance;
    if path == [] {
      return [], progress;
    }
    var begin := if progress < |path| - 1 then progress else |path| - 1;
    first := begin;
    for i := begin + 1 to |path|
      invariant first == Nearest(path, ego, begin, i)
    {
      if SquaredDistance(path[i], ego) < SquaredDistance(path[first], ego) {
        first := i;
      }
    }
    rest := path[first..];
  }

  // ---------------------------------------------------------------- candidates

  /** A generated candidate: whether it survived the filters, its cost, its Cartesian samples, and the arc
      length of its last sample. */
  datatype Candidate = Candidate(valid: bool, cost: real, path: seq<PathPoint>, endS: real)

  /** The first cheapest valid candidate among the first `n`, or -1. */
  function BestOf(cs: seq<Candidate>, n: nat): (i: int)
    requires n <= |cs|
    ensures -1 <= i < n
  {
    if n == 0 then -1
    else
      var i := BestOf(cs, n - 1);
      if cs[n - 1].valid && (i < 0 || cs[n - 1].cost < cs[i].cost) then n - 1 else i
  }

  lemma {:induction false} BestIsCheapest(cs: seq<Candidate>, n: nat)
    requires n <= |cs|
    ensures var i := BestOf(cs, n);
            && (i < 0 <==> forall j | 0 <= j < n :: !cs[j].valid)
            && (i >= 0 ==> cs[i].valid && (forall j | 0 <= j < n && cs[j].valid :: cs[i].cost <= cs[j].cost)
                           && (forall j | 0 <= j < i && cs[j].valid :: cs[i].cost < cs[j].cost))
  {
    if n > 0 {
      BestIsCheapest(cs, n - 1);
    }
  }

  method SelectBestPath(cs: seq<Candidate>) returns (best: int)
    ensures best == BestOf(cs, |cs|)
  {
    best := -1;
    for i := 0 to |cs|
      invariant best == BestOf(cs, i)
    {
      if !cs[i].valid {
        continue;
      }
      if best < 0 || cs[i].cost < cs[best].cost {
        best := i;
      }
    }
  }
}
