/** Sweeping a timed sequence of poses past predicted obstacles: the sample check of FilterByCollision
    (frenet/collision_checker.cpp) and CartesianTrajectoryClear (frenet_planner.cpp). */
module TrajectoryCheck {
  import opened RealMath
  import opened Angles
  import opened Collision

  datatype Pose = Pose(x: real, y: real, yaw: real)

  datatype Obstacle = Obstacle(id: int, x: real, y: real, heading: real, speed: real, yawRate: real, length: real,
                               width: real)

  datatype Shape = Shape(length: real, width: real)

  datatype Margins = Margins(safety: real, growth: real)

  const STRAIGHT_YAW_RATE := 0.001

  /** The margin grows with the time looked ahead. */
  function MarginAt(m: Margins, time: real): real { m.safety + m.growth * time }

  function MakeEgoBox(p: Pose, shape: Shape, margin: real): OrientedBox {
    OrientedBox(Vec(p.x, p.y), p.yaw, shape.length / 2.0 + margin, shape.width / 2.0 + margin)
  }

  function HeadingAt(o: Obstacle, time: real): real { o.heading + o.yawRate * time }

  /** The signed radius of a turn. */
  function Radius(o: Obstacle): real
    requires o.yawRate != 0.0
  {
    o.speed / o.yawRate
  }

  /** What a turn of radius `r` covers along an axis while the sine or cosine of the heading goes from `start` to
      `end`. */
  function Chord(r: real, start: real, end: real): real { r * (end - start) }

  /** What is covered along an axis that has `share` of the heading. */
  function Drift(speed: real, share: real, time: real): real { speed * share * time }

  /** Where the obstacle is after `time` at constant speed and turn rate. */
  function PredictedCentre(t: Trig, o: Obstacle, time: real): Vec {
    if Abs(o.yawRate) > STRAIGHT_YAW_RATE then
      Vec(o.x + Chord(Radius(o), t.sin(o.heading), t.sin(HeadingAt(o, time))),
          o.y - Chord(Radius(o), t.cos(o.heading), t.cos(HeadingAt(o, time))))
    else
      Vec(o.x + Drift(o.speed, t.cos(o.heading), time), o.y + Drift(o.speed, t.sin(o.heading), time))
  }

  function MakeObstacleBox(t: Trig, o: Obstacle, time: real, margin: real): OrientedBox {
    OrientedBox(PredictedCentre(t, o, time), HeadingAt(o, time), o.length / 2.0 + margin, o.width / 2.0 + margin)
  }

  /** Pose `p` at `time` overlaps obstacle `o`; the ego box carries the margin, and so does the obstacle
      box when `inflated`. */
  predicate Hits(t: Trig, p: Pose, time: real, o: Obstacle, shape: Shape, m: Margins, inflated: bool) {
    var margin := MarginAt(m, time);
    CheckOBBOverlap(t, MakeEgoBox(p, shape, margin), MakeObstacleBox(t, o, time, if inflated then margin else 0.0))
  }

  /** The first obstacle of the list that the pose hits. */
  ghost predicate FirstHit(t: Trig, p: Pose, time: real, os: seq<Obstacle>, shape: Shape, m: Margins, inflated: bool,
                           j: int) {
    && 0 <= j <= |os|
    && (forall k | 0 <= k < j :: !Hits(t, p, time, os[k], shape, m, inflated))
    && (j < |os| ==> Hits(t, p, time, os[j], shape, m, inflated))
  }

  method FindHit(t: Trig, p: Pose, time: real, os: seq<Obstacle>, shape: Shape, m: Margins, inflated: bool)
    returns (j: int)
    ensures FirstHit(t, p, time, os, shape, m, inflated, j)
  {
    hide CheckOBBOverlap, MakeEgoBox, MakeObstacleBox, Hits;
    j := 0;
    while j < |os|
      invariant 0 <= j <= |os|
      invariant forall k | 0 <= k < j :: !Hits(t, p, time, os[k], shape, m, inflated)
    {
      if Hits(t, p, time, os[j], shape, m, inflated) {
        return;
      }
      j := j + 1;
    }
  }

  /** No pose, taken at its sample time, hits any obstacle. */
  ghost predicate Clear(t: Trig, path: seq<Pose>, times: seq<real>, os: seq<Obstacle>, shape: Shape, m: Margins,
                        inflated: bool)
    requires |times| == |path|
  {
    forall i, k | 0 <= i < |path| && 0 <= k < |os| :: !Hits(t, path[i], times[i], os[k], shape, m, inflated)
  }

  function SampleTime(i: nat, dt: real): real { i as real * dt }

  function SampleTimes(n: nat, dt: real): (r: seq<real>)
    ensures |r| == n
  {
    seq(n, i requires 0 <= i < n => SampleTime(i, dt))
  }

  /** The emergency and commit check: both boxes carry the margin. When it fails, the obstacle reported is
      the first one hit by the first pose that hits any. */
  method CartesianTrajectoryClear(t: Trig, path: seq<Pose>, os: seq<Obstacle>, shape: Shape, m: Margins, dt: real)
    returns (clear: bool, blockingId: int)
    ensures clear <==> Clear(t, path, SampleTimes(|path|, dt), os, shape, m, true)
    ensures clear ==> blockingId == -1
    ensures !clear ==> exists i, j :: && 0 <= i < |path| && 0 <= j < |os| && blockingId == os[j].id
                                      && Clear(t, path[..i], SampleTimes(|path|, dt)[..i], os, shape, m, true)
                                      && FirstHit(t, path[i], SampleTimes(|path|, dt)[i], os, shape, m, true, j)
  {
    hide Hits, SampleTime;
    ghost var times := SampleTimes(|path|, dt);
    for i := 0 to |path|
      invariant Clear(t, path[..i], times[..i], os, shape, m, true)
    {
      var j := FindHit(t, path[i], SampleTime(i, dt), os, shape, m, true);
      if j < |os| {
        assert FirstHit(t, path[i], times[i], os, shape, m, true, j);
        return false, os[j].id;
      }
      assert path[..i + 1] == path[..i] + [path[i]] && times[..i + 1] == times[..i] + [times[i]];
    }
    assert path[..|path|] == path && times[..|path|] == times;
    return true, -1;
  }

  /** The check of a candidate's own samples: only the ego box carries the margin. Reports the first
      sample and obstacle that collide. */
  method CandidateSampleCheck(t: Trig, path: seq<Pose>, times: seq<real>, os: seq<Obstacle>, shape: Shape, m: Margins)
    returns (collided: bool, sample: int, objectId: int)
    requires |times| == |path|
    ensures !collided <==> Clear(t, path, times, os, shape, m, false)
    ensures collided ==> && 0 <= sample < |path| && Clear(t, path[..sample], times[..sample], os, shape, m, false)
                         && exists j :: && FirstHit(t, path[sample], times[sample], os, shape, m, false, j)
                                        && 0 <= j < |os| && objectId == os[j].id
  {
    hide Hits;
    for i := 0 to |path|
      invariant Clear(t, path[..i], times[..i], os, shape, m, false)
    {
      var j := FindHit(t, path[i], times[i], os, shape, m, false);
      if j < |os| {
        return true, i, os[j].id;
      }
      assert path[..i + 1] == path[..i] + [path[i]] && times[..i + 1] == times[..i] + [times[i]];
    }
    assert path[..|path|] == path && times[..|path|] == times;
    return false, -1, -1;
  }

  // ---------------------------------------------------------------- margins

  lemma RadiusGrows(t: Trig, box: OrientedBox, wider: OrientedBox, axis: Vec)
    requires wider.heading == box.heading && box.halfLength <= wider.halfLength && box.halfWidth <= wider.halfWidth
    ensures ProjectedRadius(t, box, axis) <= ProjectedRadius(t, wider, axis)
  {
    hide Dot;
    MulMono(box.halfLength, wider.halfLength, Abs(Dot(Along(t, box), axis)));
    MulMono(box.halfWidth, wider.halfWidth, Abs(Dot(Left(Along(t, box)), axis)));
  }

  lemma SeparationShrinks(t: Trig, a: OrientedBox, b: OrientedBox, wider: OrientedBox, axis: Vec)
    requires wider.centre == b.centre && wider.heading == b.heading
    requires b.halfLength <= wider.halfLength && b.halfWidth <= wider.halfWidth
    requires SeparatedAlongAxis(t, a, wider, axis)
    ensures SeparatedAlongAxis(t, a, b, axis)
  {
    RadiusGrows(t, b, wider, axis);
    hide ProjectedRadius, Dot;
  }

  lemma OverlapGrows(t: Trig, a: OrientedBox, b: OrientedBox, wider: OrientedBox)
    requires wider.centre == b.centre && wider.heading == b.heading
    requires b.halfLength <= wider.halfLength && b.halfWidth <= wider.halfWidth
    requires CheckOBBOverlap(t, a, b)
    ensures CheckOBBOverlap(t, a, wider)
  {
    forall axis | SeparatedAlongAxis(t, a, wider, axis)
      ensures SeparatedAlongAxis(t, a, b, axis)
    {
      SeparationShrinks(t, a, b, wider, axis);
    }
    hide SeparatedAlongAxis;
  }

  /** A trajectory that the stricter check lets through cannot be rejected by the sample check. */
  lemma ClearPassesSampleCheck(t: Trig, path: seq<Pose>, times: seq<real>, os: seq<Obstacle>, shape: Shape, m: Margins)
    requires |times| == |path| && m.safety >= 0.0 && m.growth >= 0.0 && forall i | 0 <= i < |times| :: times[i] >= 0.0
    requires Clear(t, path, times, os, shape, m, true)
    ensures Clear(t, path, times, os, shape, m, false)
  {
    forall i, k | 0 <= i < |path| && 0 <= k < |os|
      ensures !Hits(t, path[i], times[i], os[k], shape, m, false)
    {
      HitsInflated(t, path[i], times[i], os[k], shape, m);
      assert !Hits(t, path[i], times[i], os[k], shape, m, true);
    }
  }

  lemma HitsInflated(t: Trig, p: Pose, time: real, o: Obstacle, shape: Shape, m: Margins)
    requires m.safety >= 0.0 && m.growth >= 0.0 && time >= 0.0
    ensures Hits(t, p, time, o, shape, m, false) ==> Hits(t, p, time, o, shape, m, true)
  {
    var margin := MarginAt(m, time);
    assert m.growth * time >= 0.0;
    if Hits(t, p, time, o, shape, m, false) {
      OverlapGrows(t, MakeEgoBox(p, shape, margin), MakeObstacleBox(t, o, time, 0.0),
                   MakeObstacleBox(t, o, time, margin));
    }
  }

  /** On a clear trajectory the inflated rectangles of ego and obstacle have no point in common. */
  lemma ClearMeansApart(t: Trig, path: seq<Pose>, times: seq<real>, os: seq<Obstacle>, shape: Shape, m: Margins, i: nat,
                        k: nat, point: Vec)
    requires |times| == |path| && Clear(t, path, times, os, shape, m, true) && i < |path| && k < |os|
    requires UnitCircle(t) && shape.length >= 0.0 && shape.width >= 0.0 && os[k].length >= 0.0 && os[k].width >= 0.0
    requires MarginAt(m, times[i]) >= 0.0
    ensures !(Covers(t, MakeEgoBox(path[i], shape, MarginAt(m, times[i])), point)
              && Covers(t, MakeObstacleBox(t, os[k], times[i], MarginAt(m, times[i])), point))
  {
    assert !Hits(t, path[i], times[i], os[k], shape, m, true);
    OverlapIffShared(t, MakeEgoBox(path[i], shape, MarginAt(m, times[i])),
                     MakeObstacleBox(t, os[k], times[i], MarginAt(m, times[i])));
    hide CheckOBBOverlap, Covers;
  }
}
