/** Where a predicted obstacle goes: straight on, or round a circle (frenet/collision_checker.cpp). */
module Prediction {
  import opened RealMath
  import opened Angles
  import opened Collision
  import opened TrajectoryCheck

  /** The obstacle does not turn, as far as the prediction is concerned. */
  predicate Straight(o: Obstacle) { Abs(o.yawRate) <= STRAIGHT_YAW_RATE }

  function Start(o: Obstacle): Vec { Vec(o.x, o.y) }

  function Direction(t: Trig, o: Obstacle): Vec { Vec(t.cos(o.heading), t.sin(o.heading)) }

  /** The same obstacle after `time`: moved to where it is predicted, and turned. */
  function Advanced(t: Trig, o: Obstacle, time: real): Obstacle {
    var p := PredictedCentre(t, o, time);
    o.(x := p.x, y := p.y, heading := HeadingAt(o, time))
  }

  lemma StartsWhereItIs(t: Trig, o: Obstacle)
    ensures PredictedCentre(t, o, 0.0) == Start(o)
  {
    assert o.yawRate * 0.0 == 0.0 && o.heading + 0.0 == o.heading;
  }

  /** Without a turn rate the obstacle goes its speed times the time along its heading, and not sideways. */
  lemma GoesStraight(t: Trig, o: Obstacle, time: real)
    requires UnitCircle(t) && Straight(o)
    ensures var gone := Minus(PredictedCentre(t, o, time), Start(o));
            Dot(gone, Direction(t, o)) == o.speed * time && Dot(gone, Left(Direction(t, o))) == 0.0
  {
    var c, s := t.cos(o.heading), t.sin(o.heading);
    assert Unit(Vec(c, s));
    AlongTheHeading(c, s, o.speed, time, Minus(PredictedCentre(t, o, time), Start(o)));
  }

  lemma AlongTheHeading(c: real, s: real, speed: real, time: real, gone: Vec)
    requires c * c + s * s == 1.0 && gone.x == Drift(speed, c, time) && gone.y == Drift(speed, s, time)
    ensures Dot(gone, Vec(c, s)) == speed * time && Dot(gone, Left(Vec(c, s))) == 0.0
  {
    assert gone.x * c + gone.y * s == speed * time * (c * c + s * s);
  }

  /** The centre of the turn: the signed radius to the left of the obstacle. */
  function TurnCentre(t: Trig, o: Obstacle): Vec
    requires o.yawRate != 0.0
  {
    Vec(o.x + Radius(o) * Left(Direction(t, o)).x, o.y + Radius(o) * Left(Direction(t, o)).y)
  }

  /** With a turn rate the obstacle stays on the circle about that centre, and sees it on its left throughout: the
      centre of the turn is the same from wherever on the way it is taken. */
  lemma TurnsAboutCentre(t: Trig, o: Obstacle, time: real)
    requires UnitCircle(t) && !Straight(o)
    ensures TurnCentre(t, Advanced(t, o, time)) == TurnCentre(t, o)
    ensures var arm := Minus(PredictedCentre(t, o, time), TurnCentre(t, o));
            Dot(arm, arm) == Radius(o) * Radius(o)
            && Dot(arm, Direction(t, Advanced(t, o, time))) == 0.0
  {
    hide Radius, HeadingAt, Dot;
    var r, heading := Radius(o), HeadingAt(o, time);
    var c, s := t.cos(heading), t.sin(heading);
    assert Unit(Vec(c, s));
    var arm := Minus(PredictedCentre(t, o, time), TurnCentre(t, o));
    ChordFrom(r, t.sin(o.heading), s);
    ChordFrom(r, t.cos(o.heading), c);
    SameRadius(t, o, time);
    NegatedEnd(r, s);
    OnTheCircle(r, c, s, arm);
  }

  lemma ChordFrom(r: real, start: real, end: real)
    ensures Chord(r, start, end) == r * end - r * start && r * -start == -(r * start)
  {
  }

  lemma NegatedEnd(r: real, x: real)
    ensures r * -x == -(r * x)
  {
  }

  lemma OnTheCircle(r: real, c: real, s: real, arm: Vec)
    requires c * c + s * s == 1.0 && arm.x == r * s && arm.y == -(r * c)
    ensures Dot(arm, arm) == r * r && Dot(arm, Vec(c, s)) == 0.0
  {
    assert (r * s) * (r * s) + (r * c) * (r * c) == r * r * (c * c + s * s);
  }

  /** After turning by `angle` on radius `r`, what is covered along an axis that has `share` of the start heading. */
  predicate NearTangent(gone: real, r: real, share: real, angle: real) {
    Abs(gone - r * (share * angle)) <= Abs(r) * (angle * angle)
  }

  /** It sets out along its heading: what it covers along either axis differs from going straight by a term of second
      order in the angle turned. */
  lemma SetsOutAlongHeading(t: Trig, o: Obstacle, time: real)
    requires UnitCircle(t) && AdditionLaws(t) && SmallAngles(t) && !Straight(o)
    ensures var p, angle := PredictedCentre(t, o, time), o.yawRate * time;
            && NearTangent(p.x - o.x, Radius(o), t.cos(o.heading), angle)
            && NearTangent(p.y - o.y, Radius(o), t.sin(o.heading), angle)
            && Radius(o) * angle == o.speed * time
  {
    hide UnitCircle, AdditionLaws, SmallAngles, Radius, Chord, NearTangent;
    var angle := o.yawRate * time;
    ArcsAreTangent(t, o.heading, angle, Radius(o), HeadingAt(o, time));
    RadiusTimesAngle(o, time);
  }

  lemma ArcsAreTangent(t: Trig, heading: real, h: real, r: real, end: real)
    requires UnitCircle(t) && AdditionLaws(t) && SmallAngles(t) && end == heading + h
    ensures NearTangent(Chord(r, t.sin(heading), t.sin(end)), r, t.cos(heading), h)
    ensures NearTangent(-Chord(r, t.cos(heading), t.cos(end)), r, t.sin(heading), h)
  {
    hide UnitCircle, AdditionLaws, SmallAngles, Chord, NearTangent, Abs;
    WithinOne(t, heading);
    AddsAt(t, heading, h);
    SmallAt(t, h);
    var c, s := t.cos(heading), t.sin(heading);
    ChordIsTangent(r, s, -c, t.sin(h), t.cos(h), h, t.sin(end));
    ChordIsTangent(r, c, s, t.sin(h), t.cos(h), h, t.cos(end));
    ChordBack(r, c, t.cos(end), s, h);
  }

  /** The way along an axis whose part of the start heading is `-c`; the part to its right is `s`. */
  lemma ChordIsTangent(r: real, s: real, c: real, sh: real, ch: real, h: real, end: real)
    requires Abs(s) <= 1.0 && Abs(c) <= 1.0 && end == s * ch - c * sh
    requires Abs(sh - h) <= 0.5 * (h * h) && Abs(ch - 1.0) <= 0.5 * (h * h)
    ensures NearTangent(Chord(r, s, end), r, -c, h)
  {
    hide Abs;
    var error := s * (ch - 1.0) - c * (sh - h);
    BendIsSmall(s, c, ch - 1.0, sh - h, 0.5 * (h * h), error);
    assert end - s == error + -c * h;
    assert Chord(r, s, end) - r * (-c * h) == r * error;
    ErrorScaled(r, error, h * h, Chord(r, s, end) - r * (-c * h));
  }

  lemma ChordBack(r: real, c: real, end: real, s: real, h: real)
    requires NearTangent(Chord(r, c, end), r, -s, h)
    ensures NearTangent(-Chord(r, c, end), r, s, h)
  {
    assert r * (-s * h) == -(r * (s * h));
  }

  lemma RadiusTimesAngle(o: Obstacle, time: real)
    requires o.yawRate != 0.0
    ensures Radius(o) * (o.yawRate * time) == o.speed * time
  {
    assert Radius(o) * o.yawRate == o.speed;
  }

  /** The predictions compose: to predict over `t1 + t2` is to predict over `t2` from where the obstacle is after
      `t1`. A turning obstacle turns on as it goes; the heading of one that goes straight is kept for this. */
  lemma PredictionsCompose(t: Trig, o: Obstacle, t1: real, t2: real)
    ensures !Straight(o) ==> PredictedCentre(t, Advanced(t, o, t1), t2) == PredictedCentre(t, o, t1 + t2)
    ensures Straight(o) ==>
              PredictedCentre(t, Advanced(t, o, t1).(heading := o.heading), t2) == PredictedCentre(t, o, t1 + t2)
  {
    hide Radius, Chord, Drift, HeadingAt;
    if Straight(o) {
      StraightComposes(t.cos(o.heading), o.speed, t1, t2);
      StraightComposes(t.sin(o.heading), o.speed, t1, t2);
    } else {
      HeadingComposes(t, o, t1, t2);
      TurnsOn(t, o, t1);
      var h0, h1, h2 := o.heading, HeadingAt(o, t1), HeadingAt(o, t1 + t2);
      ChordsJoin(Radius(o), t.sin(h0), t.sin(h1), t.sin(h2));
      ChordsJoin(Radius(o), t.cos(h0), t.cos(h1), t.cos(h2));
      SameRadius(t, o, t1);
    }
  }

  lemma TurnsOn(t: Trig, o: Obstacle, time: real)
    ensures Advanced(t, o, time).heading == HeadingAt(o, time)
    ensures Straight(Advanced(t, o, time)) <==> Straight(o)
  {
  }

  lemma SameRadius(t: Trig, o: Obstacle, time: real)
    requires o.yawRate != 0.0
    ensures Radius(Advanced(t, o, time)) == Radius(o)
  {
  }

  lemma StraightComposes(share: real, speed: real, t1: real, t2: real)
    ensures Drift(speed, share, t1) + Drift(speed, share, t2) == Drift(speed, share, t1 + t2)
  {
  }

  lemma HeadingComposes(t: Trig, o: Obstacle, t1: real, t2: real)
    ensures HeadingAt(Advanced(t, o, t1), t2) == HeadingAt(o, t1 + t2)
  {
  }

  lemma ChordsJoin(r: real, start: real, middle: real, end: real)
    ensures Chord(r, start, middle) + Chord(r, middle, end) == Chord(r, start, end)
  {
  }

  // ---------------------------------------------------------------- how far apart

  /** The bare rectangles of the vehicle at a pose, and of an obstacle `time` after now. */
  function EgoRectangle(p: Pose, shape: Shape): OrientedBox {
    OrientedBox(Vec(p.x, p.y), p.yaw, shape.length / 2.0, shape.width / 2.0)
  }

  function ObstacleRectangle(t: Trig, o: Obstacle, time: real): OrientedBox {
    OrientedBox(PredictedCentre(t, o, time), o.heading + o.yawRate * time, o.length / 2.0, o.width / 2.0)
  }

  function Middle(p: Vec, q: Vec): Vec { Vec((p.x + q.x) / 2.0, (p.y + q.y) / 2.0) }

  /** Along any direction two points are no farther apart than they are. */
  lemma ShareAtMost(d: Vec, u: Vec, r: real)
    requires Unit(u) && r >= 0.0 && Dot(d, d) <= r * r
    ensures Abs(Dot(d, u)) <= r
  {
    InAxes(d, u, d);
    DotSwaps(u, d);
    DotSwaps(Left(u), d);
    hide Dot, Left;
    SquaresAtMost(Dot(d, u), Dot(d, Left(u)), r, Dot(d, d));
  }

  lemma DotSwaps(u: Vec, v: Vec)
    ensures Dot(u, v) == Dot(v, u)
  {
  }

  lemma SquaresAtMost(x: real, y: real, r: real, sum: real)
    requires r >= 0.0 && sum == x * x + y * y <= r * r
    ensures Abs(x) <= r
  {
    assert y * y >= 0.0;
    if Abs(x) > r {
      SquareIncreases(r, Abs(x));
    }
  }

  /** A box widened by `margin` on all sides covers the middle between a point of it and a point no farther than twice
      the margin away. */
  lemma WidenedCovers(t: Trig, box: OrientedBox, p: Vec, q: Vec, margin: real)
    requires Unit(Along(t, box)) && Covers(t, box, p) && margin >= 0.0
    requires Dot(Minus(q, p), Minus(q, p)) <= (2.0 * margin) * (2.0 * margin)
    ensures Covers(t, box.(halfLength := box.halfLength + margin, halfWidth := box.halfWidth + margin), Middle(p, q))
    ensures Covers(t, box.(halfLength := box.halfLength + margin, halfWidth := box.halfWidth + margin), Middle(q, p))
  {
    hide Dot, Left, Unit;
    var u := Along(t, box);
    LeftIsUnit(u);
    ShareAtMost(Minus(q, p), u, 2.0 * margin);
    ShareAtMost(Minus(q, p), Left(u), 2.0 * margin);
    HalfWay(p, q, box.centre, u);
    HalfWay(p, q, box.centre, Left(u));
  }

  lemma AlongIsUnit(t: Trig, box: OrientedBox)
    requires UnitCircle(t)
    ensures Unit(Along(t, box))
  {
  }

  lemma LeftIsUnit(u: Vec)
    requires Unit(u)
    ensures Unit(Left(u))
  {
    assert (-u.y) * (-u.y) == u.y * u.y;
  }

  lemma HalfWay(p: Vec, q: Vec, centre: Vec, u: Vec)
    ensures Dot(Minus(Middle(p, q), centre), u) == Dot(Minus(p, centre), u) + Dot(Minus(q, p), u) / 2.0
    ensures Middle(p, q) == Middle(q, p)
  {
  }

  lemma Apart(p: Vec, q: Vec)
    ensures Dot(Minus(q, p), Minus(q, p)) == Dot(Minus(p, q), Minus(p, q))
  {
  }

  lemma SameBoxes(t: Trig, p: Pose, o: Obstacle, time: real, shape: Shape, m: Margins)
    ensures var margin := MarginAt(m, time);
            var ego, other := EgoRectangle(p, shape), ObstacleRectangle(t, o, time);
            && MakeEgoBox(p, shape, MarginAt(m, time))
               == ego.(halfLength := ego.halfLength + margin, halfWidth := ego.halfWidth + margin)
            && MakeObstacleBox(t, o, time, MarginAt(m, time))
               == other.(halfLength := other.halfLength + margin, halfWidth := other.halfWidth + margin)
  {
  }

  lemma MarginsKeepApart(t: Trig, path: seq<Pose>, times: seq<real>, os: seq<Obstacle>, shape: Shape, m: Margins,
                         i: nat, k: nat, p: Vec, q: Vec, margin: real)
    requires |times| == |path| && Clear(t, path, times, os, shape, m, true) && i < |path| && k < |os|
    requires UnitCircle(t) && shape.length >= 0.0 && shape.width >= 0.0 && os[k].length >= 0.0 && os[k].width >= 0.0
    requires Covers(t, EgoRectangle(path[i], shape), p) && Covers(t, ObstacleRectangle(t, os[k], times[i]), q)
    requires margin == MarginAt(m, times[i]) >= 0.0
    ensures Dot(Minus(q, p), Minus(q, p)) > (2.0 * margin) * (2.0 * margin)
  {
    hide Clear, Covers, Dot, UnitCircle, MakeEgoBox, MakeObstacleBox, MarginAt, EgoRectangle, ObstacleRectangle;
    if Dot(Minus(q, p), Minus(q, p)) <= (2.0 * margin) * (2.0 * margin) {
      Apart(p, q);
      AlongIsUnit(t, EgoRectangle(path[i], shape));
      AlongIsUnit(t, ObstacleRectangle(t, os[k], times[i]));
      SameBoxes(t, path[i], os[k], times[i], shape, m);
      WidenedCovers(t, EgoRectangle(path[i], shape), p, q, margin);
      WidenedCovers(t, ObstacleRectangle(t, os[k], times[i]), q, p, margin);
      ClearMeansApart(t, path, times, os, shape, m, i, k, Middle(p, q));
      assert false;
    }
  }

  /** On a clear trajectory every point of the vehicle keeps more than twice the margin of its sample time from every
      point of every predicted obstacle. */
  lemma ClearKeepsDistance(t: Trig, path: seq<Pose>, times: seq<real>, os: seq<Obstacle>, shape: Shape, m: Margins,
                           i: nat, k: nat, p: Vec, q: Vec)
    requires |times| == |path| && Clear(t, path, times, os, shape, m, true) && i < |path| && k < |os|
    requires UnitCircle(t) && shape.length >= 0.0 && shape.width >= 0.0 && os[k].length >= 0.0 && os[k].width >= 0.0
    requires m.safety + m.growth * times[i] >= 0.0
    requires Covers(t, EgoRectangle(path[i], shape), p) && Covers(t, ObstacleRectangle(t, os[k], times[i]), q)
    ensures var margin := m.safety + m.growth * times[i];
            Dot(Minus(q, p), Minus(q, p)) > (2.0 * margin) * (2.0 * margin)
  {
    hide Clear, Covers, Dot, UnitCircle;
    MarginsKeepApart(t, path, times, os, shape, m, i, k, p, q, MarginAt(m, times[i]));
  }
}
