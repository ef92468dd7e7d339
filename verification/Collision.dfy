/** Oriented boxes and the separating-axis overlap test (frenet/collision_checker.cpp). */
module Collision {
  import opened RealMath
  import opened Angles

  datatype Vec = Vec(x: real, y: real)

  datatype OrientedBox = OrientedBox(centre: Vec, heading: real, halfLength: real, halfWidth: real)

  function Dot(u: Vec, v: Vec): real { u.x * v.x + u.y * v.y }

  function Minus(u: Vec, v: Vec): Vec { Vec(u.x - v.x, u.y - v.y) }

  /** A quarter turn to the left. */
  function Left(u: Vec): Vec { Vec(-u.y, u.x) }

  /** The direction of a box's length. */
  function Along(t: Trig, box: OrientedBox): Vec { Vec(t.cos(box.heading), t.sin(box.heading)) }

  /** The projection half-width of a box on `axis`. */
  function ProjectedRadius(t: Trig, box: OrientedBox, axis: Vec): real {
    box.halfLength * Abs(Dot(Along(t, box), axis)) + box.halfWidth * Abs(Dot(Left(Along(t, box)), axis))
  }

  predicate SeparatedAlongAxis(t: Trig, a: OrientedBox, b: OrientedBox, axis: Vec) {
    Abs(Dot(Minus(b.centre, a.centre), axis)) > ProjectedRadius(t, a, axis) + ProjectedRadius(t, b, axis)
  }

  /** True unless one of the four box axes separates the boxes. */
  predicate CheckOBBOverlap(t: Trig, a: OrientedBox, b: OrientedBox) {
    && !SeparatedAlongAxis(t, a, b, Along(t, a))
    && !SeparatedAlongAxis(t, a, b, Left(Along(t, a)))
    && !SeparatedAlongAxis(t, a, b, Along(t, b))
    && !SeparatedAlongAxis(t, a, b, Left(Along(t, b)))
  }

  // ---------------------------------------------------------------- what overlap means

  ghost predicate Unit(u: Vec) { u.x * u.x + u.y * u.y == 1.0 }

  /** The point lies in the closed rectangle. */
  ghost predicate Covers(t: Trig, box: OrientedBox, point: Vec) {
    var d := Minus(point, box.centre);
    Abs(Dot(d, Along(t, box))) <= box.halfLength && Abs(Dot(d, Left(Along(t, box)))) <= box.halfWidth
  }

  lemma AbsProduct(x: real, y: real, bound: real)
    requires Abs(x) <= bound
    ensures Abs(x * y) <= bound * Abs(y)
  {
    MulMono(Abs(x), bound, Abs(y));
    if y >= 0.0 {
      MulMono(x, Abs(x), y);
      MulMono(-x, Abs(x), y);
    } else {
      MulMono(x, Abs(x), -y);
      MulMono(-x, Abs(x), -y);
    }
  }

  lemma AbsSum(z: real, x: real, y: real, xMax: real, yMax: real)
    requires z == x + y && Abs(x) <= xMax && Abs(y) <= yMax
    ensures Abs(z) <= xMax + yMax
  {
  }

  lemma WeightedSum(z: real, x: real, u: real, y: real, v: real, xMax: real, yMax: real)
    requires z == x * u + y * v && Abs(x) <= xMax && Abs(y) <= yMax
    ensures Abs(z) <= xMax * Abs(u) + yMax * Abs(v)
  {
    AbsProduct(x, u, xMax);
    AbsProduct(y, v, yMax);
    AbsSum(z, x * u, y * v, xMax * Abs(u), yMax * Abs(v));
  }

  /** A scalar product may be taken in any orthonormal axes. */
  lemma InAxes(d: Vec, u: Vec, l: Vec)
    requires Unit(u)
    ensures Dot(d, l) == Dot(d, u) * Dot(u, l) + Dot(d, Left(u)) * Dot(Left(u), l)
  {
    calc {
      Dot(d, u) * Dot(u, l) + Dot(d, Left(u)) * Dot(Left(u), l);
      (u.x * u.x + u.y * u.y) * Dot(d, l);
    }
  }

  lemma RadiusBounds(d: Vec, u: Vec, axis: Vec, hl: real, hw: real)
    requires Unit(u) && Abs(Dot(d, u)) <= hl && Abs(Dot(d, Left(u))) <= hw
    ensures Abs(Dot(d, axis)) <= hl * Abs(Dot(u, axis)) + hw * Abs(Dot(Left(u), axis))
  {
    InAxes(d, u, axis);
    hide Dot, Abs;
    WeightedSum(Dot(d, axis), Dot(d, u), Dot(u, axis), Dot(d, Left(u)), Dot(Left(u), axis), hl, hw);
  }

  /** A point of the box is no farther from its centre, along any axis, than the projected radius. */
  lemma CoveredWithinRadius(t: Trig, box: OrientedBox, point: Vec, axis: Vec)
    requires UnitCircle(t) && Covers(t, box, point)
    ensures Abs(Dot(Minus(point, box.centre), axis)) <= ProjectedRadius(t, box, axis)
  {
    hide Dot, Abs, Minus, Left;
    RadiusBounds(Minus(point, box.centre), Along(t, box), axis, box.halfLength, box.halfWidth);
  }

  lemma DotMinus(point: Vec, a: Vec, b: Vec, axis: Vec)
    ensures Dot(Minus(b, a), axis) == Dot(Minus(point, a), axis) + -Dot(Minus(point, b), axis)
  {
  }

  /** No axis at all separates boxes that share a point. */
  lemma SharedPointNotSeparated(t: Trig, a: OrientedBox, b: OrientedBox, point: Vec, axis: Vec)
    requires UnitCircle(t) && Covers(t, a, point) && Covers(t, b, point)
    ensures !SeparatedAlongAxis(t, a, b, axis)
  {
    CoveredWithinRadius(t, a, point, axis);
    CoveredWithinRadius(t, b, point, axis);
    DotMinus(point, a.centre, b.centre, axis);
    hide Dot, Covers, ProjectedRadius;
    AbsSum(Dot(Minus(b.centre, a.centre), axis), Dot(Minus(point, a.centre), axis), -Dot(Minus(point, b.centre), axis),
           ProjectedRadius(t, a, axis), ProjectedRadius(t, b, axis));
  }

  // ---------------------------------------------------------------- no separating axis means a shared point

  /** The second box in the frame of the first, which has half extents `a` and `b`: its half extents are
      `p` and `q`, its length axis is (c, s), and its centre is (dx, dy), or (h, k) along its own axes. */
  datatype Pair = Pair(a: real, b: real, p: real, q: real, c: real, s: real, dx: real, dy: real, h: real, k: real)

  ghost predicate FirstQuadrant(m: Pair) {
    m.a >= 0.0 && m.b >= 0.0 && m.p >= 0.0 && m.q >= 0.0 && m.c >= 0.0 && m.s >= 0.0 && m.c * m.c + m.s * m.s == 1.0
  }

  /** (h, k) and (dx, dy) are the same vector. */
  ghost predicate SameCentre(m: Pair) { m.c * m.h - m.s * m.k == m.dx && m.s * m.h + m.c * m.k == m.dy }

  // The summed projection radii on the four axes.
  ghost function RadiusX(m: Pair): real { m.a + m.p * m.c + m.q * m.s }
  ghost function RadiusY(m: Pair): real { m.b + m.p * m.s + m.q * m.c }
  ghost function RadiusH(m: Pair): real { m.p + m.a * m.c + m.b * m.s }
  ghost function RadiusK(m: Pair): real { m.q + m.a * m.s + m.b * m.c }

  /** None of the four axes separates. */
  ghost predicate NotSeparated(m: Pair) {
    Abs(m.dx) <= RadiusX(m) && Abs(m.dy) <= RadiusY(m) && Abs(m.h) <= RadiusH(m) && Abs(m.k) <= RadiusK(m)
  }

  // Coordinates of a point of the first frame along the axes of the second box.
  ghost function Ahead(m: Pair, x: real, y: real): real { m.c * x + m.s * y }
  ghost function Aside(m: Pair, x: real, y: real): real { -m.s * x + m.c * y }

  /** (x, y) lies in the first box, and in the strip of the second box along its length. */
  ghost predicate InStrip(m: Pair, x: real, y: real) {
    Abs(x) <= m.a && Abs(y) <= m.b && Abs(Ahead(m, x, y) - m.h) <= m.p
  }

  lemma Divided(n: real, d: real, x: real)
    requires d > 0.0 && x == n / d
    ensures d * x == n
  {
  }

  /** The products that make up the coordinates of the corner (-a, b) and the radii on the second box's axes. */
  lemma CornerProducts(m: Pair, ac: real, as': real, bc: real, bs: real)
    requires ac == m.a * m.c && as' == m.a * m.s && bc == m.b * m.c && bs == m.b * m.s
    ensures Ahead(m, -m.a, m.b) == bs - ac && Aside(m, -m.a, m.b) == as' + bc
    ensures RadiusH(m) == m.p + ac + bs && RadiusK(m) == m.q + as' + bc
  {
  }

  lemma UnitOneComponent(c: real, s: real)
    requires c == 0.0 && s >= 0.0 && c * c + s * s == 1.0
    ensures s == 1.0
  {
    if s < 1.0 {
      MulMono(s, 1.0, s);
    } else {
      MulMono(1.0, s, s);
    }
  }

  /** Sliding along the top edge of the first box until the strip is reached. */
  lemma TopEdge(m: Pair) returns (x: real)
    requires FirstQuadrant(m) && m.c > 0.0 && Ahead(m, -m.a, m.b) < m.h - m.p && m.h <= RadiusH(m)
    ensures -m.a <= x <= m.a && Ahead(m, x, m.b) == m.h - m.p
  {
    hide Ahead, Aside, RadiusH, RadiusK;
    var ac, bs := m.a * m.c, m.b * m.s;
    CornerProducts(m, ac, m.a * m.s, m.b * m.c, bs);
    x := (m.h - m.p - bs) / m.c;
    Divided(m.h - m.p - bs, m.c, x);
    var cx := m.c * x;
    CancelAtMost(-m.a, x, m.c, -ac, cx);
    CancelAtMost(x, m.a, m.c, cx, ac);
    AheadIs(m, x, m.b, cx, bs);
  }

  lemma AheadIs(m: Pair, x: real, y: real, cx: real, sy: real)
    requires cx == m.c * x && sy == m.s * y
    ensures Ahead(m, x, y) == cx + sy
  {
  }

  lemma AcrossTopEdge(m: Pair, x: real)
    requires FirstQuadrant(m) && m.c > 0.0 && Ahead(m, x, m.b) == m.h - m.p && SameCentre(m) && m.dy <= RadiusY(m)
    ensures m.k - m.q <= Aside(m, x, m.b)
  {
    var side := Aside(m, x, m.b);
    var ph := m.s * (m.h - m.p);
    TurnTop(m, x, side, ph);
    assert ph == m.s * m.h - m.s * m.p;
    var ck, cq := m.c * m.k, m.c * m.q;
    assert m.dy == m.s * m.h + ck;
    assert RadiusY(m) == m.b + m.s * m.p + cq;
    CancelAtMost(m.k - m.q, side, m.c, ck - cq, m.c * side);
  }

  lemma TurnTop(m: Pair, x: real, side: real, ph: real)
    requires FirstQuadrant(m) && side == Aside(m, x, m.b) && Ahead(m, x, m.b) == m.h - m.p && ph == m.s * (m.h - m.p)
    ensures m.c * side == m.b - ph
  {
    Turned(m.c, m.s, x, m.b, m.h - m.p, side, ph, m.c * (m.h - m.p), m.s * side, m.c * side);
  }

  /** Turning a vector forth and back. */
  lemma Turned(c: real, s: real, x: real, y: real, u: real, v: real, su: real, cu: real, sv: real, cv: real)
    requires c * c + s * s == 1.0 && u == c * x + s * y && v == -s * x + c * y
    requires su == s * u && cu == c * u && sv == s * v && cv == c * v
    ensures su + cv == y && cu - sv == x
  {
    assert su + cv == (c * c + s * s) * y;
    assert cu - sv == (c * c + s * s) * x;
  }

  /** Sliding down the left edge of the first box until the strip is reached. */
  lemma LeftEdge(m: Pair) returns (y: real)
    requires FirstQuadrant(m) && m.s > 0.0 && m.h + m.p < Ahead(m, -m.a, m.b) && -m.h <= RadiusH(m)
    ensures -m.b <= y <= m.b && Ahead(m, -m.a, y) == m.h + m.p
  {
    hide Ahead, Aside, RadiusH, RadiusK;
    var ac, bs := m.a * m.c, m.b * m.s;
    CornerProducts(m, ac, m.a * m.s, m.b * m.c, bs);
    y := (m.h + m.p + ac) / m.s;
    Divided(m.h + m.p + ac, m.s, y);
    var sy := m.s * y;
    CancelAtMost(-m.b, y, m.s, -bs, sy);
    CancelAtMost(y, m.b, m.s, sy, bs);
    AheadIs(m, -m.a, y, -ac, sy);
  }

  lemma AcrossLeftEdge(m: Pair, y: real)
    requires FirstQuadrant(m) && m.s > 0.0 && Ahead(m, -m.a, y) == m.h + m.p && SameCentre(m) && -m.dx <= RadiusX(m)
    ensures m.k - m.q <= Aside(m, -m.a, y)
  {
    var side := Aside(m, -m.a, y);
    var ph := m.c * (m.h + m.p);
    TurnLeft(m, y, side, ph);
    assert ph == m.c * m.h + m.c * m.p;
    var sk, sq := m.s * m.k, m.s * m.q;
    assert m.dx == m.c * m.h - sk;
    assert RadiusX(m) == m.a + m.c * m.p + sq;
    CancelAtMost(m.k - m.q, side, m.s, sk - sq, m.s * side);
  }

  lemma TurnLeft(m: Pair, y: real, side: real, ph: real)
    requires FirstQuadrant(m) && side == Aside(m, -m.a, y) && Ahead(m, -m.a, y) == m.h + m.p && ph == m.c * (m.h + m.p)
    ensures m.s * side == m.a + ph
  {
    Turned(m.c, m.s, -m.a, y, m.h + m.p, side, m.s * (m.h + m.p), ph, m.s * side, m.c * side);
  }

  lemma CornerAcross(m: Pair)
    requires m.k <= RadiusK(m)
    ensures m.k - m.q <= Aside(m, -m.a, m.b)
  {
    hide Ahead, Aside, RadiusH, RadiusK;
    CornerProducts(m, m.a * m.c, m.a * m.s, m.b * m.c, m.b * m.s);
  }

  /** Where the strip runs along an axis of the first box, it cannot miss the corner. */
  lemma CornerAhead(m: Pair)
    requires FirstQuadrant(m) && Abs(m.h) <= RadiusH(m)
    ensures m.c == 0.0 ==> m.h - m.p <= Ahead(m, -m.a, m.b)
    ensures m.s == 0.0 ==> Ahead(m, -m.a, m.b) <= m.h + m.p
  {
    if m.c == 0.0 {
      UnitOneComponent(m.c, m.s);
    }
    if m.s == 0.0 {
      UnitOneComponent(m.s, m.c);
    }
  }

  /** A point of the first box and the strip that reaches far enough to the left of the second box. */
  lemma LeftmostInStrip(m: Pair) returns (x: real, y: real)
    requires FirstQuadrant(m) && SameCentre(m) && NotSeparated(m)
    ensures InStrip(m, x, y) && m.k - m.q <= Aside(m, x, y)
  {
    assert m.a >= 0.0 && m.b >= 0.0 && m.p >= 0.0 && m.c >= 0.0 && m.s >= 0.0;
    hide FirstQuadrant, SameCentre, RadiusX, RadiusY, RadiusH, RadiusK, Ahead, Aside;
    x, y := -m.a, m.b;
    CornerAcross(m);
    CornerAhead(m);
    if Ahead(m, -m.a, m.b) < m.h - m.p {
      x := TopEdge(m);
      AcrossTopEdge(m, x);
    } else if m.h + m.p < Ahead(m, -m.a, m.b) {
      y := LeftEdge(m);
      AcrossLeftEdge(m, y);
    }
  }

  ghost function Mirror(m: Pair): Pair { m.(dx := -m.dx, dy := -m.dy, h := -m.h, k := -m.k) }

  lemma MirrorKeepsCentre(m: Pair)
    requires SameCentre(m)
    ensures SameCentre(Mirror(m))
  {
  }

  lemma MirrorKeepsRadii(m: Pair)
    ensures RadiusX(Mirror(m)) == RadiusX(m) && RadiusY(Mirror(m)) == RadiusY(m)
    ensures RadiusH(Mirror(m)) == RadiusH(m) && RadiusK(Mirror(m)) == RadiusK(m)
  {
  }

  lemma MirrorKeeps(m: Pair)
    requires FirstQuadrant(m) && NotSeparated(m)
    ensures FirstQuadrant(Mirror(m)) && NotSeparated(Mirror(m))
  {
    MirrorKeepsRadii(m);
    hide RadiusX, RadiusY, RadiusH, RadiusK;
  }

  lemma MirroredCoordinates(m: Pair, x: real, y: real)
    ensures Ahead(Mirror(m), x, y) == -Ahead(m, -x, -y) && Aside(Mirror(m), x, y) == -Aside(m, -x, -y)
  {
  }

  /** The mirror image in the centre of the first box. */
  lemma RightmostInStrip(m: Pair) returns (x: real, y: real)
    requires FirstQuadrant(m) && SameCentre(m) && NotSeparated(m)
    ensures InStrip(m, x, y) && Aside(m, x, y) <= m.k + m.q
  {
    hide FirstQuadrant, SameCentre, NotSeparated, Ahead, Aside;
    MirrorKeeps(m);
    MirrorKeepsCentre(m);
    var x', y' := LeftmostInStrip(Mirror(m));
    MirroredCoordinates(m, x', y');
    x, y := -x', -y';
  }

  /** The point a fraction `r` of the way from `v` to `u`. */
  ghost function Blend(u: real, v: real, r: real): real { v + r * (u - v) }

  lemma BlendBounded(u: real, v: real, r: real, bound: real)
    requires 0.0 <= r <= 1.0 && u <= bound && v <= bound
    ensures Blend(u, v, r) <= bound
  {
    assert (bound - u) * r >= 0.0 && (bound - v) * (1.0 - r) >= 0.0;
    assert bound - Blend(u, v, r) == (bound - u) * r + (bound - v) * (1.0 - r);
  }

  lemma BlendWithin(u: real, v: real, r: real, centre: real, bound: real)
    requires 0.0 <= r <= 1.0 && Abs(u - centre) <= bound && Abs(v - centre) <= bound
    ensures Abs(Blend(u, v, r) - centre) <= bound
  {
    BlendBounded(u, v, r, centre + bound);
    BlendBounded(-u, -v, r, bound - centre);
    assert Blend(-u, -v, r) == -Blend(u, v, r);
  }

  lemma BlendedAhead(m: Pair, x1: real, y1: real, x2: real, y2: real, r: real)
    ensures Ahead(m, Blend(x1, x2, r), Blend(y1, y2, r)) == Blend(Ahead(m, x1, y1), Ahead(m, x2, y2), r)
  {
  }

  lemma BlendedAside(m: Pair, x1: real, y1: real, x2: real, y2: real, r: real)
    ensures Aside(m, Blend(x1, x2, r), Blend(y1, y2, r)) == Blend(Aside(m, x1, y1), Aside(m, x2, y2), r)
  {
  }

  lemma BlendReaches(u: real, v: real, goal: real) returns (r: real)
    requires v < goal < u
    ensures 0.0 <= r <= 1.0 && Blend(u, v, r) == goal
  {
    r := (goal - v) / (u - v);
    assert r * (u - v) == goal - v;
    CancelAtMost(0.0, r, u - v, 0.0, (u - v) * r);
    CancelAtMost(r, 1.0, u - v, (u - v) * r, u - v);
  }

  /** Between a point not right enough and a point not left enough lies one that is neither. */
  lemma PointBetween(m: Pair, x1: real, y1: real, x2: real, y2: real) returns (x: real, y: real)
    requires InStrip(m, x1, y1) && InStrip(m, x2, y2)
    requires Aside(m, x2, y2) < m.k < Aside(m, x1, y1)
    ensures InStrip(m, x, y) && Aside(m, x, y) == m.k
  {
    hide Ahead, Aside, Blend;
    var r := BlendReaches(Aside(m, x1, y1), Aside(m, x2, y2), m.k);
    x, y := Blend(x1, x2, r), Blend(y1, y2, r);
    BlendWithin(x1, x2, r, 0.0, m.a);
    BlendWithin(y1, y2, r, 0.0, m.b);
    BlendWithin(Ahead(m, x1, y1), Ahead(m, x2, y2), r, m.h, m.p);
    BlendedAhead(m, x1, y1, x2, y2, r);
    BlendedAside(m, x1, y1, x2, y2, r);
  }

  lemma SharedInPair(m: Pair) returns (x: real, y: real)
    requires FirstQuadrant(m) && SameCentre(m) && NotSeparated(m)
    ensures InStrip(m, x, y) && Abs(Aside(m, x, y) - m.k) <= m.q
  {
    assert m.q >= 0.0;
    hide FirstQuadrant, SameCentre, NotSeparated, Ahead, Aside, InStrip;
    var x1, y1 := LeftmostInStrip(m);
    var x2, y2 := RightmostInStrip(m);
    if Aside(m, x1, y1) <= m.k + m.q {
      x, y := x1, y1;
    } else if m.k - m.q <= Aside(m, x2, y2) {
      x, y := x2, y2;
    } else {
      x, y := PointBetween(m, x1, y1, x2, y2);
    }
  }

  // Turning the length axis of the second box round, and reflecting in the first axis, bring any pair
  // into the first quadrant.
  ghost function TurnedRound(m: Pair): Pair { m.(c := -m.c, s := -m.s, h := -m.h, k := -m.k) }
  ghost function Reflected(m: Pair): Pair { m.(s := -m.s, dy := -m.dy, k := -m.k) }

  ghost function Folded(m: Pair): Pair { m.(c := Abs(m.c), s := Abs(m.s)) }

  ghost predicate Proper(m: Pair) {
    m.a >= 0.0 && m.b >= 0.0 && m.p >= 0.0 && m.q >= 0.0 && m.c * m.c + m.s * m.s == 1.0
  }

  ghost predicate InBoth(m: Pair, x: real, y: real) {
    InStrip(m, x, y) && Abs(Aside(m, x, y) - m.k) <= m.q
  }

  lemma TurnedRoundKeeps(m: Pair)
    requires Proper(m) && SameCentre(m)
    ensures Proper(TurnedRound(m)) && SameCentre(TurnedRound(m))
  {
  }

  lemma ReflectedKeeps(m: Pair)
    requires Proper(m) && SameCentre(m)
    ensures Proper(Reflected(m)) && SameCentre(Reflected(m))
  {
  }

  lemma TurnedRoundPoint(m: Pair, x: real, y: real)
    ensures Ahead(TurnedRound(m), x, y) == -Ahead(m, x, y) && Aside(TurnedRound(m), x, y) == -Aside(m, x, y)
  {
  }

  lemma ReflectedPoint(m: Pair, x: real, y: real)
    ensures Ahead(Reflected(m), x, y) == Ahead(m, x, -y) && Aside(Reflected(m), x, y) == -Aside(m, x, -y)
  {
  }

  lemma FoldedRadii(m: Pair, n: Pair)
    requires n == TurnedRound(m) || n == Reflected(m)
    ensures RadiusX(Folded(n)) == RadiusX(Folded(m)) && RadiusY(Folded(n)) == RadiusY(Folded(m))
    ensures RadiusH(Folded(n)) == RadiusH(Folded(m)) && RadiusK(Folded(n)) == RadiusK(Folded(m))
  {
  }

  lemma AlreadyFolded(m: Pair)
    requires Proper(m) && m.c >= 0.0 && m.s >= 0.0
    ensures Folded(m) == m && FirstQuadrant(m)
  {
  }

  lemma SharedInAnyPair(m: Pair) returns (x: real, y: real)
    requires Proper(m) && SameCentre(m) && NotSeparated(Folded(m))
    ensures InBoth(m, x, y)
    decreases m.c < 0.0, m.s < 0.0
  {
    hide FirstQuadrant, SameCentre, RadiusX, RadiusY, RadiusH, RadiusK, Ahead, Aside, Proper;
    if m.c < 0.0 {
      TurnedRoundKeeps(m);
      FoldedRadii(m, TurnedRound(m));
      x, y := SharedInAnyPair(TurnedRound(m));
      TurnedRoundPoint(m, x, y);
    } else if m.s < 0.0 {
      ReflectedKeeps(m);
      FoldedRadii(m, Reflected(m));
      var y';
      x, y' := SharedInAnyPair(Reflected(m));
      ReflectedPoint(m, x, y');
      y := -y';
    } else {
      AlreadyFolded(m);
      x, y := SharedInPair(m);
    }
  }

  // ---------------------------------------------------------------- the two boxes as a pair

  ghost function PairOf(t: Trig, a: OrientedBox, b: OrientedBox): Pair {
    var u, w, d := Along(t, a), Along(t, b), Minus(b.centre, a.centre);
    Pair(a.halfLength, a.halfWidth, b.halfLength, b.halfWidth, Dot(w, u), Dot(w, Left(u)),
         Dot(d, u), Dot(d, Left(u)), Dot(d, w), Dot(d, Left(w)))
  }

  /** The frames of two unit vectors are turned against each other by one angle. */
  lemma FramesTurn(u: Vec, w: Vec)
    requires Unit(u) && Unit(w)
    ensures Dot(w, u) * Dot(w, u) + Dot(w, Left(u)) * Dot(w, Left(u)) == 1.0
    ensures Dot(Left(w), u) == -Dot(w, Left(u)) && Dot(Left(w), Left(u)) == Dot(w, u)
    ensures Dot(u, w) == Dot(w, u) && Dot(Left(u), w) == Dot(w, Left(u))
    ensures Dot(u, Left(w)) == -Dot(w, Left(u)) && Dot(Left(u), Left(w)) == Dot(w, u)
    ensures Dot(u, u) == 1.0 && Dot(Left(u), u) == 0.0 && Dot(u, Left(u)) == 0.0 && Dot(Left(u), Left(u)) == 1.0
  {
    assert (u.x * u.x + u.y * u.y) * (w.x * w.x + w.y * w.y) == 1.0;
  }

  /** Coordinates of a vector in one frame from those in the other. */
  lemma ChangeFrame(d: Vec, u: Vec, w: Vec)
    requires Unit(w)
    ensures Dot(w, u) * Dot(d, w) - Dot(w, Left(u)) * Dot(d, Left(w)) == Dot(d, u)
    ensures Dot(w, Left(u)) * Dot(d, w) + Dot(w, u) * Dot(d, Left(w)) == Dot(d, Left(u))
  {
    InAxes(d, w, u);
    InAxes(d, w, Left(u));
  }

  lemma RadiusIs(t: Trig, box: OrientedBox, axis: Vec, e: real, f: real)
    requires Dot(Along(t, box), axis) == e && Dot(Left(Along(t, box)), axis) == f
    ensures ProjectedRadius(t, box, axis) == box.halfLength * Abs(e) + box.halfWidth * Abs(f)
  {
  }

  /** The summed radii of two boxes on the axes of the first: its own half extents and the other's
      shadows. */
  lemma RadiiOnFirst(t: Trig, a: OrientedBox, b: OrientedBox, c: real, s: real)
    requires UnitCircle(t) && c == Dot(Along(t, b), Along(t, a)) && Abs(s) == Abs(Dot(Along(t, b), Left(Along(t, a))))
    ensures ProjectedRadius(t, a, Along(t, a)) + ProjectedRadius(t, b, Along(t, a))
            == a.halfLength + b.halfLength * Abs(c) + b.halfWidth * Abs(s)
    ensures ProjectedRadius(t, a, Left(Along(t, a))) + ProjectedRadius(t, b, Left(Along(t, a)))
            == a.halfWidth + b.halfLength * Abs(s) + b.halfWidth * Abs(c)
  {
    var u, w := Along(t, a), Along(t, b);
    FramesTurn(u, w);
    RadiusIs(t, a, u, 1.0, 0.0);
    RadiusIs(t, a, Left(u), 0.0, 1.0);
    RadiusIs(t, b, u, c, -Dot(w, Left(u)));
    RadiusIs(t, b, Left(u), Dot(w, Left(u)), c);
    hide Dot, Left, ProjectedRadius, Along;
  }

  lemma PairOfProper(t: Trig, a: OrientedBox, b: OrientedBox)
    requires UnitCircle(t)
    requires a.halfLength >= 0.0 && a.halfWidth >= 0.0 && b.halfLength >= 0.0 && b.halfWidth >= 0.0
    ensures Proper(PairOf(t, a, b)) && SameCentre(PairOf(t, a, b))
  {
    FramesTurn(Along(t, a), Along(t, b));
    ChangeFrame(Minus(b.centre, a.centre), Along(t, a), Along(t, b));
    hide Dot, Left, Along, Minus;
  }

  lemma RadiiOfPairOnFirst(t: Trig, a: OrientedBox, b: OrientedBox)
    requires UnitCircle(t)
    ensures var m := Folded(PairOf(t, a, b));
            && RadiusX(m) == ProjectedRadius(t, a, Along(t, a)) + ProjectedRadius(t, b, Along(t, a))
            && RadiusY(m) == ProjectedRadius(t, a, Left(Along(t, a))) + ProjectedRadius(t, b, Left(Along(t, a)))
  {
    RadiiOnFirst(t, a, b, Dot(Along(t, b), Along(t, a)), Dot(Along(t, b), Left(Along(t, a))));
    hide Dot, Left, ProjectedRadius, Along, Minus, Abs;
  }

  /** Seen from the second box, the first is turned the other way. */
  lemma RadiiOfPairOnSecond(t: Trig, a: OrientedBox, b: OrientedBox)
    requires UnitCircle(t)
    ensures var m := Folded(PairOf(t, a, b));
            && RadiusH(m) == ProjectedRadius(t, b, Along(t, b)) + ProjectedRadius(t, a, Along(t, b))
            && RadiusK(m) == ProjectedRadius(t, b, Left(Along(t, b))) + ProjectedRadius(t, a, Left(Along(t, b)))
  {
    FramesTurn(Along(t, b), Along(t, a));
    assert Abs(Dot(Along(t, b), Left(Along(t, a)))) == Abs(Dot(Along(t, a), Left(Along(t, b))));
    RadiiOnFirst(t, b, a, Dot(Along(t, b), Along(t, a)), Dot(Along(t, b), Left(Along(t, a))));
    hide Dot, Left, ProjectedRadius, Along, Minus, Abs;
  }

  lemma PairOfOverlap(t: Trig, a: OrientedBox, b: OrientedBox)
    requires UnitCircle(t) && CheckOBBOverlap(t, a, b)
    ensures NotSeparated(Folded(PairOf(t, a, b)))
  {
    RadiiOfPairOnFirst(t, a, b);
    RadiiOfPairOnSecond(t, a, b);
    OverlapBounds(t, a, b);
    hide Dot, Left, ProjectedRadius, Along, Minus, Abs, RadiusX, RadiusY, RadiusH, RadiusK, CheckOBBOverlap;
  }

  lemma OverlapBounds(t: Trig, a: OrientedBox, b: OrientedBox)
    requires CheckOBBOverlap(t, a, b)
    ensures Abs(PairOf(t, a, b).dx) <= ProjectedRadius(t, a, Along(t, a)) + ProjectedRadius(t, b, Along(t, a))
    ensures Abs(PairOf(t, a, b).dy) <= ProjectedRadius(t, a, Left(Along(t, a)))
            + ProjectedRadius(t, b, Left(Along(t, a)))
    ensures Abs(PairOf(t, a, b).h) <= ProjectedRadius(t, a, Along(t, b)) + ProjectedRadius(t, b, Along(t, b))
    ensures Abs(PairOf(t, a, b).k) <= ProjectedRadius(t, a, Left(Along(t, b)))
            + ProjectedRadius(t, b, Left(Along(t, b)))
  {
    hide Dot, Left, ProjectedRadius, Along, Minus, Abs;
  }

  /** The point with coordinates (x, y) in the frame of a box. */
  ghost function PointAt(t: Trig, a: OrientedBox, x: real, y: real): Vec {
    var u := Along(t, a);
    Vec(a.centre.x + x * u.x - y * u.y, a.centre.y + x * u.y + y * u.x)
  }

  lemma PointInFirst(t: Trig, a: OrientedBox, x: real, y: real)
    requires UnitCircle(t)
    ensures Dot(Minus(PointAt(t, a, x, y), a.centre), Along(t, a)) == x
    ensures Dot(Minus(PointAt(t, a, x, y), a.centre), Left(Along(t, a))) == y
  {
    var u := Along(t, a);
    assert x * (u.x * u.x + u.y * u.y) == x && y * (u.x * u.x + u.y * u.y) == y;
  }

  lemma PointInSecond(t: Trig, a: OrientedBox, b: OrientedBox, x: real, y: real)
    ensures Dot(Minus(PointAt(t, a, x, y), b.centre), Along(t, b)) == Ahead(PairOf(t, a, b), x, y) - PairOf(t, a, b).h
    ensures Dot(Minus(PointAt(t, a, x, y), b.centre), Left(Along(t, b)))
            == Aside(PairOf(t, a, b), x, y) - PairOf(t, a, b).k
  {
  }

  lemma InBothIsShared(t: Trig, a: OrientedBox, b: OrientedBox, x: real, y: real)
    requires UnitCircle(t) && InBoth(PairOf(t, a, b), x, y)
    ensures Covers(t, a, PointAt(t, a, x, y)) && Covers(t, b, PointAt(t, a, x, y))
  {
    PointInFirst(t, a, x, y);
    PointInSecond(t, a, b, x, y);
    hide Dot, Left, Along, Minus, PointAt, Ahead, Aside, Abs;
  }

  /** The overlap test is exact: it holds precisely when the two closed rectangles share a point. */
  lemma OverlapIffShared(t: Trig, a: OrientedBox, b: OrientedBox)
    requires UnitCircle(t)
    requires a.halfLength >= 0.0 && a.halfWidth >= 0.0 && b.halfLength >= 0.0 && b.halfWidth >= 0.0
    ensures CheckOBBOverlap(t, a, b) <==> exists point :: Covers(t, a, point) && Covers(t, b, point)
  {
    if point :| Covers(t, a, point) && Covers(t, b, point) {
      SharedPointNotSeparated(t, a, b, point, Along(t, a));
      SharedPointNotSeparated(t, a, b, point, Left(Along(t, a)));
      SharedPointNotSeparated(t, a, b, point, Along(t, b));
      SharedPointNotSeparated(t, a, b, point, Left(Along(t, b)));
    }
    if CheckOBBOverlap(t, a, b) {
      PairOfProper(t, a, b);
      PairOfOverlap(t, a, b);
      var x, y := SharedInAnyPair(PairOf(t, a, b));
      InBothIsShared(t, a, b, x, y);
    }
    hide SeparatedAlongAxis, Covers, Dot, Left, Along, ProjectedRadius, Abs;
  }
}
