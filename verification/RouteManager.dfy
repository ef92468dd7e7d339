/** The route polyline: its construction, the projection of a position onto it, and the way back from an
    arc length to a point (map/route_manager.cpp). */
module Route {
  import opened Wrappers
  import opened RealMath

  datatype Point = Point(x: real, y: real)

  datatype RouteLink = RouteLink(centerline: seq<Point>, toNode: string)

  const MIN_SPACING := 0.000001
  const MIN_SQUARED_LENGTH := 0.000000001
  const MIN_SPAN := 0.000000001
  const FAR_SQUARED := 1000000000000000000.0

  function Times(x: real, y: real): (r: real)
    ensures x == y ==> r >= 0.0
  {
    x * y
  }

  function Norm2(dx: real, dy: real): (r: real)
    ensures r >= 0.0
  {
    Times(dx, dx) + Times(dy, dy)
  }

  function Distance2(a: Point, b: Point): (r: real)
    ensures r >= 0.0
  {
    Norm2(b.x - a.x, b.y - a.y)
  }

  /** The point a fraction `t` of the way from `a` to `b`. */
  function Toward(a: Point, b: Point, t: real): Point { Point(a.x + t * (b.x - a.x), a.y + t * (b.y - a.y)) }

  /** The scalar product of the segment with the vector from its start to the position. */
  function Reach(a: Point, b: Point, p: Point): real { Times(p.x - a.x, b.x - a.x) + Times(p.y - a.y, b.y - a.y) }

  /** The fraction of the segment where the position projects, held at both ends. */
  function Foot(a: Point, b: Point, p: Point): (t: real)
    requires Distance2(a, b) > 0.0
    ensures 0.0 <= t <= 1.0
  {
    Clip(Reach(a, b, p) / Distance2(a, b), 0.0, 1.0)
  }

  function Quadratic(c: real, r: real, l: real, u: real): real { c - 2.0 * u * r + u * u * l }

  lemma SquareAlong(p: real, q: real, a: real, b: real, u: real)
    requires q == a + u * (b - a)
    ensures Times(p - q, p - q) == Quadratic(Times(p - a, p - a), Times(p - a, b - a), Times(b - a, b - a), u)
  {
  }

  lemma QuadraticSum(c1: real, r1: real, l1: real, c2: real, r2: real, l2: real, u: real)
    ensures Quadratic(c1, r1, l1, u) + Quadratic(c2, r2, l2, u) == Quadratic(c1 + c2, r1 + r2, l1 + l2, u)
  {
  }

  /** The distance to a point of the segment, as a quadratic in its fraction. */
  lemma QuadraticAlong(a: Point, b: Point, p: Point, u: real)
    ensures Distance2(Toward(a, b, u), p) == Quadratic(Distance2(a, p), Reach(a, b, p), Distance2(a, b), u)
  {
    var q := Toward(a, b, u);
    SquareAlong(p.x, q.x, a.x, b.x, u);
    SquareAlong(p.y, q.y, a.y, b.y, u);
    hide Times, Quadratic, Toward;
    QuadraticSum(Times(p.x - a.x, p.x - a.x), Times(p.x - a.x, b.x - a.x), Times(b.x - a.x, b.x - a.x),
                 Times(p.y - a.y, p.y - a.y), Times(p.y - a.y, b.y - a.y), Times(b.y - a.y, b.y - a.y), u);
  }

  lemma LeastInside(c: real, r: real, l: real, t: real, u: real)
    requires l > 0.0 && r == t * l
    ensures Quadratic(c, r, l, t) <= Quadratic(c, r, l, u)
  {
    assert (u - t) * (u - t) >= 0.0;
    assert Quadratic(c, t * l, l, u) - Quadratic(c, t * l, l, t) == (u - t) * (u - t) * l;
  }

  lemma LeastAtStart(c: real, r: real, l: real, u: real)
    requires l > 0.0 && r <= 0.0 && 0.0 <= u
    ensures Quadratic(c, r, l, 0.0) <= Quadratic(c, r, l, u)
  {
    assert u * -r >= 0.0 && u * u >= 0.0;
    assert u * u * l >= 0.0;
  }

  lemma LeastAtEnd(c: real, r: real, l: real, u: real)
    requires l > 0.0 && l <= r && u <= 1.0
    ensures Quadratic(c, r, l, 1.0) <= Quadratic(c, r, l, u)
  {
    assert (1.0 - u) * (r - l) >= 0.0 && (1.0 - u) * (1.0 - u) >= 0.0;
    assert (1.0 - u) * (1.0 - u) * l >= 0.0;
    assert Quadratic(c, r, l, u) - Quadratic(c, r, l, 1.0) == 2.0 * ((1.0 - u) * (r - l)) + (1.0 - u) * (1.0 - u) * l;
  }

  lemma QuotientSide(r: real, l: real, q: real)
    requires l > 0.0 && q == r / l
    ensures r == q * l && (q < 0.0 ==> r <= 0.0) && (q > 1.0 ==> l <= r)
  {
    assert r == q * l;
    if q < 0.0 {
      ProductNonNegative(-q, l, -r);
    } else if q > 1.0 {
      ProductNonNegative(q - 1.0, l, r - l);
    }
  }

  lemma QuadraticLeast(c: real, r: real, l: real, u: real)
    requires l > 0.0 && 0.0 <= u <= 1.0
    ensures Quadratic(c, r, l, Clip(r / l, 0.0, 1.0)) <= Quadratic(c, r, l, u)
  {
    hide Quadratic;
    var q := r / l;
    QuotientSide(r, l, q);
    if q < 0.0 {
      LeastAtStart(c, r, l, u);
    } else if q > 1.0 {
      LeastAtEnd(c, r, l, u);
    } else {
      LeastInside(c, r, l, q, u);
    }
  }

  /** No point of the segment is nearer than the foot. */
  lemma FootIsNearest(a: Point, b: Point, p: Point, u: real)
    requires Distance2(a, b) > 0.0 && 0.0 <= u <= 1.0
    ensures Distance2(Toward(a, b, Foot(a, b, p)), p) <= Distance2(Toward(a, b, u), p)
  {
    QuadraticAlong(a, b, p, Foot(a, b, p));
    QuadraticAlong(a, b, p, u);
    hide Distance2, Reach, Toward, Quadratic;
    QuadraticLeast(Distance2(a, p), Reach(a, b, p), Distance2(a, b), u);
  }

  // ---------------------------------------------------------------- the route polyline

  datatype Polyline = Polyline(reference: seq<Point>, cumulative: seq<real>, segmentLink: seq<string>)

  const EMPTY := Polyline([], [], [])

  function Length(sqrt: real -> real, a: Point, b: Point): real { sqrt(Distance2(a, b)) }

  /** A point is added unless it repeats the last one. */
  function AddPoint(sqrt: real -> real, l: Polyline, p: Point, id: string): Polyline
    requires |l.cumulative| == |l.reference|
  {
    if l.reference == [] then Polyline([p], [0.0], [])
    else
      var n := |l.reference|;
      var distance := Length(sqrt, l.reference[n - 1], p);
      if distance < MIN_SPACING then l
      else Polyline(l.reference + [p], l.cumulative + [l.cumulative[n - 1] + distance], l.segmentLink + [id])
  }

  function AddLine(sqrt: real -> real, l: Polyline, line: seq<Point>, id: string): (r: Polyline)
    requires |l.cumulative| == |l.reference|
    ensures |r.cumulative| == |r.reference|
    decreases |line|
  {
    if line == [] then l else AddPoint(sqrt, AddLine(sqrt, l, line[..|line| - 1], id), line[|line| - 1], id)
  }

  /** The centrelines of the known links of the route, one after the other. */
  function RouteOf(sqrt: real -> real, links: map<string, RouteLink>, ids: seq<string>): (r: Polyline)
    ensures |r.cumulative| == |r.reference|
    decreases |ids|
  {
    if ids == [] then EMPTY
    else
      var r, id := RouteOf(sqrt, links, ids[..|ids| - 1]), ids[|ids| - 1];
      if id in links then AddLine(sqrt, r, links[id].centerline, id) else r
  }

  ghost predicate SegmentMeasured(sqrt: real -> real, l: Polyline, i: nat)
    requires 0 < i < |l.reference| && |l.cumulative| == |l.reference|
  {
    && l.cumulative[i] == l.cumulative[i - 1] + Length(sqrt, l.reference[i - 1], l.reference[i])
    && Length(sqrt, l.reference[i - 1], l.reference[i]) >= MIN_SPACING
  }

  /** Arc lengths start at zero and add up, no segment is shorter than the spacing, and each segment knows
      its link. */
  ghost predicate Measured(sqrt: real -> real, l: Polyline) {
    && |l.cumulative| == |l.reference|
    && (l.reference != [] ==> l.cumulative[0] == 0.0 && |l.segmentLink| == |l.reference| - 1)
    && forall i | 0 < i < |l.reference| :: SegmentMeasured(sqrt, l, i)
  }

  lemma AddPointMeasured(sqrt: real -> real, l: Polyline, p: Point, id: string)
    requires Measured(sqrt, l)
    ensures Measured(sqrt, AddPoint(sqrt, l, p, id))
  {
    var r := AddPoint(sqrt, l, p, id);
    hide Length;
    forall i | 0 < i < |r.reference|
      ensures SegmentMeasured(sqrt, r, i)
    {
      if i < |l.reference| {
        assert SegmentMeasured(sqrt, l, i);
      }
    }
  }

  lemma {:induction false} AddLineMeasured(sqrt: real -> real, l: Polyline, line: seq<Point>, id: string)
    requires Measured(sqrt, l)
    ensures Measured(sqrt, AddLine(sqrt, l, line, id))
    decreases |line|
  {
    if line != [] {
      var n := |line| - 1;
      AddLineMeasured(sqrt, l, line[..n], id);
      AddPointMeasured(sqrt, AddLine(sqrt, l, line[..n], id), line[n], id);
    }
  }

  lemma {:induction false} RouteMeasured(sqrt: real -> real, links: map<string, RouteLink>, ids: seq<string>)
    ensures Measured(sqrt, RouteOf(sqrt, links, ids))
    decreases |ids|
  {
    if ids != [] {
      var n := |ids| - 1;
      RouteMeasured(sqrt, links, ids[..n]);
      if ids[n] in links {
        AddLineMeasured(sqrt, RouteOf(sqrt, links, ids[..n]), links[ids[n]].centerline, ids[n]);
      }
    }
  }

  // ---------------------------------------------------------------- projection

  /** The squared distance from the position to the foot on segment `i`. */
  function FootDistance2(l: Polyline, p: Point, i: nat): real
    requires 0 < i < |l.reference| && Distance2(l.reference[i - 1], l.reference[i]) > 0.0
  {
    Distance2(Toward(l.reference[i - 1], l.reference[i], Foot(l.reference[i - 1], l.reference[i], p)), p)
  }

  predicate Skipped(l: Polyline, i: nat)
    requires 0 < i < |l.reference|
  {
    Distance2(l.reference[i - 1], l.reference[i]) < MIN_SQUARED_LENGTH
  }

  /** The best segment among the first `n`, 0 when none is near enough, and its squared distance. */
  function BestSegment(l: Polyline, p: Point, n: nat): (r: (nat, real))
    requires n < |l.reference|
    ensures r.0 <= n
    ensures r.0 > 0 ==> !Skipped(l, r.0) && r.1 == FootDistance2(l, p, r.0)
  {
    if n == 0 then (0, FAR_SQUARED)
    else
      var best := BestSegment(l, p, n - 1);
      if !Skipped(l, n) && FootDistance2(l, p, n) < best.1 then (n, FootDistance2(l, p, n)) else best
  }

  lemma {:induction false} BestSegmentIsNearest(l: Polyline, p: Point, n: nat)
    requires n < |l.reference|
    ensures var (best, d2) := BestSegment(l, p, n);
            && (if best == 0 then d2 == FAR_SQUARED else d2 < FAR_SQUARED)
            && (forall i | 0 < i <= n && !Skipped(l, i) :: d2 <= FootDistance2(l, p, i))
            && (forall i | 0 < i < best && !Skipped(l, i) :: d2 < FootDistance2(l, p, i))
  {
    hide FootDistance2, Skipped;
    if n > 0 {
      BestSegmentIsNearest(l, p, n - 1);
    }
  }

  /** The arc length of the point a fraction `t` along segment `i`. */
  function ArcAt(sqrt: real -> real, l: Polyline, i: nat, t: real): real
    requires 0 < i < |l.reference| && |l.cumulative| == |l.reference|
  {
    l.cumulative[i - 1] + t * Length(sqrt, l.reference[i - 1], l.reference[i])
  }

  /** The vector product of the segment with the vector from `q` to `p`. */
  function Across(a: Point, b: Point, q: Point, p: Point): real {
    (b.x - a.x) * (p.y - q.y) - (b.y - a.y) * (p.x - q.x)
  }

  datatype Projection = Projection(s: real, d: real, link: string)

  /** The projection onto segment `i`: arc length, signed offset, and link. */
  function ProjectionOn(sqrt: real -> real, l: Polyline, p: Point, i: nat): Projection
    requires 0 < i < |l.reference| && !Skipped(l, i) && |l.cumulative| == |l.reference|
             && |l.segmentLink| == |l.reference| - 1
    requires Length(sqrt, l.reference[i - 1], l.reference[i]) != 0.0
  {
    var a, b := l.reference[i - 1], l.reference[i];
    var length, foot := Length(sqrt, a, b), Toward(a, b, Foot(a, b, p));
    Projection(ArcAt(sqrt, l, i, Foot(a, b, p)),
               Across(a, b, foot, p) / length,
               l.segmentLink[i - 1])
  }

  // ---------------------------------------------------------------- from arc length to point

  /** The first index whose arc length is not below `s`, or the number of points. */
  function LowerBound(cumulative: seq<real>, s: real): (i: nat)
    ensures i <= |cumulative| && (forall j | 0 <= j < i :: cumulative[j] < s)
            && (i < |cumulative| ==> cumulative[i] >= s)
  {
    if cumulative == [] || cumulative[0] >= s then 0 else
      var i := LowerBound(cumulative[1..], s);
      assert forall j | 0 < j < i + 1 :: cumulative[j] == cumulative[1..][j - 1];
      i + 1
  }

  function RoutePoint(l: Polyline, s: real): Point
    requires l.reference != [] && |l.cumulative| == |l.reference|
  {
    var n := |l.reference|;
    if s <= 0.0 then l.reference[0]
    else if s >= l.cumulative[n - 1] then l.reference[n - 1]
    else
      var i := LowerBound(l.cumulative, s);
      if i == 0 then l.reference[0]
      else
        var span := l.cumulative[i] - l.cumulative[i - 1];
        Toward(l.reference[i - 1], l.reference[i], if span > MIN_SPAN then (s - l.cumulative[i - 1]) / span else 0.0)
  }

  lemma {:induction false} ArcLengthsIncrease(sqrt: real -> real, l: Polyline, i: nat, j: nat)
    requires Measured(sqrt, l) && i < j < |l.reference|
    ensures l.cumulative[i] + MIN_SPACING <= l.cumulative[j]
    decreases j
  {
    assert SegmentMeasured(sqrt, l, j);
    hide Length;
    if i < j - 1 {
      ArcLengthsIncrease(sqrt, l, i, j - 1);
    }
  }

  lemma TowardEnds(a: Point, b: Point)
    ensures Toward(a, b, 0.0) == a && Toward(a, b, 1.0) == b
  {
  }

  lemma FractionOf(base: real, t: real, len: real, s: real)
    requires len > 0.0 && 0.0 <= t <= 1.0 && s == base + t * len
    ensures t == 0.0 ==> s == base
    ensures t == 1.0 ==> s == base + len
    ensures 0.0 < t < 1.0 ==> base < s < base + len && (s - base) / len == t
  {
    if 0.0 < t < 1.0 {
      assert (1.0 - t) * len > 0.0 && t * len > 0.0;
      assert s - base == t * len;
    }
  }

  lemma Ratio(x: real, y: real)
    requires x == y > 0.0
    ensures x / y == 1.0
  {
  }

  /** The interpolation of a point within the segment that the search finds. */
  lemma FoundSegment(sqrt: real -> real, l: Polyline, i: nat, s: real)
    requires Measured(sqrt, l) && 0 < i < |l.reference| && 0.0 < s < l.cumulative[|l.reference| - 1]
             && LowerBound(l.cumulative, s) == i
    ensures l.cumulative[i] - l.cumulative[i - 1] == Length(sqrt, l.reference[i - 1], l.reference[i]) >= MIN_SPACING
    ensures RoutePoint(l, s) == Toward(l.reference[i - 1], l.reference[i],
                                       (s - l.cumulative[i - 1]) / (l.cumulative[i] - l.cumulative[i - 1]))
  {
    assert SegmentMeasured(sqrt, l, i);
    hide Length, Toward;
  }

  lemma PointAtVertex(sqrt: real -> real, l: Polyline, i: nat)
    requires Measured(sqrt, l) && i < |l.reference|
    ensures RoutePoint(l, l.cumulative[i]) == l.reference[i]
  {
    var n, s := |l.reference|, l.cumulative[i];
    hide Length, Toward;
    if 0 < i < n - 1 {
      ArcLengthsIncrease(sqrt, l, 0, i);
      ArcLengthsIncrease(sqrt, l, i, n - 1);
      var j := LowerBound(l.cumulative, s);
      if j < i {
        ArcLengthsIncrease(sqrt, l, j, i);
      }
      FoundSegment(sqrt, l, i, s);
      Ratio(s - l.cumulative[i - 1], l.cumulative[i] - l.cumulative[i - 1]);
      TowardEnds(l.reference[i - 1], l.reference[i]);
    } else if 0 < i {
      ArcLengthsIncrease(sqrt, l, 0, i);
    }
  }

  /** The point at the arc length of a fraction of a segment is that fraction of the segment. */
  lemma RoutePointOnSegment(sqrt: real -> real, l: Polyline, i: nat, t: real)
    requires Measured(sqrt, l) && 0 < i < |l.reference| && 0.0 <= t <= 1.0
    ensures RoutePoint(l, ArcAt(sqrt, l, i, t)) == Toward(l.reference[i - 1], l.reference[i], t)
  {
    var s := ArcAt(sqrt, l, i, t);
    assert SegmentMeasured(sqrt, l, i);
    TowardEnds(l.reference[i - 1], l.reference[i]);
    FractionOf(l.cumulative[i - 1], t, Length(sqrt, l.reference[i - 1], l.reference[i]), s);
    hide Length, Toward, RoutePoint, ArcAt;
    if t == 0.0 {
      PointAtVertex(sqrt, l, i - 1);
    } else if t == 1.0 {
      PointAtVertex(sqrt, l, i);
    } else {
      InsideSegment(sqrt, l, i, s);
      FoundSegment(sqrt, l, i, s);
    }
  }

  /** Strictly inside a segment the search finds that segment. */
  lemma InsideSegment(sqrt: real -> real, l: Polyline, i: nat, s: real)
    requires Measured(sqrt, l) && 0 < i < |l.reference| && l.cumulative[i - 1] < s < l.cumulative[i]
    ensures 0.0 < s < l.cumulative[|l.reference| - 1] && LowerBound(l.cumulative, s) == i
  {
    hide Length;
    var j := LowerBound(l.cumulative, s);
    if i - 1 > 0 {
      ArcLengthsIncrease(sqrt, l, 0, i - 1);
    }
    if i < |l.reference| - 1 {
      ArcLengthsIncrease(sqrt, l, i, |l.reference| - 1);
    }
    if j < i - 1 {
      ArcLengthsIncrease(sqrt, l, j, i - 1);
    }
  }

  /** The point at the projected arc length is the foot on the best segment. */
  lemma ProjectionPoint(sqrt: real -> real, l: Polyline, p: Point, i: nat)
    requires Measured(sqrt, l) && 0 < i < |l.reference| && !Skipped(l, i)
    ensures SegmentMeasured(sqrt, l, i)
    ensures Distance2(RoutePoint(l, ProjectionOn(sqrt, l, p, i).s), p) == FootDistance2(l, p, i)
  {
    assert SegmentMeasured(sqrt, l, i);
    hide Length, RoutePoint, Toward, ArcAt, Foot;
    RoutePointOnSegment(sqrt, l, i, Foot(l.reference[i - 1], l.reference[i], p));
  }

  /** Where the route is not hopelessly far, the point at the projected arc length is no farther away than
      any point of a segment that is not skipped for being too short. */
  lemma ProjectionIsNearest(sqrt: real -> real, l: Polyline, p: Point, j: nat, u: real)
    requires Measured(sqrt, l) && 0 < j < |l.reference| && 0.0 <= u <= 1.0
    requires !Skipped(l, j)
    requires exists i :: 0 < i < |l.reference| && !Skipped(l, i) && FootDistance2(l, p, i) < FAR_SQUARED
    ensures var best := BestSegment(l, p, |l.reference| - 1).0;
            && best > 0 && SegmentMeasured(sqrt, l, best)
            && Distance2(RoutePoint(l, ProjectionOn(sqrt, l, p, best).s), p)
                <= Distance2(Toward(l.reference[j - 1], l.reference[j], u), p)
  {
    var best := BestSegment(l, p, |l.reference| - 1).0;
    BestSegmentIsNearest(l, p, |l.reference| - 1);
    FootIsNearest(l.reference[j - 1], l.reference[j], p, u);
    hide RoutePoint, ProjectionOn, Toward, Distance2;
    ProjectionPoint(sqrt, l, p, best);
  }

  // ---------------------------------------------------------------- what is reported

  /** The projection onto the best segment, or the start of the route where there is none. */
  ghost function Reported(sqrt: real -> real, l: Polyline, p: Point): Projection
    requires Measured(sqrt, l) && |l.reference| >= 2
  {
    var i := BestSegment(l, p, |l.reference| - 1).0;
    if i == 0 then Projection(0.0, 0.0, l.segmentLink[0])
    else
      assert SegmentMeasured(sqrt, l, i);
      ProjectionOn(sqrt, l, p, i)
  }

  ghost function ReportedDistance2(l: Polyline, p: Point): real
    requires |l.reference| >= 2
  {
    var i := BestSegment(l, p, |l.reference| - 1).0;
    if i == 0 then Distance2(l.reference[0], p) else FootDistance2(l, p, i)
  }

  /** The point a fraction `u` along segment `j`. */
  ghost function OnSegment(l: Polyline, j: nat, u: real): Point
    requires 0 < j < |l.reference|
  {
    Toward(l.reference[j - 1], l.reference[j], u)
  }

  /** No point of the route is nearer than the point at the reported arc length. */
  ghost predicate IsNearest(sqrt: real -> real, l: Polyline, p: Point)
    requires Measured(sqrt, l) && |l.reference| >= 2
  {
    forall j: nat, u | 0 < j < |l.reference| && 0.0 <= u <= 1.0 ::
      Distance2(RoutePoint(l, Reported(sqrt, l, p).s), p) <= Distance2(OnSegment(l, j, u), p)
  }

  /** Segment `i` is long enough and near enough to be projected onto. */
  ghost predicate Considered(l: Polyline, p: Point, i: nat) {
    0 < i < |l.reference| && !Skipped(l, i) && FootDistance2(l, p, i) < FAR_SQUARED
  }

  /** Segment `j` is not considered, and passes nearer than all that are, or than the start where none is. */
  ghost predicate Missed(l: Polyline, p: Point, j: nat) {
    && 0 < j < |l.reference| && Distance2(l.reference[j - 1], l.reference[j]) > 0.0 && !Considered(l, p, j)
    && (forall i: nat | Considered(l, p, i) :: FootDistance2(l, p, j) < FootDistance2(l, p, i))
    && ((forall i: nat :: !Considered(l, p, i)) ==> FootDistance2(l, p, j) < Distance2(l.reference[0], p))
  }

  lemma ReportedPoint(sqrt: real -> real, l: Polyline, p: Point)
    requires Measured(sqrt, l) && |l.reference| >= 2
    ensures Distance2(RoutePoint(l, Reported(sqrt, l, p).s), p) == ReportedDistance2(l, p)
  {
    hide Distance2, FootDistance2;
    var i := BestSegment(l, p, |l.reference| - 1).0;
    if i > 0 {
      ProjectionPoint(sqrt, l, p, i);
    }
  }

  lemma SegmentsHaveLength(sqrt: real -> real, l: Polyline, j: nat)
    requires SquareRoot(sqrt) && Measured(sqrt, l) && 0 < j < |l.reference|
    ensures Distance2(l.reference[j - 1], l.reference[j]) > 0.0
  {
    assert SegmentMeasured(sqrt, l, j);
  }

  /** The reported point is nearest exactly when no segment that was not considered passes nearer. */
  lemma NearestUnlessMissed(sqrt: real -> real, l: Polyline, p: Point)
    requires SquareRoot(sqrt) && Measured(sqrt, l) && |l.reference| >= 2
    ensures IsNearest(sqrt, l, p) <==> !exists j: nat :: Missed(l, p, j)
  {
    hide RoutePoint, Reported, Distance2, Toward, ReportedDistance2;
    ReportedPoint(sqrt, l, p);
    if j: nat :| Missed(l, p, j) {
      MissedIsNearer(l, p, j);
      var u := Foot(l.reference[j - 1], l.reference[j], p);
      assert FootDistance2(l, p, j) == Distance2(OnSegment(l, j, u), p);
    } else {
      forall j: nat, u | 0 < j < |l.reference| && 0.0 <= u <= 1.0
        ensures ReportedDistance2(l, p) <= Distance2(OnSegment(l, j, u), p)
      {
        SegmentsHaveLength(sqrt, l, j);
        FootIsNearest(l.reference[j - 1], l.reference[j], p, u);
        ConsideredIsNoNearer(l, p, j);
      }
    }
  }

  /** The reported distance is the least over the considered segments, or the distance of the start. */
  lemma ReportedIsLeast(l: Polyline, p: Point)
    requires |l.reference| >= 2
    ensures forall i: nat | Considered(l, p, i) :: ReportedDistance2(l, p) <= FootDistance2(l, p, i)
    ensures (exists i: nat :: Considered(l, p, i) && ReportedDistance2(l, p) == FootDistance2(l, p, i))
            || ((forall i: nat :: !Considered(l, p, i)) && ReportedDistance2(l, p) == Distance2(l.reference[0], p))
  {
    hide FootDistance2, Skipped, Distance2;
    BestSegmentIsNearest(l, p, |l.reference| - 1);
    var best := BestSegment(l, p, |l.reference| - 1).0;
    assert best > 0 ==> Considered(l, p, best);
  }

  lemma MissedIsNearer(l: Polyline, p: Point, j: nat)
    requires Missed(l, p, j) && |l.reference| >= 2
    ensures FootDistance2(l, p, j) < ReportedDistance2(l, p)
  {
    hide FootDistance2, Skipped, Distance2, ReportedDistance2, Considered;
    ReportedIsLeast(l, p);
  }

  lemma ConsideredIsNoNearer(l: Polyline, p: Point, j: nat)
    requires 0 < j < |l.reference| && Distance2(l.reference[j - 1], l.reference[j]) > 0.0 && !Missed(l, p, j)
    ensures ReportedDistance2(l, p) <= FootDistance2(l, p, j)
  {
    hide FootDistance2, Skipped, Distance2, ReportedDistance2, Considered;
    ReportedIsLeast(l, p);
  }

  /** With no segment too short, and one near enough, the reported point is nearest. */
  lemma NearestWhenNoneSkipped(sqrt: real -> real, l: Polyline, p: Point)
    requires SquareRoot(sqrt) && Measured(sqrt, l) && |l.reference| >= 2
    requires forall j | 0 < j < |l.reference| :: !Skipped(l, j)
    requires exists i :: 0 < i < |l.reference| && !Skipped(l, i) && FootDistance2(l, p, i) < FAR_SQUARED
    ensures IsNearest(sqrt, l, p)
  {
    hide FootDistance2, IsNearest, ReportedDistance2;
    NearestUnlessMissed(sqrt, l, p);
    var i :| 0 < i < |l.reference| && !Skipped(l, i) && FootDistance2(l, p, i) < FAR_SQUARED;
    assert Considered(l, p, i);
  }

  /** Two points that are kept, and too close for the projection. */
  const SHORT_ROUTE := map["only" := RouteLink([Point(0.0, 0.0), Point(0.00001, 0.0)], "end")]

  lemma TwoPointLine(sqrt: real -> real, a: Point, b: Point, id: string)
    requires Length(sqrt, a, b) >= MIN_SPACING
    ensures AddLine(sqrt, EMPTY, [a, b], id) == Polyline([a, b], [0.0, Length(sqrt, a, b)], [id])
  {
    hide Length;
    assert [a][..0] == [] && [a, b][..1] == [a];
    assert AddLine(sqrt, EMPTY, [], id) == EMPTY;
    assert AddLine(sqrt, EMPTY, [a], id) == Polyline([a], [0.0], []);
  }

  lemma OneLinkRoute(sqrt: real -> real, links: map<string, RouteLink>, id: string)
    requires id in links
    ensures RouteOf(sqrt, links, [id]) == AddLine(sqrt, EMPTY, links[id].centerline, id)
  {
    hide AddLine;
    assert [id][..0] == [];
    assert RouteOf(sqrt, links, []) == EMPTY;
  }

  lemma ShortLength(sqrt: real -> real)
    requires SquareRoot(sqrt)
    ensures Length(sqrt, Point(0.0, 0.0), Point(0.00001, 0.0)) == 0.00001
  {
    hide SquareRoot, Distance2;
    var d := Distance2(Point(0.0, 0.0), Point(0.00001, 0.0));
    ShortDistance();
    RootAt(sqrt, d);
    RootOfSquare(sqrt(d), 0.00001);
  }

  lemma RootAt(sqrt: real -> real, x: real)
    requires SquareRoot(sqrt) && x >= 0.0
    ensures sqrt(x) >= 0.0 && sqrt(x) * sqrt(x) == x
  {
  }

  lemma ShortDistance()
    ensures Distance2(Point(0.0, 0.0), Point(0.00001, 0.0)) == 0.00001 * 0.00001
  {
  }

  lemma ShortRouteIs(sqrt: real -> real)
    requires SquareRoot(sqrt)
    ensures RouteOf(sqrt, SHORT_ROUTE, ["only"])
         == Polyline([Point(0.0, 0.0), Point(0.00001, 0.0)], [0.0, 0.00001], ["only"])
  {
    hide RouteOf, AddLine, Length, SquareRoot;
    ShortLength(sqrt);
    OneLinkRoute(sqrt, SHORT_ROUTE, "only");
    TwoPointLine(sqrt, Point(0.0, 0.0), Point(0.00001, 0.0), "only");
  }

  lemma ShortSegment(l: Polyline, p: Point)
    requires l.reference == [Point(0.0, 0.0), Point(0.00001, 0.0)] && p == Point(0.00001, 0.0)
    ensures BestSegment(l, p, 1).0 == 0
    ensures Distance2(OnSegment(l, 1, 1.0), p) < Distance2(l.reference[0], p)
  {
    hide Distance2, Toward;
    ShortDistance();
    NoDistance(p);
    TowardEnds(l.reference[0], l.reference[1]);
    assert Skipped(l, 1) && BestSegment(l, p, 0).0 == 0;
  }

  lemma NoDistance(p: Point)
    ensures Distance2(p, p) == 0.0
  {
  }

  /** The reported point need not be nearest: here both ends of the segment are kept and the segment is skipped,
      so the start is reported for a position at the other end. */
  lemma NotAlwaysNearest(sqrt: real -> real)
    requires SquareRoot(sqrt)
    ensures var l, p := RouteOf(sqrt, SHORT_ROUTE, ["only"]), Point(0.00001, 0.0);
            && Measured(sqrt, l) && |l.reference| == 2
            && Reported(sqrt, l, p).s == 0.0 && !IsNearest(sqrt, l, p)
  {
    RouteMeasured(sqrt, SHORT_ROUTE, ["only"]);
    ShortRouteIs(sqrt);
    hide RouteOf, Measured, BestSegment, Distance2, OnSegment, ProjectionOn;
    var l, p := RouteOf(sqrt, SHORT_ROUTE, ["only"]), Point(0.00001, 0.0);
    ShortSegment(l, p);
    assert RoutePoint(l, 0.0) == l.reference[0];
  }

  // ---------------------------------------------------------------- the object

  class RouteManager {
    const sqrt: real -> real
    var ids: seq<string>
    var reference: seq<Point>
    var cumulative: seq<real>
    var segmentLink: seq<string>

    ghost function Line(): Polyline
      reads this
    {
      Polyline(reference, cumulative, segmentLink)
    }

    ghost predicate Valid()
      reads this
    {
      Measured(sqrt, Line())
    }

    constructor (sqrt: real -> real)
      ensures Valid() && Line() == EMPTY && this.sqrt == sqrt
    {
      this.sqrt, ids, reference, cumulative, segmentLink := sqrt, [], [], [], [];
    }

    method Push(point: Point, id: string)
      requires |cumulative| == |reference|
      modifies this`reference, this`cumulative, this`segmentLink
      ensures Line() == AddPoint(sqrt, old(Line()), point, id)
    {
      hide Distance2;
      if reference == [] {
        reference, cumulative := [point], [0.0];
        segmentLink := [];
        return;
      }
      var n := |reference|;
      var distance := Length(sqrt, reference[n - 1], point);
      if distance < MIN_SPACING {
        return;
      }
      cumulative := cumulative + [cumulative[n - 1] + distance];
      reference := reference + [point];
      segmentLink := segmentLink + [id];
    }

    method Initialize(links: map<string, RouteLink>, route: seq<string>) returns (ok: bool)
      modifies this
      ensures Valid() && ids == route && Line() == RouteOf(sqrt, links, route)
      ensures ok <==> |reference| > 1
    {
      hide AddPoint;
      ids, reference, cumulative, segmentLink := route, [], [], [];
      for i := 0 to |route|
        invariant ids == route && Line() == RouteOf(sqrt, links, route[..i])
      {
        assert route[..i + 1][..i] == route[..i];
        if route[i] !in links {
          continue;
        }
        var line := links[route[i]].centerline;
        ghost var before := Line();
        for j := 0 to |line|
          invariant ids == route && |before.cumulative| == |before.reference|
          invariant Line() == AddLine(sqrt, before, line[..j], route[i])
        {
          assert line[..j + 1][..j] == line[..j];
          Push(line[j], route[i]);
        }
        assert line[..|line|] == line;
      }
      assert route[..|route|] == route;
      RouteMeasured(sqrt, links, route);
      ok := |reference| > 1;
    }

    /** Projects a position; far from every segment that is long enough, the start of the route is
        reported. */
    method ProjectEgo(p: Point) returns (r: Option<Projection>)
      requires Valid()
      ensures |reference| < 2 <==> r.None?
      ensures |reference| >= 2 ==> r == Some(Reported(sqrt, Line(), p))
    {
      hide FootDistance2, Foot, Toward, Length, ArcAt;
      if |reference| < 2 {
        return None;
      }
      ghost var l := Line();
      var bestDistance, bestS, bestD, bestSegment := FAR_SQUARED, 0.0, 0.0, 0;
      for i := 1 to |reference|
        invariant var b := BestSegment(l, p, i - 1);
                  && bestDistance == b.1 && bestSegment == (if b.0 == 0 then 0 else b.0 - 1)
                  && if b.0 == 0 then bestS == 0.0 && bestD == 0.0
                     else
                       && SegmentMeasured(sqrt, l, b.0)
                       && ProjectionOn(sqrt, l, p, b.0) == Projection(bestS, bestD, segmentLink[bestSegment])
      {
        assert SegmentMeasured(sqrt, l, i);
        var skipped, distance, s, d := Segment(p, i);
        if skipped {
          continue;
        }
        if distance < bestDistance {
          bestDistance, bestS, bestD, bestSegment := distance, s, d, i - 1;
        }
      }
      // every segment has its link, so the fall-back to the last id of the route is never taken
      return Some(Projection(bestS, bestD, segmentLink[bestSegment]));
    }

    /** The foot on one segment. */
    method Segment(p: Point, i: nat) returns (skipped: bool, distance: real, s: real, d: real)
      requires Valid() && 0 < i < |reference|
      requires SegmentMeasured(sqrt, Line(), i)
      ensures skipped == Skipped(Line(), i)
      ensures !skipped ==>
                && distance == FootDistance2(Line(), p, i)
                && ProjectionOn(sqrt, Line(), p, i) == Projection(s, d, segmentLink[i - 1])
    {
      hide Foot, Toward, Distance2;
      distance, s, d := 0.0, 0.0, 0.0;
      var a, b := reference[i - 1], reference[i];
      skipped := Distance2(a, b) < MIN_SQUARED_LENGTH;
      if skipped {
        return;
      }
      var length, t := Length(sqrt, a, b), Foot(a, b, p);
      var foot := Toward(a, b, t);
      distance := Distance2(foot, p);
      s := cumulative[i - 1] + t * length;
      d := ((b.x - a.x) * (p.y - foot.y) - (b.y - a.y) * (p.x - foot.x)) / length;
    }

    method GetRoutePoint(s: real) returns (r: Option<Point>)
      requires Valid()
      ensures r == if reference == [] then None else Some(RoutePoint(Line(), s))
    {
      hide Toward;
      var n := |reference|;
      if n == 0 || |cumulative| != n {
        return None;
      }
      if s <= 0.0 {
        return Some(reference[0]);
      }
      if s >= cumulative[n - 1] {
        return Some(reference[n - 1]);
      }
      var i := 0;
      while i < n && cumulative[i] < s
        invariant i <= n && forall j | 0 <= j < i :: cumulative[j] < s
      {
        i := i + 1;
      }
      assert i == LowerBound(cumulative, s);
      assert i > 0;  // arc lengths start at zero, so the first point is never found here
      var span := cumulative[i] - cumulative[i - 1];
      var t := if span > MIN_SPAN then (s - cumulative[i - 1]) / span else 0.0;
      return Some(Toward(reference[i - 1], reference[i], t));
    }
  }
}
