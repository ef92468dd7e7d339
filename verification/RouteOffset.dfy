/** Arc length and signed offset together: the way back from a projection to the position (map/route_manager.cpp). */
module RouteOffset {
  import opened RealMath
  import opened Route

  /** Twice the signed area of the triangle: positive exactly when `p` lies to the left of the line from `a` to `b`. */
  function Turn(a: Point, b: Point, p: Point): real {
    (b.x - a.x) * (p.y - a.y) - (b.y - a.y) * (p.x - a.x)
  }

  lemma TurnFromFoot(a: Point, b: Point, p: Point, t: real)
    ensures var foot := Toward(a, b, t);
            Across(a, b, foot, p) == Turn(a, b, p)
  {
    var dx, dy := b.x - a.x, b.y - a.y;
    var tx, ty := t * dx, t * dy;
    assert dx * ty == dy * tx;
    assert dx * (p.y - (a.y + ty)) - dy * (p.x - (a.x + tx)) == dx * (p.y - a.y) - dy * (p.x - a.x);
  }

  /** The offset times the length of the segment is the signed area: the offset is the distance from the line of the
      segment, positive exactly on its left. */
  lemma OffsetIsSigned(sqrt: real -> real, l: Polyline, p: Point, i: nat)
    requires SquareRoot(sqrt) && Measured(sqrt, l) && 0 < i < |l.reference| && !Skipped(l, i)
    ensures var a, b := l.reference[i - 1], l.reference[i];
            && SegmentMeasured(sqrt, l, i) && Length(sqrt, a, b) > 0.0
            && ProjectionOn(sqrt, l, p, i).d * Length(sqrt, a, b) == Turn(a, b, p)
            && (ProjectionOn(sqrt, l, p, i).d > 0.0 <==> Turn(a, b, p) > 0.0)
            && (ProjectionOn(sqrt, l, p, i).d == 0.0 <==> Turn(a, b, p) == 0.0)
  {
    hide Across, Foot, Toward, Turn, Distance2, ArcAt;
    assert SegmentMeasured(sqrt, l, i);
    assert Length(sqrt, l.reference[i - 1], l.reference[i]) > 0.0;
    var a, b := l.reference[i - 1], l.reference[i];
    TurnFromFoot(a, b, p, Foot(a, b, p));
    var d, length := ProjectionOn(sqrt, l, p, i).d, Length(sqrt, a, b);
    assert d == Turn(a, b, p) / length;
    SignOfQuotient(Turn(a, b, p), length, d);
  }

  lemma SignOfQuotient(x: real, length: real, d: real)
    requires length > 0.0 && d == x / length
    ensures d * length == x && (d > 0.0 <==> x > 0.0) && (d == 0.0 <==> x == 0.0)
  {
    if d > 0.0 {
      assert d * length > 0.0;
    } else if d < 0.0 {
      assert -d * length > 0.0;
    }
  }

  /** At the foot of the perpendicular the rest of the way is at a right angle to the segment. */
  lemma RightAngle(a: Point, b: Point, p: Point, t: real)
    requires Distance2(a, b) > 0.0 && t == Foot(a, b, p) && 0.0 < t < 1.0
    ensures var foot := Toward(a, b, t);
            (b.x - a.x) * (p.x - foot.x) + (b.y - a.y) * (p.y - foot.y) == 0.0
  {
    var reach, l := Reach(a, b, p), Distance2(a, b);
    assert reach == t * l by {
      hide Reach, Distance2;
      assert t == reach / l;
    }
    var dx, dy := b.x - a.x, b.y - a.y;
    var px, py := p.x - a.x, p.y - a.y;
    assert reach == px * dx + py * dy && l == dx * dx + dy * dy;
    assert dx * (px - t * dx) + dy * (py - t * dy) == reach - t * l;
  }

  /** A vector at a right angle to (dx, dy), of which the other product is known. */
  lemma AcrossOnly(dx: real, dy: real, vx: real, vy: real, length2: real, turn: real)
    requires dx * vx + dy * vy == 0.0 && dx * vy - dy * vx == turn && length2 == dx * dx + dy * dy
    ensures length2 * vx == -dy * turn && length2 * vy == dx * turn
  {
    assert length2 * vx == dx * (dx * vx + dy * vy) - dy * (dx * vy - dy * vx);
    assert length2 * vy == dy * (dx * vx + dy * vy) + dx * (dx * vy - dy * vx);
  }

  /** From the reported arc length, the reported offset to the left of the segment leads back to the position, wherever
      that projects strictly inside the segment. */
  lemma ProjectionLeadsBack(sqrt: real -> real, l: Polyline, p: Point, i: nat)
    requires SquareRoot(sqrt) && Measured(sqrt, l) && 0 < i < |l.reference| && !Skipped(l, i)
    requires 0.0 < Foot(l.reference[i - 1], l.reference[i], p) < 1.0
    ensures SegmentMeasured(sqrt, l, i)
    ensures var a, b := l.reference[i - 1], l.reference[i];
            var pr := ProjectionOn(sqrt, l, p, i);
            var at, length := RoutePoint(l, pr.s), Length(sqrt, a, b);
            && length > 0.0
            && p.x == at.x - pr.d * ((b.y - a.y) / length) && p.y == at.y + pr.d * ((b.x - a.x) / length)
  {
    hide Across, Foot, Toward, Turn, Distance2, ArcAt, RoutePoint, SquareRoot, SegmentMeasured, Length;
    OffsetIsSigned(sqrt, l, p, i);
    var a, b, t := l.reference[i - 1], l.reference[i], Foot(l.reference[i - 1], l.reference[i], p);
    RoutePointOnSegment(sqrt, l, i, t);
    SquaredLength(sqrt, a, b);
    BackFromFoot(a, b, p, t, Length(sqrt, a, b), ProjectionOn(sqrt, l, p, i).d);
  }

  lemma SquaredLength(sqrt: real -> real, a: Point, b: Point)
    requires SquareRoot(sqrt)
    ensures Length(sqrt, a, b) * Length(sqrt, a, b) == Distance2(a, b)
  {
    hide Distance2;
  }

  lemma BackFromFoot(a: Point, b: Point, p: Point, t: real, length: real, d: real)
    requires length > 0.0 && length * length == Distance2(a, b) > 0.0 && d * length == Turn(a, b, p)
    requires t == Foot(a, b, p) && 0.0 < t < 1.0
    ensures var foot := Toward(a, b, t);
            p.x == foot.x - d * ((b.y - a.y) / length) && p.y == foot.y + d * ((b.x - a.x) / length)
  {
    hide Foot, Turn, Toward, Distance2;
    var foot, dx, dy, ll := Toward(a, b, t), b.x - a.x, b.y - a.y, length * length;
    var vx, vy, turn := p.x - foot.x, p.y - foot.y, Turn(a, b, p);
    FromFoot(a, b, p, t, dx, dy, vx, vy);
    FromLength(dx, dy, vx, vy, length, ll, turn, d);
  }

  lemma FromFoot(a: Point, b: Point, p: Point, t: real, dx: real, dy: real, vx: real, vy: real)
    requires Distance2(a, b) > 0.0 && t == Foot(a, b, p) && 0.0 < t < 1.0
    requires dx == b.x - a.x && dy == b.y - a.y && vx == p.x - Toward(a, b, t).x && vy == p.y - Toward(a, b, t).y
    ensures Distance2(a, b) == dx * dx + dy * dy
    ensures dx * vx + dy * vy == 0.0 && dx * vy - dy * vx == Turn(a, b, p)
  {
    hide Foot, Toward, Turn;
    RightAngle(a, b, p, t);
    TurnFromFoot(a, b, p, t);
  }

  lemma FromLength(dx: real, dy: real, vx: real, vy: real, length: real, ll: real, turn: real, d: real)
    requires length > 0.0 && ll == length * length == dx * dx + dy * dy && turn == d * length
    requires dx * vx + dy * vy == 0.0 && dx * vy - dy * vx == turn
    ensures vx == -(d * (dy / length)) && vy == d * (dx / length)
  {
    hide *;
    AcrossOnly(dx, dy, vx, vy, ll, turn);
    ByLength(length, ll, vx, -dy, d, turn);
    ByLength(length, ll, vy, dx, d, turn);
    LeftShare(d, dy, length);
  }

  lemma ByLength(length: real, ll: real, v: real, share: real, d: real, turn: real)
    requires length > 0.0 && ll == length * length && ll * v == share * turn && turn == d * length
    ensures v == d * (share / length)
  {
    var q := share / length;
    assert q * length == share;
    assert share * turn == q * length * (d * length);
    assert q * length * (d * length) == (d * q) * ll;
    ProductNonzero(length, length, ll);
    Cancel(ll, v, d * q);
  }

  lemma LeftShare(d: real, y: real, length: real)
    requires length != 0.0
    ensures d * (-y / length) == -(d * (y / length))
  {
    var q := y / length;
    Quotient(-y, -q, length);
  }
}
