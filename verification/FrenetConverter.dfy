/** Conversions between road (Frenet) and plane (Cartesian) coordinates at a reference point
    (math/frenet_converter.cpp). The reference point, which the program interpolates from the reference
    line at the closest arc length, is a parameter. */
module FrenetConverter {
  import opened RealMath
  import RefLine

  datatype Cartesian = Cartesian(x: real, y: real, yaw: real, kappa: real, v: real, a: real)

  /** Motion along the road with the offset's derivatives taken by arc length. */
  datatype Frenet = Frenet(sDot: real, sDdot: real, d: real, dPrime: real, dPprime: real)

  datatype Planar = Planar(sin: real -> real, cos: real -> real, tan: real -> real, atan2: (real, real) -> real)

  /** How much longer the offset curve is than the reference line. */
  function Stretch(rp: RefLine.RefPoint, d: real): real { 1.0 - rp.kappa * d }

  /** The arc-length derivative of the curvature term kappa * d. */
  function StretchRate(rp: RefLine.RefPoint, d: real, dPrime: real): real { rp.dKappa * d + rp.kappa * dPrime }

  function HeadingRate(rp: RefLine.RefPoint, kappa: real, m: real, c: real): real
    requires c != 0.0
  {
    kappa * m / c - rp.kappa
  }

  /** The part of the plane acceleration that turning contributes. */
  function TurningAccel(sDot: real, m: real, c: real, t: real, headingRate: real, stretchRate: real): real
    requires c != 0.0
  {
    (sDot * sDot / c) * (m * t * headingRate - stretchRate)
  }

  function Curvature(rp: RefLine.RefPoint, m: real, c: real, t: real, dPprime: real, stretchRate: real): real
    requires m * m != 0.0 && m != 0.0
  {
    rp.kappa * c / m + (dPprime + stretchRate * t) * c * c * c / (m * m)
  }

  lemma SquareNonzero(x: real, xx: real)
    requires x != 0.0 && xx == x * x
    ensures xx != 0.0
  {
    ProductNonzero(x, x, xx);
  }

  /** What the converted point carries besides its position and heading. */
  datatype Motion = Motion(kappa: real, v: real, a: real)

  /** Curvature, speed and acceleration for a heading offset with cosine c and tangent t. */
  function Encode(rp: RefLine.RefPoint, f: Frenet, c: real, t: real): Motion
    requires Stretch(rp, f.d) != 0.0 && c != 0.0
  {
    var m := Stretch(rp, f.d);
    SquareNonzero(m, m * m);
    var kappa := Curvature(rp, m, c, t, f.dPprime, StretchRate(rp, f.d, f.dPrime));
    Motion(kappa,
           f.sDot * m / c,
           f.sDdot * m / c + TurningAccel(f.sDot, m, c, t, HeadingRate(rp, kappa, m, c),
                                          StretchRate(rp, f.d, f.dPrime)))
  }

  function Decode(rp: RefLine.RefPoint, d: real, c: real, t: real, q: Motion): Frenet
    requires Stretch(rp, d) != 0.0 && c != 0.0
  {
    var m := Stretch(rp, d);
    SquareNonzero(c, c * c);
    var dPrime := m * t;
    var headingRate := HeadingRate(rp, q.kappa, m, c);
    var sDot := q.v * c / m;
    var turning := TurningAccel(sDot, m, c, t, headingRate, StretchRate(rp, d, dPrime));
    Frenet(sDot, (q.a - turning) * c / m, d, dPrime, -StretchRate(rp, d, dPrime) * t + (m / (c * c)) * headingRate)
  }

  function FrenetToCartesian(g: Planar, rp: RefLine.RefPoint, f: Frenet): Cartesian
    requires Stretch(rp, f.d) != 0.0 && g.cos(g.atan2(f.dPrime, Stretch(rp, f.d))) != 0.0
  {
    var delta := g.atan2(f.dPrime, Stretch(rp, f.d));
    var q := Encode(rp, f, g.cos(delta), g.tan(delta));
    Cartesian(rp.x + f.d * -g.sin(rp.theta), rp.y + f.d * g.cos(rp.theta), NormalizeAngle(rp.theta + delta), q.kappa,
              q.v, q.a)
  }

  function Offset(g: Planar, rp: RefLine.RefPoint, p: Cartesian): real {
    (p.x - rp.x) * -g.sin(rp.theta) + (p.y - rp.y) * g.cos(rp.theta)
  }

  function Heading(rp: RefLine.RefPoint, p: Cartesian): real { NormalizeAngle(p.yaw - rp.theta) }

  function CartesianToFrenet(g: Planar, rp: RefLine.RefPoint, p: Cartesian): Frenet
    requires Stretch(rp, Offset(g, rp, p)) != 0.0 && g.cos(Heading(rp, p)) != 0.0
  {
    Decode(rp, Offset(g, rp, p), g.cos(Heading(rp, p)), g.tan(Heading(rp, p)), Motion(p.kappa, p.v, p.a))
  }

  // ---------------------------------------------------------------- laws of the angle functions

  /** Facts about the angle functions; "< 2" stands for "at most half of pi", which the cosine's sign settles. */
  ghost predicate Laws(g: Planar) {
    && (forall a: real :: g.sin(a) * g.sin(a) + g.cos(a) * g.cos(a) == 1.0)
    && (forall y: real, x: real | x > 0.0 :: Opens(g, y, x))
    && (forall a: real, x: real | x > 0.0 && -2.0 < a < 2.0 && g.cos(a) > 0.0 :: Closes(g, a, x))
  }

  /** In the right half plane the angle is determined by its tangent. */
  ghost predicate Closes(g: Planar, a: real, x: real) {
    g.atan2(x * g.tan(a), x) == a
  }

  /** For x > 0 the angle of (x, y) lies in the right half plane and its tangent is y / x. */
  ghost predicate Opens(g: Planar, y: real, x: real) {
    var a := g.atan2(y, x);
    -2.0 < a < 2.0 && g.cos(a) > 0.0 && x * g.tan(a) == y
  }

  lemma ClosesAt(g: Planar, a: real, x: real, y: real)
    requires Closes(g, a, x) && y == x * g.tan(a)
    ensures g.atan2(y, x) == a
  {
  }

  /** Turning by a reference heading, normalizing and turning back is the identity on small angles. */
  lemma HeadingBack(theta: real, delta: real)
    requires -2.0 < delta < 2.0
    ensures NormalizeAngle(NormalizeAngle(theta + delta) - theta) == delta
  {
    hide NormalizeAngle, Turns;
    NormalizedByWholeTurns(theta + delta);
    var j: int :| NormalizeAngle(theta + delta) == theta + delta + Turns(j);
    NormalizedByWholeTurns(delta + Turns(j));
    var k: int :| NormalizeAngle(delta + Turns(j)) == delta + Turns(j) + Turns(k);
    TurnsAdd(j, k);
    NormalInRange(delta + Turns(j));
    SmallTurn(delta, j + k);
  }

  /** Likewise the other way round, for headings strictly inside the normal range. */
  lemma YawBack(theta: real, yaw: real)
    requires -PI < yaw < PI
    ensures NormalizeAngle(theta + NormalizeAngle(yaw - theta)) == yaw
  {
    hide NormalizeAngle, Turns;
    NormalizedByWholeTurns(yaw - theta);
    var j: int :| NormalizeAngle(yaw - theta) == yaw - theta + Turns(j);
    NormalizedByWholeTurns(yaw + Turns(j));
    var k: int :| NormalizeAngle(yaw + Turns(j)) == yaw + Turns(j) + Turns(k);
    TurnsAdd(j, k);
    NormalInRange(yaw + Turns(j));
    SmallTurn(yaw, j + k);
  }

  lemma TurnsAdd(j: int, k: int)
    ensures Turns(j) + Turns(k) == Turns(j + k) && Turns(0) == 0.0
  {
  }

  lemma NormalInRange(angle: real)
    ensures -PI <= NormalizeAngle(angle) <= PI
  {
  }

  lemma SmallTurn(a: real, k: int)
    requires -PI < a < PI && -PI <= a + Turns(k) <= PI
    ensures k == 0
  {
  }

  // ---------------------------------------------------------------- algebra of the formulas

  lemma ScaleBack(x: real, m: real, c: real)
    requires m != 0.0 && c != 0.0
    ensures (x * m / c) * c / m == x
    ensures (x * c / m) * m / c == x
  {
    var y := x * m / c;
    assert y * c == x * m;
    var z := x * c / m;
    assert z * m == x * c;
  }

  /** The heading rate that the converted curvature gives back. */
  lemma HeadingRateOf(rp: RefLine.RefPoint, m: real, c: real, t: real, dPprime: real, stretchRate: real, u: real,
                      m2: real, kappa: real)
    requires m != 0.0 && c != 0.0 && m2 == m * m && m2 != 0.0 && u == dPprime + stretchRate * t
    requires kappa == Curvature(rp, m, c, t, dPprime, stretchRate)
    ensures HeadingRate(rp, kappa, m, c) == u * c * c / m
  {
    var first := rp.kappa * c / m;
    assert first * m == rp.kappa * c;
    var n := u * c * c * c;
    var second := n / m2;
    assert second * m2 == n;
    assert second * m * m == n;
    var w := u * c * c / m;
    assert w * m == u * c * c;
    assert second * m * m == w * c * m;
    Cancel(m, second * m, w * c);
    assert kappa == first + second;
    assert kappa * m == (rp.kappa + w) * c;
    Quotient(kappa * m, rp.kappa + w, c);
  }

  lemma SecondDerivativeBack(m: real, c: real, t: real, dPprime: real, stretchRate: real, u: real, rate: real)
    requires m != 0.0 && c != 0.0 && c * c != 0.0 && u == dPprime + stretchRate * t && rate == u * c * c / m
    ensures -stretchRate * t + (m / (c * c)) * rate == dPprime
  {
    assert rate * m == u * c * c;
    var c2 := c * c;
    var r := m / c2;
    assert r * c2 == m;
    assert (r * rate) * c2 == rate * m;
    assert (r * rate) * c2 == u * c2;
    Cancel(c2, r * rate, u);
  }

  // ---------------------------------------------------------------- round trips

  /** Decoding with the same heading offset undoes encoding. */
  lemma EncodeDecode(rp: RefLine.RefPoint, f: Frenet, c: real, t: real)
    requires Stretch(rp, f.d) != 0.0 && c != 0.0 && Stretch(rp, f.d) * t == f.dPrime
    ensures Decode(rp, f.d, c, t, Encode(rp, f, c, t)) == f
  {
    hide Stretch;
    hide StretchRate;
    hide HeadingRate;
    hide Curvature;
    hide TurningAccel;
    var m := Stretch(rp, f.d);
    var m2 := m * m;
    SquareNonzero(m, m2);
    SquareNonzero(c, c * c);
    var q := Encode(rp, f, c, t);
    var w := StretchRate(rp, f.d, f.dPrime);
    var u := f.dPprime + w * t;
    HeadingRateOf(rp, m, c, t, f.dPprime, w, u, m2, q.kappa);
    var rate := HeadingRate(rp, q.kappa, m, c);
    SecondDerivativeBack(m, c, t, f.dPprime, w, u, rate);
    ScaleBack(f.sDot, m, c);
    ScaleBack(f.sDdot, m, c);
    var turning := TurningAccel(f.sDot, m, c, t, rate, w);
    assert q.a - turning == f.sDdot * m / c;
    var back := Decode(rp, f.d, c, t, q);
    assert back.sDot == f.sDot && back.dPrime == f.dPrime;
    assert back.dPprime == f.dPprime;
    assert back.sDdot == f.sDdot;
  }

  lemma CurvatureBack(rp: RefLine.RefPoint, m: real, m2: real, c: real, c2: real, t: real, w: real, kappa: real,
                      rate: real, dPprime: real)
    requires m != 0.0 && c != 0.0 && m2 == m * m && m2 != 0.0 && c2 == c * c && c2 != 0.0
    requires rate == HeadingRate(rp, kappa, m, c) && dPprime == -w * t + (m / c2) * rate
    ensures Curvature(rp, m, c, t, dPprime, w) == kappa
  {
    var u := dPprime + w * t;
    var r := m / c2;
    assert r * c2 == m;
    assert u == r * rate;
    assert u * c2 == m * rate;
    var k := kappa * m / c;
    assert k * c == kappa * m;
    var first := rp.kappa * c / m;
    assert first * m == rp.kappa * c;
    var n := u * c * c * c;
    assert n == m * rate * c;
    CurvatureParts(m, m2, c, rate, k, kappa, rp.kappa, first, n);
  }

  lemma CurvatureParts(m: real, m2: real, c: real, rate: real, k: real, kappa: real, kr: real, first: real, n: real)
    requires m != 0.0 && m2 == m * m && m2 != 0.0
    requires k * c == kappa * m && rate == k - kr && first * m == kr * c && n == m * rate * c
    ensures first + n / m2 == kappa
  {
    assert rate * c == (kappa - first) * m;
    assert n == (kappa - first) * m2;
    Quotient(n, kappa - first, m2);
  }

  /** Encoding undoes decoding. */
  lemma DecodeEncode(rp: RefLine.RefPoint, d: real, c: real, t: real, q: Motion)
    requires Stretch(rp, d) != 0.0 && c != 0.0
    ensures Encode(rp, Decode(rp, d, c, t, q), c, t) == q
  {
    hide Stretch;
    hide StretchRate;
    hide HeadingRate;
    hide Curvature;
    hide TurningAccel;
    var m := Stretch(rp, d);
    var m2 := m * m;
    var c2 := c * c;
    SquareNonzero(m, m2);
    SquareNonzero(c, c2);
    var f := Decode(rp, d, c, t, q);
    var w := StretchRate(rp, d, f.dPrime);
    var rate := HeadingRate(rp, q.kappa, m, c);
    CurvatureBack(rp, m, m2, c, c2, t, w, q.kappa, rate, f.dPprime);
    ScaleBack(q.v, m, c);
    var turning := TurningAccel(f.sDot, m, c, t, rate, w);
    ScaleBack(q.a - turning, m, c);
    var p := Encode(rp, f, c, t);
    assert p.kappa == q.kappa;
    assert p.v == q.v;
    assert p.a == q.a - turning + turning;
  }

  lemma ThereAndBack(d: real, sn: real, cs: real)
    requires sn * sn + cs * cs == 1.0
    ensures (d * -sn) * -sn + (d * cs) * cs == d
  {
    assert (d * -sn) * -sn + (d * cs) * cs == d * (sn * sn + cs * cs);
  }

  lemma OffsetBack(g: Planar, rp: RefLine.RefPoint, d: real, p: Cartesian)
    requires Laws(g)
    requires p.x == rp.x + d * -g.sin(rp.theta) && p.y == rp.y + d * g.cos(rp.theta)
    ensures Offset(g, rp, p) == d
  {
    var dx, dy := p.x - rp.x, p.y - rp.y;
    assert dx == d * -g.sin(rp.theta) && dy == d * g.cos(rp.theta);
    ThereAndBack(d, g.sin(rp.theta), g.cos(rp.theta));
  }

  /** Converting road motion to the plane and back recovers it, wherever the offset curve does not fold. */
  lemma FrenetRoundTrip(g: Planar, rp: RefLine.RefPoint, f: Frenet)
    requires Laws(g) && Stretch(rp, f.d) > 0.0
    ensures g.cos(g.atan2(f.dPrime, Stretch(rp, f.d))) > 0.0
    ensures var p := FrenetToCartesian(g, rp, f);
            && Stretch(rp, Offset(g, rp, p)) > 0.0 && g.cos(Heading(rp, p)) > 0.0
            && CartesianToFrenet(g, rp, p) == f
  {
    var m := Stretch(rp, f.d);
    var delta := g.atan2(f.dPrime, m);
    assert Opens(g, f.dPrime, m);
    var p := FrenetToCartesian(g, rp, f);
    OffsetBack(g, rp, f.d, p);
    HeadingBack(rp.theta, delta);
    EncodeDecode(rp, f, g.cos(delta), g.tan(delta));
    hide Stretch;
    hide Encode;
    hide Decode;
    hide Offset;
  }

  lemma AlongNormal(dx: real, dy: real, d: real, sn: real, cs: real)
    requires sn * sn + cs * cs == 1.0 && dx * cs + dy * sn == 0.0 && d == dx * -sn + dy * cs
    ensures d * -sn == dx && d * cs == dy
  {
    assert d * -sn == dx * (sn * sn) - (dy * sn) * cs;
    assert (dy * sn) * cs == -dx * (cs * cs);
    assert dx * (sn * sn) + dx * (cs * cs) == dx * (sn * sn + cs * cs);
    assert d * cs == dy * (cs * cs) - (dx * cs) * sn;
    assert (dx * cs) * sn == -dy * (sn * sn);
    assert dy * (sn * sn) + dy * (cs * cs) == dy * (sn * sn + cs * cs);
  }

  /** Converting a plane state to the road and back recovers it when the reference point is the foot of the
      perpendicular, the heading lies within a quarter turn of the road and the yaw is normalized. */
  lemma CartesianRoundTrip(g: Planar, rp: RefLine.RefPoint, p: Cartesian)
    requires Laws(g)
    requires (p.x - rp.x) * g.cos(rp.theta) + (p.y - rp.y) * g.sin(rp.theta) == 0.0
    requires Stretch(rp, Offset(g, rp, p)) > 0.0
    requires -PI < p.yaw < PI && -2.0 < Heading(rp, p) < 2.0 && g.cos(Heading(rp, p)) > 0.0
    ensures var f := CartesianToFrenet(g, rp, p);
            && g.atan2(f.dPrime, Stretch(rp, f.d)) == Heading(rp, p)
            && FrenetToCartesian(g, rp, f) == p
  {
    hide Stretch;
    hide Encode;
    hide Offset;
    var delta := Heading(rp, p);
    var f := CartesianToFrenet(g, rp, p);
    var m := Stretch(rp, f.d);
    assert f.d == Offset(g, rp, p) && f.dPrime == m * g.tan(delta);
    assert Closes(g, delta, m);
    ClosesAt(g, delta, m, f.dPrime);
    DecodeEncode(rp, f.d, g.cos(delta), g.tan(delta), Motion(p.kappa, p.v, p.a));
    YawBack(rp.theta, p.yaw);
    AlongNormal(p.x - rp.x, p.y - rp.y, f.d, g.sin(rp.theta), g.cos(rp.theta)) by {
      OffsetIs(g, rp, p);
    }
  }

  lemma OffsetIs(g: Planar, rp: RefLine.RefPoint, p: Cartesian)
    ensures Offset(g, rp, p) == (p.x - rp.x) * -g.sin(rp.theta) + (p.y - rp.y) * g.cos(rp.theta)
  {
  }

  // ---------------------------------------------------------------- derivatives by time and by arc length

  /** The offset's first and second derivative. */
  datatype Rates = Rates(first: real, second: real)

  function TimeToArc(sDot: real, sDdot: real, r: Rates): Rates
    requires sDot != 0.0
  {
    SquareNonzero(sDot, sDot * sDot);
    var dPrime := r.first / sDot;
    Rates(dPrime, (r.second - dPrime * sDdot) / (sDot * sDot))
  }

  function ArcToTime(sDot: real, sDdot: real, r: Rates): Rates {
    Rates(sDot * r.first, r.second * sDot * sDot + r.first * sDdot)
  }

  /** The two adapters are mutual inverses while the vehicle moves along the road. */
  lemma RatesRoundTrip(sDot: real, sDdot: real, r: Rates)
    requires sDot != 0.0
    ensures ArcToTime(sDot, sDdot, TimeToArc(sDot, sDdot, r)) == r
    ensures TimeToArc(sDot, sDdot, ArcToTime(sDot, sDdot, r)) == r
  {
    var q := sDot * sDot;
    SquareNonzero(sDot, q);
    var a := TimeToArc(sDot, sDdot, r);
    assert a.first * sDot == r.first;
    assert a.second * q == r.second - a.first * sDdot;
    var b := ArcToTime(sDot, sDdot, r);
    Quotient(b.first, r.first, sDot);
    assert b.second - r.first * sDdot == r.second * q;
    Quotient(b.second - r.first * sDdot, r.second, q);
  }

  /** The whole way of a path sample: time derivatives to the plane, and back to time derivatives. */
  lemma SampleRoundTrip(g: Planar, rp: RefLine.RefPoint, sDot: real, sDdot: real, d: real, r: Rates)
    requires Laws(g) && sDot != 0.0 && Stretch(rp, d) > 0.0
    ensures var a := TimeToArc(sDot, sDdot, r);
            var f := Frenet(sDot, sDdot, d, a.first, a.second);
            && g.cos(g.atan2(f.dPrime, Stretch(rp, f.d))) > 0.0
            && var p := FrenetToCartesian(g, rp, f);
            && Stretch(rp, Offset(g, rp, p)) > 0.0 && g.cos(Heading(rp, p)) > 0.0
            && var b := CartesianToFrenet(g, rp, p);
            && b.d == d && ArcToTime(b.sDot, b.sDdot, Rates(b.dPrime, b.dPprime)) == r
  {
    var a := TimeToArc(sDot, sDdot, r);
    FrenetRoundTrip(g, rp, Frenet(sDot, sDdot, d, a.first, a.second));
    RatesRoundTrip(sDot, sDdot, r);
    hide *;
  }

  /** The speed in the plane is the length of the velocity along and across the road. */
  lemma SpeedIsLength(g: Planar, rp: RefLine.RefPoint, f: Frenet)
    requires Laws(g) && Stretch(rp, f.d) > 0.0 && g.cos(g.atan2(f.dPrime, Stretch(rp, f.d))) > 0.0
    requires forall a: real | g.cos(a) != 0.0 :: g.cos(a) * g.cos(a) * (1.0 + g.tan(a) * g.tan(a)) == 1.0
    ensures var v := FrenetToCartesian(g, rp, f).v;
            var along := f.sDot * Stretch(rp, f.d);
            var across := f.sDot * f.dPrime;
            v * v == along * along + across * across && (v > 0.0 <==> f.sDot > 0.0) && (v < 0.0 <==> f.sDot < 0.0)
  {
    var m := Stretch(rp, f.d);
    var delta := g.atan2(f.dPrime, m);
    assert Opens(g, f.dPrime, m);
    SpeedLength(f.sDot, m, g.cos(delta), g.tan(delta), f.dPrime, FrenetToCartesian(g, rp, f).v);
  }

  lemma SpeedLength(sDot: real, m: real, c: real, t: real, dPrime: real, v: real)
    requires m > 0.0 && c > 0.0 && m * t == dPrime && c * c * (1.0 + t * t) == 1.0 && v == sDot * m / c
    ensures v * v == (sDot * m) * (sDot * m) + (sDot * dPrime) * (sDot * dPrime)
    ensures (v > 0.0 <==> sDot > 0.0) && (v < 0.0 <==> sDot < 0.0)
  {
    var along := sDot * m;
    assert v * c == along;
    var across := along * t;
    assert across == sDot * dPrime;
    assert v * v == (v * v) * (c * c * (1.0 + t * t));
    assert (v * v) * (c * c * (1.0 + t * t)) == (v * c) * (v * c) + (v * c) * t * ((v * c) * t);
  }
}
