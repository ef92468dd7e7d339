/** What the road coordinates mean in the plane: the offset curve, and the rates of heading and speed along it
    (math/frenet_converter.cpp). */
module RoadMotion {
  import opened RealMath
  import RefLine
  import opened FrenetConverter

  /** The point lies at the offset straight to the left of the reference point. */
  lemma PlacedToTheLeft(g: Planar, rp: RefLine.RefPoint, f: Frenet)
    requires Stretch(rp, f.d) != 0.0 && g.cos(g.atan2(f.dPrime, Stretch(rp, f.d))) != 0.0
    requires g.sin(rp.theta) * g.sin(rp.theta) + g.cos(rp.theta) * g.cos(rp.theta) == 1.0
    ensures var p := FrenetToCartesian(g, rp, f);
            && (p.x - rp.x) * g.cos(rp.theta) + (p.y - rp.y) * g.sin(rp.theta) == 0.0
            && (p.y - rp.y) * g.cos(rp.theta) - (p.x - rp.x) * g.sin(rp.theta) == f.d
  {
    hide Encode, NormalizeAngle;
    var s, c := g.sin(rp.theta), g.cos(rp.theta);
    var p := FrenetToCartesian(g, rp, f);
    LeftOf(s, c, f.d, p.x - rp.x, p.y - rp.y);
  }

  lemma LeftOf(s: real, c: real, d: real, dx: real, dy: real)
    requires s * s + c * c == 1.0 && dx == d * -s && dy == d * c
    ensures dx * c + dy * s == 0.0 && dy * c - dx * s == d
  {
    assert dy * c - dx * s == d * (s * s + c * c);
  }

  /** Round a circular road of radius `radius`, at a constant offset to its left, the vehicle goes round the same
      centre: its radius is less by the offset, and its speed less in proportion. */
  lemma RoundACircle(rp: RefLine.RefPoint, f: Frenet, radius: real)
    requires rp.kappa * radius == 1.0 && rp.dKappa == 0.0 && f.dPrime == f.dPprime == 0.0 && radius != f.d
    ensures Stretch(rp, f.d) != 0.0
    ensures var q := Encode(rp, f, 1.0, 0.0);
            q.kappa * (radius - f.d) == 1.0 && q.v * radius == f.sDot * (radius - f.d)
  {
    var m := Stretch(rp, f.d);
    assert m * radius == radius - f.d by {
      assert (1.0 - rp.kappa * f.d) * radius == radius - (rp.kappa * radius) * f.d;
    }
    var q := Encode(rp, f, 1.0, 0.0);
    CircleCurvature(rp, m, q.kappa);
    assert q.v == f.sDot * m;
    hide Encode, Stretch;
    assert q.kappa * (radius - f.d) == (q.kappa * m) * radius;
    assert f.sDot * m * radius == f.sDot * (m * radius);
  }

  lemma CircleCurvature(rp: RefLine.RefPoint, m: real, kappa: real)
    requires m * m != 0.0 && m != 0.0 && kappa == Curvature(rp, m, 1.0, 0.0, 0.0, 0.0)
    ensures kappa * m == rp.kappa
  {
    var q := rp.kappa / m;
    assert q * m == rp.kappa;
  }

  /** Along a stretch `h` over which curvature and offset change at their rates, the stretch factor falls at the rate
      StretchRate, up to the product of both changes. */
  lemma StretchFallsAtRate(rp: RefLine.RefPoint, d: real, dPrime: real, h: real)
    ensures Stretch(rp.(kappa := rp.kappa + rp.dKappa * h), d + dPrime * h)
         == Stretch(rp, d) - StretchRate(rp, d, dPrime) * h - rp.dKappa * dPrime * (h * h)
  {
    var k, dd := rp.dKappa * h, dPrime * h;
    assert (rp.kappa + k) * (d + dd) == rp.kappa * d + rp.kappa * dd + k * d + k * dd;
    assert k * dd == rp.dKappa * dPrime * (h * h);
    assert rp.kappa * dd + k * d == (rp.dKappa * d + rp.kappa * dPrime) * h;
  }

  /** The angle between vehicle and road opens at the turn rate of the vehicle less that of the road. */
  lemma HeadingOpensAtRate(rp: RefLine.RefPoint, f: Frenet, c: real, t: real)
    requires Stretch(rp, f.d) != 0.0 && c != 0.0
    ensures var q := Encode(rp, f, c, t);
            HeadingRate(rp, q.kappa, Stretch(rp, f.d), c) * f.sDot == q.kappa * q.v - rp.kappa * f.sDot
  {
    var m, q := Stretch(rp, f.d), Encode(rp, f, c, t);
    Quotients(q.kappa, m, c, f.sDot);
    hide Curvature, TurningAccel;
  }

  lemma Quotients(kappa: real, m: real, c: real, sDot: real)
    requires c != 0.0
    ensures (kappa * m / c) * sDot == kappa * (sDot * m / c)
  {
    var q := m / c;
    assert q * c == m;
    Quotient(kappa * m, kappa * q, c);
    Quotient(sDot * m, sDot * q, c);
    assert kappa * q * sDot == kappa * (sDot * q);
  }

  /** The curvature bends the offset as asked: the second derivative of the offset is what stretching and turning make
      of its first, which is the stretch factor times the tangent of the heading offset. */
  lemma OffsetBendsAtRate(rp: RefLine.RefPoint, f: Frenet, c: real, t: real)
    requires Stretch(rp, f.d) != 0.0 && c != 0.0
    ensures var m, q := Stretch(rp, f.d), Encode(rp, f, c, t);
            m * HeadingRate(rp, q.kappa, m, c) == (f.dPprime + StretchRate(rp, f.d, f.dPrime) * t) * (c * c)
  {
    var m, q := Stretch(rp, f.d), Encode(rp, f, c, t);
    SquareNonzero(m, m * m);
    var bend := f.dPprime + StretchRate(rp, f.d, f.dPrime) * t;
    assert q.kappa == Curvature(rp, m, c, t, f.dPprime, StretchRate(rp, f.d, f.dPrime));
    hide Encode, Stretch, StretchRate;
    BendOf(rp.kappa, m, m * m, c, bend, q.kappa);
  }

  lemma BendOf(k: real, m: real, mm: real, c: real, bend: real, kappa: real)
    requires m != 0.0 && c != 0.0 && mm != 0.0 && mm == m * m && kappa == k * c / m + bend * c * c * c / mm
    ensures m * (kappa * m / c - k) == bend * (c * c)
  {
    var x, y, z := k * c / m, bend * c * c * c / mm, kappa * m / c;
    var ccc := bend * c * c * c;
    assert x * m == k * c && z * c == kappa * m && y * mm == ccc;
    hide *;
    BendFrom(k, m, mm, c, bend, x, y, z, ccc);
  }

  lemma BendFrom(k: real, m: real, mm: real, c: real, bend: real, x: real, y: real, z: real, ccc: real)
    requires c != 0.0 && mm == m * m && x * m == k * c && y * mm == ccc == bend * c * c * c && z * c == (x + y) * m
    ensures m * (z - k) == bend * (c * c)
  {
    assert (x + y) * m * m == (x * m) * m + y * mm;
    assert m * (z * c) == k * c * m + ccc;
    assert m * (z - k) * c == bend * (c * c) * c;
    Cancel(c, m * (z - k), bend * (c * c));
  }

  /** The acceleration is the rate of the speed: with the rates of the stretch factor and of the cosine of the heading
      offset, the product rule holds for speed times cosine, which is speed along the road times stretch factor. */
  lemma AccelIsRateOfSpeed(rp: RefLine.RefPoint, f: Frenet, c: real, t: real)
    requires Stretch(rp, f.d) != 0.0 && c != 0.0
    ensures var m, q := Stretch(rp, f.d), Encode(rp, f, c, t);
            var stretchRate, cosineRate := -(StretchRate(rp, f.d, f.dPrime) * f.sDot),
                                           -(t * c * (HeadingRate(rp, q.kappa, m, c) * f.sDot));
            && q.v * c == f.sDot * m
            && q.a * c + q.v * cosineRate == f.sDdot * m + f.sDot * stretchRate
  {
    hide Stretch, StretchRate, HeadingRate, TurningAccel, Curvature;
    var m, q := Stretch(rp, f.d), Encode(rp, f, c, t);
    var rate, open := StretchRate(rp, f.d, f.dPrime), HeadingRate(rp, q.kappa, m, c);
    assert q.v == f.sDot * m / c && q.a == f.sDdot * m / c + TurningAccel(f.sDot, m, c, t, open, rate);
    ProductRule(f.sDot, f.sDdot, m, c, t, open, rate, q.v, q.a);
  }

  lemma ProductRule(u: real, du: real, m: real, c: real, t: real, open: real, rate: real, v: real, a: real)
    requires c != 0.0 && v == u * m / c && a == du * m / c + TurningAccel(u, m, c, t, open, rate)
    ensures v * c == u * m && a * c + v * -(t * c * (open * u)) == du * m + u * -(rate * u)
  {
    var x, y := du * m / c, u * u / c;
    assert x * c == du * m && y * c == u * u && v * c == u * m;
    assert a * c == du * m + (y * c) * (m * t * open - rate);
    assert v * (t * c * (open * u)) == (v * c) * (t * (open * u));
    assert (u * m) * (t * (open * u)) == u * u * (m * t * open);
  }
}
