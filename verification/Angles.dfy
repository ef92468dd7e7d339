/** Laws of the angle functions, which stand as premises where a proof needs them. */
module Angles {
  import opened RealMath

  ghost predicate UnitCircle(t: Trig) {
    forall a: real :: t.sin(a) * t.sin(a) + t.cos(a) * t.cos(a) == 1.0
  }

  ghost predicate Adds(t: Trig, a: real, b: real) {
    && t.sin(a + b) == t.sin(a) * t.cos(b) + t.cos(a) * t.sin(b)
    && t.cos(a + b) == t.cos(a) * t.cos(b) - t.sin(a) * t.sin(b)
  }

  ghost predicate AdditionLaws(t: Trig) { forall a, b :: Adds(t, a, b) }

  /** To second order the sine of an angle is the angle, and its cosine is 1. */
  ghost predicate SmallAngle(t: Trig, h: real) {
    Abs(t.sin(h) - h) <= 0.5 * (h * h) && Abs(t.cos(h) - 1.0) <= 0.5 * (h * h)
  }

  ghost predicate SmallAngles(t: Trig) { forall h: real :: SmallAngle(t, h) }

  ghost predicate TangentIsRatio(t: Trig) { forall a: real :: t.tan(a) * t.cos(a) == t.sin(a) }

  /** Reflection in the axis of angle zero. */
  ghost predicate Reflects(t: Trig) {
    forall a: real :: ReflectsAt(t, a)
  }

  ghost predicate ReflectsAt(t: Trig, a: real) {
    t.sin(-a) == -t.sin(a) && t.cos(-a) == t.cos(a) && t.tan(-a) == -t.tan(a)
  }

  lemma AtMostOne(x: real, y: real)
    requires x * x + y * y == 1.0
    ensures Abs(x) <= 1.0
  {
    assert y * y >= 0.0;
    if Abs(x) > 1.0 {
      SquareIncreases(1.0, Abs(x));
    }
  }

  lemma ProductAtMost(x: real, y: real, a: real, b: real)
    requires Abs(x) <= a && Abs(y) <= b
    ensures Abs(x * y) <= a * b
  {
    AbsOfProduct(x, y);
    MulMono(Abs(x), a, Abs(y));
    MulMono(Abs(y), b, a);
    assert a * Abs(y) == Abs(y) * a;
  }

  lemma AbsOfProduct(x: real, y: real)
    ensures Abs(x * y) == Abs(x) * Abs(y)
  {
    if x >= 0.0 && y >= 0.0 {
      assert x * y >= 0.0;
    } else if x < 0.0 && y < 0.0 {
      assert (-x) * (-y) == x * y >= 0.0;
    } else if x < 0.0 {
      assert (-x) * y == -(x * y) && (-x) * y >= 0.0;
    } else {
      assert x * (-y) == -(x * y) && x * (-y) >= 0.0;
    }
  }

  lemma ErrorScaled(dt: real, error: real, bound: real, gap: real)
    requires gap == dt * error && Abs(error) <= bound
    ensures Abs(gap) <= Abs(dt) * bound
  {
    ProductAtMost(dt, error, Abs(dt), bound);
  }

  lemma OnUnitCircle(t: Trig, a: real)
    requires UnitCircle(t)
    ensures t.sin(a) * t.sin(a) + t.cos(a) * t.cos(a) == 1.0
  {
  }

  lemma WithinOne(t: Trig, a: real)
    requires UnitCircle(t)
    ensures Abs(t.cos(a)) <= 1.0 && Abs(t.sin(a)) <= 1.0 && Abs(-t.cos(a)) <= 1.0
  {
    hide UnitCircle;
    OnUnitCircle(t, a);
    var c, s := t.cos(a), t.sin(a);
    AtMostOne(c, s);
    AtMostOne(s, c);
  }

  lemma AddsAt(t: Trig, a: real, b: real)
    requires AdditionLaws(t)
    ensures Adds(t, a, b)
  {
    hide Adds;
  }

  lemma SmallAt(t: Trig, h: real)
    requires SmallAngles(t)
    ensures SmallAngle(t, h)
  {
    hide SmallAngle;
  }

  lemma BendIsSmall(c: real, s: real, x: real, y: real, half: real, bend: real)
    requires Abs(s) <= 1.0 && Abs(c) <= 1.0 && Abs(x) <= half && Abs(y) <= half && bend == c * x - s * y
    ensures Abs(bend) <= 2.0 * half
  {
    ProductAtMost(c, x, 1.0, half);
    ProductAtMost(s, y, 1.0, half);
  }
}
