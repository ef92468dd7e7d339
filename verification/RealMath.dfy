/** Scalar helpers shared by the planner and the controller (global/utils.hpp). Reals stand for doubles;
    trigonometry and square roots are passed in as functions, with the laws a proof needs as premises. */
module RealMath {
  const PI := 3.141592653589793
  const TWO_PI := 2.0 * PI

  function Abs(a: real): real { if a < 0.0 then -a else a }

  function Max(a: real, b: real): real { if a < b then b else a }

  function Min(a: real, b: real): real { if b < a then b else a }

  /** The lower bound wins when the bounds cross. */
  function Clip(v: real, lo: real, hi: real): real { Max(lo, Min(v, hi)) }

  lemma MulMono(a: real, b: real, c: real)
    requires a <= b && c >= 0.0
    ensures a * c <= b * c
  {
    assert (b - a) * c >= 0.0;
  }

  lemma ProductNonNegative(x: real, y: real, xy: real)
    requires x >= 0.0 && y >= 0.0 && xy == x * y
    ensures xy >= 0.0
  {
  }

  lemma ProductNonzero(x: real, y: real, xy: real)
    requires x != 0.0 && y != 0.0 && xy == x * y
    ensures xy != 0.0
  {
  }

  lemma Cancel(c: real, x: real, y: real)
    requires c != 0.0 && x * c == y * c
    ensures x == y
  {
    assert (x - y) * c == 0.0;
    if x != y {
      ProductNonzero(x - y, c, (x - y) * c);
    }
  }

  lemma CancelAtMost(x: real, y: real, c: real, cx: real, cy: real)
    requires c > 0.0 && cx == c * x && cy == c * y && cx <= cy
    ensures x <= y
  {
  }

  lemma Quotient(n: real, q: real, c: real)
    requires c != 0.0 && n == q * c
    ensures n / c == q
  {
    var r := n / c;
    assert r * c == q * c;
    Cancel(c, r, q);
  }

  ghost predicate SquareRoot(sqrt: real -> real) {
    forall x :: x >= 0.0 ==> sqrt(x) >= 0.0 && sqrt(x) * sqrt(x) == x
  }

  lemma SquareIncreases(s: real, u: real)
    requires 0.0 <= s < u
    ensures s * s < u * u
  {
    assert s * (u - s) >= 0.0 && u * (u - s) > 0.0;
    assert u * u - s * s == s * (u - s) + u * (u - s);
  }

  lemma RootOfSquare(r: real, v: real)
    requires r >= 0.0 && v >= 0.0 && r * r == v * v
    ensures r == v
  {
    if r < v {
      SquareIncreases(r, v);
    } else if v < r {
      SquareIncreases(v, r);
    }
  }

  function MinNat(a: nat, b: nat): nat { if b < a then b else a }

  function MaxNat(a: nat, b: nat): nat { if a < b then b else a }

  lemma ClipAtMost(v: real, lo: real, hi: real, bound: real)
    requires lo <= bound && v <= bound
    ensures Clip(v, lo, hi) <= bound
  {
  }

  /** Sine, cosine and tangent as the vehicle model calls them. */
  datatype Trig = Trig(sin: real -> real, cos: real -> real, tan: real -> real)

  function Turns(k: int): real { TWO_PI * k as real }

  /** The angle brought into [-PI, PI] by whole turns. */
  function NormalizeAngle(angle: real): (r: real)
    ensures -PI <= r <= PI
    ensures -PI <= angle <= PI <==> r == angle
    decreases if angle > PI then angle else if angle < -PI then -angle else 0.0
  {
    if angle > PI then NormalizeAngle(angle - TWO_PI)
    else if angle < -PI then NormalizeAngle(angle + TWO_PI)
    else angle
  }

  lemma {:induction false} NormalizedByWholeTurns(angle: real)
    ensures exists k: int :: NormalizeAngle(angle) == angle + Turns(k)
    decreases if angle > PI then angle else if angle < -PI then -angle else 0.0
  {
    if angle > PI {
      NormalizedByWholeTurns(angle - TWO_PI);
      var k: int :| NormalizeAngle(angle - TWO_PI) == angle - TWO_PI + Turns(k);
      assert NormalizeAngle(angle) == angle + Turns(k - 1);
    } else if angle < -PI {
      NormalizedByWholeTurns(angle + TWO_PI);
      var k: int :| NormalizeAngle(angle + TWO_PI) == angle + TWO_PI + Turns(k);
      assert NormalizeAngle(angle) == angle + Turns(k + 1);
    } else {
      assert NormalizeAngle(angle) == angle + Turns(0);
    }
  }

  /** The two loops of normalizeAngle. */
  method Normalize(angle: real) returns (r: real)
    ensures r == NormalizeAngle(angle)
  {
    r := angle;
    while r > PI
      invariant NormalizeAngle(r) == NormalizeAngle(angle)
      decreases r
    {
      r := r - TWO_PI;
    }
    while r < -PI
      invariant r <= PI
      invariant NormalizeAngle(r) == NormalizeAngle(angle)
      decreases -r
    {
      r := r + TWO_PI;
    }
  }

  function AngleDiff(a: real, b: real): real { NormalizeAngle(a - b) }
}
