/** Boundary-value polynomials and their jerk cost (math/polynomial.cpp). */
module Polynomial {
  import opened RealMath

  // The evaluations of a quintic, coefficient by coefficient.

  function PosOf(a0: real, a1: real, a2: real, a3: real, a4: real, a5: real, t: real): real {
    a0 + a1 * t + a2 * t * t + a3 * t * t * t + a4 * t * t * t * t + a5 * t * t * t * t * t
  }

  function VelOf(a1: real, a2: real, a3: real, a4: real, a5: real, t: real): real {
    a1 + 2.0 * a2 * t + 3.0 * a3 * t * t + 4.0 * a4 * t * t * t + 5.0 * a5 * t * t * t * t
  }

  function AccOf(a2: real, a3: real, a4: real, a5: real, t: real): real {
    2.0 * a2 + 6.0 * a3 * t + 12.0 * a4 * t * t + 20.0 * a5 * t * t * t
  }

  function JerkOf(a3: real, a4: real, a5: real, t: real): real { 6.0 * a3 + 24.0 * a4 * t + 60.0 * a5 * t * t }

  datatype Quintic = Quintic(a0: real, a1: real, a2: real, a3: real, a4: real, a5: real) {
    function Pos(t: real): real { PosOf(a0, a1, a2, a3, a4, a5, t) }

    function Vel(t: real): real { VelOf(a1, a2, a3, a4, a5, t) }

    function Acc(t: real): real { AccOf(a2, a3, a4, a5, t) }

    function Jerk(t: real): real { JerkOf(a3, a4, a5, t) }

    function JerkCost(T: real): real {
      var T2 := T * T;
      var T3 := T2 * T;
      var T4 := T3 * T;
      var T5 := T4 * T;
      36.0 * a3 * a3 * T + 144.0 * a3 * a4 * T2 + (240.0 * a3 * a5 + 192.0 * a4 * a4) * T3 + 720.0 * a4 * a5 * T4
          + 720.0 * a5 * a5 * T5
    }
  }

  /** A quartic is a quintic without its last coefficient. */
  datatype Quartic = Quartic(a0: real, a1: real, a2: real, a3: real, a4: real) {
    function Pos(t: real): real { a0 + a1 * t + a2 * t * t + a3 * t * t * t + a4 * t * t * t * t }

    function Vel(t: real): real { a1 + 2.0 * a2 * t + 3.0 * a3 * t * t + 4.0 * a4 * t * t * t }

    function Acc(t: real): real { 2.0 * a2 + 6.0 * a3 * t + 12.0 * a4 * t * t }

    function Jerk(t: real): real { 6.0 * a3 + 24.0 * a4 * t }

    function JerkCost(T: real): real {
      var T2 := T * T;
      var T3 := T2 * T;
      36.0 * a3 * a3 * T + 144.0 * a3 * a4 * T2 + 192.0 * a4 * a4 * T3
    }

    function AsQuintic(): Quintic { Quintic(a0, a1, a2, a3, a4, 0.0) }
  }

  /** The powers of the horizon that the coefficient formulas divide by. */
  ghost predicate Powers(T: real, T2: real, T3: real, T4: real, T5: real) {
    T != 0.0 && T2 == T * T && T3 == T2 * T && T4 == T3 * T && T5 == T4 * T
  }

  function MakeQuintic(xs: real, vs: real, as_: real, xe: real, ve: real, ae: real, T: real): Quintic
    requires T != 0.0
  {
    var a2 := as_ / 2.0;
    var T2 := T * T;
    var T3 := T2 * T;
    var T4 := T3 * T;
    var T5 := T4 * T;
    var c0 := xe - (xs + vs * T + a2 * T2);
    var c1 := ve - (vs + 2.0 * a2 * T);
    var c2 := ae - 2.0 * a2;
    PowersNonzero(T, T2, T3, T4, T5);
    Quintic(xs, vs, a2,
            (10.0 * c0 - 4.0 * c1 * T + 0.5 * c2 * T2) / T3,
            (-15.0 * c0 + 7.0 * c1 * T - c2 * T2) / T4,
            (6.0 * c0 - 3.0 * c1 * T + 0.5 * c2 * T2) / T5)
  }

  function MakeQuartic(xs: real, vs: real, as_: real, ve: real, ae: real, T: real): Quartic
    requires T != 0.0
  {
    var a2 := as_ / 2.0;
    var T2 := T * T;
    ProductNonzero(T, T, T2);
    var a3 := (ve - vs - (4.0 / 3.0) * a2 * T - (1.0 / 3.0) * ae * T) / T2;
    Quartic(xs, vs, a2, a3, (ae - 2.0 * a2 - 6.0 * a3 * T) / (12.0 * T2))
  }

  lemma PowersNonzero(T: real, T2: real, T3: real, T4: real, T5: real)
    requires Powers(T, T2, T3, T4, T5)
    ensures T2 != 0.0 && T3 != 0.0 && T4 != 0.0 && T5 != 0.0
  {
    ProductNonzero(T, T, T2);
    ProductNonzero(T2, T, T3);
    ProductNonzero(T3, T, T4);
    ProductNonzero(T4, T, T5);
  }

  // ---------------------------------------------------------------- boundary conditions

  /** The top three coefficients times the power of T each is divided by. */
  ghost predicate Scaled(p: Quintic, T: real, s3: real, s4: real, s5: real) {
    s3 == p.a3 * T * T * T && s4 == p.a4 * T * T * T * T && s5 == p.a5 * T * T * T * T * T
  }

  lemma ScaledOf(p: Quintic, T: real, T2: real, T3: real, T4: real, T5: real, n3: real, n4: real, n5: real)
    requires Powers(T, T2, T3, T4, T5) && T3 != 0.0 && T4 != 0.0 && T5 != 0.0
    requires p.a3 == n3 / T3 && p.a4 == n4 / T4 && p.a5 == n5 / T5
    ensures Scaled(p, T, n3, n4, n5)
  {
    assert p.a3 * T3 == n3 && p.a4 * T4 == n4 && p.a5 * T5 == n5;
    assert p.a3 * T3 == p.a3 * T * T * T;
    assert p.a4 * T4 == p.a4 * T * T * T * T;
    assert p.a5 * T5 == p.a5 * T * T * T * T * T;
  }

  lemma PosAtEnd(p: Quintic, T: real, s3: real, s4: real, s5: real)
    requires Scaled(p, T, s3, s4, s5)
    ensures p.Pos(T) == p.a0 + p.a1 * T + p.a2 * T * T + s3 + s4 + s5
  {
  }

  lemma VelAtEnd(p: Quintic, T: real, s3: real, s4: real, s5: real)
    requires Scaled(p, T, s3, s4, s5)
    ensures (p.Vel(T) - p.a1 - 2.0 * p.a2 * T) * T == 3.0 * s3 + 4.0 * s4 + 5.0 * s5
  {
  }

  lemma AccAtEnd(p: Quintic, T: real, s3: real, s4: real, s5: real)
    requires Scaled(p, T, s3, s4, s5)
    ensures (p.Acc(T) - 2.0 * p.a2) * T * T == 6.0 * s3 + 12.0 * s4 + 20.0 * s5
  {
  }

  /** The quintic meets position, velocity and acceleration at both ends. */
  lemma QuinticMeetsEnds(xs: real, vs: real, as_: real, xe: real, ve: real, ae: real, T: real)
    requires T != 0.0
    ensures var p := MakeQuintic(xs, vs, as_, xe, ve, ae, T);
            && p.Pos(0.0) == xs && p.Vel(0.0) == vs && p.Acc(0.0) == as_
            && p.Pos(T) == xe && p.Vel(T) == ve && p.Acc(T) == ae
  {
    var p := MakeQuintic(xs, vs, as_, xe, ve, ae, T);
    var T2 := T * T;
    var T3 := T2 * T;
    var T4 := T3 * T;
    var T5 := T4 * T;
    PowersNonzero(T, T2, T3, T4, T5);
    var c0 := xe - (xs + vs * T + p.a2 * T2);
    var c1 := ve - (vs + 2.0 * p.a2 * T);
    var c2 := ae - 2.0 * p.a2;
    var s3 := 10.0 * c0 - 4.0 * c1 * T + 0.5 * c2 * T2;
    var s4 := -15.0 * c0 + 7.0 * c1 * T - c2 * T2;
    var s5 := 6.0 * c0 - 3.0 * c1 * T + 0.5 * c2 * T2;
    assert Scaled(p, T, s3, s4, s5) by {
      ScaledOf(p, T, T2, T3, T4, T5, s3, s4, s5);
    }
    AtStart(p);
    QuinticAtEnd(p, T, T2, xe, ve, ae, c0, c1, c2, s3, s4, s5);
  }

  lemma AtStart(p: Quintic)
    ensures p.Pos(0.0) == p.a0 && p.Vel(0.0) == p.a1 && p.Acc(0.0) == 2.0 * p.a2
  {
  }

  lemma QuinticAtEnd(p: Quintic, T: real, T2: real, xe: real, ve: real, ae: real,
                     c0: real, c1: real, c2: real, s3: real, s4: real, s5: real)
    requires T != 0.0 && T2 == T * T && T2 != 0.0
    requires Scaled(p, T, s3, s4, s5)
    requires c0 == xe - (p.a0 + p.a1 * T + p.a2 * T2) && c1 == ve - (p.a1 + 2.0 * p.a2 * T) && c2 == ae - 2.0 * p.a2
    requires s3 == 10.0 * c0 - 4.0 * c1 * T + 0.5 * c2 * T2
    requires s4 == -15.0 * c0 + 7.0 * c1 * T - c2 * T2
    requires s5 == 6.0 * c0 - 3.0 * c1 * T + 0.5 * c2 * T2
    ensures p.Pos(T) == xe && p.Vel(T) == ve && p.Acc(T) == ae
  {
    hide Scaled;
    hide Quintic.Pos;
    hide Quintic.Vel;
    hide Quintic.Acc;
    PosAtEnd(p, T, s3, s4, s5);
    VelAtEnd(p, T, s3, s4, s5);
    AccAtEnd(p, T, s3, s4, s5);
    Sums(T, T2, c0, c1, c2, s3, s4, s5);
    Cancel(T, p.Vel(T) - p.a1 - 2.0 * p.a2 * T, c1);
    var da := p.Acc(T) - 2.0 * p.a2;
    assert da * T2 == da * T * T;
    Cancel(T2, da, c2);
  }

  lemma Sums(T: real, T2: real, c0: real, c1: real, c2: real, s3: real, s4: real, s5: real)
    requires s3 == 10.0 * c0 - 4.0 * c1 * T + 0.5 * c2 * T2
    requires s4 == -15.0 * c0 + 7.0 * c1 * T - c2 * T2
    requires s5 == 6.0 * c0 - 3.0 * c1 * T + 0.5 * c2 * T2
    ensures s3 + s4 + s5 == c0
    ensures 3.0 * s3 + 4.0 * s4 + 5.0 * s5 == c1 * T
    ensures 6.0 * s3 + 12.0 * s4 + 20.0 * s5 == c2 * T2
  {
  }

  /** The quartic leaves the end position free and meets the other five conditions. */
  lemma QuarticMeetsEnds(xs: real, vs: real, as_: real, ve: real, ae: real, T: real)
    requires T != 0.0
    ensures var p := MakeQuartic(xs, vs, as_, ve, ae, T);
            && p.Pos(0.0) == xs && p.Vel(0.0) == vs && p.Acc(0.0) == as_
            && p.Vel(T) == ve && p.Acc(T) == ae
  {
    var p := MakeQuartic(xs, vs, as_, ve, ae, T);
    var T2 := T * T;
    ProductNonzero(T, T, T2);
    var n3 := ve - vs - (4.0 / 3.0) * p.a2 * T - (1.0 / 3.0) * ae * T;
    var n4 := ae - 2.0 * p.a2 - 6.0 * p.a3 * T;
    assert p.a3 == n3 / T2 && p.a4 == n4 / (12.0 * T2);
    QuarticAtEnd(p, T, T2, ve, ae, n3, n4);
    assert p.Pos(0.0) == xs && p.Vel(0.0) == vs && p.Acc(0.0) == as_;
  }

  lemma QuarticAtEnd(p: Quartic, T: real, T2: real, ve: real, ae: real, n3: real, n4: real)
    requires T2 == T * T && T2 != 0.0 && p.a3 == n3 / T2 && p.a4 == n4 / (12.0 * T2)
    requires n3 == ve - p.a1 - (4.0 / 3.0) * p.a2 * T - (1.0 / 3.0) * ae * T
    requires n4 == ae - 2.0 * p.a2 - 6.0 * p.a3 * T
    ensures p.Vel(T) == ve && p.Acc(T) == ae
  {
    var s3 := p.a3 * T2;
    var s4 := p.a4 * T2;
    assert s3 == n3 && 12.0 * s4 == n4;
    var u := p.a3 * T;
    assert p.Acc(T) == 2.0 * p.a2 + 6.0 * u + 12.0 * s4;
    var w := s4 * T;
    assert 12.0 * w == (ae - 2.0 * p.a2 - 6.0 * u) * T;
    assert (ae - 2.0 * p.a2 - 6.0 * u) * T == ae * T - 2.0 * p.a2 * T - 6.0 * (u * T);
    assert u * T == s3;
    assert p.Vel(T) == p.a1 + 2.0 * p.a2 * T + 3.0 * s3 + 4.0 * w;
  }

  /** Only one quintic meets six given end conditions, so MakeQuintic recovers any quintic from its ends. */
  lemma QuinticIsUnique(p: Quintic, T: real)
    requires T != 0.0
    ensures p == MakeQuintic(p.Pos(0.0), p.Vel(0.0), p.Acc(0.0), p.Pos(T), p.Vel(T), p.Acc(T), T)
  {
    AtStart(p);
    var q := MakeQuintic(p.Pos(0.0), p.Vel(0.0), p.Acc(0.0), p.Pos(T), p.Vel(T), p.Acc(T), T);
    QuinticMeetsEnds(p.Pos(0.0), p.Vel(0.0), p.Acc(0.0), p.Pos(T), p.Vel(T), p.Acc(T), T);
    AtStart(q);
    var T2 := T * T;
    var T3 := T2 * T;
    var T4 := T3 * T;
    var T5 := T4 * T;
    PowersNonzero(T, T2, T3, T4, T5);
    SameTop(p, q, T, T2, T3, T4, T5);
    hide *;
  }

  lemma SameTop(p: Quintic, q: Quintic, T: real, T2: real, T3: real, T4: real, T5: real)
    requires Powers(T, T2, T3, T4, T5) && T3 != 0.0 && T4 != 0.0 && T5 != 0.0
    requires p.a0 == q.a0 && p.a1 == q.a1 && p.a2 == q.a2
    requires p.Pos(T) == q.Pos(T) && p.Vel(T) == q.Vel(T) && p.Acc(T) == q.Acc(T)
    ensures p.a3 == q.a3 && p.a4 == q.a4 && p.a5 == q.a5
  {
    ScaledHere(p, T, T2, T3, T4, T5);
    ScaledHere(q, T, T2, T3, T4, T5);
    hide *;
    var s3, s4, s5 := p.a3 * T3, p.a4 * T4, p.a5 * T5;
    var r3, r4, r5 := q.a3 * T3, q.a4 * T4, q.a5 * T5;
    SameSums(p, q, T, s3, s4, s5, r3, r4, r5);
    CancelNamed(T3, p.a3, q.a3, s3);
    CancelNamed(T4, p.a4, q.a4, s4);
    CancelNamed(T5, p.a5, q.a5, s5);
  }

  lemma CancelNamed(c: real, x: real, y: real, s: real)
    requires c != 0.0 && s == x * c && s == y * c
    ensures x == y
  {
    Cancel(c, x, y);
  }

  lemma ScaledHere(p: Quintic, T: real, T2: real, T3: real, T4: real, T5: real)
    requires Powers(T, T2, T3, T4, T5)
    ensures Scaled(p, T, p.a3 * T3, p.a4 * T4, p.a5 * T5)
  {
  }

  lemma SameSums(p: Quintic, q: Quintic, T: real, s3: real, s4: real, s5: real, r3: real, r4: real, r5: real)
    requires Scaled(p, T, s3, s4, s5) && Scaled(q, T, r3, r4, r5)
    requires p.a0 == q.a0 && p.a1 == q.a1 && p.a2 == q.a2
    requires p.Pos(T) == q.Pos(T) && p.Vel(T) == q.Vel(T) && p.Acc(T) == q.Acc(T)
    ensures s3 == r3 && s4 == r4 && s5 == r5
  {
    hide *;
    assert s3 + s4 + s5 == r3 + r4 + r5 by {
      PosAtEnd(p, T, s3, s4, s5);
      PosAtEnd(q, T, r3, r4, r5);
      assert p.a0 + p.a1 * T + p.a2 * T * T == q.a0 + q.a1 * T + q.a2 * T * T;
    }
    assert 3.0 * s3 + 4.0 * s4 + 5.0 * s5 == 3.0 * r3 + 4.0 * r4 + 5.0 * r5 by {
      VelAtEnd(p, T, s3, s4, s5);
      VelAtEnd(q, T, r3, r4, r5);
    }
    assert 6.0 * s3 + 12.0 * s4 + 20.0 * s5 == 6.0 * r3 + 12.0 * r4 + 20.0 * r5 by {
      AccAtEnd(p, T, s3, s4, s5);
      AccAtEnd(q, T, r3, r4, r5);
    }
  }

  // ---------------------------------------------------------------- jerk cost

  /** The same curve read from time S on. */
  ghost function Shifted(p: Quintic, S: real): Quintic {
    Quintic(p.Pos(S), p.Vel(S), p.Acc(S) / 2.0,
            p.a3 + 4.0 * p.a4 * S + 10.0 * p.a5 * S * S, p.a4 + 5.0 * p.a5 * S, p.a5)
  }

  lemma ShiftedReadsOn(p: Quintic, S: real, t: real)
    ensures Shifted(p, S).Pos(t) == p.Pos(S + t) && Shifted(p, S).Vel(t) == p.Vel(S + t)
    ensures Shifted(p, S).Acc(t) == p.Acc(S + t) && Shifted(p, S).Jerk(t) == p.Jerk(S + t)
  {
    hide PosOf;
    hide VelOf;
    hide AccOf;
    hide JerkOf;
    var q := Shifted(p, S);
    var b1, b2, b3, b4 := p.Vel(S), p.Acc(S) / 2.0, p.a3 + 4.0 * p.a4 * S + 10.0 * p.a5 * S * S, p.a4 + 5.0 * p.a5 * S;
    assert q == Quintic(p.Pos(S), b1, b2, b3, b4, p.a5);
    PosMoves(p.a0, p.a1, p.a2, p.a3, p.a4, p.a5, S, t, b3, b4);
    VelMoves(p.a1, p.a2, p.a3, p.a4, p.a5, S, t, b3, b4);
    AccMoves(p.a2, p.a3, p.a4, p.a5, S, t, b3, b4);
    JerkMoves(p.a3, p.a4, p.a5, S, t, b3, b4);
  }

  lemma PosMoves(a0: real, a1: real, a2: real, a3: real, a4: real, a5: real, S: real, t: real, b3: real, b4: real)
    requires b3 == a3 + 4.0 * a4 * S + 10.0 * a5 * S * S && b4 == a4 + 5.0 * a5 * S
    ensures PosOf(a0, a1, a2, a3, a4, a5, S + t)
         == PosOf(PosOf(a0, a1, a2, a3, a4, a5, S), VelOf(a1, a2, a3, a4, a5, S), AccOf(a2, a3, a4, a5, S) / 2.0, b3,
                  b4, a5, t)
  {
    assert PosOf(a0, a1, a2, a3, a4, a5, S + t)
         == PosOf(PosOf(a0, a1, a2, a3, a4, a5, S), VelOf(a1, a2, a3, a4, a5, S), AccOf(a2, a3, a4, a5, S) / 2.0,
                  a3 + 4.0 * a4 * S + 10.0 * a5 * S * S, a4 + 5.0 * a5 * S, a5, t);
  }

  lemma VelMoves(a1: real, a2: real, a3: real, a4: real, a5: real, S: real, t: real, b3: real, b4: real)
    requires b3 == a3 + 4.0 * a4 * S + 10.0 * a5 * S * S && b4 == a4 + 5.0 * a5 * S
    ensures VelOf(a1, a2, a3, a4, a5, S + t)
         == VelOf(VelOf(a1, a2, a3, a4, a5, S), AccOf(a2, a3, a4, a5, S) / 2.0, b3, b4, a5, t)
  {
    assert VelOf(a1, a2, a3, a4, a5, S + t)
         == VelOf(VelOf(a1, a2, a3, a4, a5, S), AccOf(a2, a3, a4, a5, S) / 2.0,
                  a3 + 4.0 * a4 * S + 10.0 * a5 * S * S, a4 + 5.0 * a5 * S, a5, t);
  }

  lemma AccMoves(a2: real, a3: real, a4: real, a5: real, S: real, t: real, b3: real, b4: real)
    requires b3 == a3 + 4.0 * a4 * S + 10.0 * a5 * S * S && b4 == a4 + 5.0 * a5 * S
    ensures AccOf(a2, a3, a4, a5, S + t) == AccOf(AccOf(a2, a3, a4, a5, S) / 2.0, b3, b4, a5, t)
  {
    assert AccOf(a2, a3, a4, a5, S + t)
         == AccOf(AccOf(a2, a3, a4, a5, S) / 2.0, a3 + 4.0 * a4 * S + 10.0 * a5 * S * S, a4 + 5.0 * a5 * S, a5, t);
  }

  lemma JerkMoves(a3: real, a4: real, a5: real, S: real, t: real, b3: real, b4: real)
    requires b3 == a3 + 4.0 * a4 * S + 10.0 * a5 * S * S && b4 == a4 + 5.0 * a5 * S
    ensures JerkOf(a3, a4, a5, S + t) == JerkOf(b3, b4, a5, t)
  {
    assert JerkOf(a3, a4, a5, S + t) == JerkOf(a3 + 4.0 * a4 * S + 10.0 * a5 * S * S, a4 + 5.0 * a5 * S, a5, t);
  }

  /** The cost of a stretch is the sum of the costs of its two parts. */
  lemma JerkCostAdds(p: Quintic, S: real, T: real)
    ensures p.JerkCost(S + T) == p.JerkCost(S) + Shifted(p, S).JerkCost(T)
  {
  }

  /** Over a step h from time S the cost changes by h times the squared jerk, up to K times h squared. */
  ghost predicate NearTangent(p: Quintic, S: real, h: real, K: real) {
    Abs(p.JerkCost(S + h) - p.JerkCost(S) - h * (p.Jerk(S) * p.Jerk(S))) <= K * (h * h)
  }

  ghost predicate TangentNear(p: Quintic, S: real, K: real) {
    forall h | -1.0 <= h <= 1.0 :: NearTangent(p, S, h, K)
  }

  /** The rate at which the cost grows is the squared jerk at that time, so the closed form is its integral from 0. */
  lemma JerkCostIsIntegral(p: Quintic, S: real)
    ensures p.JerkCost(0.0) == 0.0
    ensures exists K :: TangentNear(p, S, K)
  {
    var q := Shifted(p, S);
    var k1, k2, k3, k4 := 144.0 * q.a3 * q.a4, 240.0 * q.a3 * q.a5 + 192.0 * q.a4 * q.a4, 720.0 * q.a4 * q.a5,
        720.0 * q.a5 * q.a5;
    var K := Abs(k1) + Abs(k2) + Abs(k3) + Abs(k4);
    forall h | -1.0 <= h <= 1.0
      ensures NearTangent(p, S, h, K)
    {
      JerkCostAdds(p, S, h);
      ShiftedReadsOn(p, S, 0.0);
      var y2, y3, y4 := k2 * h, k3 * h, k4 * h;
      var z3, z4 := y3 * h, y4 * h;
      var w4 := z4 * h;
      var rest := k1 + y2 + z3 + w4;
      CostRemainder(q, h, k1, k2, k3, k4, rest);
      BoundChain(k2, k3, k4, h, y2, y3, z3, y4, z4, w4);
      Tangent(p, q, S, h, rest, K);
    }
    assert TangentNear(p, S, K);
  }

  lemma CostRemainder(q: Quintic, h: real, k1: real, k2: real, k3: real, k4: real, rest: real)
    requires k1 == 144.0 * q.a3 * q.a4 && k2 == 240.0 * q.a3 * q.a5 + 192.0 * q.a4 * q.a4
    requires k3 == 720.0 * q.a4 * q.a5 && k4 == 720.0 * q.a5 * q.a5
    requires rest == k1 + k2 * h + k3 * h * h + k4 * h * h * h
    ensures q.JerkCost(h) == h * (q.Jerk(0.0) * q.Jerk(0.0)) + rest * (h * h)
  {
    assert q.Jerk(0.0) == 6.0 * q.a3;
    var h2 := h * h;
    assert rest * h2 == k1 * h2 + k2 * h * h2 + k3 * h * h * h2 + k4 * h * h * h * h2;
    assert k2 * h * h2 == (240.0 * q.a3 * q.a5 + 192.0 * q.a4 * q.a4) * (h2 * h);
  }

  lemma ProductAtMost(k: real, x: real, y: real)
    requires x <= 1.0 && k >= 0.0 && y == k * x
    ensures y <= k
  {
    assert k * (1.0 - x) >= 0.0 by {
      ProductNonNegative(k, 1.0 - x, k * (1.0 - x));
    }
  }

  lemma Shrinks(k: real, x: real, y: real)
    requires -1.0 <= x <= 1.0 && y == k * x
    ensures Abs(y) <= Abs(k)
  {
    if k >= 0.0 {
      ProductAtMost(k, x, y);
      ProductAtMost(k, -x, -y);
    } else {
      ProductAtMost(-k, x, -y);
      ProductAtMost(-k, -x, y);
    }
  }

  lemma BoundChain(k2: real, k3: real, k4: real, h: real, y2: real, y3: real, z3: real, y4: real, z4: real, w4: real)
    requires -1.0 <= h <= 1.0
    requires y2 == k2 * h && y3 == k3 * h && z3 == y3 * h && y4 == k4 * h && z4 == y4 * h && w4 == z4 * h
    ensures Abs(y2) <= Abs(k2) && Abs(z3) <= Abs(k3) && Abs(w4) <= Abs(k4)
  {
    hide *;
    Shrinks(k2, h, y2);
    Shrinks(k3, h, y3);
    Shrinks(y3, h, z3);
    Shrinks(k4, h, y4);
    Shrinks(y4, h, z4);
    Shrinks(z4, h, w4);
  }

  lemma Tangent(p: Quintic, q: Quintic, S: real, h: real, rest: real, K: real)
    requires p.JerkCost(S + h) == p.JerkCost(S) + q.JerkCost(h) && q.Jerk(0.0) == p.Jerk(S)
    requires q.JerkCost(h) == h * (q.Jerk(0.0) * q.Jerk(0.0)) + rest * (h * h)
    requires Abs(rest) <= K
    ensures NearTangent(p, S, h, K)
  {
    hide Quintic.JerkCost;
    hide Quintic.Jerk;
    var h2 := h * h;
    SquareNonNegative(h);
    assert (K - rest) * h2 >= 0.0 && (K + rest) * h2 >= 0.0;
  }

  lemma SquareNonNegative(x: real)
    ensures x * x >= 0.0
    ensures x * x == 0.0 ==> x == 0.0
  {
    if x != 0.0 {
      ProductNonzero(x, x, x * x);
    }
  }

  /** The cost per unit of time as a sum of squares: mean jerk, its slope and its curvature. */
  lemma JerkCostSquares(p: Quintic, T: real, m: real, s: real, c: real, total: real)
    requires m == 6.0 * p.a3 + 12.0 * p.a4 * T + 20.0 * p.a5 * T * T
    requires s == (24.0 * p.a4 + 60.0 * p.a5 * T) * T && c == p.a5 * T * T
    requires total == m * m + s * s / 12.0 + 20.0 * (c * c)
    ensures p.JerkCost(T) == total * T
  {
  }

  /** The cost is never negative, and vanishes exactly on curves without jerk. */
  lemma JerkCostMeasuresJerk(p: Quintic, T: real)
    requires T > 0.0
    ensures p.JerkCost(T) >= 0.0
    ensures p.JerkCost(T) == 0.0 <==> forall t :: p.Jerk(t) == 0.0
  {
    var m := 6.0 * p.a3 + 12.0 * p.a4 * T + 20.0 * p.a5 * T * T;
    var s := (24.0 * p.a4 + 60.0 * p.a5 * T) * T;
    var c := p.a5 * T * T;
    var total := m * m + s * s / 12.0 + 20.0 * (c * c);
    JerkCostSquares(p, T, m, s, c, total);
    SquareNonNegative(m);
    SquareNonNegative(s);
    SquareNonNegative(c);
    ProductNonNegative(total, T, total * T);
    if p.JerkCost(T) == 0.0 {
      Cancel(T, total, 0.0);
      assert c == 0.0 && s == 0.0 && m == 0.0;
      AllTopZero(p, T);
    } else if forall t :: p.Jerk(t) == 0.0 {
      NoJerkNoTop(p);
      assert false;
    }
  }

  lemma AllTopZero(p: Quintic, T: real)
    requires T > 0.0
    requires 6.0 * p.a3 + 12.0 * p.a4 * T + 20.0 * p.a5 * T * T == 0.0
    requires (24.0 * p.a4 + 60.0 * p.a5 * T) * T == 0.0 && p.a5 * T * T == 0.0
    ensures p.a3 == 0.0 && p.a4 == 0.0 && p.a5 == 0.0
  {
    var T2 := T * T;
    ProductNonzero(T, T, T2);
    assert p.a5 * T2 == 0.0 * T2;
    Cancel(T2, p.a5, 0.0);
    Cancel(T, 24.0 * p.a4 + 60.0 * p.a5 * T, 0.0);
  }

  /** Jerk is quadratic in time, so three samples determine it. */
  lemma NoJerkNoTop(p: Quintic)
    requires p.Jerk(0.0) == 0.0 && p.Jerk(1.0) == 0.0 && p.Jerk(-1.0) == 0.0
    ensures p.a3 == 0.0 && p.a4 == 0.0 && p.a5 == 0.0
  {
  }

  /** The quartic formulas are the quintic ones with a fifth coefficient of zero. */
  lemma QuarticIsQuintic(p: Quartic, t: real)
    ensures p.AsQuintic().Pos(t) == p.Pos(t) && p.AsQuintic().Vel(t) == p.Vel(t) && p.AsQuintic().Acc(t) == p.Acc(t)
    ensures p.AsQuintic().Jerk(t) == p.Jerk(t) && p.AsQuintic().JerkCost(t) == p.JerkCost(t)
  {
  }
}
