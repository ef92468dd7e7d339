/** Smoothing and resampling of the reference waypoints (frenet/ref_line.cpp). */
module RefLine {
  import opened RealMath

  /** A point of the reference line: position, direction, curvature and its rate along the line. */
  datatype RefPoint = RefPoint(x: real, y: real, theta: real, kappa: real, dKappa: real)

  /** Segments not longer than this are not interpolated. */
  const MIN_SEGMENT := 0.000000001

  function Gap(sqrt: real -> real, dx: real, dy: real): real { sqrt(dx * dx + dy * dy) }

  ghost predicate Root(sqrt: real -> real) { forall v :: v >= 0.0 ==> sqrt(v) >= 0.0 }

  /** Arc lengths start at zero and grow by the distance of neighbouring points. */
  ghost predicate ArcLengths(sqrt: real -> real, x: seq<real>, y: seq<real>, s: seq<real>) {
    && |x| == |y| == |s| > 0 && s[0] == 0.0
    && forall i | 0 < i < |s| :: s[i] == s[i - 1] + Gap(sqrt, x[i] - x[i - 1], y[i] - y[i - 1])
  }

  ghost predicate Ascending(s: seq<real>) { forall i, j | 0 <= i <= j < |s| :: s[i] <= s[j] }

  method CumulativeArcLength(sqrt: real -> real, x: seq<real>, y: seq<real>) returns (s: seq<real>)
    requires |x| == |y| > 0 && Root(sqrt)
    ensures ArcLengths(sqrt, x, y, s) && Ascending(s)
  {
    s := [0.0];
    for i := 1 to |x|
      invariant |s| == i && s[0] == 0.0
      invariant forall j | 0 < j < i :: s[j] == s[j - 1] + Gap(sqrt, x[j] - x[j - 1], y[j] - y[j - 1])
      invariant Ascending(s)
    {
      var dx, dy := x[i] - x[i - 1], y[i] - y[i - 1];
      assert dx * dx >= 0.0 && dy * dy >= 0.0;
      s := s + [s[i - 1] + Gap(sqrt, dx, dy)];
    }
  }

  // ---------------------------------------------------------------- smoothing

  function RangeSum(v: seq<real>, lo: nat, hi: nat): real
    requires lo <= hi <= |v|
    decreases hi
  {
    if lo == hi then 0.0 else RangeSum(v, lo, hi - 1) + v[hi - 1]
  }

  lemma {:induction false} RangeSumDropFirst(v: seq<real>, lo: nat, hi: nat)
    requires lo < hi <= |v|
    ensures RangeSum(v, lo, hi) == v[lo] + RangeSum(v, lo + 1, hi)
    decreases hi
  {
    if lo + 1 < hi {
      RangeSumDropFirst(v, lo, hi - 1);
    }
  }

  predicate InWindow(s: seq<real>, i: nat, j: nat, window: real)
    requires i < |s| && j < |s|
  {
    s[i] - window / 2.0 <= s[j] <= s[i] + window / 2.0
  }

  /** The sum, and the number, of the first `n` points within half a window of point `i`, by inspection of
      every point. */
  function WindowSum(v: seq<real>, s: seq<real>, i: nat, window: real, n: nat): real
    requires i < |s| && n <= |s| == |v|
  {
    if n == 0 then 0.0
    else WindowSum(v, s, i, window, n - 1) + if InWindow(s, i, n - 1, window) then v[n - 1] else 0.0
  }

  function WindowCount(s: seq<real>, i: nat, window: real, n: nat): nat
    requires i < |s| && n <= |s|
  {
    if n == 0 then 0 else WindowCount(s, i, window, n - 1) + if InWindow(s, i, n - 1, window) then 1 else 0
  }

  /** The points in the window of `i` are exactly those from `lo` up to, not including, `hi`. */
  ghost predicate IsWindow(s: seq<real>, i: nat, window: real, lo: nat, hi: nat)
    requires i < |s|
  {
    lo <= i < hi <= |s| && forall j | 0 <= j < |s| :: InWindow(s, i, j, window) <==> lo <= j < hi
  }

  lemma {:induction false} WindowIsRange(v: seq<real>, s: seq<real>, i: nat, window: real, lo: nat, hi: nat, n: nat)
    requires |v| == |s| && i < |s| && IsWindow(s, i, window, lo, hi) && n <= |s|
    ensures WindowSum(v, s, i, window, n) == if n <= lo then 0.0 else RangeSum(v, lo, if n < hi then n else hi)
    ensures WindowCount(s, i, window, n) == if n <= lo then 0 else (if n < hi then n else hi) - lo
  {
    if n > 0 {
      WindowIsRange(v, s, i, window, lo, hi, n - 1);
      assert InWindow(s, i, n - 1, window) <==> lo <= n - 1 < hi;
    }
  }

  /** The plain mean of the points within half a window of point `i`. */
  function WindowMean(v: seq<real>, s: seq<real>, i: nat, window: real): real
    requires i < |s| == |v|
  {
    var count := WindowCount(s, i, window, |s|);
    if count == 0 then v[i] else WindowSum(v, s, i, window, |s|) / count as real
  }

  lemma MeanOfRange(v: seq<real>, s: seq<real>, i: nat, window: real, lo: nat, hi: nat)
    requires |v| == |s| && i < |s| && IsWindow(s, i, window, lo, hi)
    ensures WindowCount(s, i, window, |s|) == hi - lo >= 1
    ensures WindowMean(v, s, i, window) == RangeSum(v, lo, hi) / (hi - lo) as real
  {
    WindowIsRange(v, s, i, window, lo, hi, |s|);
  }

  lemma WindowFound(s: seq<real>, i: nat, window: real, lo: nat, hi: nat)
    requires Ascending(s) && i < |s| && window >= 0.0 && lo <= i && hi <= |s|
    requires (forall j | 0 <= j < lo :: s[j] < s[i] - window / 2.0) && s[lo] >= s[i] - window / 2.0
    requires (forall j | 0 <= j < hi :: s[j] <= s[i] + window / 2.0) && (hi < |s| ==> s[hi] > s[i] + window / 2.0)
    ensures IsWindow(s, i, window, lo, hi)
  {
    if hi <= i {
      assert false;
    }
  }

  /** Drops points that have left the window on the low side from the running sums. */
  method AdvanceLow(s: seq<real>, x: seq<real>, y: seq<real>, start: nat, hi: nat, i: nat, sLo: real, startX: real,
                    startY: real)
    returns (lo: nat, sumX: real, sumY: real)
    requires |x| == |y| == |s| && start <= i <= hi <= |s| && i < |s| && s[i] >= sLo
    requires startX == RangeSum(x, start, hi) && startY == RangeSum(y, start, hi)
    requires forall j | 0 <= j < start :: s[j] < sLo
    ensures start <= lo <= i && sumX == RangeSum(x, lo, hi) && sumY == RangeSum(y, lo, hi)
    ensures s[lo] >= sLo && forall j | 0 <= j < lo :: s[j] < sLo
  {
    lo, sumX, sumY := start, startX, startY;
    while lo < |s| && s[lo] < sLo
      invariant start <= lo <= i && sumX == RangeSum(x, lo, hi) && sumY == RangeSum(y, lo, hi)
      invariant forall j | 0 <= j < lo :: s[j] < sLo
    {
      assert lo < i;
      RangeSumDropFirst(x, lo, hi);
      RangeSumDropFirst(y, lo, hi);
      sumX, sumY := sumX - x[lo], sumY - y[lo];
      lo := lo + 1;
    }
  }

  /** Takes points that have entered the window on the high side into the running sums. */
  method AdvanceHigh(s: seq<real>, x: seq<real>, y: seq<real>, lo: nat, start: nat, sHi: real, startX: real,
                     startY: real)
    returns (hi: nat, sumX: real, sumY: real)
    requires |x| == |y| == |s| && lo <= start <= |s|
    requires startX == RangeSum(x, lo, start) && startY == RangeSum(y, lo, start)
    requires forall j | 0 <= j < start :: s[j] <= sHi
    ensures start <= hi <= |s| && sumX == RangeSum(x, lo, hi) && sumY == RangeSum(y, lo, hi)
    ensures (hi < |s| ==> s[hi] > sHi) && forall j | 0 <= j < hi :: s[j] <= sHi
  {
    hi, sumX, sumY := start, startX, startY;
    while hi < |s| && s[hi] <= sHi
      invariant start <= hi <= |s| && sumX == RangeSum(x, lo, hi) && sumY == RangeSum(y, lo, hi)
      invariant forall j | 0 <= j < hi :: s[j] <= sHi
    {
      sumX, sumY := sumX + x[hi], sumY + y[hi];
      hi := hi + 1;
    }
  }

  /** The running sums cover the points from `lo` up to, not including, `hi`; everything before `lo` lies
      below `low`, everything before `hi` not above `high`. */
  ghost predicate Running(s: seq<real>, x: seq<real>, y: seq<real>, lo: nat, hi: nat, sumX: real, sumY: real, low: real,
                          high: real) {
    && |x| == |y| == |s| && lo <= hi <= |s|
    && sumX == RangeSum(x, lo, hi) && sumY == RangeSum(y, lo, hi)
    && (forall j | 0 <= j < lo :: s[j] < low) && (forall j | 0 <= j < hi :: s[j] <= high)
  }

  /** One step of the sliding window: both pointers move on, and the means are read off. */
  method SlideTo(s: seq<real>, x: seq<real>, y: seq<real>, i: nat, window: real, lo: nat, hi: nat, sumX: real,
                 sumY: real,
                 ghost low: real, ghost high: real)
    returns (lo': nat, hi': nat, sumX': real, sumY': real, meanX: real, meanY: real)
    requires Ascending(s) && window >= 0.0 && Running(s, x, y, lo, hi, sumX, sumY, low, high)
    requires i < |s| && lo <= i <= hi && low <= s[i] - window / 2.0 && high <= s[i] + window / 2.0
    ensures Running(s, x, y, lo', hi', sumX', sumY', s[i] - window / 2.0, s[i] + window / 2.0)
    ensures lo' <= i < hi'
    ensures WindowCount(s, i, window, |s|) >= 1 && meanX == WindowMean(x, s, i, window)
            && meanY == WindowMean(y, s, i, window)
  {
    hide WindowMean, WindowCount, RangeSum;
    lo', sumX', sumY' := AdvanceLow(s, x, y, lo, hi, i, s[i] - window / 2.0, sumX, sumY);
    hi', sumX', sumY' := AdvanceHigh(s, x, y, lo', hi, s[i] + window / 2.0, sumX', sumY');
    WindowFound(s, i, window, lo', hi');
    MeanOfRange(x, s, i, window, lo', hi');
    MeanOfRange(y, s, i, window, lo', hi');
    var count := hi' - lo';
    meanX, meanY := sumX' / count as real, sumY' / count as real;
  }

  /** Every output is the plain mean of the points within half a window of arc length, of which there is
      always at least the point itself. */
  ghost predicate Smoothed(sqrt: real -> real, x: seq<real>, y: seq<real>, window: real, outX: seq<real>,
                           outY: seq<real>, s: seq<real>)
  {
    && |x| == |y| == |outX| == |outY| && ArcLengths(sqrt, x, y, s)
    && (forall i | 0 <= i < |x| :: WindowCount(s, i, window, |x|) >= 1)
    && (forall i | 0 <= i < |x| :: outX[i] == WindowMean(x, s, i, window) && outY[i] == WindowMean(y, s, i, window))
  }

  /** Moving averages over a sliding window. */
  method SmoothWaypoints(sqrt: real -> real, x: seq<real>, y: seq<real>, window: real)
    returns (outX: array<real>, outY: array<real>)
    requires |x| == |y| > 0 && Root(sqrt) && window >= 0.0
    ensures fresh(outX) && fresh(outY)
    ensures exists s :: Smoothed(sqrt, x, y, window, outX[..], outY[..], s)
  {
    var n := |x|;
    var arc := CumulativeArcLength(sqrt, x, y);
    outX, outY := new real[n](_ => 0.0), new real[n](_ => 0.0);
    var lo: nat, hi: nat := 0, 0;
    var sumX, sumY := 0.0, 0.0;
    ghost var low, high := arc[0] - window / 2.0, arc[0] + window / 2.0;
    assert sumX == RangeSum(x, lo, hi) && sumY == RangeSum(y, lo, hi);
    hide ArcLengths, Gap, WindowMean, WindowCount, RangeSum;
    for i := 0 to n
      invariant lo <= i <= hi && Running(arc, x, y, lo, hi, sumX, sumY, low, high)
      invariant i < n ==> low <= arc[i] - window / 2.0 && high <= arc[i] + window / 2.0
      invariant forall j | 0 <= j < i :: WindowCount(arc, j, window, n) >= 1
      invariant forall j | 0 <= j < i ::
                  outX[j] == WindowMean(x, arc, j, window) && outY[j] == WindowMean(y, arc, j, window)
    {
      var meanX, meanY;
      lo, hi, sumX, sumY, meanX, meanY := SlideTo(arc, x, y, i, window, lo, hi, sumX, sumY, low, high);
      low, high := arc[i] - window / 2.0, arc[i] + window / 2.0;
      outX[i], outY[i] := meanX, meanY;
    }
    assert Smoothed(sqrt, x, y, window, outX[..], outY[..], arc);
  }

  // ---------------------------------------------------------------- uniform resampling

  function Target(k: nat, ds: real): real { k as real * ds }

  /** Segment `j` brackets the arc length `target`. */
  predicate Brackets(s: seq<real>, j: nat, target: real) { j + 1 < |s| && s[j] <= target <= s[j + 1] }

  /** How far into segment `j` the target lies; segments of no length are not divided by. */
  function Ratio(s: seq<real>, j: nat, target: real): (r: real)
    requires Brackets(s, j, target)
    ensures 0.0 <= r <= 1.0
    ensures s[j + 1] - s[j] > MIN_SEGMENT ==> s[j] + r * (s[j + 1] - s[j]) == target
  {
    var ds := s[j + 1] - s[j];
    if ds > MIN_SEGMENT then
      var r := (target - s[j]) / ds;
      assert r * ds == target - s[j];
      assert r <= 1.0 by {
        if r > 1.0 {
          MulMono(1.0, r, ds);
        }
      }
      r
    else 0.0
  }

  function Interpolated(v: seq<real>, j: nat, r: real): real
    requires j + 1 < |v|
  {
    v[j] + r * (v[j + 1] - v[j])
  }

  /** The first segment, but for the last one, whose end is not short of the target. */
  ghost predicate FirstBracket(s: seq<real>, j: nat, target: real) {
    Brackets(s, j, target) && forall i | 0 < i <= j :: s[i] < target
  }

  /** The pointer moves on to the segment that brackets the target. */
  method Seek(s: seq<real>, start: nat, target: real) returns (j: nat)
    requires |s| >= 2 && start <= |s| - 2 && Ascending(s) && s[0] <= target <= s[|s| - 1]
    requires forall i | 0 < i <= start :: s[i] < target
    ensures start <= j && FirstBracket(s, j, target)
  {
    j := start;
    while j < |s| - 2 && s[j + 1] < target
      invariant start <= j <= |s| - 2 && forall i | 0 < i <= j :: s[i] < target
    {
      j := j + 1;
    }
  }

  lemma TargetInRange(total: real, ds: real, n: nat, k: nat)
    requires ds > 0.0 && total >= 0.0 && n == (total / ds).Floor + 1 && k < n
    ensures 0.0 <= Target(k, ds) <= total
  {
    var q := total / ds;
    assert q * ds == total && k as real <= q;
    MulMono(k as real, q, ds);
    MulMono(0.0, k as real, ds);
  }

  lemma TargetGrows(k: nat, ds: real)
    requires ds > 0.0
    ensures Target(k, ds) < Target(k + 1, ds)
  {
  }

  /** Output `k` lies on segment `j`, the first to bracket its arc length, at the fraction that gives that
      arc length. */
  ghost predicate Placed(s: seq<real>, x: seq<real>, y: seq<real>, ds: real, k: nat, j: nat, outX: real, outY: real)
    requires |x| == |y| == |s|
  {
    && FirstBracket(s, j, Target(k, ds))
    && outX == Interpolated(x, j, Ratio(s, j, Target(k, ds)))
    && outY == Interpolated(y, j, Ratio(s, j, Target(k, ds)))
  }

  /** Points at equal arc lengths from the start to the end of the line: each lies on the first segment
      that brackets its arc length, at a fraction between 0 and 1, and the segments never go back. */
  ghost predicate Resampled(sqrt: real -> real, x: seq<real>, y: seq<real>, ds: real, outX: seq<real>, outY: seq<real>,
                            s: seq<real>, seg: seq<nat>)
    requires ds > 0.0
  {
    && |x| == |y| >= 2 && ArcLengths(sqrt, x, y, s) && |outX| == |outY| == |seg|
    && s[|s| - 1] / ds >= 0.0 && |outX| == (s[|s| - 1] / ds).Floor + 1
    && (forall k | 0 <= k < |seg| :: Placed(s, x, y, ds, k, seg[k], outX[k], outY[k]))
    && (forall i, k | 0 <= i <= k < |seg| :: seg[i] <= seg[k])
  }

  method ResampleUniform(sqrt: real -> real, x: seq<real>, y: seq<real>, dsTarget: real)
    returns (outX: seq<real>, outY: seq<real>)
    requires |x| == |y| >= 2 && Root(sqrt) && dsTarget > 0.0
    ensures exists s, seg :: Resampled(sqrt, x, y, dsTarget, outX, outY, s, seg)
  {
    var arc := CumulativeArcLength(sqrt, x, y);
    var total := arc[|arc| - 1];
    assert total >= arc[0];
    QuotientNonNegative(total, dsTarget);
    var count := (total / dsTarget).Floor + 1;
    outX, outY := [], [];
    ghost var seg: seq<nat> := [];
    var j: nat := 0;
    ghost var passed := 0.0;
    hide ArcLengths, Target, Placed, Ascending;
    for k := 0 to count
      invariant |outX| == |outY| == |seg| == k && j <= |arc| - 2
      invariant (forall i | 0 < i <= j :: arc[i] < passed) && (k > 0 ==> passed == Target(k - 1, dsTarget))
                && (k == 0 ==> j == 0)
      invariant forall i | 0 <= i < k :: Placed(arc, x, y, dsTarget, i, seg[i], outX[i], outY[i])
      invariant forall i | 0 <= i < k :: seg[i] <= j
      invariant forall i, m | 0 <= i <= m < k :: seg[i] <= seg[m]
    {
      TargetInRange(total, dsTarget, count, k);
      if k > 0 {
        TargetGrows(k - 1, dsTarget);
      }
      var px, py;
      j, px, py := Place(arc, x, y, dsTarget, k, j);
      passed := Target(k, dsTarget);
      outX, outY, seg := outX + [px], outY + [py], seg + [j];
    }
    assert Resampled(sqrt, x, y, dsTarget, outX, outY, arc, seg);
  }

  /** One output point. */
  method Place(s: seq<real>, x: seq<real>, y: seq<real>, ds: real, k: nat, start: nat)
    returns (j: nat, outX: real, outY: real)
    requires |x| == |y| == |s| >= 2 && start <= |s| - 2 && Ascending(s) && s[0] <= Target(k, ds) <= s[|s| - 1]
    requires forall i | 0 < i <= start :: s[i] < Target(k, ds)
    ensures start <= j <= |s| - 2 && Placed(s, x, y, ds, k, j, outX, outY)
    ensures forall i | 0 < i <= j :: s[i] < Target(k, ds)
  {
    hide Ratio, Target, Interpolated;
    j := Seek(s, start, Target(k, ds));
    var ratio := Ratio(s, j, Target(k, ds));
    outX, outY := Interpolated(x, j, ratio), Interpolated(y, j, ratio);
  }

  lemma QuotientNonNegative(a: real, b: real)
    requires a >= 0.0 && b > 0.0
    ensures a / b >= 0.0
  {
  }
}
