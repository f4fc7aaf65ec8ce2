/** A piecewise cubic curve (include/piecewisecubiccurve.hpp): one cubic per
    grid interval, each over a local parameter in [0, 1]. The curve is a value:
    the spline builders fill in its segments and grid once and never change
    them afterwards. */
module PiecewiseCubicCurve {
  import opened Vectors
  import opened Numerics
  import opened Search

  /** The four coefficients `a0 + a1 u + a2 u^2 + a3 u^3` of one segment. */
  datatype Segment<V> = Segment(a0: V, a1: V, a2: V, a3: V)

  datatype Curve<V> = Curve(segments: seq<Segment<V>>, grid: seq<real>)

  /** What every builder establishes: at least one segment, one segment per
      grid interval, and a strictly ascending grid. */
  predicate WellFormed<V>(c: Curve<V>)
  {
    && 2 <= |c.grid|
    && |c.segments| == |c.grid| - 1
    && Ascending(c.grid)
  }

  function First(s: seq<real>): real
    requires s != []
  {
    s[0]
  }

  function Last(s: seq<real>): real
    requires s != []
  {
    s[|s| - 1]
  }

  /** `_get_segment_and_trim`: the index of the segment that owns `t`, and `t`
      itself clamped into the grid's range. */
  function SegmentAndTrim<V>(c: Curve<V>, t: real): (r: (nat, real))
    requires WellFormed(c)
    ensures r.0 < |c.segments|
    ensures c.grid[r.0] <= r.1 <= c.grid[r.0 + 1]
    ensures t < First(c.grid) ==> r == (0, First(c.grid))
    ensures Last(c.grid) < t ==> r == (|c.segments| - 1, Last(c.grid))
    ensures First(c.grid) <= t <= Last(c.grid) ==> r.1 == t
    ensures First(c.grid) <= t < Last(c.grid) ==> c.grid[r.0] <= t < c.grid[r.0 + 1]
    ensures t == Last(c.grid) ==> r.0 == |c.grid| - 2
  {
    AscendingPairwise(c.grid, 0, |c.grid| - 1);
    if t < First(c.grid) then
      (0, First(c.grid))
    else if t < Last(c.grid) then
      (UpperBound(c.grid, t) - 1, t)
    else if t == Last(c.grid) then
      (|c.grid| - 2, t)
    else
      (|c.segments| - 1, Last(c.grid))
  }

  // ----- the cubic of one segment, for scalar and for vector coefficients -----

  /** The cubic in Horner form, `((a3 u + a2) u + a1) u + a0`. */
  function Horner(a: Segment<real>, u: real): real
  {
    ((a.a3 * u + a.a2) * u + a.a1) * u + a.a0
  }

  /** The derivative of the cubic with respect to the local parameter. */
  function LocalSlope(a: Segment<real>, u: real): real
  {
    (3.0 * a.a3 * u + 2.0 * a.a2) * u + a.a1
  }

  /** `_segment_velocity`: the local derivative rescaled by the segment's
      duration. */
  function SegmentVelocity(t0: real, t1: real, a: Segment<real>, t: real): real
    requires t0 != t1
  {
    LocalSlope(a, (t - t0) / (t1 - t0)) / (t1 - t0)
  }

  function HornerVec(a: Segment<Vec>, u: real): Vec
  {
    Add(Scale(u, Add(Scale(u, Add(Scale(u, a.a3), a.a2)), a.a1)), a.a0)
  }

  function LocalSlopeVec(a: Segment<Vec>, u: real): Vec
  {
    Add(Scale(u, Add(Scale(u, Scale(3.0, a.a3)), Scale(2.0, a.a2))), a.a1)
  }

  function SegmentVelocityVec(t0: real, t1: real, a: Segment<Vec>, t: real): Vec
    requires t0 != t1
  {
    Div(LocalSlopeVec(a, (t - t0) / (t1 - t0)), t1 - t0)
  }

  /** Horner's nesting evaluates the cubic `a0 + a1 u + a2 u^2 + a3 u^3`. */
  lemma HornerIsCubic(a: Segment<real>, u: real)
    ensures Horner(a, u) == a.a0 + a.a1 * u + a.a2 * (u * u) + a.a3 * (u * u * u)
  {
  }

  /** `LocalSlope` is the derivative of `Horner`: the cubic's increment over
      `h` is `h` times the slope plus terms of order `h^2` and `h^3`. */
  lemma {:induction false} LocalSlopeIsDerivative(a: Segment<real>, u: real, h: real)
    ensures Horner(a, u + h) - Horner(a, u)
         == h * LocalSlope(a, u) + (h * h) * (3.0 * a.a3 * u + a.a2) + (h * h * h) * a.a3
  {
    HornerIsCubic(a, u);
    HornerIsCubic(a, u + h);
    assert (u + h) * (u + h) == u * u + 2.0 * u * h + h * h;
    assert (u + h) * (u + h) * (u + h) == u * u * u + 3.0 * u * u * h + 3.0 * u * h * h + h * h * h;
  }

  // ----- queries on a whole curve -----

  /** `evaluate`: position at time `t`, with `t` clamped to the grid. */
  function Evaluate(c: Curve<real>, t: real): real
    requires WellFormed(c)
  {
    var (idx, tt) := SegmentAndTrim(c, t);
    Horner(c.segments[idx], (tt - c.grid[idx]) / (c.grid[idx + 1] - c.grid[idx]))
  }

  /** `evaluate_velocity`: derivative with respect to time at `t`. */
  function EvaluateVelocity(c: Curve<real>, t: real): real
    requires WellFormed(c)
  {
    var (idx, tt) := SegmentAndTrim(c, t);
    SegmentVelocity(c.grid[idx], c.grid[idx + 1], c.segments[idx], tt)
  }

  function EvaluateVec(c: Curve<Vec>, t: real): Vec
    requires WellFormed(c)
  {
    var (idx, tt) := SegmentAndTrim(c, t);
    HornerVec(c.segments[idx], (tt - c.grid[idx]) / (c.grid[idx + 1] - c.grid[idx]))
  }

  function EvaluateVelocityVec(c: Curve<Vec>, t: real): Vec
    requires WellFormed(c)
  {
    var (idx, tt) := SegmentAndTrim(c, t);
    SegmentVelocityVec(c.grid[idx], c.grid[idx + 1], c.segments[idx], tt)
  }

  /** At a grid point the owning segment is the one that starts there, and
      at the last grid point it is the last segment, at its end. */
  lemma SegmentAtGridPoint<V>(c: Curve<V>, i: nat)
    requires WellFormed(c)
    requires i < |c.grid|
    ensures i < |c.segments| ==> SegmentAndTrim(c, c.grid[i]) == (i, c.grid[i])
    ensures i == |c.segments| ==> SegmentAndTrim(c, c.grid[i]) == (i - 1, c.grid[i])
  {
    if i < |c.segments| {
      if i > 0 {
        AscendingPairwise(c.grid, 0, i);
      }
      AscendingPairwise(c.grid, i, |c.grid| - 1);
      UpperBoundOfElement(c.grid, i);
    }
  }

  /** At a grid point the curve is at the start of the segment that begins
      there; at the last grid point it is at the end of the last segment.
      The same holds for the velocity. */
  lemma EvaluateAtGridPoint(c: Curve<real>, i: nat)
    requires WellFormed(c)
    requires i < |c.grid|
    ensures i < |c.segments| ==> Evaluate(c, c.grid[i]) == c.segments[i].a0
    ensures i < |c.segments| ==>
      EvaluateVelocity(c, c.grid[i]) == LocalSlope(c.segments[i], 0.0) / (c.grid[i + 1] - c.grid[i])
    ensures i == |c.segments| ==> Evaluate(c, c.grid[i]) == Horner(c.segments[i - 1], 1.0)
    ensures i == |c.segments| ==>
      EvaluateVelocity(c, c.grid[i]) == LocalSlope(c.segments[i - 1], 1.0) / (c.grid[i] - c.grid[i - 1])
  {
    SegmentAtGridPoint(c, i);
    if i < |c.segments| {
      LocalAtStart(c.grid[i], c.grid[i + 1]);
    } else {
      LocalAtEnd(c.grid[i - 1], c.grid[i]);
    }
  }

  lemma EvaluateVecAtGridPoint(c: Curve<Vec>, i: nat)
    requires WellFormed(c)
    requires i < |c.grid|
    ensures i < |c.segments| ==> EvaluateVec(c, c.grid[i]) == c.segments[i].a0
    ensures i < |c.segments| ==>
      EvaluateVelocityVec(c, c.grid[i]) == Div(LocalSlopeVec(c.segments[i], 0.0), c.grid[i + 1] - c.grid[i])
    ensures i == |c.segments| ==> EvaluateVec(c, c.grid[i]) == HornerVec(c.segments[i - 1], 1.0)
    ensures i == |c.segments| ==>
      EvaluateVelocityVec(c, c.grid[i]) == Div(LocalSlopeVec(c.segments[i - 1], 1.0), c.grid[i] - c.grid[i - 1])
  {
    SegmentAtGridPoint(c, i);
    if i < |c.segments| {
      LocalAtStart(c.grid[i], c.grid[i + 1]);
    } else {
      LocalAtEnd(c.grid[i - 1], c.grid[i]);
    }
  }

  lemma LocalAtStart(t0: real, t1: real)
    requires t0 < t1
    ensures (t0 - t0) / (t1 - t0) == 0.0
  {
  }

  lemma LocalAtEnd(t0: real, t1: real)
    requires t0 < t1
    ensures (t1 - t0) / (t1 - t0) == 1.0
  {
  }

  /** Inside segment `k`, at local parameter `u`, the curve is that
      segment's cubic at `u`, even at the segment's end, provided the next
      segment starts where segment `k` ends. */
  lemma EvaluateWithinSegment(c: Curve<real>, k: nat, u: real)
    requires WellFormed(c)
    requires k < |c.segments|
    requires 0.0 <= u <= 1.0
    requires k + 1 < |c.segments| ==> Horner(c.segments[k], 1.0) == Horner(c.segments[k + 1], 0.0)
    ensures c.grid[k] <= u * (c.grid[k + 1] - c.grid[k]) + c.grid[k] <= c.grid[k + 1]
    ensures Evaluate(c, u * (c.grid[k + 1] - c.grid[k]) + c.grid[k]) == Horner(c.segments[k], u)
  {
    LocalOfSegment(c, k, u);
    if u < 1.0 {
      EvaluateInsideSegment(c, k, u);
    } else {
      EvaluateAtSegmentEnd(c, k);
    }
  }

  /** At the end of segment `k` the curve is that segment's cubic at 1,
      provided the next segment starts there. */
  lemma EvaluateAtSegmentEnd(c: Curve<real>, k: nat)
    requires WellFormed(c)
    requires k < |c.segments|
    requires k + 1 < |c.segments| ==> Horner(c.segments[k], 1.0) == Horner(c.segments[k + 1], 0.0)
    ensures Evaluate(c, c.grid[k + 1]) == Horner(c.segments[k], 1.0)
  {
    EvaluateAtGridPoint(c, k + 1);
    if k + 1 < |c.segments| {
      assert Horner(c.segments[k + 1], 0.0) == c.segments[k + 1].a0;
    }
  }

  lemma LocalOfSegment<V>(c: Curve<V>, k: nat, u: real)
    requires WellFormed(c)
    requires k < |c.segments|
    requires 0.0 <= u <= 1.0
    ensures c.grid[k] <= u * (c.grid[k + 1] - c.grid[k]) + c.grid[k] <= c.grid[k + 1]
    ensures u == 1.0 ==> u * (c.grid[k + 1] - c.grid[k]) + c.grid[k] == c.grid[k + 1]
  {
    AscendingPairwise(c.grid, k, k + 1);
    LocalOfScaled(c.grid[k], c.grid[k + 1], u);
  }

  /** Before its end, segment `k` alone decides the curve. */
  lemma EvaluateInsideSegment(c: Curve<real>, k: nat, u: real)
    requires WellFormed(c)
    requires k < |c.segments|
    requires 0.0 <= u < 1.0
    ensures Evaluate(c, u * (c.grid[k + 1] - c.grid[k]) + c.grid[k]) == Horner(c.segments[k], u)
  {
    AscendingPairwise(c.grid, k, k + 1);
    LocalOfScaled(c.grid[k], c.grid[k + 1], u);
    SegmentOfInteriorTime(c, k, u * (c.grid[k + 1] - c.grid[k]) + c.grid[k]);
  }

  /** The time at local parameter `u` of `[t0, t1]` lies in that interval
      and maps back to `u`. */
  lemma LocalOfScaled(t0: real, t1: real, u: real)
    requires t0 < t1
    requires 0.0 <= u <= 1.0
    ensures t0 <= u * (t1 - t0) + t0 <= t1
    ensures u < 1.0 ==> u * (t1 - t0) + t0 < t1
    ensures u == 1.0 ==> u * (t1 - t0) + t0 == t1
    ensures (u * (t1 - t0) + t0 - t0) / (t1 - t0) == u
  {
    var d := t1 - t0;
    ProductSigns(u, d);
    ProductSigns(1.0 - u, d);
    assert (1.0 - u) * d == d - u * d;
  }

  /** The sign of a product from the signs of its factors. */
  lemma ProductSigns(a: real, b: real)
    ensures 0.0 <= a && 0.0 <= b ==> 0.0 <= a * b
    ensures (0.0 < a && 0.0 < b) || (a < 0.0 && b < 0.0) ==> 0.0 < a * b
    ensures (a <= 0.0 && 0.0 <= b) || (0.0 <= a && b <= 0.0) ==> a * b <= 0.0
    ensures (0.0 < a && b < 0.0) || (a < 0.0 && 0.0 < b) ==> a * b < 0.0
  {
  }

  /** A time strictly inside segment `k`'s interval belongs to segment `k`. */
  lemma SegmentOfInteriorTime<V>(c: Curve<V>, k: nat, t: real)
    requires WellFormed(c)
    requires k < |c.segments|
    requires c.grid[k] <= t < c.grid[k + 1]
    ensures SegmentAndTrim(c, t) == (k, t)
  {
    if 0 < k {
      AscendingPairwise(c.grid, 0, k);
    }
    if k + 1 < |c.grid| - 1 {
      AscendingPairwise(c.grid, k + 1, |c.grid| - 1);
    }
    var idx := SegmentAndTrim(c, t).0;
    if idx < k {
      AscendingPairwise(c.grid, idx + 1, k);
    } else if k < idx {
      AscendingPairwise(c.grid, k + 1, idx);
    }
  }

  /** Queries outside the grid are clamped: before the first grid time the
      curve stays where it starts, after the last one where it ends. */
  lemma EvaluateClamps(c: Curve<real>, t: real)
    requires WellFormed(c)
    ensures t < First(c.grid) ==> Evaluate(c, t) == Evaluate(c, First(c.grid))
    ensures Last(c.grid) < t ==> Evaluate(c, t) == Evaluate(c, Last(c.grid))
    ensures t < First(c.grid) ==> EvaluateVelocity(c, t) == EvaluateVelocity(c, First(c.grid))
    ensures Last(c.grid) < t ==> EvaluateVelocity(c, t) == EvaluateVelocity(c, Last(c.grid))
  {
    SegmentAtGridPoint(c, 0);
    SegmentAtGridPoint(c, |c.segments|);
  }

  lemma EvaluateVecClamps(c: Curve<Vec>, t: real)
    requires WellFormed(c)
    ensures t < First(c.grid) ==> EvaluateVec(c, t) == EvaluateVec(c, First(c.grid))
    ensures Last(c.grid) < t ==> EvaluateVec(c, t) == EvaluateVec(c, Last(c.grid))
  {
    SegmentAtGridPoint(c, 0);
    SegmentAtGridPoint(c, |c.segments|);
  }

  // ----- arc length -----

  /** Speed (length of the velocity) along one segment, as the integrand. */
  function Speed(num: Numerics, t0: real, t1: real, a: Segment<Vec>): (speed: real -> real)
    requires t0 != t1
    ensures Sound(num) ==> forall t :: 0.0 <= speed(t)
  {
    var speed := t => num.length(SegmentVelocityVec(t0, t1, a, t));
    assert forall t :: speed(t) == num.length(SegmentVelocityVec(t0, t1, a, t));
    speed
  }

  /** `segment_length(index, a, b)`: the quadrature of the speed of segment
      `index` over a sub-range `[a, b]` of its grid interval. */
  function SegmentLengthBetween(num: Numerics, c: Curve<Vec>, index: nat, a: real, b: real): (r: real)
    requires WellFormed(c)
    requires index < |c.segments|
    requires c.grid[index] <= a <= b <= c.grid[index + 1]
    ensures Sound(num) ==> 0.0 <= r
  {
    var s := Speed(num, c.grid[index], c.grid[index + 1], c.segments[index]);
    num.integrate(s, a, b)
  }

  /** `segment_length(index)`: the whole grid interval. */
  function SegmentLength(num: Numerics, c: Curve<Vec>, index: nat): (r: real)
    requires WellFormed(c)
    requires index < |c.segments|
    ensures Sound(num) ==> 0.0 <= r
  {
    SegmentLengthBetween(num, c, index, c.grid[index], c.grid[index + 1])
  }
}
