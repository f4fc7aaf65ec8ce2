/** Shape-preserving scalar splines (include/shapepreservingcubicspline.hpp):
    a cubic Hermite curve through given values whose slopes are clamped as in
    Dougherty et al. (1989), eq. (4.2), so that every segment rises, falls or
    stays flat exactly as its two values do. Only open curves are modelled. */
module ShapePreservingCubicSpline {
  import opened Wrappers
  import opened Search
  import opened PiecewiseCubicCurve
  import opened CubicHermiteSpline

  /** The values, slopes and grid handed on to the Hermite builder. */
  datatype ScalarParts = ScalarParts(values: seq<real>, slopes: seq<real>, grid: seq<real>)

  function Abs(x: real): real
  {
    if x < 0.0 then -x else x
  }

  function Min(x: real, y: real): real
  {
    if x <= y then x else y
  }

  function Max(x: real, y: real): real
  {
    if x <= y then y else x
  }

  // ----- the slope rules -----

  /** The slopes a segment with chord slope `chord` tolerates at its ends:
      the sign of the chord (zero for a flat chord) and at most three times
      its steepness. */
  predicate InSector(slope: real, chord: real)
  {
    if 0.0 <= chord then 0.0 <= slope <= 3.0 * chord else 3.0 * chord <= slope <= 0.0
  }

  /** `_calculate_slope`: the mean of the chord slopes to the left and to the
      right of the middle vertex. */
  function CalculateSlope(xPrev: real, x0: real, x1: real, tPrev: real, t0: real, t1: real): (slope: real)
    requires tPrev != t0 && t0 != t1
    ensures Min((x0 - xPrev) / (t0 - tPrev), (x1 - x0) / (t1 - t0)) <= slope
    ensures slope <= Max((x0 - xPrev) / (t0 - tPrev), (x1 - x0) / (t1 - t0))
  {
    ((x0 - xPrev) / (t0 - tPrev) + (x1 - x0) / (t1 - t0)) / 2.0
  }

  /** `_fix_slope`: the slope clamp of Dougherty et al. (1989), eq. (4.2),
      between the chord slopes `left` and `right` of a vertex. */
  function FixSlope(slope: real, left: real, right: real): (fixed: real)
    ensures left * right <= 0.0 ==> fixed == 0.0
    ensures 0.0 <= fixed * right
    ensures Abs(fixed) <= 3.0 * Min(Abs(left), Abs(right))
    ensures InSector(fixed, left) && InSector(fixed, right)
  {
    if left * right <= 0.0 then
      0.0
    else if right > 0.0 then
      Min(Max(0.0, slope), 3.0 * Min(Abs(left), Abs(right)))
    else
      Max(Min(0.0, slope), -3.0 * Min(Abs(left), Abs(right)))
  }

  /** The slopes the clamp leaves alone are exactly those that fit the
      chords on both sides. */
  lemma FixSlopeFixedPoints(slope: real, left: real, right: real)
    ensures slope == FixSlope(slope, left, right) <==> InSector(slope, left) && InSector(slope, right)
  {
    ProductSigns(left, right);
    if InSector(slope, left) && InSector(slope, right) && left * right <= 0.0 {
      SectorsOfOppositeChords(slope, left, right);
    }
  }

  lemma SectorsOfOppositeChords(slope: real, left: real, right: real)
    requires left * right <= 0.0
    requires InSector(slope, left) && InSector(slope, right)
    ensures slope == 0.0
  {
    ProductSigns(left, right);
  }

  /** Clamping twice changes nothing: a computed slope always passes the
      check an explicit slope has to pass. */
  lemma FixSlopeIsIdempotent(slope: real, left: real, right: real)
    ensures FixSlope(FixSlope(slope, left, right), left, right) == FixSlope(slope, left, right)
  {
    FixSlopeFixedPoints(FixSlope(slope, left, right), left, right);
  }

  /** The clamp moves a slope no further than to the nearest slope that fits
      both chords. */
  lemma FixSlopeIsNearest(slope: real, left: real, right: real, other: real)
    requires InSector(other, left) && InSector(other, right)
    ensures Abs(FixSlope(slope, left, right) - slope) <= Abs(other - slope)
  {
    ProductSigns(left, right);
    if left * right <= 0.0 {
      SectorsOfOppositeChords(other, left, right);
    }
  }

  /** `_end_slope`: the slope at the outer end of a first or last segment,
      given the slope at its inner end. A falling chord is handled by
      mirroring. The source asserts that the inner slope fits the chord. */
  function EndSlope(inner: real, chord: real): (slope: real)
    requires InSector(inner, chord)
    ensures InSector(slope, chord)
    decreases if chord < 0.0 then 1 else 0
  {
    if chord < 0.0 then
      -EndSlope(-inner, -chord)
    else if inner <= chord then
      3.0 * chord - 2.0 * inner
    else
      (3.0 * chord - inner) / 2.0
  }

  /** Mirroring chord and inner slope mirrors the end slope. */
  lemma EndSlopeIsOdd(inner: real, chord: real)
    requires InSector(inner, chord)
    ensures InSector(-inner, -chord)
    ensures EndSlope(-inner, -chord) == -EndSlope(inner, chord)
  {
    if chord == 0.0 {
      assert inner == 0.0;
    }
  }

  /** An inner slope equal to the chord slope is kept at the outer end too. */
  lemma EndSlopeOfChord(chord: real)
    ensures InSector(chord, chord)
    ensures EndSlope(chord, chord) == chord
  {
    if chord < 0.0 {
      assert EndSlope(-chord, -chord) == -chord;
    }
  }

  /** The end slope is one of two rules: `3 chord - 2 inner` (which makes the
      segment's second derivative vanish at its inner end) or the natural
      end `(3 chord - inner) / 2` (which makes it vanish at the outer end). */
  lemma {:induction false} EndSlopeForms(inner: real, chord: real)
    requires InSector(inner, chord)
    ensures EndSlope(inner, chord) == 3.0 * chord - 2.0 * inner
         || 2.0 * EndSlope(inner, chord) == 3.0 * chord - inner
    decreases if chord < 0.0 then 1 else 0
  {
    if chord < 0.0 {
      EndSlopeForms(-inner, -chord);
    }
  }

  /** The second derivative of a segment's cubic with respect to its local
      parameter. */
  function LocalCurvature(a: Segment<real>, u: real): real
  {
    6.0 * a.a3 * u + 2.0 * a.a2
  }

  lemma SquareTimesNonNegative(k: real, a: real, b: real)
    requires 0.0 <= a && 0.0 <= b
    ensures 0.0 <= (k * a) * (k * b)
  {
    assert (k * a) * (k * b) == (k * k) * (a * b);
    assert 0.0 <= k * k;
  }

  /** The first segment of an open curve, with the end slope at its start,
      never switches between positive and negative acceleration. */
  lemma FirstSegmentHasNoInflection(x0: real, x1: real, inner: real, delta: real, u: real, w: real)
    requires delta != 0.0
    requires InSector(inner, (x1 - x0) / delta)
    requires 0.0 <= u <= 1.0 && 0.0 <= w <= 1.0
    ensures var a := HermiteSegment(x0, x1, EndSlope(inner, (x1 - x0) / delta), inner, delta);
            0.0 <= LocalCurvature(a, u) * LocalCurvature(a, w)
  {
    var chord := (x1 - x0) / delta;
    var outer := EndSlope(inner, chord);
    var a := HermiteSegment(x0, x1, outer, inner, delta);
    assert x1 - x0 == delta * chord;
    assert a.a2 == delta * (3.0 * chord - 2.0 * outer - inner);
    assert a.a3 == delta * (outer + inner - 2.0 * chord);
    EndSlopeForms(inner, chord);
    if outer == 3.0 * chord - 2.0 * inner {
      var k := 6.0 * delta * (inner - chord);
      assert LocalCurvature(a, u) == k * (1.0 - u);
      assert LocalCurvature(a, w) == k * (1.0 - w);
      SquareTimesNonNegative(k, 1.0 - u, 1.0 - w);
    } else {
      var k := 3.0 * delta * (inner - chord);
      assert LocalCurvature(a, u) == k * u;
      assert LocalCurvature(a, w) == k * w;
      SquareTimesNonNegative(k, u, w);
    }
  }

  /** The same for the last segment, with the end slope at its end. */
  lemma LastSegmentHasNoInflection(x0: real, x1: real, inner: real, delta: real, u: real, w: real)
    requires delta != 0.0
    requires InSector(inner, (x1 - x0) / delta)
    requires 0.0 <= u <= 1.0 && 0.0 <= w <= 1.0
    ensures var a := HermiteSegment(x0, x1, inner, EndSlope(inner, (x1 - x0) / delta), delta);
            0.0 <= LocalCurvature(a, u) * LocalCurvature(a, w)
  {
    var chord := (x1 - x0) / delta;
    var outer := EndSlope(inner, chord);
    var a := HermiteSegment(x0, x1, inner, outer, delta);
    assert x1 - x0 == delta * chord;
    assert a.a2 == delta * (3.0 * chord - 2.0 * inner - outer);
    assert a.a3 == delta * (outer + inner - 2.0 * chord);
    EndSlopeForms(inner, chord);
    if outer == 3.0 * chord - 2.0 * inner {
      var k := 6.0 * delta * (chord - inner);
      assert LocalCurvature(a, u) == k * u;
      assert LocalCurvature(a, w) == k * w;
      SquareTimesNonNegative(k, u, w);
    } else {
      var k := 3.0 * delta * (chord - inner);
      assert LocalCurvature(a, u) == k * (1.0 - u);
      assert LocalCurvature(a, w) == k * (1.0 - w);
      SquareTimesNonNegative(k, 1.0 - u, 1.0 - w);
    }
  }

  // ----- monotone segments -----

  /** With both end slopes in [0, 3c], a negative middle weight
      `m = 3c - v0 - v1` of the local slope is small enough:
      `m * m <= v0 * v1`, and `v0` is positive. */
  lemma SectorSlopesBoundMiddleWeight(v0: real, v1: real, c: real)
    requires 0.0 <= v0 <= 3.0 * c && 0.0 <= v1 <= 3.0 * c
    requires 3.0 * c - v0 - v1 < 0.0
    ensures 0.0 < v0
    ensures (3.0 * c - v0 - v1) * (3.0 * c - v0 - v1) <= v0 * v1
  {
    var m := 3.0 * c - v0 - v1;
    var p, r := 3.0 * c - v0, 3.0 * c - v1;
    assert v0 * v1 - m * m == (p + r) * (-m) + p * r;
    assert 0.0 <= (p + r) * (-m);
    assert 0.0 <= p * r;
  }

  /** Completing the square in the quadratic form `v0 x^2 + 2 m x y + v1 y^2`. */
  lemma CompletedSquare(v0: real, m: real, v1: real, x: real, y: real)
    ensures v0 * (v0 * x * x + 2.0 * m * x * y + v1 * y * y)
         == (v0 * x + m * y) * (v0 * x + m * y) + (v0 * v1 - m * m) * (y * y)
  {
  }

  /** A quadratic form with non-negative outer weights and either a
      non-negative middle weight or `m * m <= v0 * v1` (with `v0` positive)
      is non-negative on non-negative arguments. */
  lemma QuadraticFormNonNegative(v0: real, m: real, v1: real, x: real, y: real)
    requires 0.0 <= v0 && 0.0 <= v1 && 0.0 <= x && 0.0 <= y
    requires 0.0 <= m || (0.0 < v0 && m * m <= v0 * v1)
    ensures 0.0 <= v0 * x * x + 2.0 * m * x * y + v1 * y * y
  {
    var q := v0 * x * x + 2.0 * m * x * y + v1 * y * y;
    if 0.0 <= m {
      assert 0.0 <= v0 * x * x && 0.0 <= v1 * y * y && 0.0 <= m * x * y;
    } else {
      CompletedSquare(v0, m, v1, x, y);
      assert 0.0 <= (v0 * x + m * y) * (v0 * x + m * y);
      assert 0.0 <= (v0 * v1 - m * m) * (y * y);
      NonNegativeFactor(v0, q);
    }
  }

  /** A non-negative product with a positive factor has a non-negative
      other factor. */
  lemma NonNegativeFactor(a: real, b: real)
    requires 0.0 < a && 0.0 <= a * b
    ensures 0.0 <= b
  {
    ProductSigns(a, b);
  }

  /** The local slope of a Hermite segment with chord slope `c`, written in
      the form `v0 (1-u)^2 + 2 (3c - v0 - v1) u (1-u) + v1 u^2`, is
      non-negative on [0, 1] whenever both end slopes lie in [0, 3c]. */
  lemma SectorSlopesKeepSlopeNonNegative(v0: real, v1: real, c: real, u: real)
    requires 0.0 <= v0 <= 3.0 * c && 0.0 <= v1 <= 3.0 * c
    requires 0.0 <= u <= 1.0
    ensures 0.0 <= v0 * (1.0 - u) * (1.0 - u) + 2.0 * (3.0 * c - v0 - v1) * (1.0 - u) * u + v1 * u * u
  {
    if 3.0 * c - v0 - v1 < 0.0 {
      SectorSlopesBoundMiddleWeight(v0, v1, c);
    }
    QuadraticFormNonNegative(v0, 3.0 * c - v0 - v1, v1, 1.0 - u, u);
  }

  /** A Hermite segment whose two end slopes fit its chord is monotone: its
      local slope has the sign of the chord throughout [0, 1]. */
  lemma SectorSlopesMakeMonotoneSegment(x0: real, x1: real, v0: real, v1: real, delta: real, u: real)
    requires 0.0 < delta
    requires InSector(v0, (x1 - x0) / delta) && InSector(v1, (x1 - x0) / delta)
    requires 0.0 <= u <= 1.0
    ensures x0 <= x1 ==> 0.0 <= LocalSlope(HermiteSegment(x0, x1, v0, v1, delta), u)
    ensures x1 <= x0 ==> LocalSlope(HermiteSegment(x0, x1, v0, v1, delta), u) <= 0.0
  {
    var c := (x1 - x0) / delta;
    var a := HermiteSegment(x0, x1, v0, v1, delta);
    assert x1 - x0 == delta * c;
    var q := v0 * (1.0 - u) * (1.0 - u) + 2.0 * (3.0 * c - v0 - v1) * (1.0 - u) * u + v1 * u * u;
    assert a.a1 == delta * v0;
    assert a.a2 == delta * (3.0 * c - 2.0 * v0 - v1);
    assert a.a3 == delta * (v0 + v1 - 2.0 * c);
    assert LocalSlope(a, u) == delta * q;
    if 0.0 <= c {
      SectorSlopesKeepSlopeNonNegative(v0, v1, c, u);
      assert 0.0 <= delta * q;
    }
    if c <= 0.0 {
      SectorSlopesKeepSlopeNonNegative(-v0, -v1, -c, u);
      assert q == -(-v0 * (1.0 - u) * (1.0 - u) + 2.0 * (3.0 * -c - -v0 - -v1) * (1.0 - u) * u + -v1 * u * u);
      assert delta * q <= 0.0;
    }
    if x0 <= x1 {
      assert 0.0 <= c;
    }
    if x1 <= x0 {
      assert c <= 0.0;
    }
  }

  // ----- the construction -----

  /** No two neighbouring grid times coincide, so every chord slope exists. */
  predicate NoZeroStep(grid: seq<real>)
  {
    forall k :: 0 <= k < |grid| - 1 ==> grid[k] != grid[k + 1]
  }

  /** One slope per value, one grid time per value, no zero grid step. */
  predicate ValidCounts(values: seq<real>, slopesIn: seq<Option<real>>, grid: seq<real>)
  {
    && 2 <= |values|
    && |grid| == |values|
    && |slopesIn| == |values|
    && NoZeroStep(grid)
  }

  /** The chord slope of segment `k`. */
  function Chord(values: seq<real>, grid: seq<real>, k: nat): real
    requires k + 1 < |values| == |grid|
    requires grid[k] != grid[k + 1]
  {
    (values[k + 1] - values[k]) / (grid[k + 1] - grid[k])
  }

  /** An explicit slope is accepted only if the clamp leaves it alone. */
  predicate Admissible(slope: Option<real>, left: real, right: real)
  {
    slope.Some? ==> slope.value == FixSlope(slope.value, left, right)
  }

  /** Every explicit slope of an inner vertex passes the clamp between its
      two chords. */
  predicate InnerAdmissible(values: seq<real>, slopesIn: seq<Option<real>>, grid: seq<real>)
    requires ValidCounts(values, slopesIn, grid)
  {
    forall k :: 1 <= k < |values| - 1 ==>
      Admissible(slopesIn[k], Chord(values, grid, k - 1), Chord(values, grid, k))
  }

  /** Explicit slopes at the two ends pass the clamp against their own
      segment's chord. */
  predicate EndsAdmissible(values: seq<real>, slopesIn: seq<Option<real>>, grid: seq<real>)
    requires ValidCounts(values, slopesIn, grid)
  {
    var n := |values|;
    && Admissible(slopesIn[0], Chord(values, grid, 0), Chord(values, grid, 0))
    && Admissible(slopesIn[n - 1], Chord(values, grid, n - 2), Chord(values, grid, n - 2))
  }

  /** Which exception `_init` throws for an open curve, if any. A zero grid
      step is rejected as a non-ascending grid before any slope is formed. */
  function InitError(values: seq<real>, slopesIn: seq<Option<real>>, grid: seq<real>): Option<Error>
  {
    if |values| < 2 then Some(TooFewValues)
    else if |values| != |grid| then Some(GridCountMismatch)
    else if |values| != |slopesIn| then Some(SlopeCountMismatch)
    else if !NoZeroStep(grid) then Some(GridNotAscending)
    else if !InnerAdmissible(values, slopesIn, grid) || !EndsAdmissible(values, slopesIn, grid) then Some(SlopeTooSteep)
    else None
  }

  /** The slope of inner vertex `k`, on both of its sides: the explicit one,
      or the clamped mean of the neighbouring chords. */
  function InnerSlope(values: seq<real>, slopesIn: seq<Option<real>>, grid: seq<real>, k: nat): (slope: real)
    requires ValidCounts(values, slopesIn, grid)
    requires 1 <= k < |values| - 1
    ensures Admissible(slopesIn[k], Chord(values, grid, k - 1), Chord(values, grid, k)) ==>
      InSector(slope, Chord(values, grid, k - 1)) && InSector(slope, Chord(values, grid, k))
  {
    match slopesIn[k]
    case Some(s) => s
    case None =>
      FixSlope(CalculateSlope(values[k - 1], values[k], values[k + 1], grid[k - 1], grid[k], grid[k + 1]),
               Chord(values, grid, k - 1), Chord(values, grid, k))
  }

  /** The slope at an open end: the explicit one, or the end-slope rule
      applied to the adjacent inner slope. */
  function OuterSlope(outer: Option<real>, inner: real, chord: real): (slope: real)
    requires InSector(inner, chord)
    ensures Admissible(outer, chord, chord) ==> InSector(slope, chord)
  {
    if outer.Some? then outer.value else EndSlope(inner, chord)
  }

  /** The two slopes of a curve through just two values: explicit slopes are
      kept, a missing one follows the end-slope rule from the other, and
      with neither given both are the chord. */
  function TwoValueSlopes(one: Option<real>, two: Option<real>, chord: real): (slopes: seq<real>)
    requires one.Some? ==> InSector(one.value, chord)
    requires two.Some? ==> InSector(two.value, chord)
    ensures |slopes| == 2
    ensures InSector(slopes[0], chord) && InSector(slopes[1], chord)
    ensures one.Some? ==> slopes[0] == one.value
    ensures two.Some? ==> slopes[1] == two.value
  {
    match (one, two)
    case (Some(s), Some(t)) => [s, t]
    case (Some(s), None) => [s, EndSlope(s, chord)]
    case (None, Some(t)) => [EndSlope(t, chord), t]
    case (None, None) =>
      EndSlopeOfChord(chord);
      [chord, chord]
  }

  /** Every inner vertex `k` has incoming slope `2 k - 1` and outgoing slope
      `2 k`, and the two are equal. */
  predicate HasInnerSlopes(values: seq<real>, slopesIn: seq<Option<real>>, grid: seq<real>, slopes: seq<real>)
    requires ValidCounts(values, slopesIn, grid)
    requires |slopes| == 2 * (|values| - 1)
  {
    forall k :: 1 <= k < |values| - 1 ==>
      slopes[2 * k - 1] == InnerSlope(values, slopesIn, grid, k) && slopes[2 * k] == InnerSlope(values, slopesIn, grid, k)
  }

  /** The first and last slope. */
  predicate HasEndSlopes(values: seq<real>, slopesIn: seq<Option<real>>, grid: seq<real>, slopes: seq<real>)
    requires ValidCounts(values, slopesIn, grid)
    requires EndsAdmissible(values, slopesIn, grid)
    requires |slopes| == 2 * (|values| - 1)
  {
    var n := |values|;
    if n == 2 then
      slopes == TwoValueSlopes(slopesIn[0], slopesIn[1], Chord(values, grid, 0))
    else
      && InSector(slopes[1], Chord(values, grid, 0))
      && slopes[0] == OuterSlope(slopesIn[0], slopes[1], Chord(values, grid, 0))
      && InSector(slopes[2 * n - 4], Chord(values, grid, n - 2))
      && slopes[2 * n - 3] == OuterSlope(slopesIn[n - 1], slopes[2 * n - 4], Chord(values, grid, n - 2))
  }

  /** What `_init` produces from valid input for an open curve: the values
      and grid unchanged and two slopes per segment. */
  predicate IsShapePreserving(values: seq<real>, slopesIn: seq<Option<real>>, grid: seq<real>, p: ScalarParts)
  {
    && ValidCounts(values, slopesIn, grid)
    && InnerAdmissible(values, slopesIn, grid)
    && EndsAdmissible(values, slopesIn, grid)
    && p.values == values
    && p.grid == grid
    && |p.slopes| == 2 * (|values| - 1)
    && HasInnerSlopes(values, slopesIn, grid, p.slopes)
    && HasEndSlopes(values, slopesIn, grid, p.slopes)
  }

  /** `_init` for an open curve. The checks come in the source's order. */
  method Init(values: seq<real>, slopesIn: seq<Option<real>>, grid: seq<real>) returns (r: Result<ScalarParts>)
    ensures r.Failure? <==> InitError(values, slopesIn, grid).Some?
    ensures r.Failure? ==> r.error == InitError(values, slopesIn, grid).value
    ensures r.Success? ==> IsShapePreserving(values, slopesIn, grid, r.value)
  {
    if |values| < 2 {
      return Failure(TooFewValues);
    }
    if |values| != |grid| {
      return Failure(GridCountMismatch);
    }
    if |values| != |slopesIn| {
      return Failure(SlopeCountMismatch);
    }
    if !NoZeroStep(grid) {
      return Failure(GridNotAscending);
    }
    var inner := InnerSlopes(values, slopesIn, grid);
    if inner.Failure? {
      return Failure(SlopeTooSteep);
    }
    if |slopesIn| == 2 {
      r := TwoValueEnds(values, slopesIn, grid);
    } else {
      r := OpenEnds(values, slopesIn, grid, inner.value);
    }
  }

  /** The loop of `_init`: a placeholder for the first slope, then the
      incoming and outgoing slope of each inner vertex. An explicit slope the
      clamp would change is rejected. */
  method InnerSlopes(values: seq<real>, slopesIn: seq<Option<real>>, grid: seq<real>) returns (r: Result<seq<real>>)
    requires ValidCounts(values, slopesIn, grid)
    ensures r.Failure? <==> !InnerAdmissible(values, slopesIn, grid)
    ensures r.Failure? ==> r.error == SlopeTooSteep
    ensures r.Success? ==> |r.value| == 2 * |values| - 3
    ensures r.Success? ==> forall k :: 1 <= k < |values| - 1 ==>
      r.value[2 * k - 1] == InnerSlope(values, slopesIn, grid, k) && r.value[2 * k] == InnerSlope(values, slopesIn, grid, k)
  {
    var slopes := [0.0];
    var i := 0;
    while i < |values| - 2
      invariant 0 <= i <= |values| - 2
      invariant |slopes| == 1 + 2 * i
      invariant forall k :: 1 <= k <= i ==>
        Admissible(slopesIn[k], Chord(values, grid, k - 1), Chord(values, grid, k))
      invariant forall k :: 1 <= k <= i ==>
        slopes[2 * k - 1] == InnerSlope(values, slopesIn, grid, k) && slopes[2 * k] == InnerSlope(values, slopesIn, grid, k)
    {
      var slope := VertexSlope(values, slopesIn, grid, i + 1);
      if slope.Failure? {
        return Failure(slope.error);
      }
      slopes := slopes + [slope.value];
      slopes := slopes + [slope.value];
      i := i + 1;
    }
    return Success(slopes);
  }

  /** One pass of the loop in `_init`: the slope at inner vertex `k`,
      computed from the neighbouring values and clamped, or the explicit
      one if the clamp leaves it alone, else "Slope too steep". */
  method VertexSlope(values: seq<real>, slopesIn: seq<Option<real>>, grid: seq<real>, k: nat) returns (r: Result<real>)
    requires ValidCounts(values, slopesIn, grid)
    requires 1 <= k < |values| - 1
    ensures r.Failure? <==> !Admissible(slopesIn[k], Chord(values, grid, k - 1), Chord(values, grid, k))
    ensures r.Failure? ==> r.error == SlopeTooSteep
    ensures r.Success? ==> r.value == InnerSlope(values, slopesIn, grid, k)
  {
    var xPrev, x0, x1 := values[k - 1], values[k], values[k + 1];
    var tPrev, t0, t1 := grid[k - 1], grid[k], grid[k + 1];
    var left := (x0 - xPrev) / (t0 - tPrev);
    var right := (x1 - x0) / (t1 - t0);
    assert k % |slopesIn| == k;
    var maybeSlope := slopesIn[k % |slopesIn|];
    var slope;
    if maybeSlope.Some? {
      slope := maybeSlope.value;
      if slope != FixSlope(slope, left, right) {
        return Failure(SlopeTooSteep);
      }
    } else {
      slope := CalculateSlope(xPrev, x0, x1, tPrev, t0, t1);
      slope := FixSlope(slope, left, right);
    }
    return Success(slope);
  }

  /** The branch of `_init` for exactly two values. */
  method TwoValueEnds(values: seq<real>, slopesIn: seq<Option<real>>, grid: seq<real>) returns (r: Result<ScalarParts>)
    requires ValidCounts(values, slopesIn, grid) && |values| == 2
    ensures r.Failure? <==> !EndsAdmissible(values, slopesIn, grid)
    ensures r.Failure? ==> r.error == SlopeTooSteep
    ensures r.Success? ==> IsShapePreserving(values, slopesIn, grid, r.value)
  {
    var chord := (values[1] - values[0]) / (grid[1] - grid[0]);
    assert chord == Chord(values, grid, 0);
    var one, two := slopesIn[0], slopesIn[1];
    var slopes: seq<real> := [];
    if one.Some? {
      if one.value != FixSlope(one.value, chord, chord) {
        return Failure(SlopeTooSteep);
      }
      slopes := slopes + [one.value];
      if two.Some? {
        if two.value != FixSlope(two.value, chord, chord) {
          return Failure(SlopeTooSteep);
        }
        slopes := slopes + [two.value];
      } else {
        slopes := slopes + [EndSlope(one.value, chord)];
      }
    } else {
      if two.Some? {
        if two.value != FixSlope(two.value, chord, chord) {
          return Failure(SlopeTooSteep);
        }
        slopes := slopes + [EndSlope(two.value, chord)];
        slopes := slopes + [two.value];
      } else {
        slopes := slopes + [chord];
        slopes := slopes + [chord];
      }
    }
    assert slopes == TwoValueSlopes(one, two, chord);
    return Success(ScalarParts(values, slopes, grid));
  }

  /** The branch of `_init` for three or more values: the placeholder is
      replaced by the first end slope and the last end slope is appended. */
  method OpenEnds(values: seq<real>, slopesIn: seq<Option<real>>, grid: seq<real>, inner: seq<real>)
    returns (r: Result<ScalarParts>)
    requires ValidCounts(values, slopesIn, grid) && 2 < |values|
    requires InnerAdmissible(values, slopesIn, grid)
    requires |inner| == 2 * |values| - 3
    requires forall k :: 1 <= k < |values| - 1 ==>
      inner[2 * k - 1] == InnerSlope(values, slopesIn, grid, k) && inner[2 * k] == InnerSlope(values, slopesIn, grid, k)
    ensures r.Failure? <==> !EndsAdmissible(values, slopesIn, grid)
    ensures r.Failure? ==> r.error == SlopeTooSteep
    ensures r.Success? ==> IsShapePreserving(values, slopesIn, grid, r.value)
  {
    var n := |values|;
    var chordFirst := (values[1] - values[0]) / (grid[1] - grid[0]);
    var chordLast := (values[n - 1] - values[n - 2]) / (grid[n - 1] - grid[n - 2]);
    assert chordFirst == Chord(values, grid, 0) && chordLast == Chord(values, grid, n - 2);
    assert InSector(inner[1], chordFirst) by {
      assert inner[1] == InnerSlope(values, slopesIn, grid, 1);
    }
    assert InSector(inner[2 * n - 4], chordLast) by {
      assert inner[2 * (n - 2)] == InnerSlope(values, slopesIn, grid, n - 2);
    }
    var front, back := slopesIn[0], slopesIn[n - 1];
    if front.Some? && front.value != FixSlope(front.value, chordFirst, chordFirst) {
      return Failure(SlopeTooSteep);
    }
    var slopes := inner[0 := OuterSlope(front, inner[1], chordFirst)];
    if back.Some? && back.value != FixSlope(back.value, chordLast, chordLast) {
      return Failure(SlopeTooSteep);
    }
    slopes := slopes + [OuterSlope(back, slopes[|slopes| - 1], chordLast)];
    forall k | 1 <= k < n - 1
      ensures slopes[2 * k - 1] == InnerSlope(values, slopesIn, grid, k)
      ensures slopes[2 * k] == InnerSlope(values, slopesIn, grid, k)
    {
      assert slopes[2 * k - 1] == inner[2 * k - 1] && slopes[2 * k] == inner[2 * k];
    }
    r := Success(ScalarParts(values, slopes, grid));
    assert HasInnerSlopes(values, slopesIn, grid, slopes);
    assert HasEndSlopes(values, slopesIn, grid, slopes);
  }

  /** Both slopes of every segment fit its chord. */
  lemma SegmentSlopesFitChord(values: seq<real>, slopesIn: seq<Option<real>>, grid: seq<real>, p: ScalarParts, k: nat)
    requires IsShapePreserving(values, slopesIn, grid, p)
    requires k < |values| - 1
    ensures InSector(p.slopes[2 * k], Chord(values, grid, k))
    ensures InSector(p.slopes[2 * k + 1], Chord(values, grid, k))
  {
    var n := |values|;
    if n == 2 {
      return;
    }
    if k == 0 {
      assert Admissible(slopesIn[0], Chord(values, grid, 0), Chord(values, grid, 0));
    } else {
      assert p.slopes[2 * k] == InnerSlope(values, slopesIn, grid, k);
      assert Admissible(slopesIn[k], Chord(values, grid, k - 1), Chord(values, grid, k));
    }
    if k + 1 == n - 1 {
      assert Admissible(slopesIn[n - 1], Chord(values, grid, n - 2), Chord(values, grid, n - 2));
    } else {
      assert p.slopes[2 * (k + 1) - 1] == InnerSlope(values, slopesIn, grid, k + 1);
      assert Admissible(slopesIn[k + 1], Chord(values, grid, k), Chord(values, grid, k + 1));
    }
  }

  /** The shape is preserved: on an ascending grid, every segment of the
      curve rises where its two values rise, falls where they fall, and is
      flat where they are equal. */
  lemma ShapePreservingSegmentIsMonotone(values: seq<real>, slopesIn: seq<Option<real>>, grid: seq<real>,
                                         p: ScalarParts, k: nat, u: real)
    requires IsShapePreserving(values, slopesIn, grid, p) && Ascending(grid)
    requires k < |values| - 1
    requires 0.0 <= u <= 1.0
    ensures ValidInput(p.values, p.slopes, p.grid)
    ensures values[k] <= values[k + 1] ==>
      0.0 <= LocalSlope(HermiteSegments(p.values, p.slopes, p.grid, HermiteSegment)[k], u)
    ensures values[k + 1] <= values[k] ==>
      LocalSlope(HermiteSegments(p.values, p.slopes, p.grid, HermiteSegment)[k], u) <= 0.0
  {
    SegmentSlopesFitChord(values, slopesIn, grid, p, k);
    FittingSlopesMakeMonotoneCurveSegment(values, p.slopes, grid, k, u);
  }

  /** Segment `k` of a Hermite curve whose two slopes fit the segment's chord
      is monotone. */
  lemma FittingSlopesMakeMonotoneCurveSegment(values: seq<real>, slopes: seq<real>, grid: seq<real>, k: nat, u: real)
    requires ValidInput(values, slopes, grid)
    requires k < |values| - 1
    requires 0.0 <= u <= 1.0
    requires InSector(slopes[2 * k], (values[k + 1] - values[k]) / (grid[k + 1] - grid[k]))
    requires InSector(slopes[2 * k + 1], (values[k + 1] - values[k]) / (grid[k + 1] - grid[k]))
    ensures values[k] <= values[k + 1] ==> 0.0 <= LocalSlope(HermiteSegments(values, slopes, grid, HermiteSegment)[k], u)
    ensures values[k + 1] <= values[k] ==> LocalSlope(HermiteSegments(values, slopes, grid, HermiteSegment)[k], u) <= 0.0
  {
    SegmentOfHermiteSegments(values, slopes, grid, HermiteSegment, k);
    SectorSlopesMakeMonotoneSegment(values[k], values[k + 1], slopes[2 * k], slopes[2 * k + 1], grid[k + 1] - grid[k], u);
  }

  /** With two values and no explicit slopes the curve is the straight line
      between them: both slopes are the chord. */
  lemma TwoValuesWithoutSlopesAreStraight(values: seq<real>, grid: seq<real>, p: ScalarParts)
    requires IsShapePreserving(values, [None, None], grid, p)
    requires |values| == 2
    ensures p.slopes == [Chord(values, grid, 0), Chord(values, grid, 0)]
  {
    EndSlopeOfChord(Chord(values, grid, 0));
  }

  /** Which exception the constructor throws: `_init`'s, or the Hermite
      builder's if the grid is not strictly ascending. */
  function NewError(values: seq<real>, slopesIn: seq<Option<real>>, grid: seq<real>): Option<Error>
  {
    if InitError(values, slopesIn, grid).Some? then InitError(values, slopesIn, grid)
    else if !Ascending(grid) then Some(GridNotAscending)
    else None
  }

  /** The constructor with explicit (optional) slopes: `_init`, then the
      Hermite builder (`ShapePreservingInterpolates` and
      `ShapePreservingIsSmooth` state what the curve does at the grid
      times). */
  method New(values: seq<real>, slopesIn: seq<Option<real>>, grid: seq<real>)
    returns (r: Result<Curve<real>>, ghost parts: ScalarParts)
    ensures r.Failure? <==> NewError(values, slopesIn, grid).Some?
    ensures r.Failure? ==> r.error == NewError(values, slopesIn, grid).value
    ensures r.Success? ==>
      && IsShapePreserving(values, slopesIn, grid, parts)
      && Ascending(grid)
      && r.value == Curve(HermiteSegments(parts.values, parts.slopes, parts.grid, HermiteSegment), grid)
      && WellFormed(r.value)
  {
    var init := Init(values, slopesIn, grid);
    if init.Failure? {
      return Failure(init.error), ScalarParts([], [], []);
    }
    var ScalarParts(vs, slopes, g) := init.value;
    parts := init.value;
    r := Build(vs, slopes, g, HermiteSegment);
    if r.Failure? {
      return;
    }
  }

  /** The shape-preserving curve passes through each value at its grid
      time and leaves each vertex but the last with that vertex's outgoing
      slope. */
  lemma ShapePreservingInterpolates(values: seq<real>, slopesIn: seq<Option<real>>, grid: seq<real>, p: ScalarParts, i: nat)
    requires IsShapePreserving(values, slopesIn, grid, p) && Ascending(grid)
    requires i < |values|
    ensures Evaluate(Curve(HermiteSegments(p.values, p.slopes, p.grid, HermiteSegment), grid), grid[i]) == values[i]
    ensures i < |values| - 1 ==>
      EvaluateVelocity(Curve(HermiteSegments(p.values, p.slopes, p.grid, HermiteSegment), grid), grid[i]) == p.slopes[2 * i]
  {
    if i < |values| - 1 {
      HermiteCurveInterpolates(values, p.slopes, grid, i);
    } else {
      HermiteCurveInterpolatesLast(values, p.slopes, grid);
    }
  }

  /** The shape-preserving curve arrives at each inner vertex with the
      velocity it leaves with: one slope serves both sides. */
  lemma ShapePreservingIsSmooth(values: seq<real>, slopesIn: seq<Option<real>>, grid: seq<real>, p: ScalarParts, k: nat)
    requires IsShapePreserving(values, slopesIn, grid, p) && Ascending(grid)
    requires 1 <= k < |values| - 1
    ensures SegmentVelocity(grid[k - 1], grid[k], HermiteSegments(p.values, p.slopes, p.grid, HermiteSegment)[k - 1], grid[k])
         == EvaluateVelocity(Curve(HermiteSegments(p.values, p.slopes, p.grid, HermiteSegment), grid), grid[k])
  {
    assert p.slopes[2 * k - 1] == InnerSlope(values, slopesIn, grid, k) == p.slopes[2 * k];
    HermiteCurveIsSmoothAt(values, p.slopes, grid, k);
  }

  /** `c` is the curve the constructor makes from these arguments: the
      Hermite curve of `_init`'s parts on a strictly ascending grid, stated
      segment by segment (`HermiteCurveOfParts` gives it as one curve). */
  ghost predicate IsCurveOf(values: seq<real>, slopesIn: seq<Option<real>>, grid: seq<real>, c: Curve<real>)
  {
    exists p :: IsShapePreserving(values, slopesIn, grid, p) && Ascending(grid) && c.grid == grid
                && |c.segments| == |values| - 1
                && forall i :: 0 <= i < |values| - 1 ==>
                     c.segments[i] == HermiteSegment(values[i], values[i + 1], p.slopes[2 * i], p.slopes[2 * i + 1], grid[i + 1] - grid[i])
  }

  /** The Hermite curve of `_init`'s parts on an ascending grid is the
      curve `IsCurveOf` describes. */
  lemma {:induction false} CurveOfParts(values: seq<real>, slopesIn: seq<Option<real>>, grid: seq<real>, p: ScalarParts, c: Curve<real>)
    requires IsShapePreserving(values, slopesIn, grid, p) && Ascending(grid)
    requires c == Curve(HermiteSegments(p.values, p.slopes, p.grid, HermiteSegment), grid)
    ensures IsCurveOf(values, slopesIn, grid, c)
  {
    assert ValidInput(values, p.slopes, grid);
    SegmentsOfHermiteCurve(values, p.slopes, grid, c);
  }

  /** The segments of a Hermite curve one by one. */
  lemma {:induction false} SegmentsOfHermiteCurve(values: seq<real>, slopes: seq<real>, grid: seq<real>, c: Curve<real>)
    requires ValidInput(values, slopes, grid)
    requires c == Curve(HermiteSegments(values, slopes, grid, HermiteSegment), grid)
    ensures c.grid == grid && |c.segments| == |values| - 1
    ensures forall i :: 0 <= i < |values| - 1 ==>
      c.segments[i] == HermiteSegment(values[i], values[i + 1], slopes[2 * i], slopes[2 * i + 1], grid[i + 1] - grid[i])
  {
  }

  /** The curve of `IsCurveOf`, segment by segment, is the Hermite curve
      of the parts. */
  lemma {:induction false} HermiteCurveOfParts(values: seq<real>, slopes: seq<real>, grid: seq<real>, c: Curve<real>)
    requires ValidInput(values, slopes, grid) && c.grid == grid && |c.segments| == |values| - 1
    requires forall i :: 0 <= i < |values| - 1 ==>
               c.segments[i] == HermiteSegment(values[i], values[i + 1], slopes[2 * i], slopes[2 * i + 1], grid[i + 1] - grid[i])
    ensures c == Curve(HermiteSegments(values, slopes, grid, HermiteSegment), grid)
  {
    var segments := HermiteSegments(values, slopes, grid, HermiteSegment);
    assert forall i :: 0 <= i < |segments| ==> c.segments[i] == segments[i];
    assert c.segments == segments;
  }

  /** A slope given for a vertex is the curve's velocity at that vertex's
      time: `_init` either keeps it or throws. */
  lemma {:induction false} GivenSlopeKept(values: seq<real>, slopesIn: seq<Option<real>>, grid: seq<real>, c: Curve<real>, i: nat)
    requires IsCurveOf(values, slopesIn, grid, c)
    requires i < |slopesIn| && slopesIn[i].Some?
    ensures i < |grid| && EvaluateVelocity(c, grid[i]) == slopesIn[i].value
  {
    var p :| IsShapePreserving(values, slopesIn, grid, p) && Ascending(grid) && c.grid == grid
             && |c.segments| == |values| - 1
             && forall i :: 0 <= i < |values| - 1 ==>
                  c.segments[i] == HermiteSegment(values[i], values[i + 1], p.slopes[2 * i], p.slopes[2 * i + 1], grid[i + 1] - grid[i]);
    KeptSlopeIndex(values, slopesIn, grid, p, i);
    HermiteCurveOfParts(values, p.slopes, grid, c);
    if i < |values| - 1 {
      DepartureVelocity(values, p.slopes, grid, i, slopesIn[i].value);
    } else {
      ArrivalVelocity(values, p.slopes, grid, i, slopesIn[i].value);
    }
  }

  /** A Hermite curve leaves a vertex with that vertex's outgoing tangent.
      Stated apart from the shape-preserving parts, whose definitions the
      solver would otherwise unfold to no purpose. */
  lemma {:induction false} DepartureVelocity(values: seq<real>, slopes: seq<real>, grid: seq<real>, i: nat, v: real)
    requires ValidInput(values, slopes, grid) && i < |values| - 1
    requires slopes[2 * i] == v
    ensures EvaluateVelocity(Curve(HermiteSegments(values, slopes, grid, HermiteSegment), grid), grid[i]) == v
  {
    HermiteCurveInterpolates(values, slopes, grid, i);
  }

  /** A Hermite curve arrives at its last vertex with the last incoming
      tangent. */
  lemma {:induction false} ArrivalVelocity(values: seq<real>, slopes: seq<real>, grid: seq<real>, i: nat, v: real)
    requires ValidInput(values, slopes, grid) && i == |values| - 1
    requires slopes[|slopes| - 1] == v
    ensures EvaluateVelocity(Curve(HermiteSegments(values, slopes, grid, HermiteSegment), grid), grid[i]) == v
  {
    assert grid[i] == Last(grid);
    HermiteCurveInterpolatesLast(values, slopes, grid);
  }

  /** The parts hold a given slope as the vertex's outgoing slope, or for
      the last vertex as its incoming one. */
  lemma {:induction false} KeptSlopeIndex(values: seq<real>, slopesIn: seq<Option<real>>, grid: seq<real>, p: ScalarParts, i: nat)
    requires IsShapePreserving(values, slopesIn, grid, p)
    requires i < |slopesIn| && slopesIn[i].Some?
    ensures i < |values| - 1 ==> p.slopes[2 * i] == slopesIn[i].value
    ensures i == |values| - 1 ==> p.slopes[|p.slopes| - 1] == slopesIn[i].value
  {
    var n := |values|;
    if 0 < i < n - 1 {
      assert p.slopes[2 * i] == InnerSlope(values, slopesIn, grid, i);
    }
  }

  /** The constructor without slopes: every slope is computed, so no slope
      is ever too steep, and the only failures are the counts and the grid. */
  method NewWithoutSlopes(values: seq<real>, grid: seq<real>)
    returns (r: Result<Curve<real>>, ghost parts: ScalarParts)
    ensures r.Failure? <==> |values| < 2 || |grid| != |values| || !Ascending(grid)
    ensures r.Failure? ==> r.error != SlopeTooSteep && r.error != SlopeCountMismatch
    ensures r.Success? ==>
      && IsShapePreserving(values, seq(|values|, _ => None), grid, parts)
      && r.value == Curve(HermiteSegments(parts.values, parts.slopes, parts.grid, HermiteSegment), grid)
      && WellFormed(r.value)
  {
    var slopesIn: seq<Option<real>> := seq(|values|, _ => None);
    if 2 <= |values| && |grid| == |values| && !NoZeroStep(grid) {
      var k :| 0 <= k < |grid| - 1 && grid[k] == grid[k + 1];
      assert !Ascending(grid);
    }
    r, parts := New(values, slopesIn, grid);
  }
}
