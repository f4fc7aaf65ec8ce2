# asdfspline in Dafny

This project models the spline engine of asdfspline, the C++ library behind
the Audio Scene Description Format's trajectories. Its top-level object, an
`AsdfSpline`, is a path in three-dimensional space through a list of vertex
records. It is travelled at a pace the records set with optional times and
speeds. The engine has these layers, and each is one Dafny module:

- `Bisection` (`bisect`): bracketed root finding with a call budget.
- `PiecewiseCubicCurve`: a grid of times and one cubic per grid interval.
  Finding the segment clamps out-of-range times. `evaluate` is the Horner
  form in the segment's local parameter, and `evaluate_velocity` is its
  derivative. `segment_length` is a quadrature of the speed.
- `CubicHermiteSpline`: the constructor. It validates vertices, tangents and
  grid, and turns them into Hermite coefficients.
- `CentripetalKochanekBartelsSpline`: the path.
  - The centripetal grid.
  - Duplicated vertices for closed curves.
  - The tension/continuity/bias (TCB) tangent formulas.
  - The "natural" end tangents.
- `ShapePreservingCubicSpline`: a scalar spline.
  - Slopes clamped as in Dougherty et al. (1989), eq. (4.2).
  - An ad-hoc rule for the end slopes.
- `MonotoneCubicSpline`: a shape-preserving spline through sorted values.
  `get_time` inverts it.
- `AsdfSpline`: the composer.
  - The `Initializer` validates the records and sorts them into tables.
  - The time-to-arc-length spline `t2s` is built from the vertices that have
    a time.
  - Vertices without a time get the time at which `t2s` reaches the path's
    arc length there.
  - `_s2u` maps arc length back to the path parameter by bisection.

Scalars are `real`, so the model is exact arithmetic and has no rounding.
Vectors are the datatype `Vectors.Vec`. Curves are immutable values
(`Curve<V>`). Constructors that throw become methods returning a `Result`,
whose `Error` names the exception.

Square root, Euclidean length and the 13-point Gauss-Legendre rule have no
exact counterpart over the reals. They are fields of a `Numerics` record
that the caller supplies. `Numerics.Sound` states the only facts the code
relies on:

- square roots and lengths are not negative;
- both are zero at zero;
- the quadrature of a non-negative integrand over a forward interval is not
  negative.

The `Initializer` is a class. Its vector members are `seq` fields that its
methods extend (`Collect`), fill (`GetT2sArguments`) and insert into
(`GetGrid`). Every `requires` is what the C++ code demands of its callers,
with two exceptions (see "Left out"): `Bisect`'s `maxCalls >= 2`, which
avoids an unsigned wrap-around, and `Numerics.Sound`, the facts assumed of
the numeric parameters.

One claim sometimes made for `bisect` does not follow from the code: that
the returned point has `|f|` no larger than at both ends of the input. The
model follows the code. The answer is the closer end of the last bracket,
or of the input when there is no sign change.

## Model

| member | source | states |
|---|---|---|
| Bisection.Bisect | include/bisect.hpp:12-60 | The result is always within the input range, and `f` is called at most `maxCalls` times. An exact root at `xmin`, then at `xmax`, is returned after 1 or 2 calls. Without a sign change the result is the end with strictly smaller `|f|` (a tie goes to `xmax`). With a sign change the result is an exact root, or the closer end of a strict sign-change bracket whose width is the input width halved once per extra call, and which is at most `xtol` wide or used the whole budget |
| Bisection.Narrow | include/bisect.hpp:29-55 | The loop keeps a strict sign change between the bracket ends, halves the width with every call, and stops at an exact root, a width of at most `xtol`, or the end of the budget |
| Search.SortedPairwise | include/monotonecubicspline.hpp:20-23 | A non-decreasing (`is_sorted`) sequence is ordered between any two positions |
| Search.AscendingPairwise | include/cubichermitespline.hpp:27-31 | The `adjacent_find` check for strict ascent makes any earlier grid value smaller than any later one |
| Search.UpperBound | include/piecewisecubiccurve.hpp:76-78 | `std::upper_bound`: every element before the index is at most `x`, and the element at the index (if any) is greater |
| Search.LowerBound | include/monotonecubicspline.hpp:35-36 | The lower end of `std::equal_range`: every element before the index is below `x`, and the element at the index (if any) is at least `x` |
| Search.EqualRange | include/monotonecubicspline.hpp:35-36 | On sorted values the equal range is exactly the positions holding `x` |
| Search.UpperBoundOfElement | include/piecewisecubiccurve.hpp:76-78 | On a strictly ascending grid, `upper_bound` of a grid value is the index just after it, so that value's own segment is chosen |
| PiecewiseCubicCurve.SegmentAndTrim | include/piecewisecubiccurve.hpp:67-92 | The chosen segment exists and its interval contains the trimmed time. A time below the grid is trimmed to the first time (segment 0), and above it to the last time (last segment). A time inside the grid is left alone and lies in `[grid[idx], grid[idx+1])`. The last grid time maps to segment `grid.size()-2` |
| PiecewiseCubicCurve.SegmentAtGridPoint | include/piecewisecubiccurve.hpp:76-83 | Grid time `i` selects segment `i` at local start, and the last grid time selects the last segment |
| PiecewiseCubicCurve.SegmentOfInteriorTime | include/piecewisecubiccurve.hpp:76-79 | A time in `[grid[k], grid[k+1])` of an ascending grid selects segment `k` untrimmed |
| PiecewiseCubicCurve.HornerIsCubic | include/piecewisecubiccurve.hpp:20-25 | The Horner form is the cubic `a0 + a1 u + a2 u^2 + a3 u^3` |
| PiecewiseCubicCurve.LocalSlopeIsDerivative | include/piecewisecubiccurve.hpp:94-98 | The velocity numerator `3 a3 u^2 + 2 a2 u + a1` is the derivative of the Horner form: the difference quotient differs from it by terms of order `h` |
| PiecewiseCubicCurve.EvaluateAtGridPoint | include/piecewisecubiccurve.hpp:20-31 | At grid time `i` the curve takes its segment's `a0`, and its velocity is the local slope at 0 divided by the segment's duration. At the last grid time they are the last segment's values at local 1 |
| PiecewiseCubicCurve.EvaluateVecAtGridPoint | include/piecewisecubiccurve.hpp:20-31 | The same for vector-valued curves |
| PiecewiseCubicCurve.EvaluateWithinSegment | include/piecewisecubiccurve.hpp:20-25 | Where segments join continuously, the time `u (t1 - t0) + t0` lies in segment `k` and the curve there is that segment's cubic at local `u` |
| PiecewiseCubicCurve.EvaluateInsideSegment | include/piecewisecubiccurve.hpp:20-25 | For local `u` in `[0, 1)` the curve at the corresponding time is the segment's cubic at `u` |
| PiecewiseCubicCurve.EvaluateAtSegmentEnd | include/piecewisecubiccurve.hpp:80-83 | Where segments join continuously, the curve at the end of segment `k` is that segment's cubic at local 1 |
| PiecewiseCubicCurve.EvaluateClamps | include/piecewisecubiccurve.hpp:71-89 | Outside the grid, position and velocity are those at the nearer grid end |
| PiecewiseCubicCurve.EvaluateVecClamps | include/piecewisecubiccurve.hpp:71-89 | Outside the grid, a vector curve's position is that at the nearer grid end |
| PiecewiseCubicCurve.Speed | include/piecewisecubiccurve.hpp:52-54 | The integrand of `segment_length`, the length of the segment velocity, is never negative |
| PiecewiseCubicCurve.SegmentLengthBetween | include/piecewisecubiccurve.hpp:43-59 | The arc length over a sub-range of a segment's interval is not negative |
| PiecewiseCubicCurve.SegmentLength | include/piecewisecubiccurve.hpp:36-41 | The arc length of a whole segment is the sub-range length over its full interval, and not negative |
| CubicHermiteSpline.HermiteSegment | include/cubichermitespline.hpp:44-53 | The coefficient matrix makes the cubic equal `x0` at local 0 and `x1` at local 1, with local slopes `delta v0` and `delta v1` |
| CubicHermiteSpline.HermiteSegmentVecEnds | include/cubichermitespline.hpp:44-53 | The same four end conditions for vector coefficients |
| CubicHermiteSpline.HermiteSegmentVelocities | include/cubichermitespline.hpp:38-53 | Divided by the segment duration (as the velocity formula does), the local slopes at the ends are the given tangents `v0` and `v1` |
| CubicHermiteSpline.HermiteSegmentVecVelocities | include/cubichermitespline.hpp:38-53 | The same for vector tangents |
| CubicHermiteSpline.HermiteSegments | include/cubichermitespline.hpp:33-54 | The constructor's loop makes exactly `n-1` segments |
| CubicHermiteSpline.SegmentOfHermiteSegments | include/cubichermitespline.hpp:34-53 | Segment `j` is built from vertices `j` and `j+1`, tangents `2j` and `2j+1`, and grid step `j` |
| CubicHermiteSpline.LastSegmentOfHermiteSegments | include/cubichermitespline.hpp:34-53 | The last segment is built from the last two vertices, the last two tangents and the last grid step |
| CubicHermiteSpline.Build | include/cubichermitespline.hpp:12-56 | The four checks in order: fewer than 2 vertices; a tangent count other than `2(n-1)`; grid and vertex counts differing; a grid not strictly ascending. Success holds exactly when all pass, and then gives `n-1` segments on the unchanged grid |
| CubicHermiteSpline.HermiteSegmentEnds | include/cubichermitespline.hpp:34-53 | Segment `i` runs from vertex `i` to vertex `i+1`, starting with velocity `tangents[2i]` and ending with `tangents[2i+1]` |
| CubicHermiteSpline.HermiteCurveInterpolates | include/cubichermitespline.hpp:36-55 | The built curve passes through every vertex at its grid time, with the outgoing tangent as its velocity |
| CubicHermiteSpline.HermiteCurveInterpolatesLast | include/cubichermitespline.hpp:36-55 | At the last grid time the curve is at the last vertex with the last tangent as velocity |
| CubicHermiteSpline.HermiteCurveVecInterpolates | include/cubichermitespline.hpp:36-55 | The same as `HermiteCurveInterpolates` for vector curves |
| CubicHermiteSpline.HermiteCurveVecInterpolatesLast | include/cubichermitespline.hpp:36-55 | The same as `HermiteCurveInterpolatesLast` for vector curves |
| CubicHermiteSpline.StartOfHermiteSegment | include/cubichermitespline.hpp:36-53 | A Hermite segment of a curve starts at its `x0` with velocity `v0` |
| CubicHermiteSpline.EndOfHermiteSegment | include/cubichermitespline.hpp:36-53 | A curve's last Hermite segment ends at its `x1` with velocity `v1` |
| CubicHermiteSpline.StartOfHermiteSegmentVec | include/cubichermitespline.hpp:36-53 | The same start conditions for vector curves |
| CubicHermiteSpline.EndOfHermiteSegmentVec | include/cubichermitespline.hpp:36-53 | The same end conditions for vector curves |
| CubicHermiteSpline.HermiteCurveIsSmoothAt | include/cubichermitespline.hpp:36-53 | Where a vertex's incoming and outgoing tangents are equal, the segment arriving there has the velocity the curve has at that vertex: no corner |
| CentripetalKochanekBartelsSpline.ZeroContinuityIsSmooth | include/centripetalkochanekbartelsspline.hpp:117-133 | With `C == 0` the weights make the incoming and the outgoing tangent equal |
| CentripetalKochanekBartelsSpline.FullTensionStops | include/centripetalkochanekbartelsspline.hpp:117-133 | With `T == 1` both tangents are zero |
| CentripetalKochanekBartelsSpline.ZeroTcbTangents | include/centripetalkochanekbartelsspline.hpp:117-133 | With zero tension, continuity and bias all four weights are one, so incoming and outgoing tangent are the same unweighted (Catmull-Rom) quotient |
| CentripetalKochanekBartelsSpline.CatmullRomWeights | include/centripetalkochanekbartelsspline.hpp:123-132 | For samples of a quadratic, the unit-weight numerator gives the linear coefficient the weight of the denominator and the quadratic coefficient twice the middle time times the denominator |
| CentripetalKochanekBartelsSpline.NumeratorOfQuadratic | include/centripetalkochanekbartelsspline.hpp:123-125 | The unit-weight numerator of three samples of a quadratic is a combination of its linear and quadratic coefficients only, with those weights |
| CentripetalKochanekBartelsSpline.WeightsOfQuadratic | include/centripetalkochanekbartelsspline.hpp:123-127 | That combination is the denominator times the quadratic's velocity at the middle time |
| CentripetalKochanekBartelsSpline.QuadraticReproduced | include/centripetalkochanekbartelsspline.hpp:113-134 | With zero TCB (Catmull-Rom), three vertices on a parabola get the parabola's velocity as both tangents, on any grid |
| CentripetalKochanekBartelsSpline.NaturalStart | include/centripetalkochanekbartelsspline.hpp:136-141 | The end tangent at the start of an open curve gives the first segment zero second derivative at its start ("natural" end) |
| CentripetalKochanekBartelsSpline.NaturalEnd | include/centripetalkochanekbartelsspline.hpp:136-141 | The end tangent at the end of an open curve gives the last segment zero second derivative at its end |
| CentripetalKochanekBartelsSpline.ChordIsStraight | include/centripetalkochanekbartelsspline.hpp:91-99 | Two vertices whose tangents are both the chord give a straight segment: no quadratic or cubic term |
| CentripetalKochanekBartelsSpline.CentripetalGrid | include/centripetalkochanekbartelsspline.hpp:52-63 | The grid fails exactly when some step `sqrt(length(x[i+1]-x[i]))` is zero. Otherwise it starts at 0, advances by those steps, and is strictly ascending |
| CentripetalKochanekBartelsSpline.InnerTangents | include/centripetalkochanekbartelsspline.hpp:67-79 | One placeholder tangent, then for every inner vertex the incoming and outgoing tangents of its TCB formula, with TCB entry `(i + closed) % tcb.size()` |
| CentripetalKochanekBartelsSpline.OpenEnds | include/centripetalkochanekbartelsspline.hpp:91-109 | For an open curve: the straight line for two vertices, else natural end tangents from the adjacent inner tangents. Either way the result has the open Kochanek-Bartels form |
| CentripetalKochanekBartelsSpline.CloseCurve | include/centripetalkochanekbartelsspline.hpp:81-90 | Moving the last tangent to slot 0 and dropping the temporary vertex and grid entry gives the closed Kochanek-Bartels form |
| CentripetalKochanekBartelsSpline.ClosedShape | include/centripetalkochanekbartelsspline.hpp:36-40 | After closing, the vertices are the input plus a copy of the first, with `2(n-1)` tangents and a strictly ascending centripetal grid |
| CentripetalKochanekBartelsSpline.ClosedSeam | include/centripetalkochanekbartelsspline.hpp:81-85 | At the seam of a closed curve, the last incoming tangent and the first outgoing tangent are those of the first vertex's TCB values, with the second vertex as the next neighbour |
| CentripetalKochanekBartelsSpline.ClosedInner | include/centripetalkochanekbartelsspline.hpp:71-79 | After closing, every inner vertex keeps the tangents of its own TCB values |
| CentripetalKochanekBartelsSpline.ClosedSeamIsSmooth | include/centripetalkochanekbartelsspline.hpp:81-85 | With zero continuity at the first vertex, a closed curve leaves and re-enters the seam with the same tangent |
| CentripetalKochanekBartelsSpline.Init | include/centripetalkochanekbartelsspline.hpp:23-111 | `_init` fails exactly on fewer than 2 vertices, a TCB count other than the (extended) vertex count minus 2, or a repeated vertex, in that order. On success it gives the Kochanek-Bartels shape, inner tangents, and seam or open ends |
| CentripetalKochanekBartelsSpline.New | include/centripetalkochanekbartelsspline.hpp:15-19 | The constructor fails exactly as `_init` does. Otherwise it is the Hermite curve of `_init`'s parts, passing through every vertex at its grid time with its outgoing tangent as velocity |
| CentripetalKochanekBartelsSpline.PathInterpolates | include/centripetalkochanekbartelsspline.hpp:15-19 | The Hermite curve built from valid Kochanek-Bartels parts is well formed, passes through every vertex at its grid time, and leaves every vertex but the last with that vertex's outgoing tangent as velocity |
| ShapePreservingCubicSpline.CalculateSlope | include/shapepreservingcubicspline.hpp:179-182 | The mean of the two chord slopes lies between them |
| ShapePreservingCubicSpline.FixSlope | include/shapepreservingcubicspline.hpp:186-202 | Zero whenever `left*right <= 0`. Otherwise it has the sign of `right` (or is zero) and magnitude at most `3 min(|left|, |right|)`, so it is admissible against both chords |
| ShapePreservingCubicSpline.FixSlopeFixedPoints | include/shapepreservingcubicspline.hpp:186-202 | A slope is left unchanged by the clamp exactly when it lies in both chords' sectors, so the explicit-slope check accepts exactly admissible slopes |
| ShapePreservingCubicSpline.SectorsOfOppositeChords | include/shapepreservingcubicspline.hpp:190-193 | At a local extremum (chords of opposite sign or zero) the only admissible slope is zero |
| ShapePreservingCubicSpline.FixSlopeIsIdempotent | include/shapepreservingcubicspline.hpp:186-202 | Clamping twice is clamping once, so a computed slope always passes the explicit-slope check |
| ShapePreservingCubicSpline.FixSlopeIsNearest | include/shapepreservingcubicspline.hpp:186-202 | The clamped slope is the admissible slope nearest to the input slope |
| ShapePreservingCubicSpline.EndSlope | include/shapepreservingcubicspline.hpp:204-224 | For an inner slope admissible against the chord, the end slope is admissible too: in `[0, 3 chord]` for a rising chord, mirrored for a falling one |
| ShapePreservingCubicSpline.EndSlopeIsOdd | include/shapepreservingcubicspline.hpp:210-213 | Negating both arguments negates the end slope |
| ShapePreservingCubicSpline.EndSlopeOfChord | include/shapepreservingcubicspline.hpp:216-218 | An inner slope equal to the chord gives the chord |
| ShapePreservingCubicSpline.EndSlopeForms | include/shapepreservingcubicspline.hpp:214-223 | The end slope is `3 chord - 2 inner` or half of `3 chord - inner` |
| ShapePreservingCubicSpline.FirstSegmentHasNoInflection | include/shapepreservingcubicspline.hpp:204-209 | With the end-slope rule at the start, the first segment's second derivative keeps one sign: no change from positive to negative acceleration |
| ShapePreservingCubicSpline.LastSegmentHasNoInflection | include/shapepreservingcubicspline.hpp:204-209 | The same for the last segment with the end-slope rule at its end |
| ShapePreservingCubicSpline.SectorSlopesMakeMonotoneSegment | include/shapepreservingcubicspline.hpp:184-202 | A Hermite segment whose two slopes are admissible against its chord never moves against the chord: the point of Dougherty et al.'s eq. (4.2) |
| ShapePreservingCubicSpline.InnerSlope | include/shapepreservingcubicspline.hpp:83-99 | An inner vertex's slope (explicit, or the clamped mean of the chords), when admissible, lies in the sectors of both neighbouring chords |
| ShapePreservingCubicSpline.OuterSlope | include/shapepreservingcubicspline.hpp:155-168 | An open end's slope (explicit, or the end-slope rule) is admissible against its segment's chord whenever an explicit one passes the check |
| ShapePreservingCubicSpline.TwoValueSlopes | include/shapepreservingcubicspline.hpp:110-151 | For two values, explicit slopes are kept, and the resulting two slopes are admissible against the chord |
| ShapePreservingCubicSpline.InnerSlopes | include/shapepreservingcubicspline.hpp:73-102 | The loop fails exactly when some explicit inner slope violates its clamp. Otherwise it gives every inner vertex its slope as both incoming and outgoing slope |
| ShapePreservingCubicSpline.VertexSlope | include/shapepreservingcubicspline.hpp:85-99 | One inner vertex: it fails exactly on an explicit slope the clamp would change, and else gives the vertex's slope |
| ShapePreservingCubicSpline.TwoValueEnds | include/shapepreservingcubicspline.hpp:110-152 | The two-value branch fails exactly on an inadmissible explicit slope, and else gives the shape-preserving parts |
| ShapePreservingCubicSpline.OpenEnds | include/shapepreservingcubicspline.hpp:153-175 | The open-end branch fails exactly on an inadmissible explicit end slope, and else completes the shape-preserving parts |
| ShapePreservingCubicSpline.Init | include/shapepreservingcubicspline.hpp:37-177 | `_init` for open curves: it fails exactly with the first of the count checks, a zero grid step, or a slope check, and else gives values and grid unchanged with `2(n-1)` slopes, equal on both sides of every inner vertex |
| ShapePreservingCubicSpline.SegmentSlopesFitChord | include/shapepreservingcubicspline.hpp:83-101 | Both slopes of every segment are admissible against that segment's chord |
| ShapePreservingCubicSpline.ShapePreservingSegmentIsMonotone | include/shapepreservingcubicspline.hpp:184-202 | Every segment of the spline rises where its values rise and falls where they fall |
| ShapePreservingCubicSpline.FittingSlopesMakeMonotoneCurveSegment | include/shapepreservingcubicspline.hpp:184-202 | A Hermite curve segment with slopes admissible against its chord moves only in the chord's direction |
| ShapePreservingCubicSpline.TwoValuesWithoutSlopesAreStraight | include/shapepreservingcubicspline.hpp:146-150 | Two values without explicit slopes give both slopes equal to the chord |
| ShapePreservingCubicSpline.New | include/shapepreservingcubicspline.hpp:22-26 | The constructor fails with `_init`'s exception, or the Hermite builder's for a grid that is not strictly ascending. Otherwise it is the Hermite curve of `_init`'s parts on the input grid |
| ShapePreservingCubicSpline.ShapePreservingInterpolates | include/shapepreservingcubicspline.hpp:61-62 | The spline passes through every value at its grid time, with the vertex's outgoing slope as velocity |
| ShapePreservingCubicSpline.ShapePreservingIsSmooth | include/shapepreservingcubicspline.hpp:100-101 | At every inner vertex, the segment arriving there has the velocity the spline has there |
| ShapePreservingCubicSpline.KeptSlopeIndex | include/shapepreservingcubicspline.hpp:85-174 | A slope given for a vertex is, unchanged, that vertex's outgoing slope in the parts, or for the last vertex its incoming one |
| ShapePreservingCubicSpline.GivenSlopeKept | include/shapepreservingcubicspline.hpp:85-174 | For the curve the constructor builds, the velocity at each vertex's grid time is the slope given for that vertex, when one is given |
| ShapePreservingCubicSpline.NewWithoutSlopes | include/shapepreservingcubicspline.hpp:17-35 | Without slopes, construction fails exactly on fewer than 2 values, a grid count mismatch or a grid that is not strictly ascending, never on a slope. Otherwise every slope is computed |
| MonotoneCubicSpline.New | include/monotonecubicspline.hpp:15-24 | Construction fails with the shape-preserving constructor's exception, else exactly when the values are not sorted. The result stores the values and is a curve through them that never falls |
| MonotoneCubicSpline.SortedShapePreservingIsMonotone | include/monotonecubicspline.hpp:20-23 | A shape-preserving spline through sorted values passes through them and rises (weakly) on every segment |
| MonotoneCubicSpline.HermiteSegmentsJoinValues | include/cubichermitespline.hpp:36-53 | Each Hermite segment runs from its value to the next |
| MonotoneCubicSpline.GetTime | include/monotonecubicspline.hpp:30-71 | Below every value: the first time. Above every value: the last time. A value at exactly one vertex: that vertex's time. A plateau: no answer, and only there. Otherwise a time inside the one segment whose end values enclose the value, where the cubic is exactly the value or crosses it over a local bracket at most 0.0001 wide |
| MonotoneCubicSpline.EqualRangeCases | include/monotonecubicspline.hpp:35-59 | The five cases of `equal_range`: empty at the start iff the value is too small; at the end iff too large; one match iff unique; more iff a plateau; otherwise strictly between two neighbouring values |
| MonotoneCubicSpline.SolveBetweenVertices | include/monotonecubicspline.hpp:59-70 | For a value strictly between two neighbouring values, the time lies in that segment (and in any segment enclosing the value) and solves or brackets the cubic |
| MonotoneCubicSpline.EnclosingSegmentIsUnique | include/monotonecubicspline.hpp:32-33 | On sorted values at most one segment's end values strictly enclose a value |
| MonotoneCubicSpline.SegmentTimeBracket | include/monotonecubicspline.hpp:67-70 | Local parameters in `[0, 1]` map to times inside the segment, in order, and a local bracket of width 0.0001 becomes a time bracket of at most 0.0001 of the segment's duration |
| MonotoneCubicSpline.RootInTime | include/monotonecubicspline.hpp:59-70 | A local root of the segment's cubic is a time at which the curve takes the value |
| MonotoneCubicSpline.SolveInSegment | include/monotonecubicspline.hpp:60-66 | Subtracting the value from `a0` and bisecting on `[0, 1]` finds a local parameter where the cubic equals the value, or where it crosses the value over a bracket at most 0.0001 wide |
| MonotoneCubicSpline.BisectUnit | include/monotonecubicspline.hpp:66 | Bisection with tolerance 0.0001 and 500 calls on a sign change over `[0, 1]` ends at a root or within a bracket at most 0.0001 wide |
| MonotoneCubicSpline.BracketIsNarrow | include/monotonecubicspline.hpp:66 | A bisection bracket that stopped for its width or for the 500-call budget is at most 0.0001 wide |
| MonotoneCubicSpline.HalvedWidthAtMost | include/monotonecubicspline.hpp:66 | Halving the unit interval 14 times brings it under 0.0001, so 500 calls cannot run out first |
| MonotoneCubicSpline.ScaledBracket | include/monotonecubicspline.hpp:67-70 | The map `u (t1 - t0) + t0` keeps a local bracket's order and scales its width by the segment duration |
| AsdfSpline.ErrorPersists | include/asdfspline.hpp:118-161 | The first failing vertex decides the exception: later vertices do not change it |
| AsdfSpline.ErrorKinds | include/asdfspline.hpp:118-161 | The loop can only throw "CLOSED only on last vertex", "time of last vertex", "speed only with time" or "TCB not allowed" |
| AsdfSpline.NoErrorAt | include/asdfspline.hpp:118-161 | When no exception was thrown up to `k`, every vertex before `k` passed all its checks |
| AsdfSpline.CountsAddUp | include/asdfspline.hpp:130-151 | Every vertex is either timed or missing: `times.size() + missing_times.size() == data.size()` |
| AsdfSpline.MissingMembers | include/asdfspline.hpp:144-146 | `missing_times` holds exactly the vertices without a time (the first excepted), in strictly increasing order |
| AsdfSpline.EndTimesKnown | include/asdfspline.hpp:130-143 | After a successful initializer the first and last vertices have times, at least two times exist, and every missing time is an inner vertex |
| AsdfSpline.InitializedVertices | include/asdfspline.hpp:116-128 | The collected vertices are the positions of all records but a final `CLOSED`, in order |
| AsdfSpline.InitializedTcbs | include/asdfspline.hpp:152-155 | TCB values are collected for the inner vertices, plus the first one when closed, in order |
| AsdfSpline.PathInputFits | include/asdfspline.hpp:33 | The collected vertices and TCB values always have the counts the path constructor expects. Only too few vertices or a repeated vertex can make it throw |
| AsdfSpline.Initializer.constructor | include/asdfspline.hpp:108-110 | A fresh initializer with empty tables |
| AsdfSpline.Initializer.Collect | include/asdfspline.hpp:120-160 | One loop iteration: the exception of the first failing vertex so far, or the tables extended by this vertex's position, time (0 for a first vertex without one), speed, missing index and TCB values |
| AsdfSpline.CollectStep | include/asdfspline.hpp:120-160 | How each table grows by one vertex, in each case of the loop body |
| AsdfSpline.Initialize | include/asdfspline.hpp:109-161 | The initializer fails exactly with the first exception its checks raise (fewer than 2 records first). Otherwise all tables are complete and `closed` holds exactly when the last record is `CLOSED` |
| AsdfSpline.Arc | include/asdfspline.hpp:166-181 | The arc length from the start of the path to vertex `j` is not negative |
| AsdfSpline.ArcsRise | include/asdfspline.hpp:166-181 | The running sum of segment lengths never decreases |
| AsdfSpline.MissingExactly | include/asdfspline.hpp:144-146 | Vertex `i` is in `missing_times` if and only if it has no time |
| AsdfSpline.ArcTablesGrow | include/asdfspline.hpp:169-181 | One loop step. A vertex with a time appends the next arc length to `lengths`. A vertex without one moves its arc length to `lengths_at_missing_times` and advances the last entry by the segment length. Either way the tables stay the arc lengths of the timed and untimed vertices so far |
| AsdfSpline.ArcTablesDone | include/asdfspline.hpp:169-183 | The last vertex has a time, so after the last segment the tables are complete |
| AsdfSpline.KeptSorted | include/asdfspline.hpp:169-181 | Any selection of a non-decreasing table, kept in order, is non-decreasing |
| AsdfSpline.Initializer.GetT2sArguments | include/asdfspline.hpp:164-184 | `lengths` is the arc length at every timed vertex. `lengths_at_missing_times` is the arc length at every missing vertex, in order. Speeds and times are returned unchanged |
| AsdfSpline.T2sArgumentsFit | include/asdfspline.hpp:34-35 | The lengths, speeds and times passed to `t2s` always have matching counts and sorted lengths. Only times that are not strictly ascending or an inadmissible speed can make it throw |
| AsdfSpline.Initializer.GetGrid | include/asdfspline.hpp:186-201 | It fails ("duplicate vertex without time") exactly when some missing vertex's arc length lies on a plateau of `t2s`. Otherwise each solved time lies in the `t2s` segment whose values enclose the missing vertex's arc length. It is the time of an exact solution there, or of a point of a crossing bracket at most 0.0001 wide. The grid has one time per vertex with the solved ones in place |
| AsdfSpline.InsertStart | include/asdfspline.hpp:186-189 | Before any insertion the grid is the table of given times |
| AsdfSpline.InsertSolved | include/asdfspline.hpp:191-194 | Inserting the next solved time at its vertex index keeps the given times after it, shifted by one |
| AsdfSpline.InsertEnd | include/asdfspline.hpp:189-200 | After all insertions every vertex has its time: the given one or its solved one |
| AsdfSpline.GridKeepsTimes | include/asdfspline.hpp:186-201 | In the final grid every given time stays at its vertex, a first vertex without a time gets 0, and the `p`-th missing vertex gets the `p`-th solved time |
| AsdfSpline.GridEnds | include/asdfspline.hpp:186-201 | The final grid starts and ends with the first and last times of `t2s` |
| AsdfSpline.TimeToLength | include/asdfspline.hpp:34-35 | `t2s` is monotone, through the timed vertices' arc lengths at their times. It is the shape-preserving curve built from those lengths, the timed vertices' speeds and their times, so a given speed is its slope there (`ShapePreservingCubicSpline.IsCurveOf`). It fails exactly when the `MonotoneCubicSpline` constructor rejects those lengths, speeds and times (`T2sError`), with that exception, which can only be times that are not strictly ascending or a bad speed |
| AsdfSpline.TimePath | include/asdfspline.hpp:34-36 | `t2s`, the time grid and the arc-length grid for a path, as `Timed` states: `t2s` is the shape-preserving curve through the timed arc lengths with the given speeds as slopes, the grid holds the given and solved times, and `s_grid` samples `t2s` on it. It fails exactly when `t2s` does, with its exception, or else when the arc length at some vertex without a time lies on a plateau of the timed arc lengths, with the duplicate-vertex exception (`TimePathError`) |
| AsdfSpline.ArcLengthGrid | include/asdfspline.hpp:40-41 | `s_grid` is `t2s` sampled at every time of the grid |
| AsdfSpline.New | include/asdfspline.hpp:30-42 | The constructor fails with the initializer's exception, then the path's, and once the path exists exactly as `TimePathError` says for that path. It never fails on counts or ordering it produces itself. On success the path interpolates the vertices, `t2s` is monotone through the timed arc lengths with the given speeds as its slopes, and the grid holds given and solved times |
| AsdfSpline.TimePathErrorOf | include/asdfspline.hpp:191-197 | Once `t2s` is made, the constructor's exception is the duplicate-vertex one exactly when some missing arc length lies on a plateau of the timed ones, and there is none otherwise |
| AsdfSpline.GivenSpeedKept | include/asdfspline.hpp:34-35 | Every speed given at a vertex is the velocity of `t2s` at that vertex's time in the grid |
| AsdfSpline.ArcLengthAtTimedVertex | include/asdfspline.hpp:40-41 | At a vertex with a time, `s_grid` is the path's arc length up to that vertex |
| AsdfSpline.PathEnds | include/asdfspline.hpp:31-33 | The path starts at the first vertex and ends at the last, or back at the first when closed |
| AsdfSpline.S2u | include/asdfspline.hpp:66-95 | Arc lengths at or below the first `s_grid` value give the first path time, and at or above the last give the last path time. Otherwise the parameter lies in the segment whose `s_grid` bracket (found by `upper_bound`) contains the arc length. There it is the bisection's answer for the arc length travelled within the segment, case by case as for `SolveArcLength` |
| AsdfSpline.SolveArcLength | include/asdfspline.hpp:88-94 | Bisecting the segment's arc length from its start, with `d0` and `d1` the differences from the target at the segment's ends: the start if `d0` is zero; else the end if `d1` is zero; the end nearer the target if both have the same sign; and on a strict crossing an exact solution, or a point of a crossing bracket at most 0.0001 wide or halved 48 times |
| AsdfSpline.ArcLengthEnds | include/asdfspline.hpp:40-41 | At or beyond the ends of the grid, `t2s` gives the first or last `s_grid` value |
| AsdfSpline.ParameterEnds | include/asdfspline.hpp:44-47 | At or before the first time, the parameter `_s2u` gives for `t2s(t)` is the path's first time. At or after the last time it is the path's last time, provided the first `s_grid` value is below the last |
| AsdfSpline.Evaluate | include/asdfspline.hpp:44-47 | The position is the path at the parameter `_s2u` gives for `s = t2s(t)`. When `s` lies strictly inside `s_grid`, that parameter is in the segment `upper_bound` finds and is the bisection's answer for the arc length `s` (as `SolveArcLength` states). At or before the first time the position is the path's start. At or after the last time it is the path's end, provided the first `s_grid` value is below the last |
| AsdfSpline.EvaluateVelocity | include/asdfspline.hpp:49-58 | The velocity is the speed of `t2s` times the path tangent at the parameter `_s2u` gives for `s = t2s(t)`, normalised unless its length is zero. When `s` lies strictly inside `s_grid`, that parameter is the bisection's answer for the arc length `s` in the segment `upper_bound` finds |
| AsdfSpline.VelocityHasSpeed | include/asdfspline.hpp:53-57 | For a homogeneous length function, the velocity's length is `|speed|` where the tangent is non-zero, and 0 where it is zero |
| AsdfSpline.Standstill | include/asdfspline.hpp:53-57 | Zero speed or a zero tangent gives zero velocity |

## Left out

- Floating point: all arithmetic is exact over the reals. Rounding, the
  `static_assert`s that only `float` is supported, and claims that
  `evaluate` is exact at grid points are not modelled.
- Bisection.Bisect: does not model the `xmid == xmin || xmid == xmax`
  stagnation guard. Over the reals it can only fire on a zero-width bracket,
  which the loop never keeps.
- Bisection.Bisect: requires `maxCalls >= 2`. Below that, the unsigned
  `max_calls - calls` wraps around. All callers pass 50 or 500.
- Square root, Euclidean length (`std::hypot`) and the 13-point
  Gauss-Legendre rule (include/gauss-legendre.hpp) are parameters in the
  `Numerics` record. Only the facts in `Numerics.Sound` are used, and
  `CentripetalKochanekBartelsSpline.Init`, `New` and `CentripetalGrid`,
  and `AsdfSpline.New`, `TimePath` and `TimeToLength`, require them. Additivity of the quadrature over sub-ranges holds only
  approximately, so the model does not rely on it.
- AsdfSpline.S2u: states where the parameter lies and what the bisection
  ended with. It does not state how accurately the parameter inverts the
  arc length beyond that, which depends on the quadrature.
- AsdfSpline.New: does not state that the final time grid is strictly
  ascending, which depends on quadrature accuracy.
- AsdfSpline.VelocityHasSpeed: requires the length function to be
  homogeneous, as the Euclidean length is. `Numerics.Sound` does not
  include this.
- MonotoneCubicSpline.GetTime: states its bisection result in the
  segment's local parameter. `SegmentTimeBracket` and `RootInTime` carry it
  over to times and to the curve.
- ShapePreservingCubicSpline.Init: models open curves only. The closed
  branch's size check (`values == grid + closed`) does not fit its
  indexing, which reads past the end of the grid. The only caller passes
  `closed = false` (include/monotonecubicspline.hpp:17).
- ShapePreservingCubicSpline.Init: a zero grid step fails early with
  `GridNotAscending`. The C++ code divides by zero there. Depending on the
  given slopes it then throws "Slope too steep or wrong sign"
  (include/shapepreservingcubicspline.hpp:90-92), or it fails later in the
  Hermite builder's grid check.
- `AsdfSpline::grid()` and `PiecewiseCubicCurve::grid()` are read-only
  accessors and are fields of the datatypes here.
- The `Initializer` constructor is the method `AsdfSpline.Initialize`,
  which returns a `Result`. The per-record loop body is
  `Initializer.Collect`. The C++ `unique_ptr` ownership and `reset` are not
  modelled.
- Vector-valued paths are three-dimensional only (`Vectors.Vec`); the C++
  code is generic in the vector type.
- The Python binding (python/src/asdfspline-python.cpp), its build script
  and its `Vec3` type are not part of this model. They are foreign-library
  I/O and packaging.
