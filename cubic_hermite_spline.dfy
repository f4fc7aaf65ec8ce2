/** The cubic Hermite builder (include/cubichermitespline.hpp): validates
    vertices, tangents and grid and turns each pair of neighbouring vertices
    with their two tangents into the coefficients of one cubic segment. */
module CubicHermiteSpline {
  import opened Wrappers
  import opened Vectors
  import opened Search
  import opened PiecewiseCubicCurve

  /** The coefficient matrix applied to `(x0, x1, v0, v1)` for a segment of
      duration `delta`. The cubic starts at `x0`, ends at `x1`, and its local
      slopes at the ends are `delta * v0` and `delta * v1`. */
  function HermiteSegment(x0: real, x1: real, v0: real, v1: real, delta: real): (a: Segment<real>)
    ensures Horner(a, 0.0) == x0 && Horner(a, 1.0) == x1
    ensures LocalSlope(a, 0.0) == delta * v0 && LocalSlope(a, 1.0) == delta * v1
  {
    Segment(
      x0,
      delta * v0,
      -3.0 * x0 + 3.0 * x1 - 2.0 * delta * v0 - delta * v1,
      2.0 * x0 - 2.0 * x1 + delta * v0 + delta * v1)
  }

  /** The same matrix with vector vertices and tangents. */
  function HermiteSegmentVec(x0: Vec, x1: Vec, v0: Vec, v1: Vec, delta: real): (a: Segment<Vec>)
  {
    Segment(
      x0,
      Scale(delta, v0),
      Sub(Sub(Add(Scale(-3.0, x0), Scale(3.0, x1)), Scale(2.0 * delta, v0)), Scale(delta, v1)),
      Add(Add(Sub(Scale(2.0, x0), Scale(2.0, x1)), Scale(delta, v0)), Scale(delta, v1)))
  }

  /** The vector segment starts at `x0`, ends at `x1`, and its local
      slopes at the ends are `delta * v0` and `delta * v1`. */
  lemma HermiteSegmentVecEnds(x0: Vec, x1: Vec, v0: Vec, v1: Vec, delta: real)
    ensures HornerVec(HermiteSegmentVec(x0, x1, v0, v1, delta), 0.0) == x0
    ensures HornerVec(HermiteSegmentVec(x0, x1, v0, v1, delta), 1.0) == x1
    ensures LocalSlopeVec(HermiteSegmentVec(x0, x1, v0, v1, delta), 0.0) == Scale(delta, v0)
    ensures LocalSlopeVec(HermiteSegmentVec(x0, x1, v0, v1, delta), 1.0) == Scale(delta, v1)
  {
  }

  /** What the constructor accepts: two or more vertices, two tangents per
      segment, one grid time per vertex, strictly ascending. */
  predicate ValidInput<V>(vertices: seq<V>, tangents: seq<V>, grid: seq<real>)
  {
    && 2 <= |vertices|
    && |tangents| == 2 * (|vertices| - 1)
    && |grid| == |vertices|
    && Ascending(grid)
  }

  /** Segment `i` joins vertex `i` (outgoing tangent `2 i`) to vertex `i + 1`
      (incoming tangent `2 i + 1`). */
  function HermiteSegments<V>(vertices: seq<V>, tangents: seq<V>, grid: seq<real>,
                              hermite: (V, V, V, V, real) -> Segment<V>): (segments: seq<Segment<V>>)
    requires ValidInput(vertices, tangents, grid)
    ensures |segments| == |vertices| - 1
  {
    seq(|vertices| - 1, i requires 0 <= i < |vertices| - 1 =>
      hermite(vertices[i], vertices[i + 1], tangents[2 * i], tangents[2 * i + 1], grid[i + 1] - grid[i]))
  }

  /** The `CubicHermiteSpline` constructor. `hermite` is the coefficient
      matrix for the vertex type: `HermiteSegment` for scalars,
      `HermiteSegmentVec` for vectors. The checks come in the source's order. */
  method Build<V>(vertices: seq<V>, tangents: seq<V>, grid: seq<real>,
                  hermite: (V, V, V, V, real) -> Segment<V>) returns (r: Result<Curve<V>>)
    ensures |vertices| < 2 ==> r == Failure(TooFewVertices)
    ensures 2 <= |vertices| && |tangents| != 2 * (|vertices| - 1) ==> r == Failure(TangentCountMismatch)
    ensures 2 <= |vertices| && |tangents| == 2 * (|vertices| - 1) && |grid| != |vertices|
            ==> r == Failure(GridSizeMismatch)
    ensures 2 <= |vertices| && |tangents| == 2 * (|vertices| - 1) && |grid| == |vertices| && !Ascending(grid)
            ==> r == Failure(GridNotAscending)
    ensures r.Success? <==> ValidInput(vertices, tangents, grid)
    ensures r.Success? ==> WellFormed(r.value)
    ensures r.Success? ==> r.value == Curve(HermiteSegments(vertices, tangents, grid, hermite), grid)
  {
    if |vertices| < 2 {
      return Failure(TooFewVertices);
    }
    var segmentsSize := |vertices| - 1;
    if |tangents| != 2 * segmentsSize {
      return Failure(TangentCountMismatch);
    }
    if |vertices| != |grid| {
      return Failure(GridSizeMismatch);
    }
    if !Ascending(grid) {
      return Failure(GridNotAscending);
    }

    var segments: seq<Segment<V>> := [];
    var i := 0;
    while i < segmentsSize
      invariant 0 <= i <= segmentsSize
      invariant segments == HermiteSegments(vertices, tangents, grid, hermite)[..i]
    {
      var x0, x1 := vertices[i], vertices[i + 1];
      var v0, v1 := tangents[2 * i], tangents[2 * i + 1];
      var t0, t1 := grid[i], grid[i + 1];
      var delta := t1 - t0;
      segments := segments + [hermite(x0, x1, v0, v1, delta)];
      i := i + 1;
    }
    return Success(Curve(segments, grid));
  }

  lemma SegmentOfHermiteSegments<V>(vertices: seq<V>, tangents: seq<V>, grid: seq<real>,
                                   hermite: (V, V, V, V, real) -> Segment<V>, j: nat)
    requires ValidInput(vertices, tangents, grid)
    requires j < |vertices| - 1
    ensures HermiteSegments(vertices, tangents, grid, hermite)[j]
         == hermite(vertices[j], vertices[j + 1], tangents[2 * j], tangents[2 * j + 1], grid[j + 1] - grid[j])
  {
  }

  lemma LastSegmentOfHermiteSegments<V>(vertices: seq<V>, tangents: seq<V>, grid: seq<real>,
                                       hermite: (V, V, V, V, real) -> Segment<V>)
    requires ValidInput(vertices, tangents, grid)
    ensures var segments := HermiteSegments(vertices, tangents, grid, hermite);
      segments[|segments| - 1]
      == hermite(vertices[|vertices| - 2], vertices[|vertices| - 1], tangents[|tangents| - 2], tangents[|tangents| - 1],
                 Last(grid) - grid[|grid| - 2])
  {
  }

  /** The scalar Hermite curve passes through every vertex but the last at
      its grid time, and its velocity there is the vertex's outgoing tangent. */
  lemma HermiteCurveInterpolates(vertices: seq<real>, tangents: seq<real>, grid: seq<real>, i: nat)
    requires ValidInput(vertices, tangents, grid)
    requires i < |vertices| - 1
    ensures WellFormed(Curve(HermiteSegments(vertices, tangents, grid, HermiteSegment), grid))
    ensures Evaluate(Curve(HermiteSegments(vertices, tangents, grid, HermiteSegment), grid), grid[i]) == vertices[i]
    ensures EvaluateVelocity(Curve(HermiteSegments(vertices, tangents, grid, HermiteSegment), grid), grid[i])
         == tangents[2 * i]
  {
    var c := Curve(HermiteSegments(vertices, tangents, grid, HermiteSegment), grid);
    SegmentOfHermiteSegments(vertices, tangents, grid, HermiteSegment, i);
    StartOfHermiteSegment(c, i, vertices[i], vertices[i + 1], tangents[2 * i], tangents[2 * i + 1]);
  }

  /** ... and through the last vertex at the last grid time, with the last
      (incoming) tangent as velocity. */
  lemma HermiteCurveInterpolatesLast(vertices: seq<real>, tangents: seq<real>, grid: seq<real>)
    requires ValidInput(vertices, tangents, grid)
    ensures WellFormed(Curve(HermiteSegments(vertices, tangents, grid, HermiteSegment), grid))
    ensures Evaluate(Curve(HermiteSegments(vertices, tangents, grid, HermiteSegment), grid), Last(grid)) == vertices[|vertices| - 1]
    ensures EvaluateVelocity(Curve(HermiteSegments(vertices, tangents, grid, HermiteSegment), grid), Last(grid))
         == tangents[|tangents| - 1]
  {
    var c := Curve(HermiteSegments(vertices, tangents, grid, HermiteSegment), grid);
    LastSegmentOfHermiteSegments(vertices, tangents, grid, HermiteSegment);
    EndOfHermiteSegment(c, vertices[|vertices| - 2], vertices[|vertices| - 1], tangents[|tangents| - 2], tangents[|tangents| - 1]);
  }

  /** The vector Hermite curve passes through every vertex but the last at
      its grid time, with the vertex's outgoing tangent as velocity. */
  lemma HermiteCurveVecInterpolates(vertices: seq<Vec>, tangents: seq<Vec>, grid: seq<real>, i: nat)
    requires ValidInput(vertices, tangents, grid)
    requires i < |vertices| - 1
    ensures WellFormed(Curve(HermiteSegments(vertices, tangents, grid, HermiteSegmentVec), grid))
    ensures EvaluateVec(Curve(HermiteSegments(vertices, tangents, grid, HermiteSegmentVec), grid), grid[i]) == vertices[i]
    ensures EvaluateVelocityVec(Curve(HermiteSegments(vertices, tangents, grid, HermiteSegmentVec), grid), grid[i])
         == tangents[2 * i]
  {
    var c := Curve(HermiteSegments(vertices, tangents, grid, HermiteSegmentVec), grid);
    SegmentOfHermiteSegments(vertices, tangents, grid, HermiteSegmentVec, i);
    StartOfHermiteSegmentVec(c, i, vertices[i], vertices[i + 1], tangents[2 * i], tangents[2 * i + 1]);
  }

  /** ... and through the last vertex at the last grid time, with the last
      (incoming) tangent as velocity. */
  lemma HermiteCurveVecInterpolatesLast(vertices: seq<Vec>, tangents: seq<Vec>, grid: seq<real>)
    requires ValidInput(vertices, tangents, grid)
    ensures WellFormed(Curve(HermiteSegments(vertices, tangents, grid, HermiteSegmentVec), grid))
    ensures EvaluateVec(Curve(HermiteSegments(vertices, tangents, grid, HermiteSegmentVec), grid), Last(grid)) == vertices[|vertices| - 1]
    ensures EvaluateVelocityVec(Curve(HermiteSegments(vertices, tangents, grid, HermiteSegmentVec), grid), Last(grid))
         == tangents[|tangents| - 1]
  {
    var c := Curve(HermiteSegments(vertices, tangents, grid, HermiteSegmentVec), grid);
    var x0, x1, v0, v1 := vertices[|vertices| - 2], vertices[|vertices| - 1], tangents[|tangents| - 2], tangents[|tangents| - 1];
    LastSegmentOfHermiteSegments(vertices, tangents, grid, HermiteSegmentVec);
    assert c.segments[|c.segments| - 1] == HermiteSegmentVec(x0, x1, v0, v1, Last(c.grid) - c.grid[|c.grid| - 2]);
    EndOfHermiteSegmentVec(c, x0, x1, v0, v1);
  }

  /** A well-formed curve whose segment `i` is a Hermite segment is at that
      segment's first vertex at `grid[i]`, moving with its outgoing tangent. */
  lemma StartOfHermiteSegment(c: Curve<real>, i: nat, x0: real, x1: real, v0: real, v1: real)
    requires WellFormed(c)
    requires i < |c.segments|
    requires c.segments[i] == HermiteSegment(x0, x1, v0, v1, c.grid[i + 1] - c.grid[i])
    ensures Evaluate(c, c.grid[i]) == x0
    ensures EvaluateVelocity(c, c.grid[i]) == v0
  {
    EvaluateAtGridPoint(c, i);
    AscendingPairwise(c.grid, i, i + 1);
    HermiteSegmentVelocities(x0, x1, v0, v1, c.grid[i + 1] - c.grid[i]);
  }

  /** ... and at the last grid point, after a final Hermite segment `j`, the
      curve is at that segment's second vertex with its incoming tangent. */
  lemma EndOfHermiteSegment(c: Curve<real>, x0: real, x1: real, v0: real, v1: real)
    requires WellFormed(c)
    requires c.segments[|c.segments| - 1] == HermiteSegment(x0, x1, v0, v1, Last(c.grid) - c.grid[|c.grid| - 2])
    ensures Evaluate(c, Last(c.grid)) == x1
    ensures EvaluateVelocity(c, Last(c.grid)) == v1
  {
    var t0, t1 := c.grid[|c.grid| - 2], c.grid[|c.grid| - 1];
    assert t0 < t1;
    HermiteSegmentVelocities(x0, x1, v0, v1, t1 - t0);
    EvaluateAtGridPoint(c, |c.grid| - 1);
  }


  lemma StartOfHermiteSegmentVec(c: Curve<Vec>, i: nat, x0: Vec, x1: Vec, v0: Vec, v1: Vec)
    requires WellFormed(c)
    requires i < |c.segments|
    requires c.segments[i] == HermiteSegmentVec(x0, x1, v0, v1, c.grid[i + 1] - c.grid[i])
    ensures EvaluateVec(c, c.grid[i]) == x0
    ensures EvaluateVelocityVec(c, c.grid[i]) == v0
  {
    EvaluateVecAtGridPoint(c, i);
    AscendingPairwise(c.grid, i, i + 1);
    HermiteSegmentVecVelocities(x0, x1, v0, v1, c.grid[i + 1] - c.grid[i]);
  }

  lemma EndOfHermiteSegmentVec(c: Curve<Vec>, x0: Vec, x1: Vec, v0: Vec, v1: Vec)
    requires WellFormed(c)
    requires c.segments[|c.segments| - 1] == HermiteSegmentVec(x0, x1, v0, v1, Last(c.grid) - c.grid[|c.grid| - 2])
    ensures EvaluateVec(c, Last(c.grid)) == x1
    ensures EvaluateVelocityVec(c, Last(c.grid)) == v1
  {
    var i := |c.grid| - 1;
    var t0, t1 := c.grid[i - 1], c.grid[i];
    assert Last(c.grid) == t1;
    assert t0 < t1;
    HermiteSegmentVecEnds(x0, x1, v0, v1, t1 - t0);
    HermiteSegmentVecVelocities(x0, x1, v0, v1, t1 - t0);
    EvaluateVecAtGridPoint(c, i);
  }


  /** The local slopes of a Hermite segment, divided by its duration, are
      the two tangents. */
  lemma HermiteSegmentVelocities(x0: real, x1: real, v0: real, v1: real, delta: real)
    requires delta != 0.0
    ensures LocalSlope(HermiteSegment(x0, x1, v0, v1, delta), 0.0) / delta == v0
    ensures LocalSlope(HermiteSegment(x0, x1, v0, v1, delta), 1.0) / delta == v1
  {
    var a := HermiteSegment(x0, x1, v0, v1, delta);
    DivideScaled(LocalSlope(a, 0.0), delta, v0);
    DivideScaled(LocalSlope(a, 1.0), delta, v1);
  }

  lemma HermiteSegmentVecVelocities(x0: Vec, x1: Vec, v0: Vec, v1: Vec, delta: real)
    requires delta != 0.0
    ensures Div(LocalSlopeVec(HermiteSegmentVec(x0, x1, v0, v1, delta), 0.0), delta) == v0
    ensures Div(LocalSlopeVec(HermiteSegmentVec(x0, x1, v0, v1, delta), 1.0), delta) == v1
  {
    var a := HermiteSegmentVec(x0, x1, v0, v1, delta);
    ScaleThenDivide(LocalSlopeVec(a, 0.0), delta, v0);
    ScaleThenDivide(LocalSlopeVec(a, 1.0), delta, v1);
  }

  lemma DivideScaled(slope: real, delta: real, v: real)
    requires delta != 0.0
    requires slope == delta * v
    ensures slope / delta == v
  {
  }

  lemma ScaleThenDivide(slope: Vec, delta: real, v: Vec)
    requires delta != 0.0
    requires slope == Scale(delta, v)
    ensures Div(slope, delta) == v
  {
    DivideScaled(delta * v.x, delta, v.x);
    DivideScaled(delta * v.y, delta, v.y);
    DivideScaled(delta * v.z, delta, v.z);
  }

  /** Segment `i` of a Hermite curve, evaluated as a curve segment, starts with
      velocity `tangents[2 i]` and ends with velocity `tangents[2 i + 1]`; so
      neighbouring segments meet at the shared vertex. */
  lemma {:induction false} HermiteSegmentEnds(vertices: seq<real>, tangents: seq<real>, grid: seq<real>, i: nat)
    requires ValidInput(vertices, tangents, grid)
    requires i < |vertices| - 1
    ensures var a := HermiteSegments(vertices, tangents, grid, HermiteSegment)[i];
      && Horner(a, 0.0) == vertices[i]
      && Horner(a, 1.0) == vertices[i + 1]
      && SegmentVelocity(grid[i], grid[i + 1], a, grid[i]) == tangents[2 * i]
      && SegmentVelocity(grid[i], grid[i + 1], a, grid[i + 1]) == tangents[2 * i + 1]
  {
    AscendingPairwise(grid, i, i + 1);
    var delta := grid[i + 1] - grid[i];
    var a := HermiteSegments(vertices, tangents, grid, HermiteSegment)[i];
    assert a == HermiteSegment(vertices[i], vertices[i + 1], tangents[2 * i], tangents[2 * i + 1], delta);
    LocalAtStart(grid[i], grid[i + 1]);
    LocalAtEnd(grid[i], grid[i + 1]);
  }

  /** Where a vertex's incoming and outgoing tangents are equal, the curve
      has no corner there: the segment that ends at the vertex arrives with
      the velocity the curve has at the vertex. */
  lemma HermiteCurveIsSmoothAt(vertices: seq<real>, tangents: seq<real>, grid: seq<real>, k: nat)
    requires ValidInput(vertices, tangents, grid)
    requires 1 <= k < |vertices| - 1
    requires tangents[2 * k - 1] == tangents[2 * k]
    ensures var c := Curve(HermiteSegments(vertices, tangents, grid, HermiteSegment), grid);
      && WellFormed(c)
      && SegmentVelocity(grid[k - 1], grid[k], c.segments[k - 1], grid[k]) == EvaluateVelocity(c, grid[k])
  {
    HermiteSegmentEnds(vertices, tangents, grid, k - 1);
    HermiteCurveInterpolates(vertices, tangents, grid, k);
  }
}
