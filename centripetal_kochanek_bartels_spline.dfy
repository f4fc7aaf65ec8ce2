/** Centripetal Kochanek-Bartels splines
    (include/centripetalkochanekbartelsspline.hpp): a cubic Hermite curve
    through given vertices whose grid follows the centripetal
    parametrization (each step is the square root of the chord length) and
    whose tangents come from per-vertex tension, continuity and bias. */
module CentripetalKochanekBartelsSpline {
  import opened Wrappers
  import opened Vectors
  import opened Numerics
  import opened Search
  import opened PiecewiseCubicCurve
  import opened CubicHermiteSpline

  /** Tension, continuity and bias of one vertex. All zero gives a
      Catmull-Rom spline. */
  datatype Tcb = Tcb(tension: real, continuity: real, bias: real)

  /** The vertices, tangents and grid handed on to the Hermite builder. */
  datatype Parts = Parts(vertices: seq<Vec>, tangents: seq<Vec>, grid: seq<real>)

  function Sq(x: real): real
  {
    x * x
  }

  lemma PositiveProduct(a: real, b: real, c: real)
    requires 0.0 < a && 0.0 < b && 0.0 < c
    ensures 0.0 < a * b * c
  {
    assert 0.0 < a * b;
  }

  /** The incoming and outgoing tangent at vertex `x0` (time `t0`) between
      its neighbours `xPrev` (time `tPrev`) and `x1` (time `t1`). */
  function CalculateTangents(xPrev: Vec, x0: Vec, x1: Vec, tPrev: real, t0: real, t1: real, tcb: Tcb): (r: (Vec, Vec))
    requires tPrev < t0 < t1
  {
    var a := (1.0 - tcb.tension) * (1.0 + tcb.continuity) * (1.0 + tcb.bias);
    var b := (1.0 - tcb.tension) * (1.0 - tcb.continuity) * (1.0 - tcb.bias);
    var c := (1.0 - tcb.tension) * (1.0 - tcb.continuity) * (1.0 + tcb.bias);
    var d := (1.0 - tcb.tension) * (1.0 + tcb.continuity) * (1.0 - tcb.bias);
    var h0, h1, h := t0 - tPrev, t1 - t0, t1 - tPrev;
    PositiveProduct(h1, h0, h);
    var denominator := h1 * h0 * h;
    var incoming := Div(Add(Scale(c * Sq(h1), Sub(x0, xPrev)), Scale(d * Sq(h0), Sub(x1, x0))), denominator);
    var outgoing := Div(Add(Scale(a * Sq(h1), Sub(x0, xPrev)), Scale(b * Sq(h0), Sub(x1, x0))), denominator);
    (incoming, outgoing)
  }

  /** The "natural" end tangent at one end of a segment of duration
      `t1 - t0`, given the tangent at the other (inner) end. */
  function EndTangent(x0: Vec, x1: Vec, t0: real, t1: real, inner: Vec): Vec
    requires t0 != t1
  {
    var delta := t1 - t0;
    Div(Sub(Sub(Scale(3.0, x1), Scale(3.0, x0)), Scale(delta, inner)), 2.0 * delta)
  }

  /** Zero continuity makes the incoming and the outgoing tangent equal, so
      the curve has no corner at that vertex. */
  lemma ZeroContinuityIsSmooth(xPrev: Vec, x0: Vec, x1: Vec, tPrev: real, t0: real, t1: real, tcb: Tcb)
    requires tPrev < t0 < t1
    requires tcb.continuity == 0.0
    ensures CalculateTangents(xPrev, x0, x1, tPrev, t0, t1, tcb).0 == CalculateTangents(xPrev, x0, x1, tPrev, t0, t1, tcb).1
  {
    var T, B := tcb.tension, tcb.bias;
    assert (1.0 - T) * (1.0 + 0.0) * (1.0 + B) == (1.0 - T) * (1.0 - 0.0) * (1.0 + B);
    assert (1.0 - T) * (1.0 - 0.0) * (1.0 - B) == (1.0 - T) * (1.0 + 0.0) * (1.0 - B);
  }

  /** Full tension (T = 1) stops the curve at the vertex: both tangents are
      zero. */
  lemma FullTensionStops(xPrev: Vec, x0: Vec, x1: Vec, tPrev: real, t0: real, t1: real, tcb: Tcb)
    requires tPrev < t0 < t1
    requires tcb.tension == 1.0
    ensures CalculateTangents(xPrev, x0, x1, tPrev, t0, t1, tcb) == (Zero, Zero)
  {
    var C, B := tcb.continuity, tcb.bias;
    var h0, h1, h := t0 - tPrev, t1 - t0, t1 - tPrev;
    PositiveProduct(h1, h0, h);
    var d := h1 * h0 * h;
    assert (1.0 - 1.0) * (1.0 + C) * (1.0 + B) == 0.0;
    assert (1.0 - 1.0) * (1.0 - C) * (1.0 - B) == 0.0;
    assert (1.0 - 1.0) * (1.0 - C) * (1.0 + B) == 0.0;
    assert (1.0 - 1.0) * (1.0 + C) * (1.0 - B) == 0.0;
    var n := Add(Scale(0.0 * Sq(h1), Sub(x0, xPrev)), Scale(0.0 * Sq(h0), Sub(x1, x0)));
    assert n == Zero;
    assert Div(n, d) == Zero;
    assert CalculateTangents(xPrev, x0, x1, tPrev, t0, t1, tcb).0 == Div(n, d);
    assert CalculateTangents(xPrev, x0, x1, tPrev, t0, t1, tcb).1 == Div(n, d);
  }

  /** A point on the quadratic `p0 + t p1 + t^2 p2` and its velocity. */
  function Quadratic(p0: Vec, p1: Vec, p2: Vec, t: real): Vec
  {
    Add(Add(p0, Scale(t, p1)), Scale(t * t, p2))
  }

  function QuadraticVelocity(p1: Vec, p2: Vec, t: real): Vec
  {
    Add(p1, Scale(2.0 * t, p2))
  }

  /** The step of the quadratic from time `s` to time `t`. */
  lemma QuadraticDifference(p0: Vec, p1: Vec, p2: Vec, s: real, t: real, c: real)
    requires c == t * t - s * s
    ensures Sub(Quadratic(p0, p1, p2, t), Quadratic(p0, p1, p2, s)) == Add(Scale(t - s, p1), Scale(c, p2))
  {
  }

  /** A weighted sum of two combinations of `p1` and `p2` is a combination
      of `p1` and `p2`. */
  lemma Recombine(a: real, b: real, c: real, e: real, f: real, g: real, wa: real, wb: real, p1: Vec, p2: Vec)
    requires wa == a * b + e * f && wb == a * c + e * g
    ensures Add(Scale(a, Add(Scale(b, p1), Scale(c, p2))), Scale(e, Add(Scale(f, p1), Scale(g, p2))))
         == Add(Scale(wa, p1), Scale(wb, p2))
  {
    RecombineScalar(a, b, c, e, f, g, wa, wb, p1.x, p2.x);
    RecombineScalar(a, b, c, e, f, g, wa, wb, p1.y, p2.y);
    RecombineScalar(a, b, c, e, f, g, wa, wb, p1.z, p2.z);
  }

  lemma RecombineScalar(a: real, b: real, c: real, e: real, f: real, g: real, wa: real, wb: real, u: real, v: real)
    requires wa == a * b + e * f && wb == a * c + e * g
    ensures a * (b * u + c * v) + e * (f * u + g * v) == wa * u + wb * v
  {
    assert a * (b * u + c * v) + e * (f * u + g * v) == (a * b + e * f) * u + (a * c + e * g) * v;
  }

  /** A combination of `p1` and `p2` with weights `d` and `d k` is `d`
      times `p1 + k p2`. */
  lemma ScaleCombination(a: real, b: real, d: real, k: real, p1: Vec, p2: Vec)
    requires a == d && b == d * k
    ensures Add(Scale(a, p1), Scale(b, p2)) == Scale(d, Add(p1, Scale(k, p2)))
  {
  }

  /** Dividing `d v` by `d` gives back `v`. */
  lemma DivideScaled(d: real, v: Vec)
    requires d != 0.0
    ensures Div(Scale(d, v), d) == v
  {
    DivideProduct(d * v.x, d, v.x);
    DivideProduct(d * v.y, d, v.y);
    DivideProduct(d * v.z, d, v.z);
  }

  /** The quotient of a denominator times `v` by that denominator is `v`. */
  lemma DivideProduct(n: real, d: real, v: real)
    requires d != 0.0
    requires n == d * v
    ensures n / d == v
  {
  }

  /** The weights the Catmull-Rom numerator gives the linear and the
      quadratic coefficient of a quadratic: the denominator and twice the
      middle time times the denominator (`c0` and `c1` are the steps of
      `t * t` from `tPrev` to `t0` and from `t0` to `t1`). */
  lemma CatmullRomWeights(tPrev: real, t0: real, t1: real, c0: real, c1: real)
    requires c0 == t0 * t0 - tPrev * tPrev && c1 == t1 * t1 - t0 * t0
    ensures Sq(t1 - t0) * (t0 - tPrev) + Sq(t0 - tPrev) * (t1 - t0) == (t1 - t0) * (t0 - tPrev) * (t1 - tPrev)
    ensures Sq(t1 - t0) * c0 + Sq(t0 - tPrev) * c1 == (t1 - t0) * (t0 - tPrev) * (t1 - tPrev) * (2.0 * t0)
  {
    var h0, h1, h := t0 - tPrev, t1 - t0, t1 - tPrev;
    assert Sq(h1) * h0 + Sq(h0) * h1 == h1 * h0 * (h1 + h0);
    assert c0 == h0 * (t0 + tPrev);
    assert c1 == h1 * (t1 + t0);
    assert Sq(h1) * (h0 * (t0 + tPrev)) + Sq(h0) * (h1 * (t1 + t0)) == h1 * h0 * (h1 * (t0 + tPrev) + h0 * (t1 + t0));
    assert h1 * (t0 + tPrev) + h0 * (t1 + t0) == h * (2.0 * t0);
  }

  /** With zero tension, continuity and bias all four weights are one, so
      both tangents are the Catmull-Rom tangent. */
  lemma ZeroTcbTangents(xPrev: Vec, x0: Vec, x1: Vec, tPrev: real, t0: real, t1: real)
    requires tPrev < t0 < t1
    ensures (t1 - t0) * (t0 - tPrev) * (t1 - tPrev) != 0.0
    ensures var w := Div(Add(Scale(Sq(t1 - t0), Sub(x0, xPrev)), Scale(Sq(t0 - tPrev), Sub(x1, x0))),
                         (t1 - t0) * (t0 - tPrev) * (t1 - tPrev));
      CalculateTangents(xPrev, x0, x1, tPrev, t0, t1, Tcb(0.0, 0.0, 0.0)) == (w, w)
  {
    var h0, h1, h := t0 - tPrev, t1 - t0, t1 - tPrev;
    PositiveProduct(h1, h0, h);
    var one := (1.0 - 0.0) * (1.0 + 0.0) * (1.0 + 0.0);
    assert one == (1.0 - 0.0) * (1.0 - 0.0) * (1.0 - 0.0) == (1.0 - 0.0) * (1.0 - 0.0) * (1.0 + 0.0)
               == (1.0 - 0.0) * (1.0 + 0.0) * (1.0 - 0.0) == 1.0;
    assert Scale(one * Sq(h1), Sub(x0, xPrev)) == Scale(Sq(h1), Sub(x0, xPrev));
    assert Scale(one * Sq(h0), Sub(x1, x0)) == Scale(Sq(h0), Sub(x1, x0));
    var r := CalculateTangents(xPrev, x0, x1, tPrev, t0, t1, Tcb(0.0, 0.0, 0.0));
    assert r.0 == Div(Add(Scale(one * Sq(h1), Sub(x0, xPrev)), Scale(one * Sq(h0), Sub(x1, x0))), h1 * h0 * h);
    assert r.1 == Div(Add(Scale(one * Sq(h1), Sub(x0, xPrev)), Scale(one * Sq(h0), Sub(x1, x0))), h1 * h0 * h);
  }

  /** With zero tension, continuity and bias (Catmull-Rom), three vertices
      sampled from a quadratic get both tangents equal to the quadratic's
      velocity at the middle vertex: the tangent formula is exact for
      parabolas, on any grid. */
  lemma QuadraticReproduced(p0: Vec, p1: Vec, p2: Vec, tPrev: real, t0: real, t1: real)
    requires tPrev < t0 < t1
    ensures var r := CalculateTangents(Quadratic(p0, p1, p2, tPrev), Quadratic(p0, p1, p2, t0),
                                       Quadratic(p0, p1, p2, t1), tPrev, t0, t1, Tcb(0.0, 0.0, 0.0));
      r.0 == QuadraticVelocity(p1, p2, t0) && r.1 == QuadraticVelocity(p1, p2, t0)
  {
    var xPrev, x0, x1 := Quadratic(p0, p1, p2, tPrev), Quadratic(p0, p1, p2, t0), Quadratic(p0, p1, p2, t1);
    var c0, c1 := t0 * t0 - tPrev * tPrev, t1 * t1 - t0 * t0;
    var wa, wb := Sq(t1 - t0) * (t0 - tPrev) + Sq(t0 - tPrev) * (t1 - t0), Sq(t1 - t0) * c0 + Sq(t0 - tPrev) * c1;
    ZeroTcbTangents(xPrev, x0, x1, tPrev, t0, t1);
    NumeratorOfQuadratic(p0, p1, p2, tPrev, t0, t1, c0, c1, wa, wb);
    WeightsOfQuadratic(p1, p2, tPrev, t0, t1, c0, c1, wa, wb);
    DivideScaled((t1 - t0) * (t0 - tPrev) * (t1 - tPrev), QuadraticVelocity(p1, p2, t0));
  }

  /** The Catmull-Rom numerator of three samples of the quadratic is the
      combination `wa p1 + wb p2` of its linear and quadratic coefficients
      (`c0` and `c1` are the steps of `t * t`). */
  lemma NumeratorOfQuadratic(p0: Vec, p1: Vec, p2: Vec, tPrev: real, t0: real, t1: real,
                             c0: real, c1: real, wa: real, wb: real)
    requires c0 == t0 * t0 - tPrev * tPrev && c1 == t1 * t1 - t0 * t0
    requires wa == Sq(t1 - t0) * (t0 - tPrev) + Sq(t0 - tPrev) * (t1 - t0)
    requires wb == Sq(t1 - t0) * c0 + Sq(t0 - tPrev) * c1
    ensures Add(Scale(Sq(t1 - t0), Sub(Quadratic(p0, p1, p2, t0), Quadratic(p0, p1, p2, tPrev))),
                Scale(Sq(t0 - tPrev), Sub(Quadratic(p0, p1, p2, t1), Quadratic(p0, p1, p2, t0))))
         == Add(Scale(wa, p1), Scale(wb, p2))
  {
    QuadraticDifference(p0, p1, p2, tPrev, t0, c0);
    QuadraticDifference(p0, p1, p2, t0, t1, c1);
    Recombine(Sq(t1 - t0), t0 - tPrev, c0, Sq(t0 - tPrev), t1 - t0, c1, wa, wb, p1, p2);
  }

  /** That combination is the denominator times the quadratic's velocity
      at the middle time. */
  lemma WeightsOfQuadratic(p1: Vec, p2: Vec, tPrev: real, t0: real, t1: real,
                           c0: real, c1: real, wa: real, wb: real)
    requires c0 == t0 * t0 - tPrev * tPrev && c1 == t1 * t1 - t0 * t0
    requires wa == Sq(t1 - t0) * (t0 - tPrev) + Sq(t0 - tPrev) * (t1 - t0)
    requires wb == Sq(t1 - t0) * c0 + Sq(t0 - tPrev) * c1
    ensures Add(Scale(wa, p1), Scale(wb, p2)) == Scale((t1 - t0) * (t0 - tPrev) * (t1 - tPrev), QuadraticVelocity(p1, p2, t0))
  {
    CatmullRomWeights(tPrev, t0, t1, c0, c1);
    ScaleCombination(wa, wb, (t1 - t0) * (t0 - tPrev) * (t1 - tPrev), 2.0 * t0, p1, p2);
  }

  /** One coordinate of `NaturalStart`: the quadratic coefficient of a
      Hermite segment that starts with the end tangent `e`. */
  lemma NaturalStartScalar(x0: real, x1: real, inner: real, e: real, delta: real)
    requires delta != 0.0
    requires e == (3.0 * x1 - 3.0 * x0 - delta * inner) / (2.0 * delta)
    ensures -3.0 * x0 + 3.0 * x1 - 2.0 * delta * e - delta * inner == 0.0
  {
    assert 2.0 * delta * e == 3.0 * x1 - 3.0 * x0 - delta * inner;
  }

  /** One coordinate of `NaturalEnd`: `a2 + 3 a3` of a Hermite segment that
      ends with the end tangent `e`. */
  lemma NaturalEndScalar(x0: real, x1: real, inner: real, e: real, delta: real)
    requires delta != 0.0
    requires e == (3.0 * x1 - 3.0 * x0 - delta * inner) / (2.0 * delta)
    ensures (-3.0 * x0 + 3.0 * x1 - 2.0 * delta * inner - delta * e)
            + 3.0 * (2.0 * x0 - 2.0 * x1 + delta * inner + delta * e) == 0.0
  {
    assert 2.0 * delta * e == 3.0 * x1 - 3.0 * x0 - delta * inner;
  }

  /** An end tangent at the start of a segment makes the segment's second
      derivative vanish there (a "natural" end). */
  lemma NaturalStart(x0: Vec, x1: Vec, t0: real, t1: real, inner: Vec)
    requires t0 < t1
    ensures HermiteSegmentVec(x0, x1, EndTangent(x0, x1, t0, t1, inner), inner, t1 - t0).a2 == Zero
  {
    var e, delta := EndTangent(x0, x1, t0, t1, inner), t1 - t0;
    NaturalStartScalar(x0.x, x1.x, inner.x, e.x, delta);
    NaturalStartScalar(x0.y, x1.y, inner.y, e.y, delta);
    NaturalStartScalar(x0.z, x1.z, inner.z, e.z, delta);
  }

  /** An end tangent at the end of a segment makes the second derivative
      there, `2 a2 + 6 a3`, vanish. */
  lemma NaturalEnd(x0: Vec, x1: Vec, t0: real, t1: real, inner: Vec)
    requires t0 < t1
    ensures var a := HermiteSegmentVec(x0, x1, inner, EndTangent(x0, x1, t0, t1, inner), t1 - t0);
      Add(a.a2, Scale(3.0, a.a3)) == Zero
  {
    var e, delta := EndTangent(x0, x1, t0, t1, inner), t1 - t0;
    NaturalEndScalar(x0.x, x1.x, inner.x, e.x, delta);
    NaturalEndScalar(x0.y, x1.y, inner.y, e.y, delta);
    NaturalEndScalar(x0.z, x1.z, inner.z, e.z, delta);
  }

  /** With both tangents equal to the chord velocity, a segment is the
      straight line at constant speed: no quadratic or cubic part. */
  lemma ChordIsStraight(x0: Vec, x1: Vec, t0: real, t1: real)
    requires t0 < t1
    ensures var chord := Div(Sub(x1, x0), t1 - t0);
      var a := HermiteSegmentVec(x0, x1, chord, chord, t1 - t0);
      a.a2 == Zero && a.a3 == Zero
  {
    var chord := Div(Sub(x1, x0), t1 - t0);
    ScaleThenDivide(Sub(x1, x0), t1 - t0, chord);
  }

  /** The centripetal step between two vertices: the square root of their
      distance. */
  function Step(num: Numerics, x0: Vec, x1: Vec): real
  {
    num.sqrt(num.length(Sub(x1, x0)))
  }

  /** `grid` starts at zero and advances by the centripetal step between
      neighbouring vertices. */
  predicate IsCentripetalGrid(num: Numerics, vertices: seq<Vec>, grid: seq<real>)
  {
    && |grid| == |vertices|
    && 0 < |grid|
    && grid[0] == 0.0
    && forall k :: 0 <= k < |vertices| - 1 ==> grid[k + 1] == grid[k] + Step(num, vertices[k], vertices[k + 1])
  }

  /** The vertices actually interpolated: a closed curve returns to its
      first vertex. */
  function Interpolated(verticesIn: seq<Vec>, closed: bool): seq<Vec>
  {
    if closed && verticesIn != [] then verticesIn + [verticesIn[0]] else verticesIn
  }

  /** Which exception the constructor throws, if any. For a closed curve the
      first two vertices are appended before the checks, so the step from
      the last vertex back to the first (and on to the second) is checked too. */
  function InitError(num: Numerics, verticesIn: seq<Vec>, tcb: seq<Tcb>, closed: bool): Option<Error>
  {
    if |verticesIn| < 2 then Some(TooFewVertices)
    else if |tcb| + 2 != |Extended(verticesIn, closed)| then Some(TcbCountMismatch)
    else if HasZeroStep(num, Extended(verticesIn, closed)) then Some(RepeatedVertices)
    else None
  }

  /** The vertices the constructor works on: a closed curve gets its first
      two vertices appended. */
  function Extended(verticesIn: seq<Vec>, closed: bool): seq<Vec>
    requires 2 <= |verticesIn|
  {
    if closed then verticesIn + [verticesIn[0], verticesIn[1]] else verticesIn
  }

  /** Some two neighbouring vertices are a zero step apart. */
  predicate HasZeroStep(num: Numerics, vertices: seq<Vec>)
  {
    exists k :: 0 <= k < |vertices| - 1 && Step(num, vertices[k], vertices[k + 1]) == 0.0
  }

  /** The TCB values of vertex `k`: vertex `k` of an open curve takes entry
      `k - 1` (the end vertices have none), of a closed curve entry `k`
      (wrapping around). */
  function TcbIndex(k: nat, closed: bool, count: nat): nat
    requires 0 < count
  {
    (k - 1 + (if closed then 1 else 0)) % count
  }

  /** The counts and the grid: the interpolated vertices, two tangents per
      segment, one TCB triple per vertex with tangents of its own, and a
      strictly ascending centripetal grid. */
  predicate HasShape(num: Numerics, verticesIn: seq<Vec>, tcb: seq<Tcb>, closed: bool, p: Parts)
  {
    && 2 <= |verticesIn|
    && p.vertices == Interpolated(verticesIn, closed)
    && |p.tangents| == 2 * (|p.vertices| - 1)
    && |tcb| == (if closed then |p.vertices| - 1 else |p.vertices| - 2)
    && IsCentripetalGrid(num, p.vertices, p.grid)
    && Ascending(p.grid)
  }

  /** Every inner vertex `k` has incoming tangent `2 k - 1` and outgoing
      tangent `2 k` from its Kochanek-Bartels formula. */
  predicate HasInnerTangents(tcb: seq<Tcb>, closed: bool, p: Parts)
    requires 2 <= |p.vertices| == |p.grid|
    requires |p.tangents| == 2 * (|p.vertices| - 1)
    requires Ascending(p.grid)
    requires 2 < |p.vertices| ==> 0 < |tcb|
  {
    var Parts(vs, ts, g) := p;
    forall k :: 1 <= k < |vs| - 1 ==>
      (ts[2 * k - 1], ts[2 * k])
      == CalculateTangents(vs[k - 1], vs[k], vs[k + 1], g[k - 1], g[k], g[k + 1], tcb[TcbIndex(k, closed, |tcb|)])
  }

  /** At the seam of a closed curve (its first and last vertex) the next
      neighbour is the second vertex, one first step later. */
  predicate HasSeamTangents(verticesIn: seq<Vec>, tcb: seq<Tcb>, p: Parts)
    requires 2 <= |verticesIn| && 0 < |tcb|
    requires 2 <= |p.vertices| == |p.grid|
    requires |p.tangents| == 2 * (|p.vertices| - 1)
    requires Ascending(p.grid)
  {
    var Parts(vs, ts, g) := p;
    var n := |vs| - 1;
    AscendingPairwise(g, 0, 1);
    (ts[2 * n - 1], ts[0])
    == CalculateTangents(vs[n - 1], vs[n], verticesIn[1], g[n - 1], g[n], g[n] + (g[1] - g[0]), tcb[0])
  }

  /** The ends of an open curve: between two vertices a straight line, with
      more vertices natural end tangents. */
  predicate HasOpenEnds(p: Parts)
    requires 2 <= |p.vertices| == |p.grid|
    requires |p.tangents| == 2 * (|p.vertices| - 1)
    requires Ascending(p.grid)
  {
    var Parts(vs, ts, g) := p;
    var m := |vs| - 1;
    if m == 1 then
      var chord := Div(Sub(vs[1], vs[0]), g[1] - g[0]);
      ts == [chord, chord]
    else
      && ts[0] == EndTangent(vs[0], vs[1], g[0], g[1], ts[1])
      && ts[2 * m - 1] == EndTangent(vs[m - 1], vs[m], g[m - 1], g[m], ts[2 * m - 2])
  }

  /** What the construction produces from valid input. */
  predicate IsKochanekBartels(num: Numerics, verticesIn: seq<Vec>, tcb: seq<Tcb>, closed: bool, p: Parts)
  {
    && HasShape(num, verticesIn, tcb, closed, p)
    && HasInnerTangents(tcb, closed, p)
    && (if closed then HasSeamTangents(verticesIn, tcb, p) else HasOpenEnds(p))
  }

  /** The construction of vertices, tangents and grid (`_init`). */
  method Init(num: Numerics, verticesIn: seq<Vec>, tcb: seq<Tcb>, closed: bool) returns (r: Result<Parts>)
    requires Sound(num)
    ensures r.Failure? <==> InitError(num, verticesIn, tcb, closed).Some?
    ensures r.Failure? ==> r.error == InitError(num, verticesIn, tcb, closed).value
    ensures r.Success? ==> IsKochanekBartels(num, verticesIn, tcb, closed, r.value)
  {
    if |verticesIn| < 2 {
      return Failure(TooFewVertices);
    }
    var vertices := verticesIn;
    if closed {
      vertices := vertices + [verticesIn[0]];
      vertices := vertices + [verticesIn[1]];
    }
    assert vertices == Extended(verticesIn, closed);
    if |tcb| + 2 != |vertices| {
      return Failure(TcbCountMismatch);
    }

    var maybeGrid := CentripetalGrid(num, vertices);
    if maybeGrid.None? {
      return Failure(RepeatedVertices);
    }
    var grid := maybeGrid.value;
    var parts;
    if closed {
      var tangents := InnerTangents(vertices, grid, tcb, 1);
      parts := CloseCurve(num, verticesIn, vertices, tangents, grid, tcb);
    } else {
      var tangents := InnerTangents(vertices, grid, tcb, 0);
      parts := OpenEnds(num, vertices, tangents, grid, tcb);
    }
    return Success(parts);
  }

  /** The constructor: `_init`, then the Hermite builder. Since the grid is
      strictly ascending the builder never throws, and the curve passes
      through every vertex at its grid time with the vertex's outgoing
      tangent as velocity. */
  method New(num: Numerics, verticesIn: seq<Vec>, tcb: seq<Tcb>, closed: bool)
    returns (r: Result<Curve<Vec>>, ghost parts: Parts)
    requires Sound(num)
    ensures r.Failure? <==> InitError(num, verticesIn, tcb, closed).Some?
    ensures r.Failure? ==> r.error == InitError(num, verticesIn, tcb, closed).value
    ensures r.Success? ==>
      && IsKochanekBartels(num, verticesIn, tcb, closed, parts)
      && r.value == Curve(HermiteSegments(parts.vertices, parts.tangents, parts.grid, HermiteSegmentVec), parts.grid)
      && WellFormed(r.value)
    ensures r.Success? ==>
      forall i :: 0 <= i < |parts.vertices| ==> EvaluateVec(r.value, parts.grid[i]) == parts.vertices[i]
    ensures r.Success? ==>
      forall i :: 0 <= i < |parts.vertices| - 1 ==> EvaluateVelocityVec(r.value, parts.grid[i]) == parts.tangents[2 * i]
  {
    var init := Init(num, verticesIn, tcb, closed);
    if init.Failure? {
      return Failure(init.error), Parts([], [], []);
    }
    var Parts(vertices, tangents, grid) := init.value;
    parts := init.value;
    assert HasShape(num, verticesIn, tcb, closed, parts);
    r := Build(vertices, tangents, grid, HermiteSegmentVec);
    assert r.Success?;
    PathInterpolates(vertices, tangents, grid);
  }

  /** The Hermite curve of valid parts passes through every vertex at its
      grid time, leaving it with the vertex's outgoing tangent. */
  lemma PathInterpolates(vertices: seq<Vec>, tangents: seq<Vec>, grid: seq<real>)
    requires ValidInput(vertices, tangents, grid)
    ensures var c := Curve(HermiteSegments(vertices, tangents, grid, HermiteSegmentVec), grid);
      && WellFormed(c)
      && (forall i :: 0 <= i < |vertices| ==> EvaluateVec(c, grid[i]) == vertices[i])
      && (forall i :: 0 <= i < |vertices| - 1 ==> EvaluateVelocityVec(c, grid[i]) == tangents[2 * i])
  {
    forall i | 0 <= i < |vertices| - 1
      ensures EvaluateVec(Curve(HermiteSegments(vertices, tangents, grid, HermiteSegmentVec), grid), grid[i]) == vertices[i]
      ensures EvaluateVelocityVec(Curve(HermiteSegments(vertices, tangents, grid, HermiteSegmentVec), grid), grid[i])
           == tangents[2 * i]
    {
      HermiteCurveVecInterpolates(vertices, tangents, grid, i);
    }
    HermiteCurveVecInterpolatesLast(vertices, tangents, grid);
  }

  /** Zero continuity at the first vertex of a closed curve leaves no corner
      at its seam: the curve leaves with the velocity it arrives with. */
  lemma ClosedSeamIsSmooth(num: Numerics, verticesIn: seq<Vec>, tcb: seq<Tcb>, p: Parts)
    requires IsKochanekBartels(num, verticesIn, tcb, true, p)
    requires tcb[0].continuity == 0.0
    ensures p.tangents[0] == p.tangents[|p.tangents| - 1]
  {
    var Parts(vs, ts, g) := p;
    var n := |vs| - 1;
    ZeroContinuityIsSmooth(vs[n - 1], vs[n], verticesIn[1], g[n - 1], g[n], g[n] + (g[1] - g[0]), tcb[0]);
  }

  /** The closed branch of `_init`: the last (outgoing) tangent moves to the
      front, and the appended second vertex and its grid time are dropped. */
  method CloseCurve(ghost num: Numerics, verticesIn: seq<Vec>, vertices: seq<Vec>, tangents: seq<Vec>,
                    grid: seq<real>, tcb: seq<Tcb>) returns (p: Parts)
    requires ClosedInput(num, verticesIn, vertices, tangents, grid, tcb)
    ensures IsKochanekBartels(num, verticesIn, tcb, true, p)
  {
    var ts := tangents[0 := tangents[|tangents| - 1]];
    ts := ts[..|ts| - 1];
    var vs := vertices[..|vertices| - 1];
    var g := grid[..|grid| - 1];
    p := Parts(vs, ts, g);
    ClosedShape(num, verticesIn, vertices, tangents, grid, tcb, p);
    ghost var n := |verticesIn|;
    assert (n - 1 + 1) % |tcb| == 0;
    ClosedSeam(num, verticesIn, vertices, tangents, grid, tcb, p);
    ClosedInner(num, verticesIn, vertices, tangents, grid, tcb, p);
  }

  /** What the closed branch of `_init` starts from: the extended vertices,
      their centripetal grid and the tangents of every inner vertex. */
  predicate ClosedInput(num: Numerics, verticesIn: seq<Vec>, vertices: seq<Vec>, tangents: seq<Vec>,
                        grid: seq<real>, tcb: seq<Tcb>)
  {
    && 2 <= |verticesIn| && vertices == Extended(verticesIn, true)
    && |tcb| == |verticesIn|
    && IsCentripetalGrid(num, vertices, grid) && Ascending(grid)
    && |tangents| == 2 * |vertices| - 3
    && forall k :: 1 <= k < |vertices| - 1 ==>
      (tangents[2 * k - 1], tangents[2 * k])
      == CalculateTangents(vertices[k - 1], vertices[k], vertices[k + 1], grid[k - 1], grid[k], grid[k + 1],
                           tcb[(k - 1 + 1) % |tcb|])
  }

  /** The parts the closed branch leaves: the last tangent moved to the
      front, the last vertex and grid time dropped. */
  predicate ClosedFrom(vertices: seq<Vec>, tangents: seq<Vec>, grid: seq<real>, p: Parts)
    requires 0 < |vertices| && 0 < |tangents| && 0 < |grid|
  {
    && p.vertices == vertices[..|vertices| - 1]
    && p.tangents == tangents[0 := tangents[|tangents| - 1]][..|tangents| - 1]
    && p.grid == grid[..|grid| - 1]
  }

  /** The closed branch's trimmed vertices and grid have the shape of a
      closed Kochanek-Bartels curve. */
  lemma ClosedShape(num: Numerics, verticesIn: seq<Vec>, vertices: seq<Vec>, tangents: seq<Vec>,
                    grid: seq<real>, tcb: seq<Tcb>, p: Parts)
    requires ClosedInput(num, verticesIn, vertices, tangents, grid, tcb)
    requires ClosedFrom(vertices, tangents, grid, p)
    ensures HasShape(num, verticesIn, tcb, true, p)
  {
    assert p.vertices == Interpolated(verticesIn, true);
    assert IsCentripetalGrid(num, p.vertices, p.grid);
  }

  /** The tangents at the seam of a closed curve are those computed for
      the first vertex, moved to both ends. */
  lemma ClosedSeam(num: Numerics, verticesIn: seq<Vec>, vertices: seq<Vec>, tangents: seq<Vec>,
                   grid: seq<real>, tcb: seq<Tcb>, p: Parts)
    requires 2 <= |verticesIn| && vertices == Extended(verticesIn, true)
    requires |tcb| == |verticesIn|
    requires IsCentripetalGrid(num, vertices, grid) && Ascending(grid)
    requires |tangents| == 2 * |vertices| - 3
    requires var n := |verticesIn|;
      (tangents[2 * n - 1], tangents[2 * n])
      == CalculateTangents(vertices[n - 1], vertices[n], vertices[n + 1], grid[n - 1], grid[n], grid[n + 1], tcb[0])
    requires ClosedFrom(vertices, tangents, grid, p)
    requires HasShape(num, verticesIn, tcb, true, p)
    ensures HasSeamTangents(verticesIn, tcb, p)
  {
    var n := |verticesIn|;
    assert vertices[n] == verticesIn[0] && vertices[n + 1] == verticesIn[1];
    assert grid[1] == grid[0] + Step(num, vertices[0], vertices[1]);
    assert grid[n + 1] == grid[n] + (grid[1] - grid[0]);
    assert p.vertices[n - 1] == vertices[n - 1] && p.vertices[n] == vertices[n];
    assert p.grid[n - 1] == grid[n - 1] && p.grid[n] == grid[n] && p.grid[0] == grid[0] && p.grid[1] == grid[1];
    assert p.tangents[2 * n - 1] == tangents[2 * n - 1] && p.tangents[0] == tangents[2 * n];
  }

  /** Away from the seam, each vertex of a closed curve keeps the tangents
      computed for it. */
  lemma ClosedInner(num: Numerics, verticesIn: seq<Vec>, vertices: seq<Vec>, tangents: seq<Vec>,
                    grid: seq<real>, tcb: seq<Tcb>, p: Parts)
    requires ClosedInput(num, verticesIn, vertices, tangents, grid, tcb)
    requires ClosedFrom(vertices, tangents, grid, p)
    requires HasShape(num, verticesIn, tcb, true, p)
    ensures HasInnerTangents(tcb, true, p)
  {
    var Parts(vs, ts, g) := p;
    forall k | 1 <= k < |vs| - 1
      ensures (ts[2 * k - 1], ts[2 * k])
        == CalculateTangents(vs[k - 1], vs[k], vs[k + 1], g[k - 1], g[k], g[k + 1], tcb[TcbIndex(k, true, |tcb|)])
    {
      assert TcbIndex(k, true, |tcb|) == (k - 1 + 1) % |tcb|;
      assert vs[k + 1] == vertices[k + 1] && g[k + 1] == grid[k + 1];
      assert tangents[2 * k - 1] == ts[2 * k - 1] && tangents[2 * k] == ts[2 * k];
    }
  }

  /** The open branches of `_init`: two vertices make a straight line, more
      get natural end tangents. */
  method OpenEnds(ghost num: Numerics, vertices: seq<Vec>, tangents: seq<Vec>, grid: seq<real>, tcb: seq<Tcb>)
    returns (p: Parts)
    requires 2 <= |vertices| && |tcb| + 2 == |vertices|
    requires IsCentripetalGrid(num, vertices, grid) && Ascending(grid)
    requires |tangents| == 2 * |vertices| - 3
    requires forall k :: 1 <= k < |vertices| - 1 ==>
      (tangents[2 * k - 1], tangents[2 * k])
      == CalculateTangents(vertices[k - 1], vertices[k], vertices[k + 1], grid[k - 1], grid[k], grid[k + 1],
                           tcb[(k - 1 + 0) % |tcb|])
    ensures IsKochanekBartels(num, vertices, tcb, false, p)
  {
    var ts := tangents;
    if |vertices| == 2 {
      var tangent := Div(Sub(vertices[1], vertices[0]), grid[1] - grid[0]);
      ts := ts[0 := tangent];
      ts := ts + [tangent];
    } else {
      ts := ts[0 := EndTangent(vertices[0], vertices[1], grid[0], grid[1], ts[1])];
      var last := |vertices| - 1;
      ts := ts + [EndTangent(vertices[last - 1], vertices[last], grid[last - 1], grid[last], ts[|ts| - 1])];
    }
    forall k | 1 <= k < |vertices| - 1
      ensures (ts[2 * k - 1], ts[2 * k])
        == CalculateTangents(vertices[k - 1], vertices[k], vertices[k + 1], grid[k - 1], grid[k], grid[k + 1],
                             tcb[TcbIndex(k, false, |tcb|)])
    {
      assert TcbIndex(k, false, |tcb|) == (k - 1 + 0) % |tcb|;
      assert tangents[2 * k - 1] == ts[2 * k - 1] && tangents[2 * k] == ts[2 * k];
    }
    p := Parts(vertices, ts, grid);
    assert HasShape(num, vertices, tcb, false, p);
    assert HasInnerTangents(tcb, false, p);
    assert HasOpenEnds(p);
  }


  /** The grid loop of `_init`: `None` when two neighbouring vertices are a
      zero step apart. */
  method CentripetalGrid(num: Numerics, vertices: seq<Vec>) returns (r: Option<seq<real>>)
    requires Sound(num)
    requires 0 < |vertices|
    ensures r.None? <==> HasZeroStep(num, vertices)
    ensures r.Some? ==> IsCentripetalGrid(num, vertices, r.value) && Ascending(r.value)
  {
    var grid := [0.0];
    var i := 0;
    while i < |vertices| - 1
      invariant 0 <= i <= |vertices| - 1
      invariant |grid| == i + 1 && grid[0] == 0.0
      invariant forall k :: 0 <= k < i ==> grid[k + 1] == grid[k] + Step(num, vertices[k], vertices[k + 1])
      invariant forall k :: 0 <= k < i ==> Step(num, vertices[k], vertices[k + 1]) != 0.0
      invariant Ascending(grid)
    {
      var x0, x1 := vertices[i], vertices[i + 1];
      var delta := num.sqrt(num.length(Sub(x1, x0)));
      if delta == 0.0 {
        assert Step(num, vertices[i], vertices[i + 1]) == 0.0;
        return None;
      }
      assert 0.0 < delta;
      grid := grid + [grid[|grid| - 1] + delta];
      i := i + 1;
    }
    return Some(grid);
  }

  /** The tangent loop of `_init`: a placeholder for the first tangent, then
      the incoming and outgoing tangent of each inner vertex `k`, with TCB
      entry `(k - 1 + offset) % |tcb|`. */
  method InnerTangents(vertices: seq<Vec>, grid: seq<real>, tcb: seq<Tcb>, offset: nat) returns (tangents: seq<Vec>)
    requires 2 <= |vertices| == |grid|
    requires Ascending(grid)
    requires 2 < |vertices| ==> 0 < |tcb|
    ensures |tangents| == 2 * |vertices| - 3
    ensures tangents[0] == Zero
    ensures forall k :: 1 <= k < |vertices| - 1 ==>
      (tangents[2 * k - 1], tangents[2 * k])
      == CalculateTangents(vertices[k - 1], vertices[k], vertices[k + 1], grid[k - 1], grid[k], grid[k + 1],
                           tcb[(k - 1 + offset) % |tcb|])
  {
    tangents := [Zero];
    var i := 0;
    while i < |vertices| - 2
      invariant 0 <= i <= |vertices| - 2
      invariant |tangents| == 1 + 2 * i
      invariant tangents[0] == Zero
      invariant forall k :: 1 <= k <= i ==>
        (tangents[2 * k - 1], tangents[2 * k])
        == CalculateTangents(vertices[k - 1], vertices[k], vertices[k + 1], grid[k - 1], grid[k], grid[k + 1],
                             tcb[(k - 1 + offset) % |tcb|])
    {
      var tangentPair := CalculateTangents(vertices[i], vertices[i + 1], vertices[i + 2],
                                           grid[i], grid[i + 1], grid[i + 2], tcb[(i + offset) % |tcb|]);
      tangents := tangents + [tangentPair.0];
      tangents := tangents + [tangentPair.1];
      i := i + 1;
    }
  }
}
