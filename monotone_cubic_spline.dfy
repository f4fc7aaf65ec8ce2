/** Monotone scalar splines (include/monotonecubicspline.hpp): a
    shape-preserving spline through non-decreasing values, which can be
    inverted (value to time) by a case analysis on the values and a
    bisection inside one segment. */
module MonotoneCubicSpline {
  import opened Wrappers
  import opened Search
  import opened PiecewiseCubicCurve
  import opened CubicHermiteSpline
  import opened ShapePreservingCubicSpline
  import Bisection

  /** The curve and the values it was built from (`_values`). */
  datatype MonotoneSpline = MonotoneSpline(curve: Curve<real>, values: seq<real>)

  /** The curve passes through the sorted values: each segment runs from
      its value to the next one. This is all `get_time` relies on. */
  ghost predicate ThroughSortedValues(m: MonotoneSpline)
  {
    && WellFormed(m.curve)
    && |m.values| == |m.curve.grid|
    && Sorted(m.values)
    && (forall k :: 0 <= k < |m.curve.segments| ==>
          Horner(m.curve.segments[k], 0.0) == m.values[k] && Horner(m.curve.segments[k], 1.0) == m.values[k + 1])
  }

  /** No segment ever falls. */
  ghost predicate SegmentsRise(c: Curve<real>)
  {
    forall k, u :: 0 <= k < |c.segments| && 0.0 <= u <= 1.0 ==> 0.0 <= LocalSlope(c.segments[k], u)
  }

  /** What construction establishes: a curve through the sorted values
      that never falls in between. */
  ghost predicate IsMonotone(m: MonotoneSpline)
  {
    ThroughSortedValues(m) && SegmentsRise(m.curve)
  }

  /** Which exception the constructor throws: the shape-preserving
      constructor's, else "Values must be increasing" for unsorted values. */
  function MonotoneError(values: seq<real>, slopesIn: seq<Option<real>>, grid: seq<real>): Option<Error>
  {
    if NewError(values, slopesIn, grid).Some? then NewError(values, slopesIn, grid)
    else if !Sorted(values) then Some(ValuesNotIncreasing)
    else None
  }

  /** The `MonotoneCubicSpline` constructor: an open shape-preserving spline,
      then the sortedness check. Sorted values make every segment
      non-decreasing. */
  method New(values: seq<real>, slopesIn: seq<Option<real>>, grid: seq<real>)
    returns (r: Result<MonotoneSpline>, ghost parts: ScalarParts)
    ensures r.Failure? <==> MonotoneError(values, slopesIn, grid).Some?
    ensures r.Failure? ==> r.error == MonotoneError(values, slopesIn, grid).value
    ensures r.Success? ==>
      && IsShapePreserving(values, slopesIn, grid, parts)
      && r.value.curve == Curve(HermiteSegments(parts.values, parts.slopes, parts.grid, HermiteSegment), grid)
      && r.value.values == values
      && IsMonotone(r.value)
  {
    var base;
    base, parts := ShapePreservingCubicSpline.New(values, slopesIn, grid);
    if base.Failure? {
      return Failure(base.error), parts;
    }
    if !Sorted(values) {
      return Failure(ValuesNotIncreasing), parts;
    }
    var m := MonotoneSpline(base.value, values);
    SortedShapePreservingIsMonotone(values, slopesIn, grid, parts);
    return Success(m), parts;
  }

  /** The shape-preserving spline through sorted values is monotone: its
      segments join consecutive values and never fall. */
  lemma SortedShapePreservingIsMonotone(values: seq<real>, slopesIn: seq<Option<real>>, grid: seq<real>, p: ScalarParts)
    requires IsShapePreserving(values, slopesIn, grid, p) && Ascending(grid)
    requires Sorted(values)
    ensures ValidInput(p.values, p.slopes, p.grid)
    ensures IsMonotone(MonotoneSpline(Curve(HermiteSegments(p.values, p.slopes, p.grid, HermiteSegment), grid), values))
  {
    var segments := HermiteSegments(p.values, p.slopes, p.grid, HermiteSegment);
    HermiteSegmentsJoinValues(values, p.slopes, grid);
    forall k, u | 0 <= k < |segments| && 0.0 <= u <= 1.0
      ensures 0.0 <= LocalSlope(segments[k], u)
    {
      ShapePreservingSegmentIsMonotone(values, slopesIn, grid, p, k, u);
    }
  }

  /** Each Hermite segment runs from its vertex to the next one. */
  lemma HermiteSegmentsJoinValues(values: seq<real>, slopes: seq<real>, grid: seq<real>)
    requires ValidInput(values, slopes, grid)
    ensures WellFormed(Curve(HermiteSegments(values, slopes, grid, HermiteSegment), grid))
    ensures forall k :: 0 <= k < |values| - 1 ==>
      && Horner(HermiteSegments(values, slopes, grid, HermiteSegment)[k], 0.0) == values[k]
      && Horner(HermiteSegments(values, slopes, grid, HermiteSegment)[k], 1.0) == values[k + 1]
  {
    forall k | 0 <= k < |values| - 1
      ensures Horner(HermiteSegments(values, slopes, grid, HermiteSegment)[k], 0.0) == values[k]
      ensures Horner(HermiteSegments(values, slopes, grid, HermiteSegment)[k], 1.0) == values[k + 1]
    {
      HermiteSegmentEnds(values, slopes, grid, k);
    }
  }

  /** `v` is the value at index `i` and at no other index. */
  predicate UniqueMatch(values: seq<real>, v: real, i: int)
    requires 0 <= i < |values|
  {
    && values[i] == v
    && forall j :: 0 <= j < |values| && values[j] == v ==> j == i
  }

  /** `v` is the value at two or more indices: a plateau. */
  predicate Plateau(values: seq<real>, v: real)
  {
    exists i, j :: 0 <= i < j < |values| && values[i] == v && values[j] == v
  }

  /** `v` lies strictly between `a` and `b`, in either order: a function
      continuous in between crosses `v`. */
  predicate Between(v: real, a: real, b: real)
  {
    (a < v < b) || (b < v < a)
  }

  /** What `get_time` promises about a time `t` it returns for `v`: the
      first time below the values, the last time above them, the vertex
      time of a value taken at exactly one vertex, and for any other value
      in range a time inside the one segment whose end values enclose it. */
  ghost predicate TimeOf(m: MonotoneSpline, v: real, t: real)
    requires ThroughSortedValues(m)
  {
    && (v < m.values[0] ==> t == First(m.curve.grid))
    && (Last(m.values) < v ==> t == Last(m.curve.grid))
    && (forall i :: 0 <= i < |m.values| && UniqueMatch(m.values, v, i) ==> t == m.curve.grid[i])
    && (m.values[0] < v < Last(m.values) && v !in m.values ==>
          && (forall k :: 0 <= k < |m.curve.segments| && m.values[k] < v < m.values[k + 1] ==>
                m.curve.grid[k] <= t <= m.curve.grid[k + 1])
          && exists idx: nat, u: real, ulo: real, uhi: real :: Bisected(m, v, t, idx, u, ulo, uhi))
  }

  /** The bisection result of `get_time` for a value `v` strictly inside
      segment `idx`: `t` is the time `u * (t1 - t0) + t0` of a local
      parameter `u` at which the segment's cubic is exactly `v`, or which
      lies in a local bracket `[ulo, uhi]`, at most 0.0001 wide, over which
      the cubic crosses `v`. */
  ghost predicate Bisected(m: MonotoneSpline, v: real, t: real, idx: nat, u: real, ulo: real, uhi: real)
    requires ThroughSortedValues(m)
  {
    && idx < |m.curve.segments|
    && m.values[idx] < v < m.values[idx + 1]
    && 0.0 <= u <= 1.0
    && t == SegmentTime(m.curve, idx, u)
    && (|| Horner(m.curve.segments[idx], u) == v
        || (&& 0.0 <= ulo <= u <= uhi <= 1.0
            && uhi - ulo <= 0.0001
            && Between(v, Horner(m.curve.segments[idx], ulo), Horner(m.curve.segments[idx], uhi))))
  }

  /** `get_time`: the time at which the curve takes the value `v`. Values
      outside the range give the first or last time; a value taken at
      exactly one vertex gives that vertex's time; a plateau gives no
      answer; any other value is searched by bisection inside the one
      segment `idx` whose end values enclose it, as `Bisected` says
      (`SegmentTimeBracket` and `RootInTime` carry this over to times and
      to the curve). */
  method GetTime(m: MonotoneSpline, v: real)
    returns (r: Option<real>, ghost idx: nat, ghost u: real, ghost ulo: real, ghost uhi: real)
    requires ThroughSortedValues(m)
    ensures v < m.values[0] ==> r == Some(First(m.curve.grid))
    ensures Last(m.values) < v ==> r == Some(Last(m.curve.grid))
    ensures forall i :: 0 <= i < |m.values| && UniqueMatch(m.values, v, i) ==> r == Some(m.curve.grid[i])
    ensures r.None? <==> Plateau(m.values, v)
    ensures r.Some? ==> TimeOf(m, v, r.value)
    ensures m.values[0] < v < Last(m.values) && v !in m.values ==>
      r.Some? && Bisected(m, v, r.value, idx, u, ulo, uhi)
  {
    var values, grid := m.values, m.curve.grid;
    var n := |values|;
    var lb, ub := LowerBound(values, v), UpperBound(values, v);  // std::equal_range
    EqualRangeCases(values, v, lb, ub);
    idx, u, ulo, uhi := 0, 0.0, 0.0, 0.0;
    if ub == 0 {
      return Some(grid[0]), idx, u, ulo, uhi;
    } else if lb == n {
      return Some(grid[n - 1]), idx, u, ulo, uhi;
    } else if ub - lb == 1 {
      return Some(grid[lb]), idx, u, ulo, uhi;
    } else if ub - lb > 1 {
      return None, idx, u, ulo, uhi;
    }
    var segment := ub - 1;
    idx := segment;
    var time;
    time, u, ulo, uhi := SolveBetweenVertices(m, segment, v);
    r := Some(time);
    assert Bisected(m, v, time, idx, u, ulo, uhi);
  }

  /** What `std::equal_range` on the sorted values tells `get_time`: the
      range is empty at the front exactly for values below the first, empty
      at the back exactly for values above the last, a single index exactly
      for a value taken once, longer exactly on a plateau, and empty
      exactly for a value not taken, which then lies strictly between the
      two values around the range. */
  lemma EqualRangeCases(values: seq<real>, v: real, lb: nat, ub: nat)
    requires Sorted(values) && 1 <= |values|
    requires lb == LowerBound(values, v) && ub == UpperBound(values, v)
    ensures lb <= ub
    ensures ub == 0 <==> v < values[0]
    ensures lb == |values| <==> Last(values) < v
    ensures forall i :: 0 <= i < |values| && UniqueMatch(values, v, i) ==> lb == i && ub == i + 1
    ensures ub == lb + 1 ==> UniqueMatch(values, v, lb)
    ensures Plateau(values, v) <==> lb + 1 < ub
    ensures lb == ub <==> v !in values
    ensures 0 < lb == ub < |values| ==> values[ub - 1] < v < values[ub]
  {
    forall j | 0 <= j < |values|
      ensures values[j] == v <==> lb <= j < ub
    {
      EqualRange(values, v, j);
    }
    EqualRangeEnds(values, v, lb, ub);
    EqualRangeMatches(values, v, lb, ub);
    EqualRangeGap(values, v, lb, ub);
  }

  /** The indices at which `v` occurs are exactly `lb .. ub - 1`. */
  predicate IsEqualRange(values: seq<real>, v: real, lb: nat, ub: nat)
  {
    && lb <= ub <= |values|
    && forall j :: 0 <= j < |values| ==> (values[j] == v <==> lb <= j < ub)
  }

  /** The range is empty at the front exactly below the first value and
      empty at the back exactly above the last. */
  lemma EqualRangeEnds(values: seq<real>, v: real, lb: nat, ub: nat)
    requires Sorted(values) && 1 <= |values|
    requires lb == LowerBound(values, v) && ub == UpperBound(values, v)
    requires IsEqualRange(values, v, lb, ub)
    ensures ub == 0 <==> v < values[0]
    ensures lb == |values| <==> Last(values) < v
  {
    SortedPairwise(values, 0, |values| - 1);
    if lb < |values| {
      SortedPairwise(values, lb, |values| - 1);
    } else {
      assert values[|values| - 1] < v;
    }
  }

  /** A one-element range is a value taken once, a longer one a plateau,
      and an empty one a value not taken. */
  lemma EqualRangeMatches(values: seq<real>, v: real, lb: nat, ub: nat)
    requires IsEqualRange(values, v, lb, ub)
    ensures forall i :: 0 <= i < |values| && UniqueMatch(values, v, i) ==> lb == i && ub == i + 1
    ensures ub == lb + 1 ==> UniqueMatch(values, v, lb)
    ensures Plateau(values, v) <==> lb + 1 < ub
    ensures lb == ub <==> v !in values
  {
    if lb < ub {
      assert values[lb] == v;
    }
    if lb + 1 < ub {
      assert values[lb] == v && values[lb + 1] == v;
    }
  }

  /** An empty range inside the values sits between a smaller and a larger
      neighbour. */
  lemma EqualRangeGap(values: seq<real>, v: real, lb: nat, ub: nat)
    requires lb == LowerBound(values, v) && ub == UpperBound(values, v)
    requires IsEqualRange(values, v, lb, ub)
    ensures 0 < lb == ub < |values| ==> values[ub - 1] < v < values[ub]
  {
  }

  /** The last step of `get_time`: bisection in the segment whose end values
      enclose `v`, mapped back to the segment's time interval. */
  method SolveBetweenVertices(m: MonotoneSpline, idx: nat, v: real)
    returns (time: real, ghost u: real, ghost ulo: real, ghost uhi: real)
    requires ThroughSortedValues(m)
    requires idx < |m.curve.segments|
    requires m.values[idx] < v < m.values[idx + 1]
    ensures 0.0 <= u <= 1.0
    ensures time == SegmentTime(m.curve, idx, u)
    ensures forall k :: 0 <= k < |m.curve.segments| && m.values[k] < v < m.values[k + 1] ==>
      m.curve.grid[k] <= time <= m.curve.grid[k + 1]
    ensures || Horner(m.curve.segments[idx], u) == v
            || (&& 0.0 <= ulo <= u <= uhi <= 1.0
                && uhi - ulo <= 0.0001
                && Between(v, Horner(m.curve.segments[idx], ulo), Horner(m.curve.segments[idx], uhi)))
  {
    var local;
    local, ulo, uhi := SolveInSegment(m.curve.segments[idx], v);
    u := local;
    time := SegmentTime(m.curve, idx, local);
    SegmentTimeBracket(m.curve, idx, u, u, u);
    forall k | 0 <= k < |m.curve.segments| && m.values[k] < v < m.values[k + 1]
      ensures k == idx
    {
      EnclosingSegmentIsUnique(m.values, v, idx, k);
    }
  }

  /** Sorted values enclose a value strictly in at most one segment. */
  lemma EnclosingSegmentIsUnique(values: seq<real>, v: real, i: nat, k: nat)
    requires Sorted(values)
    requires i + 1 < |values| && k + 1 < |values|
    requires values[i] < v < values[i + 1] && values[k] < v < values[k + 1]
    ensures i == k
  {
    if k < i {
      SortedPairwise(values, k + 1, i);
    } else if i < k {
      SortedPairwise(values, i + 1, k);
    }
  }

  /** The time of local parameter `u` in segment `k`. */
  function SegmentTime<V>(c: Curve<V>, k: nat, u: real): real
    requires k + 1 < |c.grid|
  {
    u * (c.grid[k + 1] - c.grid[k]) + c.grid[k]
  }

  /** A `get_time` bracket inside segment `k`, carried over to times: local
      parameters in `[0, 1]` map in order into the segment's time interval,
      and a local bracket at most 0.0001 wide becomes one at most 0.0001 of
      the segment's duration wide. */
  lemma SegmentTimeBracket<V>(c: Curve<V>, k: nat, ulo: real, u: real, uhi: real)
    requires WellFormed(c)
    requires k < |c.segments|
    requires 0.0 <= ulo <= u <= uhi <= 1.0 && uhi - ulo <= 0.0001
    ensures c.grid[k] <= SegmentTime(c, k, ulo) <= SegmentTime(c, k, u) <= SegmentTime(c, k, uhi) <= c.grid[k + 1]
    ensures SegmentTime(c, k, uhi) - SegmentTime(c, k, ulo) <= 0.0001 * (c.grid[k + 1] - c.grid[k])
  {
    var t0, t1 := c.grid[k], c.grid[k + 1];
    AscendingPairwise(c.grid, k, k + 1);
    ScaledBracket(t0, t1, ulo, u, uhi, SegmentTime(c, k, ulo), SegmentTime(c, k, u), SegmentTime(c, k, uhi));
  }

  /** A root of segment `k`'s cubic is a root of the curve at the
      corresponding time: an exact `get_time` result inside a segment is a
      time at which the curve takes the value `v`. */
  lemma RootInTime(c: Curve<real>, k: nat, v: real, u: real, time: real)
    requires WellFormed(c)
    requires k < |c.segments|
    requires k + 1 < |c.segments| ==> Horner(c.segments[k], 1.0) == Horner(c.segments[k + 1], 0.0)
    requires 0.0 <= u <= 1.0
    requires time == u * (c.grid[k + 1] - c.grid[k]) + c.grid[k]
    requires Horner(c.segments[k], u) == v
    ensures Evaluate(c, time) == v
  {
    EvaluateWithinSegment(c, k, u);
  }

  /** The bisection call of `get_time`: the segment's cubic minus `v` is
      searched for a root over local parameters [0, 1], with tolerance
      0.0001 and at most 500 evaluations. Either the cubic is exactly `v`
      at the result `u`, or `u` is an end of a bracket at most 0.0001 wide
      over which the cubic crosses `v`. */
  method SolveInSegment(segment: Segment<real>, v: real) returns (u: real, ghost ulo: real, ghost uhi: real)
    requires Horner(segment, 0.0) < v < Horner(segment, 1.0)
    ensures 0.0 <= u <= 1.0
    ensures || Horner(segment, u) == v
            || (&& 0.0 <= ulo <= u <= uhi <= 1.0
                && uhi - ulo <= 0.0001
                && Between(v, Horner(segment, ulo), Horner(segment, uhi)))
  {
    var f := t => Horner(segment, t) - v;
    u, ulo, uhi := BisectUnit(f);
  }

  /** Bisection of a function that rises through zero over [0, 1]. */
  method BisectUnit(f: real -> real) returns (u: real, ghost ulo: real, ghost uhi: real)
    requires f(0.0) < 0.0 < f(1.0)
    ensures 0.0 <= u <= 1.0
    ensures || f(u) == 0.0
            || (&& 0.0 <= ulo <= u <= uhi <= 1.0
                && uhi - ulo <= 0.0001
                && Between(0.0, f(ulo), f(uhi)))
  {
    Bisection.OppositeSigns(f(0.0), f(1.0));
    ghost var calls;
    u, calls, ulo, uhi := Bisection.Bisect(f, 0.0, 1.0, 0.0001, 500);
    if f(u) != 0.0 {
      Bisection.OppositeSigns(f(ulo), f(uhi));
      BracketIsNarrow(ulo, uhi, calls);
    }
  }

  /** A bisection bracket of the unit interval that is within tolerance, or
      was halved 498 times, is at most 0.0001 wide. */
  lemma BracketIsNarrow(lo: real, hi: real, calls: nat)
    requires 2 <= calls
    requires hi - lo == Bisection.HalvedWidth(1.0, calls - 2)
    requires hi - lo <= 0.0001 || calls == 500
    ensures hi - lo <= 0.0001
  {
    if calls == 500 {
      HalvedWidthAtMost(498);
    }
  }

  /** Halving the unit interval 14 times or more leaves at most 0.0001. */
  lemma {:induction false} HalvedWidthAtMost(k: nat)
    requires 14 <= k
    ensures Bisection.HalvedWidth(1.0, k) <= 0.0001
  {
    if k == 14 {
      assert Bisection.HalvedWidth(1.0, 14) == 1.0 / 16384.0;
    } else {
      HalvedWidthAtMost(k - 1);
    }
  }

  /** Mapping local parameters to times keeps their order and scales
      widths by the segment's duration. */
  lemma ScaledBracket(t0: real, t1: real, ulo: real, u: real, uhi: real, lo: real, time: real, hi: real)
    requires t0 < t1
    requires 0.0 <= ulo <= u <= uhi <= 1.0
    requires uhi - ulo <= 0.0001
    requires lo == ulo * (t1 - t0) + t0 && time == u * (t1 - t0) + t0 && hi == uhi * (t1 - t0) + t0
    ensures t0 <= lo <= time <= hi <= t1
    ensures hi - lo <= 0.0001 * (t1 - t0)
  {
    var d := t1 - t0;
    ProductSigns(ulo, d);
    ProductSigns(u - ulo, d);
    ProductSigns(uhi - u, d);
    ProductSigns(1.0 - uhi, d);
    ProductSigns(0.0001 - (uhi - ulo), d);
  }
}
