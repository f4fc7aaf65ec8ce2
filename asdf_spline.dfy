/** The composer (include/asdfspline.hpp): a path through the vertices (a
    centripetal Kochanek-Bartels spline) travelled at the pace of a
    monotone spline from time to arc length (`t2s`). The `Initializer`
    validates the vertex records and sorts them into tables; a vertex
    without a time gets the time at which `t2s` reaches the path's arc
    length at that vertex. */
module AsdfSpline {
  import opened Wrappers
  import opened Vectors
  import opened Numerics
  import opened Search
  import opened PiecewiseCubicCurve
  import CubicHermiteSpline
  import KB = CentripetalKochanekBartelsSpline
  import Monotone = MonotoneCubicSpline
  import SP = ShapePreservingCubicSpline
  import Bisection

  /** A vertex position, or the marker `CLOSED` that closes the curve. */
  datatype Position = Point(point: Vec) | Closed

  /** One vertex record (`AsdfVertex`): position, optional time, optional
      speed, and TCB values. */
  datatype AsdfVertex = AsdfVertex(position: Position, time: Option<real>, speed: Option<real>, tcb: KB.Tcb)

  /** The default (all zero) TCB triple. */
  const NoTcb := KB.Tcb(0.0, 0.0, 0.0)

  // ----- what the initializer checks -----

  /** The curve is closed exactly when the last record is `CLOSED`. */
  predicate IsClosed(data: seq<AsdfVertex>)
    requires data != []
  {
    data[|data| - 1].position.Closed?
  }

  /** The time the initializer records for vertex `j`: its own, zero for a
      first vertex without one, and none (a missing time) otherwise. */
  function KnownTime(data: seq<AsdfVertex>, j: nat): Option<real>
    requires j < |data|
  {
    if data[j].time.Some? then data[j].time
    else if j == 0 then Some(0.0)
    else None
  }

  /** Vertex `j` of `n` has TCB values of its own: every vertex but the
      last, and for an open curve not the first either. */
  predicate TcbAllowed(closed: bool, j: nat, n: nat)
  {
    (closed || 0 < j) && j + 1 < n
  }

  /** The exception the initializer throws at vertex `j`, if any, in the
      order it checks position, time, speed and TCB. */
  function VertexError(data: seq<AsdfVertex>, closed: bool, j: nat): Option<Error>
    requires j < |data|
  {
    var n, vertex := |data|, data[j];
    if vertex.position.Closed? && j != n - 1 then Some(ClosedNotLast)
    else if KnownTime(data, j).None? && j == n - 1 then Some(LastTimeMissing)
    else if KnownTime(data, j).None? && vertex.speed.Some? then Some(SpeedWithoutTime)
    else if !TcbAllowed(closed, j, n) && vertex.tcb != NoTcb then Some(TcbNotAllowed)
    else None
  }

  /** The first exception among vertices `0 .. k - 1`. */
  function ErrorUpTo(data: seq<AsdfVertex>, closed: bool, k: nat): Option<Error>
    requires k <= |data|
  {
    if k == 0 then None
    else if ErrorUpTo(data, closed, k - 1).Some? then ErrorUpTo(data, closed, k - 1)
    else VertexError(data, closed, k - 1)
  }

  /** The exception the `Initializer` constructor throws, if any. */
  function InitializerError(data: seq<AsdfVertex>): Option<Error>
  {
    if |data| < 2 then Some(TooFewVertices)
    else ErrorUpTo(data, IsClosed(data), |data|)
  }

  /** Once an exception is thrown, later vertices do not change it. */
  lemma {:induction false} ErrorPersists(data: seq<AsdfVertex>, closed: bool, i: nat, k: nat)
    requires i <= k <= |data|
    requires ErrorUpTo(data, closed, i).Some?
    ensures ErrorUpTo(data, closed, k) == ErrorUpTo(data, closed, i)
    decreases k
  {
    if i < k {
      ErrorPersists(data, closed, i, k - 1);
    }
  }

  /** The checks throw only the initializer's own exceptions. */
  lemma {:induction false} ErrorKinds(data: seq<AsdfVertex>, closed: bool, k: nat)
    requires k <= |data|
    ensures ErrorUpTo(data, closed, k) in
      {None, Some(ClosedNotLast), Some(LastTimeMissing), Some(SpeedWithoutTime), Some(TcbNotAllowed)}
  {
    if k > 0 {
      ErrorKinds(data, closed, k - 1);
    }
  }

  /** Without an exception, every vertex passed every check. */
  lemma {:induction false} NoErrorAt(data: seq<AsdfVertex>, closed: bool, k: nat, j: nat)
    requires j < k <= |data|
    requires ErrorUpTo(data, closed, k).None?
    ensures VertexError(data, closed, j).None?
    decreases k
  {
    if j < k - 1 {
      NoErrorAt(data, closed, k - 1, j);
    }
  }

  // ----- the tables the initializer builds -----

  /** The positions among vertices `0 .. k - 1` (`vertices`). */
  function Points(data: seq<AsdfVertex>, k: nat): seq<Vec>
    requires k <= |data|
  {
    if k == 0 then []
    else Points(data, k - 1) + (if data[k - 1].position.Point? then [data[k - 1].position.point] else [])
  }

  /** The TCB values of the vertices among `0 .. k - 1` that have their own (`tcb`). */
  function Tcbs(data: seq<AsdfVertex>, closed: bool, k: nat): seq<KB.Tcb>
    requires k <= |data|
  {
    if k == 0 then []
    else Tcbs(data, closed, k - 1) + (if TcbAllowed(closed, k - 1, |data|) then [data[k - 1].tcb] else [])
  }

  /** How many of the vertices `0 .. k - 1` have (`known`) or lack (`!known`) a time. */
  function Count(data: seq<AsdfVertex>, k: nat, known: bool): nat
    requires k <= |data|
  {
    if k == 0 then 0
    else Count(data, k - 1, known) + (if KnownTime(data, k - 1).Some? == known then 1 else 0)
  }

  /** The entries of the per-vertex table `xs` that belong to vertices
      among `0 .. k - 1` with (`known`) or without (`!known`) a time, in
      vertex order. */
  function Kept<T>(data: seq<AsdfVertex>, xs: seq<T>, k: nat, known: bool): (r: seq<T>)
    requires k <= |data| && k <= |xs|
    ensures |r| == Count(data, k, known)
  {
    if k == 0 then []
    else Kept(data, xs, k - 1, known) + (if KnownTime(data, k - 1).Some? == known then [xs[k - 1]] else [])
  }

  /** The indices of the vertices among `0 .. k - 1` without a time (`missing_times`). */
  function Missing(data: seq<AsdfVertex>, k: nat): (r: seq<nat>)
    requires k <= |data|
    ensures |r| == Count(data, k, false)
  {
    if k == 0 then []
    else Missing(data, k - 1) + (if KnownTime(data, k - 1).None? then [k - 1] else [])
  }

  /** Each vertex's recorded time, zero where it is missing. */
  function TimeTable(data: seq<AsdfVertex>): (r: seq<real>)
    ensures |r| == |data|
  {
    seq(|data|, j requires 0 <= j < |data| => if KnownTime(data, j).Some? then KnownTime(data, j).value else 0.0)
  }

  /** Each vertex's optional speed. */
  function SpeedTable(data: seq<AsdfVertex>): (r: seq<Option<real>>)
    ensures |r| == |data|
  {
    seq(|data|, j requires 0 <= j < |data| => data[j].speed)
  }

  /** Every vertex has a time or lacks one. */
  lemma {:induction false} CountsAddUp(data: seq<AsdfVertex>, k: nat)
    requires k <= |data|
    ensures Count(data, k, true) + Count(data, k, false) == k
  {
    if k > 0 {
      CountsAddUp(data, k - 1);
    }
  }

  /** Counts grow by at most one per vertex. */
  lemma {:induction false} CountGrows(data: seq<AsdfVertex>, a: nat, b: nat, known: bool)
    requires a <= b <= |data|
    ensures Count(data, a, known) <= Count(data, b, known) <= Count(data, a, known) + (b - a)
    decreases b
  {
    if a < b {
      CountGrows(data, a, b - 1, known);
    }
  }

  /** A table for fewer vertices is a prefix of the table for more. */
  lemma {:induction false} KeptPrefix<T>(data: seq<AsdfVertex>, xs: seq<T>, a: nat, b: nat, known: bool)
    requires a <= b <= |data| && b <= |xs|
    ensures |Kept(data, xs, a, known)| <= |Kept(data, xs, b, known)|
    ensures Kept(data, xs, b, known)[..|Kept(data, xs, a, known)|] == Kept(data, xs, a, known)
    decreases b
  {
    if a < b {
      KeptPrefix(data, xs, a, b - 1, known);
      CountGrows(data, b - 1, b, known);
    }
  }

  /** The entry of vertex `j` sits at the position given by the number of
      vertices of its kind before it. */
  lemma KeptAt<T>(data: seq<AsdfVertex>, xs: seq<T>, j: nat, known: bool)
    requires j < |data| <= |xs|
    requires KnownTime(data, j).Some? == known
    ensures Count(data, j, known) < Count(data, |data|, known)
    ensures Kept(data, xs, |data|, known)[Count(data, j, known)] == xs[j]
  {
    KeptPrefix(data, xs, j + 1, |data|, known);
    assert Kept(data, xs, j + 1, known)[Count(data, j, known)] == xs[j];
  }

  /** `missing_times` lists exactly the vertices without a time, each
      before `k`, in strictly increasing order, and entry `p` is preceded
      by exactly `p` vertices without a time. */
  lemma {:induction false} MissingPrefix(data: seq<AsdfVertex>, k: nat, p: nat)
    requires k <= |data|
    requires p < |Missing(data, k)|
    ensures Missing(data, k)[p] < k
    ensures KnownTime(data, Missing(data, k)[p]).None?
    ensures Missing(data, Missing(data, k)[p]) == Missing(data, k)[..p]
    ensures Count(data, Missing(data, k)[p], false) == p
    decreases k
  {
    if p < |Missing(data, k - 1)| {
      MissingPrefix(data, k - 1, p);
      assert Missing(data, k - 1)[..p] == Missing(data, k)[..p];
    } else {
      assert Missing(data, k)[..p] == Missing(data, k - 1);
    }
  }

  /** A vertex is listed in `missing_times` exactly when it has no time,
      and the list is strictly increasing. */
  lemma MissingMembers(data: seq<AsdfVertex>, k: nat)
    requires k <= |data|
    ensures forall j: nat :: j in Missing(data, k) <==> j < k && KnownTime(data, j).None?
    ensures forall p, q :: 0 <= p < q < |Missing(data, k)| ==> Missing(data, k)[p] < Missing(data, k)[q]
  {
    forall j: nat | j < k && KnownTime(data, j).None?
      ensures j in Missing(data, k)
    {
      MissingHasVertex(data, k, j);
    }
    forall p | 0 <= p < |Missing(data, k)|
      ensures Missing(data, k)[p] < k && KnownTime(data, Missing(data, k)[p]).None?
    {
      MissingPrefix(data, k, p);
    }
    forall p, q | 0 <= p < q < |Missing(data, k)|
      ensures Missing(data, k)[p] < Missing(data, k)[q]
    {
      MissingPrefix(data, k, q);
      assert Missing(data, k)[p] in Missing(data, Missing(data, k)[q]);
      MissingPrefix(data, Missing(data, k)[q], p);
    }
  }

  lemma {:induction false} MissingHasVertex(data: seq<AsdfVertex>, k: nat, j: nat)
    requires j < k <= |data|
    requires KnownTime(data, j).None?
    ensures j in Missing(data, k)
    decreases k
  {
    if j < k - 1 {
      MissingHasVertex(data, k - 1, j);
    }
  }

  /** What the initializer establishes beyond the tables: without an
      exception the first and last vertices have times, so at least two
      times are known, and every missing time belongs to an inner vertex. */
  lemma EndTimesKnown(data: seq<AsdfVertex>)
    requires InitializerError(data).None?
    ensures KnownTime(data, 0).Some? && KnownTime(data, |data| - 1).Some?
    ensures 2 <= Count(data, |data|, true)
    ensures forall p :: 0 <= p < |Missing(data, |data|)| ==> 0 < Missing(data, |data|)[p] < |data| - 1
  {
    var n := |data|;
    NoErrorAt(data, IsClosed(data), n, n - 1);
    CountGrows(data, 1, n - 1, true);
    forall p | 0 <= p < |Missing(data, n)|
      ensures 0 < Missing(data, n)[p] < n - 1
    {
      MissingPrefix(data, n, p);
    }
  }

  /** Without an exception the positions are those of all records, except
      the final `CLOSED` of a closed curve. */
  lemma InitializedVertices(data: seq<AsdfVertex>)
    requires InitializerError(data).None?
    ensures |Points(data, |data|)| == if IsClosed(data) then |data| - 1 else |data|
    ensures forall j :: 0 <= j < |Points(data, |data|)| ==>
      data[j].position.Point? && Points(data, |data|)[j] == data[j].position.point
  {
    var n := |data|;
    forall j | 0 <= j < n - 1
      ensures data[j].position.Point?
    {
      NoErrorAt(data, IsClosed(data), n, j);
    }
    if IsClosed(data) {
      PointsOfPositions(data, n - 1);
    } else {
      PointsOfPositions(data, n);
    }
  }

  lemma {:induction false} PointsOfPositions(data: seq<AsdfVertex>, k: nat)
    requires k <= |data|
    requires forall j :: 0 <= j < k ==> data[j].position.Point?
    ensures |Points(data, k)| == k
    ensures forall j :: 0 <= j < k ==> Points(data, k)[j] == data[j].position.point
  {
    if k > 0 {
      PointsOfPositions(data, k - 1);
    }
  }

  /** One TCB triple per path vertex that has tangents of its own: `n - 2`
      for an open curve (the inner vertices, from the second record on),
      `n - 1` for a closed one (from the first record on). */
  lemma InitializedTcbs(data: seq<AsdfVertex>, closed: bool)
    requires 2 <= |data|
    ensures |Tcbs(data, closed, |data|)| == if closed then |data| - 1 else |data| - 2
    ensures forall q :: 0 <= q < |Tcbs(data, closed, |data|)| ==>
      Tcbs(data, closed, |data|)[q] == data[q + (if closed then 0 else 1)].tcb
  {
    TcbsUpTo(data, closed, |data| - 1);
  }

  lemma {:induction false} TcbsUpTo(data: seq<AsdfVertex>, closed: bool, k: nat)
    requires 1 <= k < |data|
    ensures |Tcbs(data, closed, k)| == if closed then k else k - 1
    ensures forall q :: 0 <= q < |Tcbs(data, closed, k)| ==>
      Tcbs(data, closed, k)[q] == data[q + (if closed then 0 else 1)].tcb
  {
    if k > 1 {
      TcbsUpTo(data, closed, k - 1);
    }
  }

  /** The path constructor gets one TCB triple per inner vertex, so it can
      only fail for too few vertices or a repeated vertex. */
  lemma PathInputFits(num: Numerics, data: seq<AsdfVertex>)
    requires InitializerError(data).None?
    ensures var closed := IsClosed(data);
      KB.InitError(num, Points(data, |data|), Tcbs(data, closed, |data|), closed) in
        {None, Some(TooFewVertices), Some(RepeatedVertices)}
  {
    InitializedVertices(data);
    InitializedTcbs(data, IsClosed(data));
  }

  // ----- the initializer -----

  /** The state of `AsdfSpline::Initializer`. `data` is the input it was
      built from. */
  class Initializer {
    ghost var data: seq<AsdfVertex>
    var closed: bool
    var vertices: seq<Vec>
    var times: seq<real>
    var missingTimes: seq<nat>
    var speeds: seq<Option<real>>
    var tcb: seq<KB.Tcb>
    var lengthsAtMissingTimes: seq<real>

    /** The tables for vertices `0 .. k - 1`, none of which failed a check. */
    ghost predicate CollectedUpTo(k: nat)
      reads this`data, this`closed, this`vertices, this`times, this`missingTimes, this`speeds, this`tcb
      requires k <= |data|
    {
      && ErrorUpTo(data, closed, k).None?
      && vertices == Points(data, k)
      && times == Kept(data, TimeTable(data), k, true)
      && missingTimes == Missing(data, k)
      && speeds == Kept(data, SpeedTable(data), k, true)
      && tcb == Tcbs(data, closed, k)
    }

    /** The tables as the constructor leaves them. */
    ghost predicate Collected()
      reads this`data, this`closed, this`vertices, this`times, this`missingTimes, this`speeds, this`tcb
    {
      && 2 <= |data|
      && closed == IsClosed(data)
      && CollectedUpTo(|data|)
    }

    /** Empty tables for `data`, whose last record decides `closed`. */
    constructor (ghost data: seq<AsdfVertex>, closed: bool)
      ensures this.data == data && this.closed == closed
      ensures vertices == [] && times == [] && missingTimes == [] && speeds == [] && tcb == []
      ensures lengthsAtMissingTimes == []
    {
      this.data := data;
      this.closed := closed;
      vertices, times, missingTimes, speeds, tcb := [], [], [], [], [];
      lengthsAtMissingTimes := [];
    }

    /** The constructor's work on record `i`: its position, its time (or
        its index among the missing times) and speed, and its TCB values,
        each checked before it is stored. */
    method Collect(current: AsdfVertex, i: nat, n: nat) returns (error: Option<Error>)
      requires n == |data| && i < n && current == data[i] && CollectedUpTo(i)
      modifies this`vertices, this`times, this`speeds, this`missingTimes, this`tcb
      ensures error == ErrorUpTo(data, closed, i + 1)
      ensures error.None? ==> CollectedUpTo(i + 1)
    {
      CollectStep(data, closed, i);
      if current.position.Point? {
        vertices := vertices + [current.position.point];
      } else if i != n - 1 {
        return Some(ClosedNotLast);
      }
      if current.time.Some? {
        times := times + [current.time.value];
        speeds := speeds + [current.speed];
      } else if i == 0 {
        times := times + [0.0];
        speeds := speeds + [current.speed];
      } else if i == n - 1 {
        return Some(LastTimeMissing);
      } else {
        missingTimes := missingTimes + [i];
        if current.speed.Some? {
          return Some(SpeedWithoutTime);
        }
      }
      if (closed || 0 < i) && i < n - 1 {
        tcb := tcb + [current.tcb];
      } else if current.tcb != NoTcb {
        return Some(TcbNotAllowed);
      }
      return None;
    }

    /** `get_t2s_arguments`: the arc length of the path at each vertex
        with a time (the values of `t2s`), together with the speeds and
        times of those vertices; the arc length at each vertex without a
        time goes to `lengthsAtMissingTimes`. */
    method GetT2sArguments(num: Numerics, path: Curve<Vec>)
      returns (lengths: seq<real>, speedsOut: seq<Option<real>>, timesOut: seq<real>)
      requires InitializerError(data).None? && missingTimes == Missing(data, |data|)
      requires lengthsAtMissingTimes == []
      requires WellFormed(path) && |path.grid| == |data|
      modifies this`lengthsAtMissingTimes
      ensures lengths == Kept(data, Arcs(num, path), |data|, true)
      ensures lengthsAtMissingTimes == Kept(data, Arcs(num, path), |data|, false)
      ensures speedsOut == speeds && timesOut == times
    {
      lengths := [0.0];
      var i := 0;
      while i < |path.grid| - 1
        invariant 0 <= i <= |path.grid| - 1
        invariant ArcTables(num, data, path, i, lengths, lengthsAtMissingTimes)
      {
        var length := SegmentLength(num, path, i);
        ArcTablesGrow(num, data, path, i, lengths, lengthsAtMissingTimes);
        if i in missingTimes {
          lengthsAtMissingTimes := lengthsAtMissingTimes + [lengths[|lengths| - 1]];
          lengths := lengths[|lengths| - 1 := lengths[|lengths| - 1] + length];
        } else {
          lengths := lengths + [lengths[|lengths| - 1] + length];
        }
        i := i + 1;
      }
      ArcTablesDone(num, data, path, lengths, lengthsAtMissingTimes);
      return lengths, speeds, times;
    }

    /** `get_grid`: asks `t2s` for the time of each vertex without one and
        inserts it at the vertex's index. Fails ("duplicate vertex without
        time") exactly when one of the lengths lies on a plateau of `t2s`.
        On success every vertex has its time: the given ones where given,
        and the solved one, a time `get_time` may return, where missing. */
    method GetGrid(t2s: Monotone.MonotoneSpline) returns (r: Result<seq<real>>, ghost solved: seq<real>)
      requires missingTimes == Missing(data, |data|) && times == Kept(data, TimeTable(data), |data|, true)
      requires |lengthsAtMissingTimes| == |missingTimes|
      requires Monotone.ThroughSortedValues(t2s)
      modifies this`times
      ensures r.Failure? <==>
        exists p :: 0 <= p < |missingTimes| && Monotone.Plateau(t2s.values, lengthsAtMissingTimes[p])
      ensures r.Failure? ==> r.error == DuplicateVertexWithoutTime
      ensures r.Success? ==>
        && |solved| == Count(data, |data|, false)
        && SolvedTimes(t2s, lengthsAtMissingTimes, solved)
        && r.value == times
        && TimeGrid(data, solved, times)
    {
      InsertStart(data);
      solved := [];
      var i := 0;
      while i < |missingTimes|
        invariant 0 <= i <= |missingTimes|
        invariant Inserted(data, i, solved, times)
        invariant SolvedTimes(t2s, lengthsAtMissingTimes, solved)
      {
        var time;
        ghost var idx, u, ulo, uhi;
        time, idx, u, ulo, uhi := Monotone.GetTime(t2s, lengthsAtMissingTimes[i]);
        if time.None? {
          return Failure(DuplicateVertexWithoutTime), solved;
        }
        InsertSolved(data, i, solved, time.value, times);
        SolvedTimesGrow(t2s, lengthsAtMissingTimes, solved, time.value);
        times := times[..missingTimes[i]] + [time.value] + times[missingTimes[i]..];
        solved := solved + [time.value];
        i := i + 1;
      }
      InsertEnd(data, solved, times);
      r := Success(times);
    }
  }

  /** After the first `i` segments of the path: `lengths` holds the arc
      length at each vertex before `i` with a time, then the arc length at
      vertex `i`; `atMissing` holds the arc length at each vertex before
      `i` without a time. */
  ghost predicate ArcTables(num: Numerics, data: seq<AsdfVertex>, path: Curve<Vec>, i: nat,
                            lengths: seq<real>, atMissing: seq<real>)
    requires WellFormed(path) && |path.grid| == |data| && i < |data|
  {
    && lengths == Kept(data, Arcs(num, path), i, true) + [Arc(num, path, i)]
    && atMissing == Kept(data, Arcs(num, path), i, false)
  }

  /** One more segment: a vertex with a time appends the next arc length;
      a vertex without one moves its arc length to `atMissing` and
      advances the last entry by the segment's length. */
  lemma ArcTablesGrow(num: Numerics, data: seq<AsdfVertex>, path: Curve<Vec>, i: nat,
                      lengths: seq<real>, atMissing: seq<real>)
    requires WellFormed(path) && |path.grid| == |data| && i + 1 < |data|
    requires ArcTables(num, data, path, i, lengths, atMissing)
    ensures i in Missing(data, |data|) <==> KnownTime(data, i).None?
    ensures KnownTime(data, i).Some? ==>
      ArcTables(num, data, path, i + 1,
                lengths + [lengths[|lengths| - 1] + SegmentLength(num, path, i)], atMissing)
    ensures KnownTime(data, i).None? ==>
      ArcTables(num, data, path, i + 1,
                lengths[|lengths| - 1 := lengths[|lengths| - 1] + SegmentLength(num, path, i)],
                atMissing + [lengths[|lengths| - 1]])
  {
    MissingExactly(data, i);
    assert Arcs(num, path)[i] == Arc(num, path, i);
    assert Arc(num, path, i + 1) == Arc(num, path, i) + SegmentLength(num, path, i);
  }

  /** The last vertex has a time, so after the last segment the tables
      are complete. */
  lemma ArcTablesDone(num: Numerics, data: seq<AsdfVertex>, path: Curve<Vec>,
                      lengths: seq<real>, atMissing: seq<real>)
    requires InitializerError(data).None?
    requires WellFormed(path) && |path.grid| == |data|
    requires ArcTables(num, data, path, |data| - 1, lengths, atMissing)
    ensures lengths == Kept(data, Arcs(num, path), |data|, true)
    ensures atMissing == Kept(data, Arcs(num, path), |data|, false)
  {
    var n, arcs := |data|, Arcs(num, path);
    EndTimesKnown(data);
    assert arcs[n - 1] == Arc(num, path, n - 1);
    assert Kept(data, arcs, n, true) == Kept(data, arcs, n - 1, true) + [arcs[n - 1]];
    assert Kept(data, arcs, n, false) == Kept(data, arcs, n - 1, false);
  }

  /** `solved` holds, for each of the first lengths, a time `get_time` may
      return for it; none of those lengths lies on a plateau. */
  ghost predicate SolvedTimes(t2s: Monotone.MonotoneSpline, lengths: seq<real>, solved: seq<real>)
    requires Monotone.ThroughSortedValues(t2s)
  {
    && |solved| <= |lengths|
    && forall p :: 0 <= p < |solved| ==>
         !Monotone.Plateau(t2s.values, lengths[p]) && Monotone.TimeOf(t2s, lengths[p], solved[p])
  }

  /** A time solved for the next length extends the solved times. */
  lemma SolvedTimesGrow(t2s: Monotone.MonotoneSpline, lengths: seq<real>, solved: seq<real>, t: real)
    requires Monotone.ThroughSortedValues(t2s)
    requires SolvedTimes(t2s, lengths, solved) && |solved| < |lengths|
    requires !Monotone.Plateau(t2s.values, lengths[|solved|]) && Monotone.TimeOf(t2s, lengths[|solved|], t)
    ensures SolvedTimes(t2s, lengths, solved + [t])
  {
    var s' := solved + [t];
    forall p | 0 <= p < |s'|
      ensures !Monotone.Plateau(t2s.values, lengths[p]) && Monotone.TimeOf(t2s, lengths[p], s'[p])
    {
      if p < |solved| {
        assert s'[p] == solved[p];
      }
    }
  }

  /** One vertex's worth of checks and tables, branch by branch as the
      constructor takes them. */
  lemma CollectStep(data: seq<AsdfVertex>, closed: bool, i: nat)
    requires i < |data| && ErrorUpTo(data, closed, i).None?
    ensures ErrorUpTo(data, closed, i + 1) == VertexError(data, closed, i)
    ensures Points(data, i + 1) ==
      Points(data, i) + if data[i].position.Point? then [data[i].position.point] else []
    ensures data[i].time.Some? ==>
      && Kept(data, TimeTable(data), i + 1, true) == Kept(data, TimeTable(data), i, true) + [data[i].time.value]
      && Kept(data, SpeedTable(data), i + 1, true) == Kept(data, SpeedTable(data), i, true) + [data[i].speed]
      && Missing(data, i + 1) == Missing(data, i)
    ensures data[i].time.None? && i == 0 ==>
      && Kept(data, TimeTable(data), i + 1, true) == Kept(data, TimeTable(data), i, true) + [0.0]
      && Kept(data, SpeedTable(data), i + 1, true) == Kept(data, SpeedTable(data), i, true) + [data[i].speed]
      && Missing(data, i + 1) == Missing(data, i)
    ensures data[i].time.None? && i != 0 ==>
      && Kept(data, TimeTable(data), i + 1, true) == Kept(data, TimeTable(data), i, true)
      && Kept(data, SpeedTable(data), i + 1, true) == Kept(data, SpeedTable(data), i, true)
      && Missing(data, i + 1) == Missing(data, i) + [i]
    ensures Tcbs(data, closed, i + 1) ==
      Tcbs(data, closed, i) + if TcbAllowed(closed, i, |data|) then [data[i].tcb] else []
  {
  }

  /** Vertex `i` is among the missing times exactly when it has no time. */
  lemma MissingExactly(data: seq<AsdfVertex>, i: nat)
    requires i < |data|
    ensures i in Missing(data, |data|) <==> KnownTime(data, i).None?
  {
    if KnownTime(data, i).None? {
      MissingHasVertex(data, |data|, i);
    } else if i in Missing(data, |data|) {
      var p :| 0 <= p < |Missing(data, |data|)| && Missing(data, |data|)[p] == i;
      MissingPrefix(data, |data|, p);
    }
  }

  /** The `Initializer` constructor: the checks and tables of every vertex
      in order; the first failed check is the exception. */
  method Initialize(data: seq<AsdfVertex>) returns (r: Result<Initializer>)
    ensures r.Failure? <==> InitializerError(data).Some?
    ensures r.Failure? ==> r.error == InitializerError(data).value
    ensures r.Success? ==>
      && fresh(r.value)
      && r.value.data == data
      && r.value.Collected()
      && r.value.lengthsAtMissingTimes == []
  {
    if |data| < 2 {
      return Failure(TooFewVertices);
    }
    var n := |data|;
    var init := new Initializer(data, data[n - 1].position.Closed?);
    var i := 0;
    while i < n
      invariant 0 <= i <= n
      invariant init.data == data && init.closed == IsClosed(data)
      invariant init.CollectedUpTo(i)
      invariant init.lengthsAtMissingTimes == []
    {
      var error := init.Collect(data[i], i, n);
      if error.Some? {
        ErrorPersists(data, init.closed, i + 1, n);
        return Failure(error.value);
      }
      i := i + 1;
    }
    return Success(init);
  }

  // ----- arc lengths -----

  /** The arc length of the path from its start to grid point `j`: the
      lengths of the segments before it, added up. */
  function Arc(num: Numerics, c: Curve<Vec>, j: nat): (r: real)
    requires WellFormed(c) && j < |c.grid|
    ensures Sound(num) ==> 0.0 <= r
  {
    if j == 0 then 0.0 else Arc(num, c, j - 1) + SegmentLength(num, c, j - 1)
  }

  /** The arc length at every grid point. */
  function Arcs(num: Numerics, c: Curve<Vec>): (r: seq<real>)
    requires WellFormed(c)
    ensures |r| == |c.grid|
  {
    seq(|c.grid|, j requires 0 <= j < |c.grid| => Arc(num, c, j))
  }

  /** With non-negative segment lengths the arc lengths never decrease. */
  lemma ArcsRise(num: Numerics, c: Curve<Vec>)
    requires WellFormed(c) && Sound(num)
    ensures Sorted(Arcs(num, c))
  {
    forall j | 0 <= j < |c.grid| - 1
      ensures Arcs(num, c)[j] <= Arcs(num, c)[j + 1]
    {
      assert Arcs(num, c)[j + 1] == Arc(num, c, j) + SegmentLength(num, c, j);
    }
  }

  /** A table kept from a sorted per-vertex table is sorted. */
  lemma {:induction false} KeptSorted(data: seq<AsdfVertex>, xs: seq<real>, k: nat, known: bool)
    requires k <= |data| && k <= |xs|
    requires Sorted(xs)
    ensures Sorted(Kept(data, xs, k, known))
    ensures 0 < k && Kept(data, xs, k, known) != [] ==> Last(Kept(data, xs, k, known)) <= xs[k - 1]
  {
    if k > 0 {
      KeptSorted(data, xs, k - 1, known);
      var prev := Kept(data, xs, k - 1, known);
      if prev != [] {
        assert Last(prev) <= xs[k - 2] <= xs[k - 1];
      }
      if KnownTime(data, k - 1).Some? == known {
        var r := prev + [xs[k - 1]];
        forall i | 0 <= i < |r| - 1
          ensures r[i] <= r[i + 1]
        {
          if i < |prev| - 1 {
            assert r[i] == prev[i] && r[i + 1] == prev[i + 1];
          }
        }
      }
    }
  }

  /** The arguments of the time-to-length spline fit it: one length, speed
      and time per vertex with a time, at least two of them, and with
      non-negative segment lengths the lengths never decrease. So the
      monotone constructor can only reject the times (not strictly
      ascending) or a speed (too steep). */
  lemma T2sArgumentsFit(num: Numerics, data: seq<AsdfVertex>, path: Curve<Vec>)
    requires InitializerError(data).None?
    requires WellFormed(path) && |path.grid| == |data| && Sound(num)
    ensures var n := |data|;
      Monotone.MonotoneError(Kept(data, Arcs(num, path), n, true), Kept(data, SpeedTable(data), n, true),
                             Kept(data, TimeTable(data), n, true)) in
        {None, Some(GridNotAscending), Some(SlopeTooSteep)}
  {
    EndTimesKnown(data);
    ArcsRise(num, path);
    KeptSorted(data, Arcs(num, path), |data|, true);
  }

  // ----- inserting the solved times -----

  /** `t` is the time vertex `j` gets in a grid with the solved times `s`:
      its own time (zero for a first vertex without one), or the solved
      time whose position is the number of vertices without a time
      before it. */
  ghost predicate TimeAt(data: seq<AsdfVertex>, s: seq<real>, j: nat, t: real)
    requires j < |data|
  {
    if KnownTime(data, j).Some? then t == KnownTime(data, j).value
    else Count(data, j, false) < |s| && t == s[Count(data, j, false)]
  }

  /** `grid` has one time per vertex, each the one `TimeAt` gives it. */
  ghost predicate TimeGrid(data: seq<AsdfVertex>, s: seq<real>, grid: seq<real>)
  {
    && |grid| == |data|
    && forall j :: 0 <= j < |grid| ==> TimeAt(data, s, j, grid[j])
  }

  /** The vertex where the next solved time goes: the `i`-th without a
      time, or the end when all are inserted. */
  function NextMissing(data: seq<AsdfVertex>, i: nat): nat
  {
    if i < |Missing(data, |data|)| then Missing(data, |data|)[i] else |data|
  }

  /** The insertion point after `i` insertions has exactly `i` vertices
      without a time before it. */
  lemma NextMissingFacts(data: seq<AsdfVertex>, i: nat)
    requires i <= |Missing(data, |data|)|
    ensures i <= NextMissing(data, i) <= |data|
    ensures Count(data, NextMissing(data, i), false) == i
    ensures NextMissing(data, i) - i <= Count(data, |data|, true)
  {
    var b := NextMissing(data, i);
    if i < |Missing(data, |data|)| {
      MissingPrefix(data, |data|, i);
    }
    CountsAddUp(data, b);
    CountsAddUp(data, |data|);
    CountGrows(data, b, |data|, true);
  }

  /** Between two vertices with as many missing times before them, every
      vertex has a time, and the kept times continue the table. */
  lemma TimedBetween(data: seq<AsdfVertex>, a: nat, j: nat, b: nat)
    requires a <= j < b <= |data|
    requires Count(data, a, false) == Count(data, b, false)
    ensures KnownTime(data, j).Some?
    ensures Count(data, j, true) == j - Count(data, a, false)
    ensures Count(data, j, true) < |Kept(data, TimeTable(data), |data|, true)|
    ensures Kept(data, TimeTable(data), |data|, true)[Count(data, j, true)] == KnownTime(data, j).value
  {
    CountGrows(data, a, j, false);
    CountGrows(data, j, j + 1, false);
    CountGrows(data, j + 1, b, false);
    CountsAddUp(data, j);
    KeptAt(data, TimeTable(data), j, true);
  }

  /** The grid after `i` insertions: the solved times `s` are in place
      before the next insertion point, and the remaining given times
      follow, shifted by `i`. */
  ghost predicate Inserted(data: seq<AsdfVertex>, i: nat, s: seq<real>, times: seq<real>)
  {
    var n, b, K := |data|, NextMissing(data, i), Kept(data, TimeTable(data), |data|, true);
    && i <= |Missing(data, n)|
    && |s| == i
    && i <= b <= n
    && Count(data, b, false) == i
    && |times| == |K| + i
    && b <= |times|
    && (forall j :: 0 <= j < b ==> TimeAt(data, s, j, times[j]))
    && (forall j :: b <= j < |times| ==> times[j] == K[j - i])
  }

  /** Before any insertion the grid is the table of given times. */
  lemma InsertStart(data: seq<AsdfVertex>)
    ensures Inserted(data, 0, [], Kept(data, TimeTable(data), |data|, true))
  {
    NextMissingFacts(data, 0);
    TimedPrefix(data, NextMissing(data, 0));
  }

  /** Before the first vertex without a time, the table of given times
      gives every vertex its time. */
  lemma TimedPrefix(data: seq<AsdfVertex>, b: nat)
    requires b <= |data| && Count(data, b, false) == 0
    ensures b <= |Kept(data, TimeTable(data), |data|, true)|
    ensures forall j :: 0 <= j < b ==> TimeAt(data, [], j, Kept(data, TimeTable(data), |data|, true)[j])
  {
    CountsAddUp(data, b);
    CountGrows(data, b, |data|, true);
    forall j | 0 <= j < b
      ensures TimeAt(data, [], j, Kept(data, TimeTable(data), |data|, true)[j])
    {
      TimedBetween(data, 0, j, b);
    }
  }

  /** Inserting the next solved time at its vertex index (`times.insert`)
      keeps the solved times in place up to the following insertion point. */
  lemma InsertSolved(data: seq<AsdfVertex>, i: nat, s: seq<real>, t: real, times: seq<real>)
    requires i < |Missing(data, |data|)|
    requires Inserted(data, i, s, times)
    ensures Missing(data, |data|)[i] <= |times|
    ensures Inserted(data, i + 1, s + [t],
                     times[..Missing(data, |data|)[i]] + [t] + times[Missing(data, |data|)[i]..])
  {
    var n, M, K := |data|, Missing(data, |data|), Kept(data, TimeTable(data), |data|, true);
    var m, b' := M[i], NextMissing(data, i + 1);
    MissingPrefix(data, n, i);
    NextMissingFacts(data, i);
    NextMissingFacts(data, i + 1);
    var s', times' := s + [t], times[..m] + [t] + times[m..];
    CountGrows(data, m, m + 1, false);
    if b' <= m {
      CountGrows(data, b', m, false);
    }
    forall j | 0 <= j < b'
      ensures TimeAt(data, s', j, times'[j])
    {
      if j < m {
        assert times'[j] == times[j];
      } else if m < j {
        TimedBetween(data, m + 1, j, b');
        assert times'[j] == times[j - 1];
      }
    }
    forall j | b' <= j < |times'|
      ensures times'[j] == K[j - (i + 1)]
    {
      assert times'[j] == times[j - 1];
    }
  }

  /** After the last insertion every vertex has its time. */
  lemma InsertEnd(data: seq<AsdfVertex>, s: seq<real>, times: seq<real>)
    requires Inserted(data, |Missing(data, |data|)|, s, times)
    ensures |s| == Count(data, |data|, false)
    ensures TimeGrid(data, s, times)
  {
    CountsAddUp(data, |data|);
  }

  /** The final grid keeps each given time at its vertex, has zero at a
      first vertex without one, and the `p`-th solved time at the `p`-th
      vertex without a time. */
  lemma GridKeepsTimes(data: seq<AsdfVertex>, s: seq<real>, grid: seq<real>)
    requires TimeGrid(data, s, grid)
    ensures forall j :: 0 <= j < |data| && data[j].time.Some? ==> grid[j] == data[j].time.value
    ensures 0 < |data| && data[0].time.None? ==> grid[0] == 0.0
    ensures forall p :: 0 <= p < |Missing(data, |data|)| && p < |s| ==>
      Missing(data, |data|)[p] < |grid| && grid[Missing(data, |data|)[p]] == s[p]
  {
    forall p | 0 <= p < |Missing(data, |data|)| && p < |s|
      ensures Missing(data, |data|)[p] < |grid| && grid[Missing(data, |data|)[p]] == s[p]
    {
      MissingPrefix(data, |data|, p);
    }
  }

  /** The grid starts and ends with the first and last given times, which
      are the first and last times of `t2s`. */
  lemma GridEnds(data: seq<AsdfVertex>, s: seq<real>, grid: seq<real>)
    requires InitializerError(data).None?
    requires TimeGrid(data, s, grid)
    ensures grid[0] == Kept(data, TimeTable(data), |data|, true)[0]
    ensures grid[|data| - 1] == Last(Kept(data, TimeTable(data), |data|, true))
  {
    var n, tt := |data|, TimeTable(data);
    EndTimesKnown(data);
    KeptAt(data, tt, 0, true);
    KeptAt(data, tt, n - 1, true);
    CountGrows(data, n - 1, n, true);
  }

  // ----- the composed spline -----

  /** An `AsdfSpline`: the path, the time-to-length spline, the time of
      every vertex (`grid`) and the arc length reached at each (`s_grid`). */
  datatype Asdf = Asdf(path: Curve<Vec>, t2s: Monotone.MonotoneSpline, grid: seq<real>, sGrid: seq<real>)

  /** What the queries rely on: a well-formed path, a monotone `t2s`, and
      one time and one arc length per path grid point as `Sampled` says. */
  ghost predicate Valid(a: Asdf)
  {
    && WellFormed(a.path)
    && Monotone.IsMonotone(a.t2s)
    && |a.grid| == |a.path.grid|
    && Sampled(a)
  }

  /** The arc-length grid samples `t2s` at the times of the grid, whose
      first and last times are those of `t2s`. */
  ghost predicate Sampled(a: Asdf)
  {
    && WellFormed(a.t2s.curve)
    && 0 < |a.grid| == |a.sGrid|
    && a.grid[0] == First(a.t2s.curve.grid)
    && Last(a.grid) == Last(a.t2s.curve.grid)
    && forall j :: 0 <= j < |a.grid| ==> a.sGrid[j] == PiecewiseCubicCurve.Evaluate(a.t2s.curve, a.grid[j])
  }

  /** How the spline is timed: `t2s` through the arc lengths at the
      vertices with a time, and the time grid with the `solved` times
      inserted, each a time at which `t2s` reaches the arc length of its
      vertex. */
  ghost predicate Timed(num: Numerics, data: seq<AsdfVertex>, a: Asdf, solved: seq<real>)
  {
    var n := |data|;
    && Valid(a)
    && |a.path.grid| == n
    && a.t2s.values == Kept(data, Arcs(num, a.path), n, true)
    && a.t2s.curve.grid == Kept(data, TimeTable(data), n, true)
    && SP.IsCurveOf(a.t2s.values, Kept(data, SpeedTable(data), n, true), a.t2s.curve.grid, a.t2s.curve)
    && |solved| == Count(data, n, false)
    && TimeGrid(data, solved, a.grid)
    && SolvedTimes(a.t2s, Kept(data, Arcs(num, a.path), n, false), solved)
  }

  /** What the constructor builds from `data`: the path through the
      initializer's vertices (`parts` being its vertices, tangents and
      grid), timed as `Timed` says. */
  ghost predicate Composed(num: Numerics, data: seq<AsdfVertex>, a: Asdf, parts: KB.Parts, solved: seq<real>)
  {
    var n := |data|;
    && InitializerError(data).None?
    && Timed(num, data, a, solved)
    && KB.IsKochanekBartels(num, Points(data, n), Tcbs(data, IsClosed(data), n), IsClosed(data), parts)
    && a.path == Curve(CubicHermiteSpline.HermiteSegments(parts.vertices, parts.tangents, parts.grid,
                                                          CubicHermiteSpline.HermiteSegmentVec), parts.grid)
    && (forall i :: 0 <= i < |parts.vertices| ==> EvaluateVec(a.path, parts.grid[i]) == parts.vertices[i])
  }

  /** The constructor: the initializer, the path, `t2s`, the time grid and
      the arc-length grid, in this order; the first that throws decides
      the exception. The composer never hands the path or `t2s` mismatched
      counts or decreasing lengths, so only the input can make it fail. */
  method New(num: Numerics, data: seq<AsdfVertex>)
    returns (r: Result<Asdf>, ghost parts: KB.Parts, ghost solved: seq<real>)
    requires Sound(num)
    ensures InitializerError(data).Some? ==> r == Failure(InitializerError(data).value)
    ensures InitializerError(data).None? ==>
      var closed := IsClosed(data);
      var e := KB.InitError(num, Points(data, |data|), Tcbs(data, closed, |data|), closed);
      e.Some? ==> r == Failure(e.value)
    ensures r.Failure? ==>
      r.error !in {TcbCountMismatch, TangentCountMismatch, GridSizeMismatch, TooFewValues,
                   GridCountMismatch, SlopeCountMismatch, ValuesNotIncreasing}
    ensures InitializerError(data).None? &&
            KB.InitError(num, Points(data, |data|), Tcbs(data, IsClosed(data), |data|), IsClosed(data)).None? ==>
      && CubicHermiteSpline.ValidInput(parts.vertices, parts.tangents, parts.grid)
      && var path := Curve(CubicHermiteSpline.HermiteSegments(parts.vertices, parts.tangents, parts.grid,
                                                              CubicHermiteSpline.HermiteSegmentVec), parts.grid);
         && WellFormed(path) && |path.grid| == |data|
         && (r.Failure? <==> TimePathError(num, data, path).Some?)
         && (r.Failure? ==> r.error == TimePathError(num, data, path).value)
    ensures r.Success? ==> Composed(num, data, r.value, parts, solved)
  {
    parts, solved := KB.Parts([], [], []), [];
    var maybeInit := Initialize(data);
    if maybeInit.Failure? {
      if 2 <= |data| {
        ErrorKinds(data, IsClosed(data), |data|);
      }
      return Failure(maybeInit.error), parts, solved;
    }
    var init := maybeInit.value;
    PathInputFits(num, data);
    var path;
    path, parts := KB.New(num, init.vertices, init.tcb, init.closed);
    if path.Failure? {
      return Failure(path.error), parts, solved;
    }
    InitializedVertices(data);
    assert CubicHermiteSpline.ValidInput(parts.vertices, parts.tangents, parts.grid);
    r, solved := TimePath(num, data, init, path.value);
  }

  /** What `t2s` is once made: a monotone spline through the path's arc
      length at each vertex with a time, over those times, and the
      shape-preserving spline of those arc lengths with each given speed
      kept as its slope. */
  ghost predicate IsTimeToLength(num: Numerics, data: seq<AsdfVertex>, path: Curve<Vec>, t2s: Monotone.MonotoneSpline)
    requires WellFormed(path) && |path.grid| == |data|
  {
    && Monotone.IsMonotone(t2s)
    && t2s.values == Kept(data, Arcs(num, path), |data|, true)
    && t2s.curve.grid == Kept(data, TimeTable(data), |data|, true)
    && SP.IsCurveOf(t2s.values, Kept(data, SpeedTable(data), |data|, true), t2s.curve.grid, t2s.curve)
  }

  /** The exception `_t2s` throws, if any: the `MonotoneCubicSpline`
      constructor's for the arc lengths, speeds and times of the vertices
      with a time. */
  function T2sError(num: Numerics, data: seq<AsdfVertex>, path: Curve<Vec>): Option<Error>
    requires WellFormed(path) && |path.grid| == |data|
  {
    var n := |data|;
    Monotone.MonotoneError(Kept(data, Arcs(num, path), n, true), Kept(data, SpeedTable(data), n, true),
                           Kept(data, TimeTable(data), n, true))
  }

  /** `get_grid` throws: the arc length at some vertex without a time is
      shared by two vertices with a time, a plateau of `t2s`. */
  ghost predicate MissingOnPlateau(num: Numerics, data: seq<AsdfVertex>, path: Curve<Vec>)
    requires WellFormed(path) && |path.grid| == |data|
  {
    var n := |data|;
    var atMissing := Kept(data, Arcs(num, path), n, false);
    exists p :: 0 <= p < |atMissing| && Monotone.Plateau(Kept(data, Arcs(num, path), n, true), atMissing[p])
  }

  /** The exception the constructor throws once the path exists: `_t2s`'s,
      else `get_grid`'s. */
  ghost function TimePathError(num: Numerics, data: seq<AsdfVertex>, path: Curve<Vec>): Option<Error>
    requires WellFormed(path) && |path.grid| == |data|
  {
    if T2sError(num, data, path).Some? then T2sError(num, data, path)
    else if MissingOnPlateau(num, data, path) then Some(DuplicateVertexWithoutTime)
    else None
  }

  /** The constructor once the path exists: `t2s` from the initializer's
      arguments, then the time grid, then the arc-length grid. It fails
      only for times that do not ascend, a speed too steep for `t2s`, or a
      vertex without a time on a plateau of `t2s`. */
  method TimePath(num: Numerics, ghost data: seq<AsdfVertex>, init: Initializer, path: Curve<Vec>)
    returns (r: Result<Asdf>, ghost solved: seq<real>)
    requires Sound(num)
    requires init.data == data && init.Collected() && init.lengthsAtMissingTimes == []
    requires WellFormed(path) && |path.grid| == |data|
    modifies init`lengthsAtMissingTimes, init`times
    ensures r.Failure? <==> TimePathError(num, data, path).Some?
    ensures r.Failure? ==> r.error == TimePathError(num, data, path).value
    ensures r.Failure? ==> r.error in {GridNotAscending, SlopeTooSteep, DuplicateVertexWithoutTime}
    ensures r.Success? ==> r.value.path == path && Timed(num, data, r.value, solved)
  {
    solved := [];
    var t2s := TimeToLength(num, data, init, path);
    if t2s.Failure? {
      return Failure(t2s.error), solved;
    }
    ghost var lengthsAtMissing := init.lengthsAtMissingTimes;
    var grid;
    grid, solved := init.GetGrid(t2s.value);
    TimePathErrorOf(num, data, path, t2s.value.values, lengthsAtMissing, |init.missingTimes|, grid.Failure?);
    if grid.Failure? {
      return Failure(grid.error), solved;
    }
    var sGrid := ArcLengthGrid(t2s.value, grid.value);
    r := Success(Asdf(path, t2s.value, grid.value, sGrid));
    TimedParts(num, data, r.value, lengthsAtMissing, solved);
  }

  /** Once `t2s` is made, the constructor throws exactly when `get_grid`
      finds a missing arc length on a plateau of the timed ones. */
  lemma {:induction false} TimePathErrorOf(num: Numerics, data: seq<AsdfVertex>, path: Curve<Vec>,
                                           values: seq<real>, atMissing: seq<real>, m: nat, plateau: bool)
    requires WellFormed(path) && |path.grid| == |data| && T2sError(num, data, path).None?
    requires values == Kept(data, Arcs(num, path), |data|, true)
    requires atMissing == Kept(data, Arcs(num, path), |data|, false) && m == |atMissing|
    requires plateau <==> exists p :: 0 <= p < m && Monotone.Plateau(values, atMissing[p])
    ensures TimePathError(num, data, path) == if plateau then Some(DuplicateVertexWithoutTime) else None
  {
    assert plateau <==> MissingOnPlateau(num, data, path);
  }

  /** The pieces the constructor has made fit together as `Timed` says. */
  lemma {:induction false} TimedParts(num: Numerics, data: seq<AsdfVertex>, a: Asdf, lengthsAtMissing: seq<real>, solved: seq<real>)
    requires InitializerError(data).None?
    requires WellFormed(a.path) && |a.path.grid| == |data| && IsTimeToLength(num, data, a.path, a.t2s)
    requires lengthsAtMissing == Kept(data, Arcs(num, a.path), |data|, false)
    requires |solved| == Count(data, |data|, false)
    requires TimeGrid(data, solved, a.grid) && SolvedTimes(a.t2s, lengthsAtMissing, solved)
    requires |a.sGrid| == |a.grid|
    requires forall j :: 0 <= j < |a.grid| ==> a.sGrid[j] == PiecewiseCubicCurve.Evaluate(a.t2s.curve, a.grid[j])
    ensures Timed(num, data, a, solved)
  {
    SampledParts(data, a, solved);
  }

  /** The grid with the solved times inserted starts and ends where `t2s`
      does, so the arc-length grid samples it as `Sampled` says. */
  lemma {:induction false} SampledParts(data: seq<AsdfVertex>, a: Asdf, solved: seq<real>)
    requires InitializerError(data).None?
    requires WellFormed(a.t2s.curve) && a.t2s.curve.grid == Kept(data, TimeTable(data), |data|, true)
    requires TimeGrid(data, solved, a.grid) && |a.sGrid| == |a.grid|
    requires forall j :: 0 <= j < |a.grid| ==> a.sGrid[j] == PiecewiseCubicCurve.Evaluate(a.t2s.curve, a.grid[j])
    ensures Sampled(a)
  {
    GridEnds(data, solved, a.grid);
  }

  /** A speed given at a vertex is the speed `t2s` has at that vertex's
      time: the vertex has a time (a speed without one throws), so its arc
      length and speed go to `t2s` together, and the shape-preserving
      spline keeps a given slope or throws. */
  lemma {:induction false} GivenSpeedKept(num: Numerics, data: seq<AsdfVertex>, a: Asdf, solved: seq<real>, j: nat)
    requires InitializerError(data).None? && Timed(num, data, a, solved)
    requires j < |data| && data[j].speed.Some?
    ensures j < |a.grid| && PiecewiseCubicCurve.EvaluateVelocity(a.t2s.curve, a.grid[j]) == data[j].speed.value
  {
    SpeedAtTime(data, a.t2s.values, a.t2s.curve, solved, a.grid, j);
  }

  /** `GivenSpeedKept` on the parts of `Timed` it needs. */
  lemma {:induction false} SpeedAtTime(data: seq<AsdfVertex>, values: seq<real>, c: Curve<real>, solved: seq<real>, grid: seq<real>, j: nat)
    requires InitializerError(data).None? && j < |data| && data[j].speed.Some?
    requires c.grid == Kept(data, TimeTable(data), |data|, true)
    requires SP.IsCurveOf(values, Kept(data, SpeedTable(data), |data|, true), c.grid, c)
    requires TimeGrid(data, solved, grid)
    ensures j < |grid| && PiecewiseCubicCurve.EvaluateVelocity(c, grid[j]) == data[j].speed.value
  {
    var n := |data|;
    NoErrorAt(data, IsClosed(data), n, j);
    assert KnownTime(data, j).Some?;
    KeptAt(data, SpeedTable(data), j, true);
    KeptAt(data, TimeTable(data), j, true);
    GridKeepsTimes(data, solved, grid);
    assert grid[j] == TimeTable(data)[j];
    SP.GivenSlopeKept(values, Kept(data, SpeedTable(data), n, true), c.grid, c, Count(data, j, true));
  }

  /** The spline from time to arc length (`_t2s`), built from the
      initializer's arguments: through the arc length at every vertex with
      a time, at that time. It fails only for times that do not ascend or
      a speed too steep. */
  method TimeToLength(num: Numerics, ghost data: seq<AsdfVertex>, init: Initializer, path: Curve<Vec>)
    returns (r: Result<Monotone.MonotoneSpline>)
    requires Sound(num)
    requires init.data == data && init.Collected() && init.lengthsAtMissingTimes == []
    requires WellFormed(path) && |path.grid| == |data|
    modifies init`lengthsAtMissingTimes
    ensures r.Failure? <==> T2sError(num, data, path).Some?
    ensures r.Failure? ==> r.error == T2sError(num, data, path).value
    ensures r.Failure? ==> r.error in {GridNotAscending, SlopeTooSteep}
    ensures init.lengthsAtMissingTimes == Kept(data, Arcs(num, path), |data|, false)
    ensures r.Success? ==> IsTimeToLength(num, data, path, r.value)
  {
    var lengths, speeds, times := init.GetT2sArguments(num, path);
    T2sArgumentsFit(num, data, path);
    var t2s, t2sParts := Monotone.New(lengths, speeds, times);
    if t2s.Failure? {
      return Failure(t2s.error);
    }
    SP.CurveOfParts(lengths, speeds, times, t2sParts, t2s.value.curve);
    return Success(t2s.value);
  }

  /** The arc length `t2s` reaches at each time of the grid (the
      `std::transform` filling `_s_grid`). */
  method ArcLengthGrid(t2s: Monotone.MonotoneSpline, grid: seq<real>) returns (sGrid: seq<real>)
    requires WellFormed(t2s.curve)
    ensures |sGrid| == |grid|
    ensures forall j :: 0 <= j < |grid| ==> sGrid[j] == PiecewiseCubicCurve.Evaluate(t2s.curve, grid[j])
  {
    sGrid := [];
    var j := 0;
    while j < |grid|
      invariant j <= |grid| && |sGrid| == j
      invariant forall q :: 0 <= q < j ==> sGrid[q] == PiecewiseCubicCurve.Evaluate(t2s.curve, grid[q])
    {
      sGrid := sGrid + [PiecewiseCubicCurve.Evaluate(t2s.curve, grid[j])];
      j := j + 1;
    }
  }

  /** At a vertex with a given time, the arc-length grid holds the length
      of the path up to that vertex: `t2s` passes through it there. */
  lemma ArcLengthAtTimedVertex(num: Numerics, data: seq<AsdfVertex>, a: Asdf, solved: seq<real>, j: nat)
    requires Timed(num, data, a, solved)
    requires j < |data| && KnownTime(data, j).Some?
    ensures a.sGrid[j] == Arc(num, a.path, j)
  {
    var n, tt, arcs := |data|, TimeTable(data), Arcs(num, a.path);
    var c, q := a.t2s.curve, Count(data, j, true);
    assert TimeAt(data, solved, j, a.grid[j]);
    KeptAt(data, tt, j, true);
    KeptAt(data, arcs, j, true);
    assert c.grid[q] == a.grid[j];
    assert a.t2s.values[q] == Arc(num, a.path, j);
    AtGridPointOfMonotone(a.t2s, q);
  }

  /** A monotone spline takes its values at its grid points. */
  lemma AtGridPointOfMonotone(m: Monotone.MonotoneSpline, q: nat)
    requires Monotone.ThroughSortedValues(m) && q < |m.curve.grid|
    ensures PiecewiseCubicCurve.Evaluate(m.curve, m.curve.grid[q]) == m.values[q]
  {
    EvaluateAtGridPoint(m.curve, q);
    if q < |m.curve.segments| {
      assert Horner(m.curve.segments[q], 0.0) == m.values[q];
    } else {
      assert Horner(m.curve.segments[q - 1], 1.0) == m.values[q];
    }
  }

  /** The path starts at the first vertex and ends at the last one, or
      back at the first for a closed curve. */
  lemma {:induction false} PathEnds(num: Numerics, data: seq<AsdfVertex>, a: Asdf, parts: KB.Parts, solved: seq<real>)
    requires Composed(num, data, a, parts, solved)
    ensures data[0].position.Point?
    ensures EvaluateVec(a.path, First(a.path.grid)) == data[0].position.point
    ensures IsClosed(data) ==> EvaluateVec(a.path, Last(a.path.grid)) == data[0].position.point
    ensures !IsClosed(data) ==>
      data[|data| - 1].position.Point? && EvaluateVec(a.path, Last(a.path.grid)) == data[|data| - 1].position.point
  {
    PathThroughEnds(num, data, a.path, parts);
  }

  /** `PathEnds` for a path that passes through the vertices of a
      Kochanek-Bartels spline over the initializer's points. */
  lemma {:induction false} PathThroughEnds(num: Numerics, data: seq<AsdfVertex>, path: Curve<Vec>, parts: KB.Parts)
    requires InitializerError(data).None?
    requires KB.IsKochanekBartels(num, Points(data, |data|), Tcbs(data, IsClosed(data), |data|), IsClosed(data), parts)
    requires path == Curve(CubicHermiteSpline.HermiteSegments(parts.vertices, parts.tangents, parts.grid,
                                                              CubicHermiteSpline.HermiteSegmentVec), parts.grid)
    requires WellFormed(path)
    requires forall i :: 0 <= i < |parts.vertices| ==> EvaluateVec(path, parts.grid[i]) == parts.vertices[i]
    ensures data[0].position.Point?
    ensures EvaluateVec(path, First(path.grid)) == data[0].position.point
    ensures IsClosed(data) ==> EvaluateVec(path, Last(path.grid)) == data[0].position.point
    ensures !IsClosed(data) ==>
      data[|data| - 1].position.Point? && EvaluateVec(path, Last(path.grid)) == data[|data| - 1].position.point
  {
    InitializedVertices(data);
    var m := |parts.vertices| - 1;
    assert EvaluateVec(path, parts.grid[0]) == parts.vertices[0];
    assert EvaluateVec(path, parts.grid[m]) == parts.vertices[m];
  }

  // ----- from arc length to path parameter -----

  /** The arc length of segment `k` of the path from its start to `u`. */
  function ArcWithin(num: Numerics, c: Curve<Vec>, k: nat, u: real): real
    requires WellFormed(c) && k < |c.segments| && c.grid[k] <= u <= c.grid[k + 1]
  {
    SegmentLengthBetween(num, c, k, c.grid[k], u)
  }

  /** What `_s2u` promises about the parameter `u` for arc length `s`:
      clipped to the first or last path time outside the arc-length grid,
      and otherwise inside the path segment whose arc-length bracket
      (found by `std::upper_bound`) contains `s`. */
  ghost predicate ArcParameter(a: Asdf, s: real, u: real)
    requires WellFormed(a.path) && |a.sGrid| == |a.path.grid|
  {
    && (s <= First(a.sGrid) ==> u == First(a.path.grid))
    && (First(a.sGrid) < s && Last(a.sGrid) <= s ==> u == Last(a.path.grid))
    && (First(a.sGrid) < s < Last(a.sGrid) ==>
          var k := UpperBound(a.sGrid, s) - 1;
          && a.sGrid[k] <= s < a.sGrid[k + 1]
          && a.path.grid[k] <= u <= a.path.grid[k + 1])
  }

  /** The outcome of `bisect` for the arc length `target` inside segment
      `k`, case by case as `bisect` takes them (with `d0`, `d1` the arc
      length at the segment's ends minus `target`): an end where the
      target is met exactly; without a crossing, the end closer to the
      target; with a strict crossing, an exact solution or the closer end
      of a bracket over which the arc length crosses `target`, at most
      0.0001 wide or halved 48 times. */
  ghost predicate ArcSolved(num: Numerics, c: Curve<Vec>, k: nat, target: real, u: real, lo: real, hi: real)
    requires WellFormed(c) && k < |c.segments|
  {
    var u0, u1 := c.grid[k], c.grid[k + 1];
    var d0, d1 := ArcWithin(num, c, k, u0) - target, ArcWithin(num, c, k, u1) - target;
    && u0 <= u <= u1
    && (d0 == 0.0 ==> u == u0)
    && (d0 != 0.0 && d1 == 0.0 ==> u == u1)
    && ((d0 < 0.0 && d1 < 0.0) || (0.0 < d0 && 0.0 < d1) ==> u == Bisection.Closer(u0, u1, d0, d1))
    && ((d0 < 0.0 < d1) || (d1 < 0.0 < d0) ==>
          || ArcWithin(num, c, k, u) == target
          || (&& u0 <= lo < hi <= u1
              && Monotone.Between(target, ArcWithin(num, c, k, lo), ArcWithin(num, c, k, hi))
              && u == Bisection.Closer(lo, hi, ArcWithin(num, c, k, lo) - target, ArcWithin(num, c, k, hi) - target)
              && (hi - lo <= 0.0001 || hi - lo == Bisection.HalvedWidth(u1 - u0, 48))))
  }

  /** Strictly inside the arc-length grid, `u` is the bisection's answer
      for the arc length `s` within the segment `std::upper_bound` finds. */
  ghost predicate SolvedInSegment(num: Numerics, a: Asdf, s: real, u: real, index: nat, lo: real, hi: real)
    requires WellFormed(a.path) && |a.sGrid| == |a.path.grid|
  {
    First(a.sGrid) < s < Last(a.sGrid) ==>
      && index == UpperBound(a.sGrid, s) - 1
      && index < |a.path.segments|
      && ArcSolved(num, a.path, index, s - a.sGrid[index], u, lo, hi)
  }

  /** `_s2u`: the path parameter at which the path has travelled the arc
      length `s`, clipped at both ends. */
  method S2u(num: Numerics, a: Asdf, s: real) returns (u: real, ghost index: nat, ghost lo: real, ghost hi: real)
    requires WellFormed(a.path) && |a.sGrid| == |a.path.grid|
    ensures ArcParameter(a, s, u)
    ensures SolvedInSegment(num, a, s, u, index, lo, hi)
  {
    index, lo, hi := 0, 0.0, 0.0;
    var k;
    if s <= a.sGrid[0] {
      return a.path.grid[0], index, lo, hi;
    } else if s < a.sGrid[|a.sGrid| - 1] {
      k := UpperBound(a.sGrid, s) - 1;
    } else {
      return a.path.grid[|a.path.grid| - 1], index, lo, hi;
    }
    index := k;
    u, lo, hi := SolveArcLength(num, a.path, k, s - a.sGrid[k]);
    InnerParameter(num, a, s, u, index, lo, hi);
  }

  /** Strictly inside the arc-length grid, the segment `std::upper_bound`
      finds is a segment of the path, and a parameter solved within it
      meets what `_s2u` promises. */
  lemma InnerParameter(num: Numerics, a: Asdf, s: real, u: real, index: nat, lo: real, hi: real)
    requires WellFormed(a.path) && |a.sGrid| == |a.path.grid|
    requires First(a.sGrid) < s < Last(a.sGrid) && index == UpperBound(a.sGrid, s) - 1
    requires index < |a.path.segments| && ArcSolved(num, a.path, index, s - a.sGrid[index], u, lo, hi)
    ensures ArcParameter(a, s, u)
    ensures SolvedInSegment(num, a, s, u, index, lo, hi)
  {
  }

  /** The bisection of `_s2u` inside one segment: tolerance 0.0001, at most
      50 evaluations of the arc length. */
  method SolveArcLength(num: Numerics, c: Curve<Vec>, k: nat, target: real)
    returns (u: real, ghost lo: real, ghost hi: real)
    requires WellFormed(c) && k < |c.segments|
    ensures ArcSolved(num, c, k, target, u, lo, hi)
  {
    var u0, u1 := c.grid[k], c.grid[k + 1];
    var f := x requires u0 <= x <= u1 => SegmentLengthBetween(num, c, k, u0, x) - target;
    ghost var calls;
    u, calls, lo, hi := Bisection.Bisect(f, u0, u1, 0.0001, 50);
    assert f(u0) == ArcWithin(num, c, k, u0) - target;
    assert f(u1) == ArcWithin(num, c, k, u1) - target;
    assert f(u) == ArcWithin(num, c, k, u) - target;
    Bisection.OppositeSigns(f(u0), f(u1));
    if f(u0) != 0.0 && f(u1) != 0.0 {
      NonZeroProduct(f(u0), f(u1));
      if f(u0) * f(u1) < 0.0 && f(u) != 0.0 {
        assert f(lo) == ArcWithin(num, c, k, lo) - target;
        assert f(hi) == ArcWithin(num, c, k, hi) - target;
        Bisection.OppositeSigns(f(lo), f(hi));
      }
    }
  }

  /** A product of two non-zero numbers is not zero. */
  lemma NonZeroProduct(a: real, b: real)
    requires a != 0.0 && b != 0.0
    ensures a * b != 0.0
  {
    Bisection.OppositeSigns(a, b);
    if 0.0 < a && 0.0 < b {
      assert 0.0 < a * b;
    } else if a < 0.0 && b < 0.0 {
      assert 0.0 < a * b;
    }
  }

  // ----- queries -----

  /** At or before the first time the parameter `_s2u` gives for `t2s(t)`
      is the path's first time; at or after the last time it is the
      path's last time, unless the whole path has length zero. */
  lemma ParameterEnds(a: Asdf, t: real, u: real)
    requires Sampled(a) && WellFormed(a.path) && |a.sGrid| == |a.path.grid|
    requires ArcParameter(a, PiecewiseCubicCurve.Evaluate(a.t2s.curve, t), u)
    ensures t <= First(a.grid) ==> u == First(a.path.grid)
    ensures Last(a.grid) <= t && First(a.sGrid) < Last(a.sGrid) ==> u == Last(a.path.grid)
  {
    ArcLengthEnds(a, t);
  }

  /** At or before the first time `t2s` is at the first arc length, at or
      after the last time at the last. */
  lemma ArcLengthEnds(a: Asdf, t: real)
    requires Sampled(a)
    ensures t <= First(a.grid) ==> PiecewiseCubicCurve.Evaluate(a.t2s.curve, t) == First(a.sGrid)
    ensures Last(a.grid) <= t ==> PiecewiseCubicCurve.Evaluate(a.t2s.curve, t) == Last(a.sGrid)
  {
    var c, n := a.t2s.curve, |a.grid|;
    assert a.sGrid[0] == PiecewiseCubicCurve.Evaluate(c, a.grid[0]);
    assert a.sGrid[n - 1] == PiecewiseCubicCurve.Evaluate(c, a.grid[n - 1]);
    if t < First(c.grid) || Last(c.grid) < t {
      EvaluateClamps(c, t);
    }
  }

  /** `evaluate`: the path position at the parameter reached after the arc
      length `t2s` gives for `t`. Before the first time the spline rests
      at the start of the path, after the last at its end (when the path
      has positive length). */
  method Evaluate(num: Numerics, a: Asdf, t: real)
    returns (r: Vec, ghost u: real, ghost index: nat, ghost lo: real, ghost hi: real)
    requires Valid(a)
    ensures ArcParameter(a, PiecewiseCubicCurve.Evaluate(a.t2s.curve, t), u)
    ensures SolvedInSegment(num, a, PiecewiseCubicCurve.Evaluate(a.t2s.curve, t), u, index, lo, hi)
    ensures r == EvaluateVec(a.path, u)
    ensures t <= First(a.grid) ==> u == First(a.path.grid)
    ensures Last(a.grid) <= t && First(a.sGrid) < Last(a.sGrid) ==> u == Last(a.path.grid)
  {
    var s := PiecewiseCubicCurve.Evaluate(a.t2s.curve, t);
    var param;
    param, index, lo, hi := S2u(num, a, s);
    u := param;
    r := EvaluateVec(a.path, param);
    ParameterEnds(a, t, u);
  }

  /** The direction of a path tangent: scaled to unit length unless its
      length is zero. */
  function Direction(num: Numerics, v: Vec): Vec
  {
    if num.length(v) != 0.0 then Div(v, num.length(v)) else v
  }

  /** `evaluate_velocity`: the speed of `t2s` at `t` along the direction
      of the path tangent at the parameter `evaluate` uses. */
  method EvaluateVelocity(num: Numerics, a: Asdf, t: real)
    returns (r: Vec, ghost u: real, ghost index: nat, ghost lo: real, ghost hi: real)
    requires Valid(a)
    ensures ArcParameter(a, PiecewiseCubicCurve.Evaluate(a.t2s.curve, t), u)
    ensures SolvedInSegment(num, a, PiecewiseCubicCurve.Evaluate(a.t2s.curve, t), u, index, lo, hi)
    ensures r == Scale(PiecewiseCubicCurve.EvaluateVelocity(a.t2s.curve, t),
                       Direction(num, EvaluateVelocityVec(a.path, u)))
  {
    var speed := PiecewiseCubicCurve.EvaluateVelocity(a.t2s.curve, t);
    var s := PiecewiseCubicCurve.Evaluate(a.t2s.curve, t);
    var param;
    param, index, lo, hi := S2u(num, a, s);
    u := param;
    var tangent := EvaluateVelocityVec(a.path, param);
    r := Scale(speed, Direction(num, tangent));
  }

  /** The length function scales with the absolute value of a factor, as
      the Euclidean length does. */
  ghost predicate Homogeneous(num: Numerics)
  {
    forall c: real, v: Vec :: num.length(Scale(c, v)) == Bisection.Abs(c) * num.length(v)
  }

  /** With a homogeneous length, the velocity has the length of the
      `t2s` speed wherever the path tangent has non-zero length, and
      length zero where it has none. */
  lemma VelocityHasSpeed(num: Numerics, speed: real, v: Vec)
    requires Homogeneous(num) && 0.0 <= num.length(v)
    ensures num.length(Scale(speed, Direction(num, v))) ==
      if num.length(v) == 0.0 then 0.0 else Bisection.Abs(speed)
  {
    var len := num.length(v);
    if len != 0.0 {
      ScaledQuotient(speed, v, len);
      assert num.length(Scale(speed / len, v)) == Bisection.Abs(speed / len) * len;
      AbsQuotient(speed, len);
    } else {
      assert num.length(Scale(speed, v)) == Bisection.Abs(speed) * len;
    }
  }

  /** Scaling a vector divided by `d` is scaling it by the quotient. */
  lemma ScaledQuotient(c: real, v: Vec, d: real)
    requires d != 0.0
    ensures Scale(c, Div(v, d)) == Scale(c / d, v)
  {
    assert c * (v.x / d) == (c / d) * v.x;
    assert c * (v.y / d) == (c / d) * v.y;
    assert c * (v.z / d) == (c / d) * v.z;
  }

  /** Dividing by a positive number and multiplying back keeps the
      absolute value. */
  lemma AbsQuotient(a: real, d: real)
    requires 0.0 < d
    ensures Bisection.Abs(a / d) * d == Bisection.Abs(a)
  {
    if a < 0.0 {
      assert a / d < 0.0;
      assert Bisection.Abs(a / d) * d == -(a / d) * d == -a;
    } else {
      assert 0.0 <= a / d;
    }
  }

  /** The spline stands still where `t2s` has zero speed or the path
      tangent is the zero vector. */
  lemma Standstill(num: Numerics, speed: real, v: Vec)
    requires Sound(num)
    requires speed == 0.0 || v == Zero
    ensures Scale(speed, Direction(num, v)) == Zero
  {
  }
}
