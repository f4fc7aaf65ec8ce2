/** Bracketed bisection root finder (include/bisect.hpp). */
module Bisection {

  function Abs(x: real): real
  {
    if x < 0.0 then -x else x
  }

  /** The width of a bracket of width `w` after `k` halvings. */
  function HalvedWidth(w: real, k: nat): real
  {
    if k == 0 then w else HalvedWidth(w, k - 1) / 2.0
  }

  /** The fallback choice: the endpoint whose function value is strictly
      closer to zero, a tie going to the upper endpoint. */
  function Closer(lo: real, hi: real, flo: real, fhi: real): real
  {
    if Abs(flo) < Abs(fhi) then lo else hi
  }

  /** Signs are opposite exactly when the product is negative. */
  lemma OppositeSigns(a: real, b: real)
    ensures a * b < 0.0 <==> (a < 0.0 && 0.0 < b) || (0.0 < a && b < 0.0)
  {
    if a < 0.0 && 0.0 < b {
      assert a * b < 0.0 * b;
    } else if 0.0 < a && b < 0.0 {
      assert a * b < a * 0.0;
    } else if a < 0.0 && b < 0.0 {
      assert a * b > 0.0 * b;
    } else if 0.0 < a && 0.0 < b {
      assert a * b > 0.0 * b;
    }
  }

  /** Searches `[xmin, xmax]` for a root of `f`, evaluating `f` at most
      `maxCalls` times. `calls` counts the evaluations; when the endpoints
      straddle zero, `[lo, hi]` is the final bracket. */
  method Bisect(f: real --> real, xmin: real, xmax: real, xtol: real, maxCalls: nat)
    returns (r: real, ghost calls: nat, ghost lo: real, ghost hi: real)
    requires xmin <= xmax
    requires 2 <= maxCalls
    requires forall x :: xmin <= x <= xmax ==> f.requires(x)
    ensures xmin <= r <= xmax
    ensures 1 <= calls <= maxCalls
    // an exact root at an endpoint is returned before anything else is evaluated
    ensures f(xmin) == 0.0 ==> r == xmin && calls == 1
    ensures f(xmin) != 0.0 && f(xmax) == 0.0 ==> r == xmax && calls == 2
    // no sign change: no bisection, the closer endpoint is the answer
    ensures 0.0 < f(xmin) * f(xmax) ==> r == Closer(xmin, xmax, f(xmin), f(xmax)) && calls == 2
    // sign change: an exact root, or the closer end of a halved sign-change bracket
    // that is narrow enough or used up the budget
    ensures f(xmin) * f(xmax) < 0.0 ==>
      || f(r) == 0.0
      || (&& 2 <= calls
          && xmin <= lo < hi <= xmax
          && f(lo) * f(hi) < 0.0
          && r == Closer(lo, hi, f(lo), f(hi))
          && hi - lo == HalvedWidth(xmax - xmin, calls - 2)
          && (hi - lo <= xtol || calls == maxCalls))
  {
    var x0, x1 := xmin, xmax;
    var n: nat := 0;  // evaluations of f so far
    lo, hi := xmin, xmax;
    var fmin := f(x0);
    n := n + 1;
    if fmin == 0.0 {
      return x0, n, lo, hi;
    }
    var fmax := f(x1);
    n := n + 1;
    if fmax == 0.0 {
      return x1, n, lo, hi;
    }

    if fmin * fmax < 0.0 {
      OppositeSigns(fmin, fmax);
      var found;
      found, x0, x1, fmin, fmax, n := Narrow(f, xmin, xmax, xtol, maxCalls);
      if found {
        return x0, n, lo, hi;
      }
      OppositeSigns(fmin, fmax);
    }
    lo, hi := x0, x1;
    calls := n;
    r := if Abs(fmin) < Abs(fmax) then x0 else x1;
  }

  /** The bisection loop of `bisect`: halves the sign-change bracket
      `[x0, x1]` until it is at most `xtol` wide or `maxCalls` evaluations
      are used up. `found` reports an exact root, returned in `x0`. */
  method Narrow(f: real --> real, xmin: real, xmax: real, xtol: real, maxCalls: nat)
    returns (found: bool, x0: real, x1: real, fmin: real, fmax: real, n: nat)
    requires xmin < xmax
    requires 2 <= maxCalls
    requires forall x :: xmin <= x <= xmax ==> f.requires(x)
    requires (f(xmin) < 0.0 && 0.0 < f(xmax)) || (0.0 < f(xmin) && f(xmax) < 0.0)
    ensures 2 <= n <= maxCalls
    ensures found ==> xmin <= x0 <= xmax && f(x0) == 0.0
    ensures !found ==>
      && xmin <= x0 < x1 <= xmax
      && fmin == f(x0) && fmax == f(x1)
      && ((fmin < 0.0 && 0.0 < fmax) || (0.0 < fmin && fmax < 0.0))
      && x1 - x0 == HalvedWidth(xmax - xmin, n - 2)
      && (x1 - x0 <= xtol || n == maxCalls)
  {
    x0, x1 := xmin, xmax;
    fmin, fmax := f(x0), f(x1);
    n := 2;
    while maxCalls - n > 0 && x1 - x0 > xtol
      invariant 2 <= n <= maxCalls
      invariant xmin <= x0 < x1 <= xmax
      invariant fmin == f(x0) && fmax == f(x1)
      invariant (fmin < 0.0 && 0.0 < fmax) || (0.0 < fmin && fmax < 0.0)
      invariant x1 - x0 == HalvedWidth(xmax - xmin, n - 2)
      decreases maxCalls - n
    {
      var xmid := (x0 + x1) / 2.0;
      var fmid := f(xmid);
      n := n + 1;
      if fmid == 0.0 {
        return true, xmid, x1, fmin, fmax, n;
      }
      OppositeSigns(fmin, fmid);
      if fmin * fmid < 0.0 {
        x1 := xmid;
        fmax := fmid;
      } else {
        x0 := xmid;
        fmin := fmid;
      }
      OppositeSigns(fmin, fmax);
    }
    found := false;
  }
}
