/** The two standard-library searches the splines use on sorted grids and
    values: `std::upper_bound` and `std::lower_bound` (together they make
    `std::equal_range`). Each is defined as "the first index whose element
    is greater than (resp. not less than) x", which is what the library
    returns on a sorted range. */
module Search {

  /** Non-decreasing, as `std::is_sorted` checks it. */
  predicate Sorted(s: seq<real>)
  {
    forall i :: 0 <= i < |s| - 1 ==> s[i] <= s[i + 1]
  }

  /** Strictly ascending neighbours, as the grid check of the Hermite
      builder (`std::adjacent_find` with `greater_equal`) demands. */
  predicate Ascending(s: seq<real>)
  {
    forall i :: 0 <= i < |s| - 1 ==> s[i] < s[i + 1]
  }

  lemma {:induction false} SortedPairwise(s: seq<real>, i: int, j: int)
    requires Sorted(s)
    requires 0 <= i <= j < |s|
    ensures s[i] <= s[j]
    decreases j - i
  {
    if i < j {
      SortedPairwise(s, i + 1, j);
    }
  }

  lemma {:induction false} AscendingPairwise(s: seq<real>, i: int, j: int)
    requires Ascending(s)
    requires 0 <= i < j < |s|
    ensures s[i] < s[j]
    decreases j - i
  {
    if i + 1 < j {
      AscendingPairwise(s, i + 1, j);
    }
  }

  /** `std::upper_bound(s, x) - begin`: the first index holding an element
      greater than `x`, or `|s|`. */
  function UpperBound(s: seq<real>, x: real): (k: nat)
    ensures k <= |s|
    ensures forall j :: 0 <= j < k ==> s[j] <= x
    ensures k < |s| ==> x < s[k]
  {
    if s == [] || x < s[0] then 0 else 1 + UpperBound(s[1..], x)
  }

  /** `std::lower_bound(s, x) - begin`: the first index holding an element
      not less than `x`, or `|s|`. */
  function LowerBound(s: seq<real>, x: real): (k: nat)
    ensures k <= |s|
    ensures forall j :: 0 <= j < k ==> s[j] < x
    ensures k < |s| ==> x <= s[k]
  {
    if s == [] || x <= s[0] then 0 else 1 + LowerBound(s[1..], x)
  }

  /** On a sorted sequence the elements equal to `x` are exactly those
      between the lower and the upper bound. */
  lemma EqualRange(s: seq<real>, x: real, j: int)
    requires Sorted(s)
    requires 0 <= j < |s|
    ensures LowerBound(s, x) <= UpperBound(s, x)
    ensures s[j] == x <==> LowerBound(s, x) <= j < UpperBound(s, x)
  {
    var lb, ub := LowerBound(s, x), UpperBound(s, x);
    if j < lb {
      assert s[j] < x;
    } else if ub <= j {
      SortedPairwise(s, ub, j);
    } else {
      assert x <= s[lb];
      SortedPairwise(s, lb, j);
    }
  }

  /** In a strictly ascending sequence the upper bound of an element is the
      index just after it. */
  lemma UpperBoundOfElement(s: seq<real>, i: int)
    requires Ascending(s)
    requires 0 <= i < |s|
    ensures UpperBound(s, s[i]) == i + 1
  {
    var k := UpperBound(s, s[i]);
    if k <= i {
      assert s[i] < s[k];
      if k < i {
        AscendingPairwise(s, k, i);
      }
    }
  }
}
