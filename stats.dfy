/**
 * Elementary numeric helpers over sequences of reals: the parts of NumPy and
 * pandas (sum, mean, min, absolute value) that the FTIR pipeline relies on.
 * Missing values (NaN) are not modelled, so every helper sees real numbers only.
 */
module Stats {

  function Abs(x: real): (r: real)
    ensures r >= 0.0
    ensures r == x || r == -x
  {
    if x < 0.0 then -x else x
  }

  function Max(a: real, b: real): (r: real)
    ensures r >= a && r >= b
    ensures r == a || r == b
  {
    if a >= b then a else b
  }

  function Min(a: real, b: real): (r: real)
    ensures r <= a && r <= b
    ensures r == a || r == b
  {
    if a <= b then a else b
  }

  /** Sum of a sequence, accumulated from the right end. */
  function Sum(s: seq<real>): (total: real)
  {
    if s == [] then 0.0 else Sum(s[..|s| - 1]) + s[|s| - 1]
  }

  /** Arithmetic mean (NumPy's `mean`, pandas' rolling `mean`). */
  function Mean(s: seq<real>): (m: real)
    requires |s| > 0
  {
    Sum(s) / (|s| as real)
  }

  /** Smallest element (NumPy's `np.min` on a non-empty slice). */
  function MinOf(s: seq<real>): (r: real)
    requires |s| > 0
    ensures forall k :: 0 <= k < |s| ==> r <= s[k]
  {
    if |s| == 1 then s[0]
    else
      var rest := MinOf(s[1..]);
      assert forall k :: 1 <= k < |s| ==> s[k] == s[1..][k - 1];
      if s[0] <= rest then s[0] else rest
  }

  /** The minimum is one of the elements. */
  lemma {:induction false} MinOfAttained(s: seq<real>)
    requires |s| > 0
    ensures MinOf(s) in s
  {
    if |s| > 1 {
      MinOfAttained(s[1..]);
    }
  }

  /** Sum of the sequence of absolute differences, term by term. */
  function SumAbsDiff(a: seq<real>, b: seq<real>): (total: real)
    requires |a| == |b|
  {
    if a == [] then 0.0 else SumAbsDiff(a[..|a| - 1], b[..|b| - 1]) + Abs(a[|a| - 1] - b[|b| - 1])
  }

  /** A sum stays between |s| times any lower bound and |s| times any upper bound of its terms. */
  lemma {:induction false} SumBounds(s: seq<real>, lo: real, hi: real)
    requires forall k :: 0 <= k < |s| ==> lo <= s[k] <= hi
    ensures lo * (|s| as real) <= Sum(s) <= hi * (|s| as real)
  {
    if s != [] {
      var init := s[..|s| - 1];
      assert forall k :: 0 <= k < |init| ==> init[k] == s[k];
      SumBounds(init, lo, hi);
      assert lo * (|s| as real) == lo * (|init| as real) + lo;
      assert hi * (|s| as real) == hi * (|init| as real) + hi;
    }
  }

  /** A mean lies between the smallest and the largest bound of the averaged terms. */
  lemma MeanBounds(s: seq<real>, lo: real, hi: real)
    requires |s| > 0
    requires forall k :: 0 <= k < |s| ==> lo <= s[k] <= hi
    ensures lo <= Mean(s) <= hi
  {
    SumBounds(s, lo, hi);
    var n := |s| as real;
    assert lo * n <= Sum(s) <= hi * n;
    assert Mean(s) == Sum(s) / n;
    assert lo == (lo * n) / n;
    assert hi == (hi * n) / n;
  }

  /** The sum of n copies of c is n * c. */
  lemma {:induction false} SumConstant(s: seq<real>, c: real)
    requires forall k :: 0 <= k < |s| ==> s[k] == c
    ensures Sum(s) == c * (|s| as real)
  {
    if s != [] {
      var init := s[..|s| - 1];
      assert forall k :: 0 <= k < |init| ==> init[k] == s[k];
      SumConstant(init, c);
    }
  }

  /** The mean of a constant sequence is that constant. */
  lemma MeanConstant(s: seq<real>, c: real)
    requires |s| > 0
    requires forall k :: 0 <= k < |s| ==> s[k] == c
    ensures Mean(s) == c
  {
    SumConstant(s, c);
  }
}
