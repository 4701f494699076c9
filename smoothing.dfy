/**
 * Smoothing of an intensity trace (app.py, `smooth_series`): a centred
 * moving average with pandas' `min_periods=1`, so near either end the mean is
 * taken over the part of the window that lies inside the trace.
 */
module Smoothing {

  import opened Stats

  /**
   * First index (inclusive) of the centred window of width `window` around
   * `i`. pandas centres a fixed window by shifting its right end
   * `(window - 1) / 2` places past `i`, so the window covers
   * `i - window / 2 .. i + (window - 1) / 2` before clipping.
   */
  function WindowStart(i: int, window: int): (lo: int)
  {
    if i - window / 2 < 0 then 0 else i - window / 2
  }

  /** One past the last index of the centred window around `i`, clipped to `n`. */
  function WindowEnd(i: int, window: int, n: int): (hi: int)
  {
    if i + 1 + (window - 1) / 2 > n then n else i + 1 + (window - 1) / 2
  }

  /** The smoothed trace. A window of 1 or less leaves the trace as it is. */
  function Smooth(values: seq<real>, window: int): (r: seq<real>)
    ensures |r| == |values|
    ensures window <= 1 ==> r == values
  {
    if window <= 1 then values
    else
      seq(|values|, i requires 0 <= i < |values| =>
        Mean(values[WindowStart(i, window)..WindowEnd(i, window, |values|)]))
  }

  /** Point `i` of the smoothed trace is the mean of its clipped window. */
  lemma SmoothAt(values: seq<real>, window: int, i: nat)
    requires window > 1 && i < |values|
    ensures Smooth(values, window)[i] == Mean(values[WindowStart(i, window)..WindowEnd(i, window, |values|)])
  {
  }

  /**
   * For an odd window 2k+1, point i is the mean of the inputs at positions
   * max(0, i-k) through min(n-1, i+k).
   */
  lemma SmoothOddWindow(values: seq<real>, k: nat, i: nat)
    requires k >= 1 && i < |values|
    ensures var lo := if i < k then 0 else i - k;
            var hi := if i + k > |values| - 1 then |values| - 1 else i + k;
            Smooth(values, 2 * k + 1)[i] == Mean(values[lo..hi + 1])
  {
    var w := 2 * k + 1;
    var lo := if i < k then 0 else i - k;
    var hi := if i + k > |values| - 1 then |values| - 1 else i + k;
    assert WindowStart(i, w) == lo && WindowEnd(i, w, |values|) == hi + 1 by {
      assert w / 2 == k && (w - 1) / 2 == k;
    }
    SmoothAt(values, w, i);
  }

  /** For an even window 2k, point i is the mean of positions max(0, i-k) through min(n-1, i+k-1). */
  lemma SmoothEvenWindow(values: seq<real>, k: nat, i: nat)
    requires k >= 1 && i < |values|
    ensures var lo := if i < k then 0 else i - k;
            var hi := if i + k - 1 > |values| - 1 then |values| - 1 else i + k - 1;
            Smooth(values, 2 * k)[i] == Mean(values[lo..hi + 1])
  {
    var w := 2 * k;
    var lo := if i < k then 0 else i - k;
    var hi := if i + k - 1 > |values| - 1 then |values| - 1 else i + k - 1;
    assert WindowStart(i, w) == lo && WindowEnd(i, w, |values|) == hi + 1 by {
      assert w / 2 == k && (w - 1) / 2 == k - 1;
    }
    SmoothAt(values, w, i);
  }

  /** Smoothing never leaves the range of the input: it is bounded by any bounds of the trace. */
  lemma SmoothWithinBounds(values: seq<real>, window: int, lo: real, hi: real)
    requires forall k :: 0 <= k < |values| ==> lo <= values[k] <= hi
    ensures forall i :: 0 <= i < |values| ==> lo <= Smooth(values, window)[i] <= hi
  {
    if window > 1 {
      forall i | 0 <= i < |values|
        ensures lo <= Smooth(values, window)[i] <= hi
      {
        var w := values[WindowStart(i, window)..WindowEnd(i, window, |values|)];
        assert forall k :: 0 <= k < |w| ==> w[k] == values[WindowStart(i, window) + k];
        MeanBounds(w, lo, hi);
      }
    }
  }

  /** A flat trace is left unchanged by smoothing, whatever the window. */
  lemma SmoothConstant(values: seq<real>, window: int, c: real)
    requires forall k :: 0 <= k < |values| ==> values[k] == c
    ensures Smooth(values, window) == values
  {
    if window > 1 {
      forall i | 0 <= i < |values|
        ensures Smooth(values, window)[i] == values[i]
      {
        var w := values[WindowStart(i, window)..WindowEnd(i, window, |values|)];
        assert forall k :: 0 <= k < |w| ==> w[k] == values[WindowStart(i, window) + k];
        MeanConstant(w, c);
      }
    }
  }
}
