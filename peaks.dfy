/**
 * Peak detection on one intensity trace (app.py, `detect_peaks`): smooth the
 * trace, keep the strict interior local maxima of the smoothed trace whose
 * simplified prominence reaches `min_prom`, sort them by descending
 * prominence (stably) and keep the first `top_n`.
 */
module Peaks {

  import opened Stats
  import opened Sorting
  import opened Smoothing

  /** One row of the peak table: wavenumber, raw intensity, smoothed intensity, prominence. */
  datatype Peak = Peak(wavenumber: real, intensity: real, smoothed: real, prominence: real)

  function ProminenceOf(p: Peak): real { p.prominence }

  /** A strict local maximum at an interior index: endpoints and plateaus never qualify. */
  predicate IsCandidate(ys: seq<real>, i: int)
  {
    1 <= i < |ys| - 1 && ys[i] > ys[i - 1] && ys[i] > ys[i + 1]
  }

  /**
   * The left flank: the minimum of the `window` points just left of `i` when
   * they all lie inside the trace, otherwise the single left neighbour. Either
   * way it is one of the points it looks at and never above the neighbour.
   */
  function LeftFlank(ys: seq<real>, i: int, window: int): (f: real)
    requires 1 <= i < |ys| && window >= 1
    ensures f <= ys[i - 1]
    ensures i - window >= 0 ==>
              (forall k :: i - window <= k < i ==> f <= ys[k])
              && exists k :: i - window <= k < i && f == ys[k]
    ensures i - window < 0 ==> f == ys[i - 1]
  {
    if i - window >= 0 then
      var w := ys[i - window..i];
      assert forall k :: i - window <= k < i ==> ys[k] == w[k - (i - window)];
      MinOfAttained(w);
      var k' :| 0 <= k' < |w| && w[k'] == MinOf(w);
      assert ys[k' + (i - window)] == MinOf(w);
      MinOf(w)
    else ys[i - 1]
  }

  /**
   * The right flank: the minimum of the `window` points just right of `i`
   * when they all lie inside the trace, otherwise the single right neighbour.
   * Either way it is one of the points it looks at and never above the
   * neighbour.
   */
  function RightFlank(ys: seq<real>, i: int, window: int): (f: real)
    requires 0 <= i < |ys| - 1 && window >= 1
    ensures f <= ys[i + 1]
    ensures i + window + 1 <= |ys| ==>
              (forall k :: i + 1 <= k <= i + window ==> f <= ys[k])
              && exists k :: i + 1 <= k <= i + window && f == ys[k]
    ensures i + window + 1 > |ys| ==> f == ys[i + 1]
  {
    if i + window + 1 <= |ys| then
      var w := ys[i + 1..i + window + 1];
      assert forall k :: i + 1 <= k <= i + window ==> ys[k] == w[k - (i + 1)];
      MinOfAttained(w);
      var k' :| 0 <= k' < |w| && w[k'] == MinOf(w);
      assert ys[k' + (i + 1)] == MinOf(w);
      MinOf(w)
    else ys[i + 1]
  }

  /**
   * The simplified prominence: height above the higher of the two flanks.
   * Since each flank is no higher than the neighbour on its side, the
   * prominence is at least the height above the higher neighbour.
   */
  function Prominence(ys: seq<real>, i: int, window: int): (p: real)
    requires 1 <= i < |ys| - 1 && window >= 1
    ensures p >= ys[i] - Max(ys[i - 1], ys[i + 1])
  {
    ys[i] - Max(LeftFlank(ys, i, window), RightFlank(ys, i, window))
  }

  /** The row reported for index `i`. */
  function PeakAt(x: seq<real>, y: seq<real>, ys: seq<real>, i: int, window: int): (p: Peak)
    requires |x| == |y| == |ys| && 1 <= i < |ys| - 1 && window >= 1
  {
    Peak(x[i], y[i], ys[i], Prominence(ys, i, window))
  }

  /** Whether index `i` passes the candidate test and the prominence threshold. */
  predicate Accepted(ys: seq<real>, i: int, window: int, minProm: real)
    requires window >= 1
  {
    IsCandidate(ys, i) && Prominence(ys, i, window) >= minProm
  }

  /** The rows accepted among indices 1 .. m-1, in index order. */
  function Scan(x: seq<real>, y: seq<real>, ys: seq<real>, window: int, minProm: real, m: int): (rows: seq<Peak>)
    requires |x| == |y| == |ys| && window >= 1 && (m <= 1 || m < |ys|)
    decreases m
  {
    if m <= 1 then []
    else
      Scan(x, y, ys, window, minProm, m - 1)
        + (if Accepted(ys, m - 1, window, minProm) then [PeakAt(x, y, ys, m - 1, window)] else [])
  }

  /** Every accepted row of the trace, in index (detection) order. */
  function Candidates(x: seq<real>, y: seq<real>, window: int, minProm: real): (rows: seq<Peak>)
    requires |x| == |y| && window >= 1
  {
    var ys := Smooth(y, window);
    if |ys| < 2 then [] else Scan(x, y, ys, window, minProm, |ys| - 1)
  }

  /** Python's `s[:n]`: a negative `n` counts from the end. */
  function PyPrefix<T>(s: seq<T>, n: int): (r: seq<T>)
    ensures n >= 0 ==> |r| == (if n < |s| then n else |s|)
    ensures n < 0 ==> |r| == (if |s| + n < 0 then 0 else |s| + n)
    ensures r == s[..|r|]
  {
    if n >= 0 then (if n < |s| then s[..n] else s)
    else if |s| + n < 0 then [] else s[..|s| + n]
  }

  /** Ranking: stable sort by descending prominence, then Python's `[:topN]`. */
  function RankAndTruncate(rows: seq<Peak>, topN: int): (ranked: seq<Peak>)
  {
    PyPrefix(SortDesc(rows, ProminenceOf), topN)
  }

  /** The peak table: accepted rows, stably sorted by descending prominence, first `topN` kept. */
  function PeakTable(x: seq<real>, y: seq<real>, window: int, minProm: real, topN: int): (table: seq<Peak>)
    requires |x| == |y| && window >= 1
  {
    RankAndTruncate(Candidates(x, y, window, minProm), topN)
  }

  /** The detector's loop: one pass over the interior indices of the smoothed trace, appending accepted rows. */
  method ScanTrace(x: seq<real>, y: seq<real>, ys: seq<real>, window: int, minProm: real)
    returns (found: seq<Peak>)
    requires |x| == |y| == |ys| && window >= 1
    ensures found == Scan(x, y, ys, window, minProm, if |ys| < 2 then 1 else |ys| - 1)
  {
    found := [];
    var i := 1;
    while i < |ys| - 1
      invariant 1 <= i <= (if |ys| < 2 then 1 else |ys| - 1)
      invariant found == Scan(x, y, ys, window, minProm, i)
    {
      ghost var step := if Accepted(ys, i, window, minProm) then [PeakAt(x, y, ys, i, window)] else [];
      assert Scan(x, y, ys, window, minProm, i + 1) == found + step;
      if ys[i] > ys[i - 1] && ys[i] > ys[i + 1] {
        var left := if i - window >= 0 then MinOf(ys[i - window..i]) else ys[i - 1];
        var right := if i + window + 1 <= |ys| then MinOf(ys[i + 1..i + window + 1]) else ys[i + 1];
        var prominence := ys[i] - Max(left, right);
        if prominence >= minProm {
          found := found + [Peak(x[i], y[i], ys[i], prominence)];
        }
      }
      i := i + 1;
    }
  }

  /**
   * The detector as the source runs it: smooth, scan, and when anything was
   * found, rank and truncate (an empty scan gives the empty table).
   */
  method DetectPeaks(x: seq<real>, y: seq<real>, window: int, minProm: real, topN: int)
    returns (peaks: seq<Peak>)
    requires |x| == |y| && window >= 1
    ensures peaks == PeakTable(x, y, window, minProm, topN)
  {
    var ys := Smooth(y, window);
    var found := ScanTrace(x, y, ys, window, minProm);
    if found == [] {
      assert SortDesc(found, ProminenceOf) == [];
      return [];
    }
    peaks := RankAndTruncate(found, topN);
  }

  /** A candidate's prominence is strictly positive, whatever the window. */
  lemma ProminencePositive(ys: seq<real>, i: int, window: int)
    requires window >= 1 && IsCandidate(ys, i)
    ensures Prominence(ys, i, window) > 0.0
  {
    if i - window >= 0 {
      var w := ys[i - window..i];
      assert w[window - 1] == ys[i - 1];
    }
    if i + window + 1 <= |ys| {
      var w := ys[i + 1..i + window + 1];
      assert w[0] == ys[i + 1];
    }
  }

  /** With a window of one, prominence is the height above the higher neighbour. */
  lemma ProminenceWindowOne(ys: seq<real>, i: int)
    requires 1 <= i < |ys| - 1
    ensures Prominence(ys, i, 1) == ys[i] - Max(ys[i - 1], ys[i + 1])
  {
    assert ys[i - 1..i] == [ys[i - 1]];
    assert ys[i + 1..i + 2] == [ys[i + 1]];
  }

  /** Every row of `Scan` comes from an accepted index below `m`, and every accepted index yields its row. */
  lemma {:induction false} ScanExact(x: seq<real>, y: seq<real>, ys: seq<real>, window: int, minProm: real, m: int, p: Peak)
    requires |x| == |y| == |ys| && window >= 1 && (m <= 1 || m < |ys|)
    ensures p in Scan(x, y, ys, window, minProm, m) <==>
              exists i :: 1 <= i < m && Accepted(ys, i, window, minProm) && p == PeakAt(x, y, ys, i, window)
  {
    if m > 1 {
      ScanExact(x, y, ys, window, minProm, m - 1, p);
    }
  }

  /**
   * Soundness and completeness of the candidate list: a row is listed iff it
   * is reported for an interior strict local maximum of the smoothed trace
   * whose prominence reaches `minProm`; such a prominence is positive.
   */
  lemma CandidatesExact(x: seq<real>, y: seq<real>, window: int, minProm: real, p: Peak)
    requires |x| == |y| && window >= 1
    ensures p in Candidates(x, y, window, minProm) <==>
              exists i :: IsCandidate(Smooth(y, window), i)
                       && Prominence(Smooth(y, window), i, window) >= minProm
                       && p == PeakAt(x, y, Smooth(y, window), i, window)
    ensures p in Candidates(x, y, window, minProm) ==> p.prominence >= minProm && p.prominence > 0.0
  {
    var ys := Smooth(y, window);
    if |ys| >= 2 {
      ScanExact(x, y, ys, window, minProm, |ys| - 1, p);
    }
    if p in Candidates(x, y, window, minProm) {
      var i :| IsCandidate(ys, i) && Prominence(ys, i, window) >= minProm && p == PeakAt(x, y, ys, i, window);
      ProminencePositive(ys, i, window);
    }
  }

  /** Ranking yields at most `topN` rows (for `topN >= 0`), in non-increasing prominence. */
  lemma RankBoundedSorted(rows: seq<Peak>, topN: int)
    ensures topN >= 0 ==> |RankAndTruncate(rows, topN)| <= topN
    ensures SortedDesc(RankAndTruncate(rows, topN), ProminenceOf)
  {
    var s := SortDesc(rows, ProminenceOf);
    var t := RankAndTruncate(rows, topN);
    assert t == s[..|t|];
    assert forall i, j :: 0 <= i < j < |t| ==> t[i] == s[i] && t[j] == s[j];
  }

  /**
   * Rows of equal prominence keep their input order: for each prominence
   * value, the ranked rows with that value are the first input rows with
   * that value, in the same order.
   */
  lemma RankStable(rows: seq<Peak>, topN: int, v: real)
    ensures WithKey(RankAndTruncate(rows, topN), ProminenceOf, v) <= WithKey(rows, ProminenceOf, v)
  {
    var s := SortDesc(rows, ProminenceOf);
    var t := RankAndTruncate(rows, topN);
    assert t == s[..|t|];
    SortDescStable(rows, ProminenceOf, v);
    WithKeyPrefix(s, ProminenceOf, v, |t|);
    var a, b := WithKey(t, ProminenceOf, v), WithKey(s[|t|..], ProminenceOf, v);
    assert WithKey(rows, ProminenceOf, v) == a + b;
  }

  /** Ranking only drops rows: each ranked row is an input row, kept at most as often. */
  lemma RankSubmultiset(rows: seq<Peak>, topN: int)
    ensures multiset(RankAndTruncate(rows, topN)) <= multiset(rows)
  {
    var s := SortDesc(rows, ProminenceOf);
    var t := RankAndTruncate(rows, topN);
    assert s == t + s[|t|..];
    assert multiset(s) == multiset(t) + multiset(s[|t|..]);
  }

  /** Truncation keeps the most prominent rows: every row left out is no more prominent than the last row kept. */
  lemma RankKeepsMostProminent(rows: seq<Peak>, topN: int, p: Peak)
    requires p in multiset(rows) - multiset(RankAndTruncate(rows, topN))
    ensures var t := RankAndTruncate(rows, topN);
            t != [] ==> p.prominence <= t[|t| - 1].prominence
  {
    var s := SortDesc(rows, ProminenceOf);
    var t := RankAndTruncate(rows, topN);
    var rest := s[|t|..];
    assert p in rest by {
      assert s == t + rest;
      assert multiset(rows) == multiset(t) + multiset(rest);
    }
    if t != [] {
      var j :| 0 <= j < |rest| && rest[j] == p;
      assert s[|t| + j] == p && s[|t| - 1] == t[|t| - 1];
    }
  }

  /** With a non-negative `topN`, rows are dropped only when `topN` rows are kept. */
  lemma RankDropsOnlyWhenFull(rows: seq<Peak>, topN: int)
    requires topN >= 0
    ensures |RankAndTruncate(rows, topN)| == (if topN < |rows| then topN else |rows|)
  {
  }

  /**
   * The peak table, end to end: every row is an accepted candidate (interior
   * strict local maximum of the smoothed trace, prominence at least `minProm`
   * and positive), at most `topN` rows, in non-increasing prominence.
   */
  lemma PeakTableSound(x: seq<real>, y: seq<real>, window: int, minProm: real, topN: int, p: Peak)
    requires |x| == |y| && window >= 1
    requires p in PeakTable(x, y, window, minProm, topN)
    ensures exists i :: IsCandidate(Smooth(y, window), i)
                     && Prominence(Smooth(y, window), i, window) >= minProm
                     && p == PeakAt(x, y, Smooth(y, window), i, window)
    ensures p.prominence >= minProm && p.prominence > 0.0
  {
    var c := Candidates(x, y, window, minProm);
    RankSubmultiset(c, topN);
    assert p in multiset(RankAndTruncate(c, topN));
    CandidatesExact(x, y, window, minProm, p);
  }

  /** A four-point trace with a single interior maximum at 3000, of prominence 0.9 - max(0.1, 0.2). */
  lemma ScenarioSampleOne()
    ensures PeakTable([4000.0, 3000.0, 2000.0, 1000.0], [0.1, 0.9, 0.2, 0.1], 1, 0.05, 5)
         == [Peak(3000.0, 0.9, 0.9, 0.7)]
  {
    var x, y := [4000.0, 3000.0, 2000.0, 1000.0], [0.1, 0.9, 0.2, 0.1];
    ProminenceWindowOne(y, 1);
    assert Accepted(y, 1, 1, 0.05);
    assert !Accepted(y, 2, 1, 0.05);
    assert Scan(x, y, y, 1, 0.05, 2) == [Peak(3000.0, 0.9, 0.9, 0.7)];
    assert Candidates(x, y, 1, 0.05) == [Peak(3000.0, 0.9, 0.9, 0.7)];
  }

  /** A four-point trace with a single interior maximum at 2000, of prominence 0.8 - max(0.3, 0.1). */
  lemma ScenarioSampleTwo()
    ensures PeakTable([4000.0, 3000.0, 2000.0, 1000.0], [0.2, 0.3, 0.8, 0.1], 1, 0.05, 5)
         == [Peak(2000.0, 0.8, 0.8, 0.5)]
  {
    var x, y := [4000.0, 3000.0, 2000.0, 1000.0], [0.2, 0.3, 0.8, 0.1];
    ProminenceWindowOne(y, 2);
    assert !Accepted(y, 1, 1, 0.05);
    assert Accepted(y, 2, 1, 0.05);
    assert Scan(x, y, y, 1, 0.05, 2) == [];
    assert Candidates(x, y, 1, 0.05) == [Peak(2000.0, 0.8, 0.8, 0.5)];
  }
}
