/**
 * The two computations of the automatic summary (app.py): the wavenumbers
 * whose intensity varies most across all samples, and the pair of group
 * mean spectra that differ most on average.
 */
module Summary {

  import opened Wrappers
  import opened Stats
  import opened Sorting

  /** How many high-variance wavenumbers the summary lists. */
  const TopCount: nat := 8

  // ---------------------------------------------------------------------
  // Variance per wavenumber column
  // ---------------------------------------------------------------------

  function Square(x: real): (r: real)
    ensures r >= 0.0
  {
    x * x
  }

  /** Sum of squared deviations of `s` from `mu`. */
  function SumSquaredDeviations(s: seq<real>, mu: real): (total: real)
  {
    if s == [] then 0.0
    else SumSquaredDeviations(s[..|s| - 1], mu) + Square(s[|s| - 1] - mu)
  }

  /** Population variance (`ddof = 0`), as `np.nanvar` computes it on a column without missing values. */
  function Variance(s: seq<real>): (v: real)
    requires |s| > 0
  {
    SumSquaredDeviations(s, Mean(s)) / (|s| as real)
  }

  /** A table whose rows (samples) all have `width` intensity columns. */
  predicate Rectangular(matrix: seq<seq<real>>, width: nat)
  {
    forall r :: 0 <= r < |matrix| ==> |matrix[r]| == width
  }

  /** Column `j` of the table. */
  function Column(matrix: seq<seq<real>>, width: nat, j: nat): (c: seq<real>)
    requires Rectangular(matrix, width) && j < width
    ensures |c| == |matrix| && forall r :: 0 <= r < |matrix| ==> c[r] == matrix[r][j]
  {
    seq(|matrix|, r requires 0 <= r < |matrix| => matrix[r][j])
  }

  /** `np.nanvar(matrix, axis=0)`: one variance per column. */
  function ColumnVariances(matrix: seq<seq<real>>, width: nat): (v: seq<real>)
    requires |matrix| > 0 && Rectangular(matrix, width)
    ensures |v| == width && forall j :: 0 <= j < width ==> v[j] == Variance(Column(matrix, width, j))
  {
    seq(width, j requires 0 <= j < width => Variance(Column(matrix, width, j)))
  }

  lemma {:induction false} SumSquaredDeviationsNonNegative(s: seq<real>, mu: real)
    ensures SumSquaredDeviations(s, mu) >= 0.0
  {
    if s != [] {
      SumSquaredDeviationsNonNegative(s[..|s| - 1], mu);
    }
  }

  /** Values all equal to `mu` have no deviation. */
  lemma {:induction false} SumSquaredDeviationsConstant(s: seq<real>, mu: real)
    requires forall k :: 0 <= k < |s| ==> s[k] == mu
    ensures SumSquaredDeviations(s, mu) == 0.0
  {
    if s != [] {
      var init := s[..|s| - 1];
      assert forall k :: 0 <= k < |init| ==> init[k] == s[k];
      SumSquaredDeviationsConstant(init, mu);
      assert Square(0.0) == 0.0;
    }
  }

  /** A variance is never negative, and a constant column has variance zero. */
  lemma VarianceBounds(s: seq<real>)
    requires |s| > 0
    ensures Variance(s) >= 0.0
    ensures (forall k :: 0 <= k < |s| ==> s[k] == s[0]) ==> Variance(s) == 0.0
  {
    SumSquaredDeviationsNonNegative(s, Mean(s));
    if forall k :: 0 <= k < |s| ==> s[k] == s[0] {
      MeanConstant(s, s[0]);
      SumSquaredDeviationsConstant(s, s[0]);
    }
  }

  /** Every column variance is non-negative, and a column on which all samples agree has variance zero. */
  lemma ColumnVariancesBounds(matrix: seq<seq<real>>, width: nat)
    requires |matrix| > 0 && Rectangular(matrix, width)
    ensures forall j :: 0 <= j < width ==> ColumnVariances(matrix, width)[j] >= 0.0
    ensures forall j :: 0 <= j < width && (forall r :: 0 <= r < |matrix| ==> matrix[r][j] == matrix[0][j])
              ==> ColumnVariances(matrix, width)[j] == 0.0
  {
    forall j | 0 <= j < width
      ensures ColumnVariances(matrix, width)[j] >= 0.0
      ensures (forall r :: 0 <= r < |matrix| ==> matrix[r][j] == matrix[0][j]) ==> ColumnVariances(matrix, width)[j] == 0.0
    {
      VarianceBounds(Column(matrix, width, j));
    }
  }

  // ---------------------------------------------------------------------
  // The highest-variance columns
  // ---------------------------------------------------------------------

  /** The column indices `0 .. n-1`. */
  function Range(n: nat): (r: seq<int>)
    ensures |r| == n && forall k :: 0 <= k < n ==> r[k] == k
  {
    seq(n, k => k)
  }

  /** Ranking key of a column index: its variance. */
  function VarianceOf(v: seq<real>): int -> real
  {
    (i: int) => if 0 <= i < |v| then v[i] else 0.0
  }

  /** The column indices in order of descending variance (ties in ascending index order). */
  function Ranked(v: seq<real>): (order: seq<int>)
  {
    SortDesc(Range(|v|), VarianceOf(v))
  }

  /**
   * `np.argsort(v)[-k:][::-1]`: the indices of the `k` largest entries of
   * `v`, largest first (all of them when `v` is shorter than `k`). The
   * order among equal variances is not specified by `np.argsort`; this
   * model keeps ascending index order.
   */
  function TopIndices(v: seq<real>, k: nat): (r: seq<int>)
    ensures |r| == (if k < |v| then k else |v|)
    ensures forall a :: 0 <= a < |r| ==> 0 <= r[a] < |v|
  {
    RankedColumns(v);
    Ranked(v)[..if k < |v| then k else |v|]
  }

  /** `Range` holds each index exactly once. */
  lemma {:induction false} RangeCounts(n: nat)
    ensures forall x :: multiset(Range(n))[x] == (if 0 <= x < n then 1 else 0)
  {
    if n > 0 {
      RangeCounts(n - 1);
      assert Range(n) == Range(n - 1) + [n - 1];
      assert multiset(Range(n)) == multiset(Range(n - 1)) + multiset{n - 1};
    }
  }

  /** An element occurring at two positions occurs at least twice. */
  lemma TwiceCounted<T>(s: seq<T>, a: nat, b: nat)
    requires a < b < |s| && s[a] == s[b]
    ensures multiset(s)[s[a]] >= 2
  {
    assert s == s[..b] + s[b..];
    assert s[a] in multiset(s[..b]) && s[b] in multiset(s[b..]);
  }

  /** The ranking lists exactly the column indices. */
  lemma RankedColumns(v: seq<real>)
    ensures |Ranked(v)| == |v|
    ensures forall a :: 0 <= a < |Ranked(v)| ==> 0 <= Ranked(v)[a] < |v|
    ensures forall i :: 0 <= i < |v| ==> i in Ranked(v)
  {
    var s := Ranked(v);
    RangeCounts(|v|);
    forall a | 0 <= a < |s|
      ensures 0 <= s[a] < |v|
    {
      assert s[a] in multiset(s);
    }
    forall i | 0 <= i < |v|
      ensures i in s
    {
      assert i in multiset(s);
    }
  }

  /** The ranking lists each column once. */
  lemma RankedDistinct(v: seq<real>)
    ensures forall a, b :: 0 <= a < b < |Ranked(v)| ==> Ranked(v)[a] != Ranked(v)[b]
  {
    var s := Ranked(v);
    RangeCounts(|v|);
    forall a, b | 0 <= a < b < |s|
      ensures s[a] != s[b]
    {
      if s[a] == s[b] {
        TwiceCounted(s, a, b);
      }
    }
  }

  /** The ranking is in non-increasing variance. */
  lemma RankedSorted(v: seq<real>)
    ensures forall a, b :: 0 <= a < b < |Ranked(v)| && 0 <= Ranked(v)[a] < |v| && 0 <= Ranked(v)[b] < |v|
              ==> v[Ranked(v)[a]] >= v[Ranked(v)[b]]
  {
    var s := Ranked(v);
    forall a, b | 0 <= a < b < |s| && 0 <= s[a] < |v| && 0 <= s[b] < |v|
      ensures v[s[a]] >= v[s[b]]
    {
      assert VarianceOf(v)(s[a]) >= VarianceOf(v)(s[b]);
    }
  }

  /** The selected indices are distinct columns, in non-increasing variance. */
  lemma TopIndicesSpec(v: seq<real>, k: nat)
    ensures var r := TopIndices(v, k);
            && (forall a, b :: 0 <= a < b < |r| ==> r[a] != r[b])
            && (forall a, b :: 0 <= a < b < |r| ==> v[r[a]] >= v[r[b]])
  {
    var m := if k < |v| then k else |v|;
    RankedDistinct(v);
    RankedSorted(v);
    assert forall a :: 0 <= a < m ==> TopIndices(v, k)[a] == Ranked(v)[a];
  }

  /** No column left out has a larger variance than any column selected. */
  lemma TopIndicesMaximal(v: seq<real>, k: nat)
    ensures forall i, a :: 0 <= i < |v| && i !in TopIndices(v, k) && 0 <= a < |TopIndices(v, k)|
              ==> v[i] <= v[TopIndices(v, k)[a]]
  {
    var s := Ranked(v);
    var m := if k < |v| then k else |v|;
    var r := TopIndices(v, k);
    RankedColumns(v);
    RankedSorted(v);
    forall i, a | 0 <= i < |v| && i !in r && 0 <= a < |r|
      ensures v[i] <= v[r[a]]
    {
      assert i in s;
      var b :| 0 <= b < |s| && s[b] == i;
      assert forall c :: 0 <= c < m ==> r[c] == s[c];
      assert b >= m;
    }
  }

  /**
   * The wavenumbers listed in the summary: those of the `TopCount`
   * columns with the largest variance, largest first, or of every column
   * when there are fewer. Which columns, and in what order, is stated by
   * `TopVarianceWavenumbersSpec`.
   */
  function TopVarianceWavenumbers(wavenumbers: seq<real>, matrix: seq<seq<real>>): (w: seq<real>)
    requires |matrix| > 0 && Rectangular(matrix, |wavenumbers|)
    ensures |w| == (if TopCount < |wavenumbers| then TopCount else |wavenumbers|)
    ensures forall a :: 0 <= a < |w| ==> w[a] in wavenumbers
  {
    var v := ColumnVariances(matrix, |wavenumbers|);
    var idx := TopIndices(v, TopCount);
    TopIndicesSpec(v, TopCount);
    seq(|idx|, a requires 0 <= a < |idx| => wavenumbers[idx[a]])
  }

  /**
   * The listed wavenumbers belong, entry by entry, to distinct columns in
   * non-increasing variance, and no column left out varies more than a
   * listed one.
   */
  lemma TopVarianceWavenumbersSpec(wavenumbers: seq<real>, matrix: seq<seq<real>>) returns (idx: seq<int>)
    requires |matrix| > 0 && Rectangular(matrix, |wavenumbers|)
    ensures var w := TopVarianceWavenumbers(wavenumbers, matrix);
            |idx| == |w| == (if TopCount < |wavenumbers| then TopCount else |wavenumbers|)
    ensures var v, w := ColumnVariances(matrix, |wavenumbers|), TopVarianceWavenumbers(wavenumbers, matrix);
            && |idx| == |w|
            && (forall a :: 0 <= a < |idx| ==> 0 <= idx[a] < |wavenumbers| && w[a] == wavenumbers[idx[a]])
            && (forall a, b :: 0 <= a < b < |idx| ==> idx[a] != idx[b] && v[idx[a]] >= v[idx[b]])
            && (forall i, a :: 0 <= i < |wavenumbers| && i !in idx && 0 <= a < |idx| ==> v[i] <= v[idx[a]])
  {
    var v := ColumnVariances(matrix, |wavenumbers|);
    idx := TopIndices(v, TopCount);
    TopIndicesSpec(v, TopCount);
    TopIndicesMaximal(v, TopCount);
  }

  // ---------------------------------------------------------------------
  // Largest divergence between group mean spectra
  // ---------------------------------------------------------------------

  /** A group of samples (one `_prefix` value) with its mean spectrum. */
  datatype Group = Group(name: string, mean: seq<real>)

  /** One entry of the `distances` list: two group names and their mean absolute difference. */
  datatype Divergence = Divergence(first: string, second: string, distance: real)

  function DistanceOf(d: Divergence): real
  {
    d.distance
  }

  /** Every mean spectrum has the same, positive, number of wavenumbers. */
  predicate Uniform(groups: seq<Group>)
  {
    forall i, j :: 0 <= i < |groups| && 0 <= j < |groups| ==> |groups[i].mean| == |groups[j].mean| > 0
  }

  /** `np.nanmean(np.abs(a - b))` on spectra without missing values. */
  function MeanAbsDiff(a: seq<real>, b: seq<real>): (d: real)
    requires |a| == |b| > 0
  {
    SumAbsDiff(a, b) / (|a| as real)
  }

  lemma {:induction false} SumAbsDiffSymmetric(a: seq<real>, b: seq<real>)
    requires |a| == |b|
    ensures SumAbsDiff(a, b) == SumAbsDiff(b, a)
  {
    if a != [] {
      SumAbsDiffSymmetric(a[..|a| - 1], b[..|b| - 1]);
    }
  }

  /** The summed absolute difference is zero exactly on identical spectra. */
  lemma {:induction false} SumAbsDiffZero(a: seq<real>, b: seq<real>)
    requires |a| == |b|
    ensures SumAbsDiff(a, b) >= 0.0
    ensures SumAbsDiff(a, b) == 0.0 <==> a == b
  {
    if a != [] {
      var n := |a|;
      SumAbsDiffZero(a[..n - 1], b[..n - 1]);
      if SumAbsDiff(a, b) == 0.0 {
        assert a == a[..n - 1] + [a[n - 1]] && b == b[..n - 1] + [b[n - 1]];
      }
    }
  }

  /** The distance between two groups does not depend on their order, is never negative and is zero only for equal spectra. */
  lemma MeanAbsDiffMetric(a: seq<real>, b: seq<real>)
    requires |a| == |b| > 0
    ensures MeanAbsDiff(a, b) == MeanAbsDiff(b, a)
    ensures MeanAbsDiff(a, b) >= 0.0
    ensures MeanAbsDiff(a, b) == 0.0 <==> a == b
  {
    SumAbsDiffSymmetric(a, b);
    SumAbsDiffZero(a, b);
  }

  /** The entries the inner loop appends for first group `i`: one per later group, in order. */
  function PairRow(groups: seq<Group>, i: nat): (row: seq<Divergence>)
    requires Uniform(groups) && i < |groups|
    ensures |row| == |groups| - i - 1
  {
    seq(|groups| - i - 1, t requires 0 <= t < |groups| - i - 1 =>
      Divergence(groups[i].name, groups[i + 1 + t].name, MeanAbsDiff(groups[i].mean, groups[i + 1 + t].mean)))
  }

  /** The `distances` list after the outer loop has run for the first `i` groups. */
  function PairsBefore(groups: seq<Group>, i: nat): (pairs: seq<Divergence>)
    requires Uniform(groups) && i <= |groups|
    ensures 2 * |pairs| == i * (2 * |groups| - i - 1)
  {
    if i == 0 then [] else PairsBefore(groups, i - 1) + PairRow(groups, i - 1)
  }

  /** The whole `distances` list, one entry per unordered pair `i < j`, before sorting. */
  function AllPairs(groups: seq<Group>): (pairs: seq<Divergence>)
    requires Uniform(groups)
  {
    PairsBefore(groups, |groups|)
  }

  /** The entry the summary reports: the head of the list stably sorted by descending distance. */
  function LargestPair(groups: seq<Group>): (r: Option<Divergence>)
    requires Uniform(groups)
  {
    if |groups| < 2 then None
    else
      var pairs := AllPairs(groups);
      assert 2 * |pairs| == |groups| * (|groups| - 1);
      Some(SortDesc(pairs, DistanceOf)[0])
  }

  /**
   * The nested loops over `i < j` appending `(name_i, name_j, distance)`,
   * then the stable sort and its first entry.
   */
  method LargestDivergence(groups: seq<Group>) returns (r: Option<Divergence>)
    requires Uniform(groups)
    ensures r == LargestPair(groups)
    ensures r.None? <==> |groups| < 2
  {
    if |groups| < 2 {
      return None;
    }
    var distances: seq<Divergence> := [];
    var i := 0;
    while i < |groups|
      invariant i <= |groups|
      invariant distances == PairsBefore(groups, i)
    {
      var j := i + 1;
      while j < |groups|
        invariant i + 1 <= j <= |groups|
        invariant distances == PairsBefore(groups, i) + PairRow(groups, i)[..j - i - 1]
      {
        var d := MeanAbsDiff(groups[i].mean, groups[j].mean);
        distances := distances + [Divergence(groups[i].name, groups[j].name, d)];
        assert PairRow(groups, i)[..j - i] == PairRow(groups, i)[..j - i - 1] + [PairRow(groups, i)[j - i - 1]];
        j := j + 1;
      }
      assert PairRow(groups, i)[..j - i - 1] == PairRow(groups, i);
      i := i + 1;
    }
    assert 2 * |distances| == |groups| * (|groups| - 1);
    var sorted := SortDesc(distances, DistanceOf);
    r := Some(sorted[0]);
  }

  /** Outer-loop prefixes of the `distances` list are prefixes of the whole list. */
  lemma {:induction false} PairsBeforePrefix(groups: seq<Group>, i: nat, m: nat)
    requires Uniform(groups) && i <= m <= |groups|
    ensures PairsBefore(groups, i) <= PairsBefore(groups, m)
  {
    if i < m {
      PairsBeforePrefix(groups, i, m - 1);
    }
  }

  /** Every entry of the list is the distance of some pair `i < j`. */
  lemma {:induction false} PairAt(groups: seq<Group>, m: nat, p: nat) returns (i: nat, j: nat)
    requires Uniform(groups) && m <= |groups| && p < |PairsBefore(groups, m)|
    ensures i < j < |groups|
    ensures PairsBefore(groups, m)[p] == Divergence(groups[i].name, groups[j].name, MeanAbsDiff(groups[i].mean, groups[j].mean))
  {
    var before := PairsBefore(groups, m - 1);
    if p < |before| {
      i, j := PairAt(groups, m - 1, p);
    } else {
      i, j := m - 1, m + (p - |before|);
    }
  }

  /** Every pair `i < j` has its entry in the list, at the position the loops give it. */
  lemma PairListed(groups: seq<Group>, i: nat, j: nat) returns (p: nat)
    requires Uniform(groups) && i < j < |groups|
    ensures p < |AllPairs(groups)|
    ensures AllPairs(groups)[p] == Divergence(groups[i].name, groups[j].name, MeanAbsDiff(groups[i].mean, groups[j].mean))
  {
    var before, row := PairsBefore(groups, i), PairRow(groups, i);
    PairsBeforePrefix(groups, i + 1, |groups|);
    assert PairsBefore(groups, i + 1) == before + row;
    p := |before| + (j - i - 1);
    assert (before + row)[p] == row[j - i - 1];
  }

  /**
   * The reported pair is the FIRST entry, in loop order, whose distance is
   * maximal: `list.sort` is stable, so earlier entries win ties.
   */
  lemma LargestPairIsFirstMaximum(groups: seq<Group>) returns (p: nat)
    requires Uniform(groups) && |groups| >= 2
    ensures p < |AllPairs(groups)| && LargestPair(groups) == Some(AllPairs(groups)[p])
    ensures forall q :: 0 <= q < |AllPairs(groups)| ==> AllPairs(groups)[q].distance <= AllPairs(groups)[p].distance
    ensures forall q :: 0 <= q < p ==> AllPairs(groups)[q].distance < AllPairs(groups)[p].distance
  {
    var pairs := AllPairs(groups);
    assert 2 * |pairs| == |groups| * (|groups| - 1);
    p := SortDescHead(pairs, DistanceOf);
  }

  /** Three wavenumbers apart by 3, 2 and 1: the mean absolute difference is 2. */
  lemma MeanAbsDiffExample()
    ensures MeanAbsDiff([1.0, 2.0, 3.0], [4.0, 4.0, 4.0]) == 2.0
  {
    var a, b := [1.0, 2.0, 3.0], [4.0, 4.0, 4.0];
    assert a[..2] == [1.0, 2.0] && b[..2] == [4.0, 4.0];
    assert [1.0, 2.0][..1] == [1.0] && [4.0, 4.0][..1] == [4.0];
    assert [1.0][..0] == [] && [4.0][..0] == [];
    assert SumAbsDiff(a, b) == 6.0;
  }
}
