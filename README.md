# FTIR spectrum pipeline — a verified model

This project models the computational core of a small Streamlit app for
Fourier-transform infrared (FTIR) spectra of biomass samples (`app.py`). It
covers structure detection, smoothing, peak detection, band mapping, sample
codes, the sample metadata map and the two computations of the automatic
summary. The average and difference spectra that the app only plots, and
the pandas means that feed the pipeline (`compute_group_mean` and the
average spectrum of the peak finder's average mode), are listed under
"Left out".

- **Structure detection** (`FtirStructure`). A table is spectral when it has
  at least 5 columns and at least 20 "qualifying" columns after the first
  (sample) column. A column qualifies when its label reads as a number, or
  when its label is text but its data are numeric. In the second case its
  wavenumber is the count of qualifying columns before it. The qualifying
  columns are returned in descending wavenumber order.
- **Smoothing** (`Smoothing`). A centred moving average with pandas'
  `min_periods=1` clipping at the ends. A window of 1 or less is the
  identity.
- **Peak detection** (`Peaks`). This step:
  - keeps the strict interior local maxima of the smoothed trace;
  - gives each a simplified prominence, its height above the higher of two
    flank minima (each flank falls back to the adjacent neighbour near the
    edges);
  - filters by the minimum prominence;
  - stably sorts by descending prominence and keeps the first `top_n`.
- **Band mapping** (`Bands`). Each peak is annotated with the first band of
  the table whose range, bounds put in order, contains it. Otherwise all
  three fields read "未知". The 12-row default literature table is included.
- **Sample codes** (`SampleCode`). A stripped identifier of letters, digits,
  and optionally a hyphen and more digits becomes (upper-cased prefix,
  series, replicate). Anything else comes back unchanged.
- **Sample metadata** (`Metadata`). Builds the prefix → description map from
  (code, description) rows. The first row for a prefix wins.
- **Summary** (`Summary`). The 8 wavenumber columns of largest variance
  across samples. The pair of group mean spectra with the largest mean
  absolute difference, which is the first such pair in loop order.

Shared pieces:

- `Stats`: sum, mean, minimum, absolute value.
- `Sorting`: a stable descending insertion sort. It stands for Python's
  `sorted(..., reverse=True)` and `list.sort(..., reverse=True)`. It also
  stands for the descending `np.argsort` orders in structure detection and
  the top-variance selection, where only "sorted and a permutation" is
  promised.
- `Wrappers`: `Option`.

The code is modelled in its own form. Each loop of the source is a method
whose loop invariants tie it to a pure function that defines its result:

- the column scan (`FtirStructure.DetectStructure`);
- the peak scan (`Peaks.ScanTrace`);
- the nested band scan with its `break` (`Bands.MapPeaksToBands`);
- the first-wins dictionary fill (`Metadata.BuildSampleMap`);
- the nested pair loops (`Summary.LargestDivergence`).

The expression-only code (smoothing, parsing, the band table) is modelled
as functions. Intensities and wavenumbers are `real`.

## Model

| member | source | states |
|---|---|---|
| FtirStructure.Qualifying | app.py:97-105 | Every kept column qualifies. Its wavenumber is its parsed label, or, for a numeric column with a text label, the number of qualifying columns before it. Never more columns than the table has. |
| FtirStructure.DetectStructure | app.py:91-115 | Result is absent exactly when there are fewer than 5 columns or fewer than 20 qualifying columns after the first. Otherwise the sample column is the first column, and columns and wavenumbers have equal length. Together they are a permutation of the qualifying (column, wavenumber) pairs, and the wavenumbers are non-increasing. |
| FtirStructure.QualifyingKeepsLabels | app.py:97-105 | The axis keeps exactly the qualifying labels, in table order, before sorting: the labels equal a plain filter of the table's labels. |
| FtirStructure.TooFewQualifyingRejected | app.py:106-107 | Fewer than 20 qualifying labels after the first column means fewer than 20 axis columns, so the table is rejected. |
| FtirStructure.SyntheticValueIsCount | app.py:100-105 | A numeric column with a text label behind a skipped column gets value 1 (qualifying columns so far), not its table position 2. |
| Smoothing.Smooth | app.py:126-129 | Same length as the input. A window of 1 or less returns the input unchanged. |
| Smoothing.SmoothOddWindow | app.py:129 | For window 2k+1, point i is the mean of positions max(0, i-k) .. min(n-1, i+k). |
| Smoothing.SmoothEvenWindow | app.py:129 | For window 2k, point i is the mean of positions max(0, i-k) .. min(n-1, i+k-1), pandas' centring of an even window. |
| Smoothing.SmoothWithinBounds | app.py:126-129 | Any lower and upper bound of the trace also bounds every smoothed point. |
| Smoothing.SmoothConstant | app.py:126-129 | A flat trace is unchanged by smoothing, for every window. |
| Stats.MinOf | app.py:137-138 | The flank minimum (`np.min` of a non-empty slice) is at most every element of the slice. |
| Stats.MinOfAttained | app.py:137-138 | The flank minimum is an element of the slice. |
| Stats.MeanBounds | app.py:129 | A mean lies between any lower and upper bound of its terms. |
| Stats.MeanConstant | app.py:129 | The mean of copies of c is c. |
| Peaks.ScanTrace | app.py:135-141 | The loop over interior indices returns exactly `Scan`: accepted rows in index order, each (x[i], y[i], y_s[i], prominence). |
| Peaks.DetectPeaks | app.py:132-145 | The detector equals the peak table: candidates stably sorted by descending prominence, Python slice `[:top_n]`. No candidates gives the empty table. |
| Peaks.ScanExact | app.py:135-141 | A row is in the scan up to m iff it is the row of an accepted index 1 <= i < m. |
| Peaks.CandidatesExact | app.py:133-141 | A row is a candidate iff it is the row of an interior strict local maximum of the smoothed trace whose prominence reaches `min_prom`. Every candidate's prominence is >= `min_prom` and > 0. |
| Peaks.LeftFlank | app.py:137 | The left flank is never above the left neighbour. When the whole window fits, it is the smallest of the `window` points left of the peak and one of them; otherwise it is the left neighbour. |
| Peaks.RightFlank | app.py:138 | The right flank is never above the right neighbour. When the whole window fits, it is the smallest of the `window` points right of the peak and one of them; otherwise it is the right neighbour. |
| Peaks.Prominence | app.py:137-139 | The prominence is at least the height above the higher neighbour, whatever the window. |
| Peaks.ProminencePositive | app.py:136-140 | At a strict local maximum the simplified prominence is strictly positive, for every window and both flank fallbacks. |
| Peaks.ProminenceWindowOne | app.py:137-140 | With window 1 the prominence is y_s[i] - max(y_s[i-1], y_s[i+1]). |
| Peaks.PyPrefix | app.py:144 | Python's `s[:n]` is a prefix of `s`: length min(n, \|s\|) for n >= 0, and \|s\|+n (at least 0) for negative n. |
| Peaks.RankBoundedSorted | app.py:144 | The ranked table has at most `top_n` rows (for `top_n >= 0`), in non-increasing prominence. |
| Peaks.RankStable | app.py:144 | For every prominence value, the ranked rows with that value are a prefix of the input rows with that value, in input order (stable sort). |
| Peaks.RankSubmultiset | app.py:144 | Ranking only drops rows: the ranked rows are a sub-multiset of the input rows. |
| Peaks.RankKeepsMostProminent | app.py:144 | Every row dropped by truncation has prominence at most that of the last row kept. |
| Peaks.RankDropsOnlyWhenFull | app.py:144 | For `top_n >= 0` the table has exactly min(`top_n`, candidates) rows. |
| Peaks.PeakTableSound | app.py:132-145 | Every reported row is an accepted candidate with prominence >= `min_prom` and > 0. |
| Peaks.ScenarioSampleOne | app.py:132-145 | Trace (0.1, 0.9, 0.2, 0.1) at 4000..1000 with window 1 reports the single peak (3000, 0.9, 0.9, 0.7). |
| Peaks.ScenarioSampleTwo | app.py:132-145 | Trace (0.2, 0.3, 0.8, 0.1) at 4000..1000 with window 1 reports the single peak (2000, 0.8, 0.8, 0.5). |
| Bands.FirstMatch | app.py:170-178 | The index returned contains the peak, and no earlier band does. No index means no band contains it. Both bounds are inclusive and put in order first. |
| Bands.MapPeaksToBands | app.py:167-196 | One row per peak, in input order. Each row carries the peak value, its transmittance and the first matching band's label, group and component, or "未知" in all three. |
| Bands.SwapBoundsKeepsMatch | app.py:174-176 | Writing any band's two bounds the other way round never changes which band matches. |
| Bands.OverlapFirstWins | app.py:172-178 | Of two bands that both contain the peak, the one listed first is reported, whichever it is. |
| Bands.DefaultBands | app.py:148-164 | The default table has 12 rows, each written larger bound first, listed from high to low wavenumber with no two rows overlapping. |
| Bands.DefaultMatchIsUnique | app.py:148-178 | With the default table a peak is annotated with a band exactly when that band contains it. |
| Bands.DefaultBandsAt3400 | app.py:148-196 | A peak at 3400 gets band "3600-3200", O-H stretching, cellulose/hemicellulose. |
| Bands.DefaultBandsAt50 | app.py:179-182 | A peak at 50 matches no default band and gets "未知" in all three fields. |
| SampleCode.LetterEnd | app.py:200 | The end of the maximal run of ASCII letters from index i: all letters before it, none at it. |
| SampleCode.DigitEnd | app.py:200 | The end of the maximal run of ASCII digits from index i (greedy `\d+`). |
| SampleCode.LetterEndAt | app.py:200 | A letter run is determined by where it stops. |
| SampleCode.DigitEndAt | app.py:200 | A digit run is determined by where it stops. |
| SampleCode.StripLeftSuffix | app.py:200 | Left stripping leaves a suffix of the text that does not start with whitespace. |
| SampleCode.StripRightPrefix | app.py:200 | Right stripping leaves a prefix of the text that does not end with whitespace. |
| SampleCode.StripUnpadded | app.py:200 | A text without surrounding whitespace is its own stripped form. |
| SampleCode.MatchLettersDigits | app.py:200-206 | Letters then digits parse as (upper-cased letters, value of all the digits, no replicate). |
| SampleCode.MatchWithReplicate | app.py:200-206 | Letters, digits, a hyphen and digits parse as (upper-cased letters, series, replicate). |
| SampleCode.StripLeftSpaces | app.py:200 | Leading whitespace before a text that does not start with whitespace is removed, and nothing else. |
| SampleCode.StripRightSpaces | app.py:200 | Trailing whitespace after a text that does not end with whitespace is removed, and nothing else. |
| SampleCode.StripPadded | app.py:200 | Stripping any whitespace padding around an unpadded code gives back exactly that code. |
| SampleCode.ParseIgnoresPadding | app.py:199-206 | A matching code parses the same with or without any whitespace padding around it. |
| SampleCode.ShapeMatches | app.py:200-206 | Every text of the accepted shape (letters, digits, then the end or a hyphen and digits) matches. The prefix is the upper-cased letters, the series the first digit run, and the replicate the digits after the hyphen when there are any. |
| SampleCode.MatchShape | app.py:200-206 | Conversely, a text matches only if it has the accepted shape, and the match reads prefix, series and replicate from that shape. |
| SampleCode.ParseSampleCode | app.py:199-206 | Either the name comes back unchanged and unstripped with no series or replicate, or its stripped form has the accepted shape and the result is (upper-cased letters, first digit run, digits after the hyphen or none). |
| SampleCode.MatchExampleReplicate | app.py:200-206 | "lb12-3" parses as ("LB", 12, 3). |
| SampleCode.StripExample | app.py:200 | " lb12-3 " strips to "lb12-3". |
| SampleCode.ParseExamplePadded | app.py:199-206 | " lb12-3 " parses as ("LB", 12, 3). |
| SampleCode.MatchExampleGreedy | app.py:200-206 | "SR123" matches as ("SR", 123, none). |
| SampleCode.ParseExampleGreedy | app.py:199-206 | "SR123" parses as ("SR", 123, none): without a hyphen every digit is series. |
| SampleCode.ParseExampleRejected | app.py:201-202 | "S-1" does not match and comes back unchanged with no series or replicate. |
| Metadata.FirstDescriptionSnoc | app.py:227-228 | Appending a row changes the description of a prefix only when the prefix has none yet. |
| Metadata.BuildSampleMap | app.py:218-229 | The loop's map has exactly the prefixes some row contributes, each with the description of the first contributing row. |
| Metadata.FirstDescriptionKey | app.py:226 | Every key is two upper-case ASCII letters. |
| Metadata.FirstDescriptionWitness | app.py:222-228 | A prefix's description comes from a contributing row, and no earlier row contributes to that prefix. |
| Metadata.FirstDescriptionAbsent | app.py:222-228 | A prefix no row contributes to has no entry. |
| Metadata.FirstDescriptionStable | app.py:227-228 | First wins: rows appended after a prefix has its description never change it. |
| Metadata.MapExampleFirstWins | app.py:222-228 | Rows ("LB1", "leached") then ("lb2", "other") give "LB" the description "leached". |
| Summary.ColumnVariancesBounds | app.py:523-524 | Every column variance is non-negative, and a column on which all samples agree has variance zero. |
| Summary.SumSquaredDeviationsNonNegative | app.py:524 | A sum of squared deviations is never negative. |
| Summary.SumSquaredDeviationsConstant | app.py:524 | Values all equal to the centre have zero squared deviation. |
| Summary.VarianceBounds | app.py:524 | A variance is never negative, and a constant column has variance zero. |
| Summary.TopIndices | app.py:525 | `np.argsort(v)[-8:][::-1]` selects min(8, columns) indices, each a valid column. |
| Summary.RankedColumns | app.py:525 | The ranking lists every column index and only column indices. |
| Summary.RankedDistinct | app.py:525 | The ranking lists each column once. |
| Summary.RankedSorted | app.py:525 | The ranking is in non-increasing variance. |
| Summary.TopIndicesSpec | app.py:525 | The selected columns are distinct and in non-increasing variance. |
| Summary.TopIndicesMaximal | app.py:525 | No column left out has a larger variance than any selected column. |
| Summary.TopVarianceWavenumbers | app.py:523-526 | The summary lists min(8, columns) wavenumbers, each one of the table's wavenumbers. |
| Summary.TopVarianceWavenumbersSpec | app.py:523-526 | The summary lists min(8, columns) wavenumbers. Entry a is the wavenumber of the a-th selected column. The selected columns are distinct, in non-increasing variance, and no column left out has a larger variance than a listed one. |
| Summary.SumAbsDiffSymmetric | app.py:536-538 | The summed absolute difference does not depend on argument order. |
| Summary.SumAbsDiffZero | app.py:536-538 | The summed absolute difference is non-negative and zero exactly for identical spectra. |
| Summary.MeanAbsDiffMetric | app.py:536-538 | The group distance is symmetric, non-negative and zero exactly for equal mean spectra. |
| Summary.PairRow | app.py:535-539 | The inner loop for group i appends one entry per later group. |
| Summary.PairsBefore | app.py:533-539 | After the outer loop has run for i groups, the list has i(2n-i-1)/2 entries. |
| Summary.LargestDivergence | app.py:531-541 | The nested loops, stable sort and head give `LargestPair`. There is none exactly when fewer than 2 groups exist. |
| Summary.PairsBeforePrefix | app.py:533-539 | Each outer-loop stage's list is a prefix of the final list. |
| Summary.PairAt | app.py:533-539 | Every list entry is (name_i, name_j, distance) for some i < j. |
| Summary.PairListed | app.py:533-539 | Every pair i < j has its entry in the list. |
| Summary.LargestPairIsFirstMaximum | app.py:540-541 | The reported entry has the maximal distance, and every earlier entry has a strictly smaller distance (stable sort). |
| Summary.MeanAbsDiffExample | app.py:536-538 | Spectra (1, 2, 3) and (4, 4, 4) are at distance 2. |
| Sorting.InsertSorted | app.py:144 | Inserting into a descending sequence keeps it descending. |
| Sorting.SortDesc | app.py:144 | The sort returns a permutation of its input in non-increasing key order. |
| Sorting.SortDescStable | app.py:144 | Elements with equal keys keep their input order. |
| Sorting.SortDescHead | app.py:540-541 | The head of the sorted list has the largest key, and every earlier input element has a smaller key. |

## Left out

- The Streamlit page (widgets, session state, charts, downloads) is user interface, not computation.
- `load_file` and the file-reading half of `load_sample_metadata` are file and spreadsheet I/O. This covers the `Sample.xlsx` lookup, the column-count checks and `experiment_text`. The metadata rows reach the model as text cells.
- A missing spreadsheet cell is out of scope: `str()` turns it into the text "nan", which counts as a non-empty description.
- `summarize`, `safe_sample`, `build_long_spectra` and `compute_group_mean` are thin pandas wrappers. The group means reach `Summary.LargestDivergence` as given spectra.
- The average spectrum of the chart panel (`app.py:403`), the sample-minus-reference difference spectra (`app.py:419`) and the group-versus-base difference spectra (`app.py:483`) are only plotted: a column mean and pointwise subtractions handed to the charts.
- The peak finder's average mode (`app.py:432-437`) takes the column mean of the selected samples, falling back to one sample when none is selected. That mean is a pandas wrapper like `compute_group_mean`, and it reaches `Peaks.DetectPeaks` as its input `y`, so the peak table and band mapping cover it as a given trace.
- `data_analysis_report.py` is not part of this model. It only prints descriptive statistics of fixed files.
- Floating point and missing values are not modelled: intensities are exact reals. NaN handling in `rolling`, `nanvar` and `nanmean` is out of scope.
- Label parsing is abstracted. `FtirStructure.Label` records whether `float(label)` succeeds and whether the column dtype is numeric, not how pandas decides either.
- The band label prints each bound from the text stored with it (`Bands.Bound`). Python's formatting of the cell value is not modelled.
- `\d` in Python's `re` also matches non-ASCII decimal digits. The model accepts ASCII digits only.
- The order of keys in the `sample_map` dictionary is not modelled: a Dafny `map` has no order.
- Peaks.DetectPeaks: requires `window >= 1`. With a smaller window `np.min` of an empty slice raises as soon as a candidate appears. The app only passes 1 to 31, or 5.
- Summary.TopIndices: breaks ties in variance by ascending column index. `np.argsort`'s default sort promises no tie order, so the lemmas about it state only what every tie order meets (distinct, sorted, maximal).
- FtirStructure.DetectStructure: uses a stable sort. The contract promises only non-increasing order and a permutation, because `np.argsort` is not stable.
- Summary.VarianceBounds: does not state the converse, that zero variance implies a constant column. The solver's nonlinear real arithmetic cannot close it.
- Summary.ColumnVariances, Summary.MeanAbsDiff: require at least one sample and one wavenumber. NumPy returns NaN there, which is out of scope.
- `str(name)` for a non-string name in `parse_sample_code` is not modelled: names are text.
