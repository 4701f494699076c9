/**
 * Band mapping (app.py, `default_band_mapping` and `map_peaks_to_bands`):
 * each detected peak is annotated with the first band of the table whose
 * range, with its two bounds put in order, contains the peak wavenumber.
 */
module Bands {

  import opened Wrappers
  import opened Stats
  import opened Peaks

  /** A band bound as the table holds it: the text it prints as, and its numeric value. */
  datatype Bound = Bound(text: string, value: real)

  /** One row of the band table: two bounds (in either order), functional group, component. */
  datatype Band = Band(low: Bound, high: Bound, group: string, component: string)

  /** One row of the annotated peak table. */
  datatype AnnotatedPeak = AnnotatedPeak(band: string, peak: real, group: string, component: string, transmittance: real)

  /** The sentinel written into all three descriptive fields when no band matches. */
  const Unknown: string := "未知"

  /** The band's range with its bounds put in order contains `peak`, both ends included. */
  predicate Contains(b: Band, peak: real)
  {
    Min(b.low.value, b.high.value) <= peak <= Max(b.low.value, b.high.value)
  }

  /** The band label: both bounds as written, joined by a hyphen, not reordered. */
  function BandLabel(b: Band): (text: string)
  {
    b.low.text + "-" + b.high.text
  }

  /** Index of the first band, in table order, that contains `peak`. */
  function FirstMatch(bands: seq<Band>, peak: real): (r: Option<nat>)
    ensures r.Some? ==> r.value < |bands| && Contains(bands[r.value], peak)
    ensures r.Some? ==> forall j :: 0 <= j < r.value ==> !Contains(bands[j], peak)
    ensures r.None? ==> forall j :: 0 <= j < |bands| ==> !Contains(bands[j], peak)
  {
    if bands == [] then None
    else if Contains(bands[0], peak) then Some(0)
    else
      match FirstMatch(bands[1..], peak)
      case None => None
      case Some(j) => Some(j + 1)
  }

  /** The annotated row for one peak with its transmittance. */
  function Annotate(peak: real, transmittance: real, bands: seq<Band>): (row: AnnotatedPeak)
  {
    match FirstMatch(bands, peak)
    case None => AnnotatedPeak(Unknown, peak, Unknown, Unknown, transmittance)
    case Some(j) => AnnotatedPeak(BandLabel(bands[j]), peak, bands[j].group, bands[j].component, transmittance)
  }

  /**
   * The mapper as the source runs it: for each peak in order, scan the bands
   * in order and stop at the first one containing it.
   */
  method MapPeaksToBands(peaks: seq<Peak>, bands: seq<Band>) returns (rows: seq<AnnotatedPeak>)
    ensures |rows| == |peaks|
    ensures forall k :: 0 <= k < |peaks| ==>
              rows[k] == Annotate(peaks[k].wavenumber, peaks[k].intensity, bands)
  {
    rows := [];
    for k := 0 to |peaks|
      invariant |rows| == k
      invariant forall i :: 0 <= i < k ==> rows[i] == Annotate(peaks[i].wavenumber, peaks[i].intensity, bands)
    {
      var peak := peaks[k].wavenumber;
      var matched: Option<Band> := None;
      var j := 0;
      while j < |bands|
        invariant 0 <= j <= |bands|
        invariant matched.None?
        invariant forall i :: 0 <= i < j ==> !Contains(bands[i], peak)
      {
        var low := bands[j].low.value;
        var high := bands[j].high.value;
        var bandMin, bandMax := Min(low, high), Max(low, high);
        if bandMin <= peak <= bandMax {
          matched := Some(bands[j]);
          break;
        }
        j := j + 1;
      }
      var band, group, comp;
      if matched.None? {
        band, group, comp := Unknown, Unknown, Unknown;
      } else {
        var b := matched.value;
        band, group, comp := BandLabel(b), b.group, b.component;
      }
      assert matched.Some? ==> FirstMatch(bands, peak) == Some(j) && matched.value == bands[j];
      rows := rows + [AnnotatedPeak(band, peak, group, comp, peaks[k].intensity)];
    }
  }

  /** The band with its two bounds exchanged. */
  function Swapped(b: Band): (b2: Band)
  {
    Band(b.high, b.low, b.group, b.component)
  }

  /** Writing any band's bounds the other way round never changes which band matches. */
  lemma {:induction false} SwapBoundsKeepsMatch(bands: seq<Band>, j: nat, peak: real)
    requires j < |bands|
    ensures FirstMatch(bands[j := Swapped(bands[j])], peak) == FirstMatch(bands, peak)
  {
    if j > 0 {
      SwapBoundsKeepsMatch(bands[1..], j - 1, peak);
      assert bands[j := Swapped(bands[j])][1..] == bands[1..][j - 1 := Swapped(bands[j])];
    }
  }

  /**
   * Table order decides between overlapping bands: with two bands that both
   * contain the peak, the one listed first wins, so swapping the rows swaps
   * the annotation.
   */
  lemma OverlapFirstWins(a: Band, b: Band, peak: real, transmittance: real)
    requires Contains(a, peak) && Contains(b, peak)
    ensures Annotate(peak, transmittance, [a, b]) == AnnotatedPeak(BandLabel(a), peak, a.group, a.component, transmittance)
    ensures Annotate(peak, transmittance, [b, a]) == AnnotatedPeak(BandLabel(b), peak, b.group, b.component, transmittance)
  {
  }

  /**
   * The 12 literature bands the band table starts from: each is written
   * larger bound first, and they are listed from high to low wavenumber
   * without overlapping, so at most one of them contains any given peak.
   */
  function DefaultBands(): (bands: seq<Band>)
    ensures |bands| == 12
    ensures forall i :: 0 <= i < |bands| ==> bands[i].low.value > bands[i].high.value
    ensures forall i, j :: 0 <= i < j < |bands| ==> bands[j].low.value < bands[i].high.value
  {
    [
      Band(Bound("3600", 3600.0), Bound("3200", 3200.0), "O-H 伸缩", "纤维素/半纤维素"),
      Band(Bound("2970", 2970.0), Bound("2840", 2840.0), "C-H 伸缩", "纤维素/木质素"),
      Band(Bound("1745", 1745.0), Bound("1710", 1710.0), "C=O 伸缩", "半纤维素"),
      Band(Bound("1655", 1655.0), Bound("1590", 1590.0), "芳香环 C=C", "木质素"),
      Band(Bound("1515", 1515.0), Bound("1500", 1500.0), "芳香环骨架", "木质素"),
      Band(Bound("1470", 1470.0), Bound("1410", 1410.0), "CH2 弯曲", "纤维素"),
      Band(Bound("1375", 1375.0), Bound("1360", 1360.0), "C-H 弯曲", "纤维素"),
      Band(Bound("1335", 1335.0), Bound("1310", 1310.0), "O-H 弯曲", "纤维素"),
      Band(Bound("1275", 1275.0), Bound("1230", 1230.0), "C-O 伸缩", "木质素/半纤维素"),
      Band(Bound("1170", 1170.0), Bound("1120", 1120.0), "C-O-C 伸缩", "纤维素"),
      Band(Bound("1115", 1115.0), Bound("1030", 1030.0), "C-O 伸缩", "纤维素/半纤维素"),
      Band(Bound("900", 900.0), Bound("890", 890.0), "β-糖苷键", "纤维素")
    ]
  }

  /** With the default table, a peak matches a band exactly when that band contains it. */
  lemma DefaultMatchIsUnique(peak: real, j: nat)
    requires j < |DefaultBands()| && Contains(DefaultBands()[j], peak)
    ensures FirstMatch(DefaultBands(), peak) == Some(j)
  {
    var bands := DefaultBands();
  }

  /** A peak at 3400 falls in the first default band. */
  lemma DefaultBandsAt3400(transmittance: real)
    ensures Annotate(3400.0, transmittance, DefaultBands())
         == AnnotatedPeak("3600-3200", 3400.0, "O-H 伸缩", "纤维素/半纤维素", transmittance)
  {
    assert Contains(DefaultBands()[0], 3400.0);
  }

  /** A peak at 50 falls in no default band and is annotated as unknown throughout. */
  lemma DefaultBandsAt50(transmittance: real)
    ensures Annotate(50.0, transmittance, DefaultBands()) == AnnotatedPeak(Unknown, 50.0, Unknown, Unknown, transmittance)
  {
    assert forall j :: 0 <= j < |DefaultBands()| ==> !Contains(DefaultBands()[j], 50.0);
  }
}
