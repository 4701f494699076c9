/**
 * Structure detection: decides whether a table is laid out as "sample column
 * followed by wavenumber columns" and, if so, returns the wavenumber axis in
 * descending order (app.py, `detect_ftir_structure`).
 */
module FtirStructure {

  import opened Wrappers
  import opened Sorting

  /**
   * A column label as the detector sees it. `Num(v)`: the label parses as the
   * number `v`. `Text(name, numericColumn)`: the label does not parse, and
   * `numericColumn` says whether the column's values have a numeric dtype.
   */
  datatype Label = Num(value: real) | Text(name: string, numericColumn: bool)

  /** A wavenumber column: its label with the wavenumber assigned to it. */
  type Column = (Label, real)

  /** The detected layout: sample column, wavenumber columns and their values. */
  datatype Axis = Axis(sampleColumn: Label, columns: seq<Label>, wavenumbers: seq<real>)

  /** Tables with fewer columns than this are rejected outright. */
  const MinColumns: nat := 5
  /** Tables with fewer qualifying columns than this are rejected. */
  const MinWavenumberColumns: nat := 20

  /** A column takes part in the axis if its label is a number or its data is numeric. */
  predicate Qualifies(l: Label)
  {
    l.Num? || l.numericColumn
  }

  /**
   * The qualifying columns of `labels` in table order, each with its
   * wavenumber: the parsed label, or, for a numeric column whose label does
   * not parse, the number of qualifying columns met before it.
   */
  function Qualifying(labels: seq<Label>): (q: seq<Column>)
    ensures |q| <= |labels|
    ensures forall k :: 0 <= k < |q| ==>
              Qualifies(q[k].0) && q[k].1 == (if q[k].0.Num? then q[k].0.value else k as real)
  {
    if labels == [] then []
    else
      var q := Qualifying(labels[..|labels| - 1]);
      var l := labels[|labels| - 1];
      match l
      case Num(v) => q + [(l, v)]
      case Text(_, numeric) => if numeric then q + [(l, |q| as real)] else q
  }

  /** The qualifying labels of `labels`, in table order (a plain filter). */
  function QualifyingLabels(labels: seq<Label>): (r: seq<Label>)
  {
    if labels == [] then []
    else if Qualifies(labels[0]) then [labels[0]] + QualifyingLabels(labels[1..])
    else QualifyingLabels(labels[1..])
  }

  function Zip(cols: seq<Label>, vals: seq<real>): (r: seq<Column>)
    requires |cols| == |vals|
    ensures |r| == |cols|
    ensures forall k :: 0 <= k < |r| ==> r[k] == (cols[k], vals[k])
  {
    seq(|cols|, k requires 0 <= k < |cols| => (cols[k], vals[k]))
  }

  function Labels(s: seq<Column>): (r: seq<Label>)
    ensures |r| == |s| && forall k :: 0 <= k < |s| ==> r[k] == s[k].0
  {
    seq(|s|, k requires 0 <= k < |s| => s[k].0)
  }

  function Values(s: seq<Column>): (r: seq<real>)
    ensures |r| == |s| && forall k :: 0 <= k < |s| ==> r[k] == s[k].1
  {
    seq(|s|, k requires 0 <= k < |s| => s[k].1)
  }

  function ColumnValue(c: Column): real { c.1 }

  /**
   * The detector. The first column is the sample column; every later column
   * is tested in table order; the qualifying ones are reordered by
   * descending wavenumber (`np.argsort` is unstable, so the order among equal
   * wavenumbers is not promised).
   */
  method DetectStructure(columns: seq<Label>) returns (r: Option<Axis>)
    ensures r.None? <==> |columns| < MinColumns || |Qualifying(columns[1..])| < MinWavenumberColumns
    ensures r.Some? ==> r.value.sampleColumn == columns[0]
    ensures r.Some? ==> |r.value.columns| == |r.value.wavenumbers|
    ensures r.Some? ==> multiset(Zip(r.value.columns, r.value.wavenumbers)) == multiset(Qualifying(columns[1..]))
    ensures r.Some? ==> forall i, j :: 0 <= i < j < |r.value.wavenumbers| ==> r.value.wavenumbers[i] >= r.value.wavenumbers[j]
  {
    if |columns| < MinColumns {
      return None;
    }
    var sampleColumn := columns[0];
    var wCols: seq<Label> := [];
    var wValues: seq<real> := [];
    var k := 1;
    while k < |columns|
      invariant 1 <= k <= |columns|
      invariant |wCols| == |wValues|
      invariant Zip(wCols, wValues) == Qualifying(columns[1..k])
    {
      var col := columns[k];
      assert columns[1..k + 1][..k - 1] == columns[1..k];
      ghost var before := Zip(wCols, wValues);
      match col {
        case Num(v) =>
          wCols := wCols + [col];
          wValues := wValues + [v];
          assert Zip(wCols, wValues) == before + [(col, v)];
        case Text(_, numeric) =>
          if numeric {
            wCols := wCols + [col];
            wValues := wValues + [|wValues| as real];
            assert Zip(wCols, wValues) == before + [(col, |before| as real)];
          }
      }
      k := k + 1;
    }
    assert columns[1..k] == columns[1..];
    if |wCols| < MinWavenumberColumns {
      return None;
    }
    var ordered := SortDesc(Zip(wCols, wValues), ColumnValue);
    assert Zip(Labels(ordered), Values(ordered)) == ordered;
    r := Some(Axis(sampleColumn, Labels(ordered), Values(ordered)));
  }

  /** The axis keeps exactly the qualifying labels, in table order, before sorting. */
  lemma {:induction false} QualifyingKeepsLabels(labels: seq<Label>)
    ensures Labels(Qualifying(labels)) == QualifyingLabels(labels)
  {
    if labels != [] {
      var init := labels[..|labels| - 1];
      var last := labels[|labels| - 1];
      QualifyingKeepsLabels(init);
      QualifyingLabelsSnoc(init, last);
      assert labels == init + [last];
    }
  }

  lemma {:induction false} QualifyingLabelsSnoc(init: seq<Label>, last: Label)
    ensures QualifyingLabels(init + [last])
         == QualifyingLabels(init) + (if Qualifies(last) then [last] else [])
  {
    if init != [] {
      assert (init + [last])[1..] == init[1..] + [last];
      QualifyingLabelsSnoc(init[1..], last);
    } else {
      assert [last][1..] == [];
    }
  }

  /** A table whose columns after the first include fewer than 20 qualifying ones is not spectral. */
  lemma TooFewQualifyingRejected(columns: seq<Label>)
    requires |columns| >= 1
    requires |QualifyingLabels(columns[1..])| < MinWavenumberColumns
    ensures |Qualifying(columns[1..])| < MinWavenumberColumns
  {
    QualifyingKeepsLabels(columns[1..]);
  }

  /**
   * The synthetic wavenumber of a numeric column with an unparsable label is
   * the count of qualifying columns before it, not its position in the table.
   */
  lemma SyntheticValueIsCount()
    ensures Qualifying([Num(4000.0), Text("note", false), Text("extra", true)])
         == [(Num(4000.0), 4000.0), (Text("extra", true), 1.0)]
  {
    assert [Num(4000.0), Text("note", false), Text("extra", true)][..2] == [Num(4000.0), Text("note", false)];
    assert [Num(4000.0), Text("note", false)][..1] == [Num(4000.0)];
    assert [Num(4000.0)][..0] == [];
  }
}
