/**
 * The sample-prefix map of `load_sample_metadata` (app.py): every row of
 * the metadata sheet carries a code and a description; a code that starts
 * with two ASCII letters and a digit contributes its upper-cased two-letter
 * prefix, and the first such row for a prefix decides its description.
 * Cells arrive as text (the spreadsheet reader is not part of this model).
 */
module Metadata {

  import opened Wrappers
  import opened SampleCode

  /** One row of the metadata sheet: the code cell and the description cell, as text. */
  datatype MetaRow = MetaRow(code: string, desc: string)

  /** The shape `^[A-Za-z]{2}\d+` asks of the front of a (stripped) code. */
  predicate Grouped(code: string)
  {
    |code| >= 3 && IsAsciiLetter(code[0]) && IsAsciiLetter(code[1]) && IsDigit(code[2])
  }

  /** The prefix and description a row contributes, if it contributes one. */
  function RowEntry(row: MetaRow): (e: Option<(string, string)>)
    ensures e.Some? ==> Grouped(Strip(row.code)) && e.value.1 == Strip(row.desc) && e.value.1 != []
    ensures e.Some? ==> e.value.0 == Upper(Strip(row.code)[..2])
    ensures e.None? ==> !Grouped(Strip(row.code)) || Strip(row.desc) == []
  {
    var code := Strip(row.code);
    var desc := Strip(row.desc);
    if Grouped(code) && desc != [] then Some((Upper(code[..2]), desc)) else None
  }

  /** Whether `row` contributes an entry for `prefix`. */
  predicate HasPrefix(row: MetaRow, prefix: string)
  {
    RowEntry(row).Some? && RowEntry(row).value.0 == prefix
  }

  /** The description of the first row, in sheet order, that contributes to `prefix`. */
  function FirstDescription(rows: seq<MetaRow>, prefix: string): (d: Option<string>)
  {
    if rows == [] then None
    else if HasPrefix(rows[0], prefix) then Some(RowEntry(rows[0]).value.1)
    else FirstDescription(rows[1..], prefix)
  }

  /** Appending a row only matters for a prefix that has no description yet. */
  lemma {:induction false} FirstDescriptionSnoc(rows: seq<MetaRow>, row: MetaRow, prefix: string)
    ensures FirstDescription(rows + [row], prefix)
         == if FirstDescription(rows, prefix).Some? then FirstDescription(rows, prefix)
            else if HasPrefix(row, prefix) then Some(RowEntry(row).value.1)
            else None
  {
    if rows == [] {
      assert [row][1..] == [];
    } else {
      assert (rows + [row])[1..] == rows[1..] + [row];
      FirstDescriptionSnoc(rows[1..], row, prefix);
    }
  }

  /**
   * The loop over the sheet: a qualifying row whose prefix is not yet a key
   * adds it; later rows with the same prefix are ignored.
   */
  method BuildSampleMap(rows: seq<MetaRow>) returns (m: map<string, string>)
    ensures forall p :: p in m <==> FirstDescription(rows, p).Some?
    ensures forall p :: p in m ==> m[p] == FirstDescription(rows, p).value
  {
    m := map[];
    var k := 0;
    while k < |rows|
      invariant k <= |rows|
      invariant forall p :: p in m <==> FirstDescription(rows[..k], p).Some?
      invariant forall p :: p in m ==> m[p] == FirstDescription(rows[..k], p).value
    {
      var code := Strip(rows[k].code);
      var desc := Strip(rows[k].desc);
      if Grouped(code) && desc != [] {
        var prefix := Upper(code[..2]);
        assert RowEntry(rows[k]) == Some((prefix, desc));
        if prefix !in m {
          m := m[prefix := desc];
        }
      } else {
        assert RowEntry(rows[k]).None?;
      }
      forall p
        ensures FirstDescription(rows[..k + 1], p)
             == if FirstDescription(rows[..k], p).Some? then FirstDescription(rows[..k], p)
                else if HasPrefix(rows[k], p) then Some(RowEntry(rows[k]).value.1)
                else None
      {
        assert rows[..k + 1] == rows[..k] + [rows[k]];
        FirstDescriptionSnoc(rows[..k], rows[k], p);
      }
      k := k + 1;
    }
    assert rows[..k] == rows;
  }

  /** Every key of the map is two upper-case ASCII letters. */
  lemma {:induction false} FirstDescriptionKey(rows: seq<MetaRow>, prefix: string)
    requires FirstDescription(rows, prefix).Some?
    ensures |prefix| == 2 && 'A' <= prefix[0] <= 'Z' && 'A' <= prefix[1] <= 'Z'
  {
    if !HasPrefix(rows[0], prefix) {
      FirstDescriptionKey(rows[1..], prefix);
    }
  }

  /**
   * A description is found exactly at the first contributing row: row `i`
   * contributes to `prefix` with that description, and no earlier row does.
   */
  lemma {:induction false} FirstDescriptionWitness(rows: seq<MetaRow>, prefix: string) returns (i: nat)
    requires FirstDescription(rows, prefix).Some?
    ensures i < |rows| && HasPrefix(rows[i], prefix)
    ensures FirstDescription(rows, prefix).value == Strip(rows[i].desc)
    ensures forall q :: 0 <= q < i ==> !HasPrefix(rows[q], prefix)
  {
    if HasPrefix(rows[0], prefix) {
      i := 0;
    } else {
      var j := FirstDescriptionWitness(rows[1..], prefix);
      i := j + 1;
      forall q | 0 <= q < i
        ensures !HasPrefix(rows[q], prefix)
      {
        if q > 0 {
          assert rows[q] == rows[1..][q - 1];
        }
      }
    }
  }

  /** No contributing row means no description. */
  lemma {:induction false} FirstDescriptionAbsent(rows: seq<MetaRow>, prefix: string)
    requires forall q :: 0 <= q < |rows| ==> !HasPrefix(rows[q], prefix)
    ensures FirstDescription(rows, prefix).None?
  {
    if rows != [] {
      FirstDescriptionAbsent(rows[1..], prefix);
    }
  }

  /** First wins: rows appended after a prefix has its description never change it. */
  lemma {:induction false} FirstDescriptionStable(rows: seq<MetaRow>, more: seq<MetaRow>, prefix: string)
    requires FirstDescription(rows, prefix).Some?
    ensures FirstDescription(rows + more, prefix) == FirstDescription(rows, prefix)
  {
    if !HasPrefix(rows[0], prefix) {
      assert (rows + more)[1..] == rows[1..] + more;
      FirstDescriptionStable(rows[1..], more, prefix);
    }
  }

  /** A two-row sheet with the same prefix in two cases: the first description is kept. */
  lemma MapExampleFirstWins()
    ensures FirstDescription([MetaRow("LB1", "leached"), MetaRow("lb2", "other")], "LB") == Some("leached")
  {
    assert Strip("LB1") == "LB1";
    assert Strip("leached") == "leached";
    assert Upper("LB1"[..2]) == "LB";
  }
}
