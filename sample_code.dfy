/**
 * Sample-code parsing (app.py, `parse_sample_code`): an identifier such as
 * "LB12-3" splits into its letters (upper-cased), a first run of digits (the
 * series) and, after an optional hyphen, a second run of digits (the
 * replicate). The accepted shape is stated with character predicates.
 */
module SampleCode {

  import opened Wrappers

  /** Parsed sample code: prefix, series and replicate (`None` for Python's `None`). */
  datatype SampleCode = SampleCode(prefix: string, series: Option<nat>, replicate: Option<nat>)

  predicate IsAsciiLetter(c: char)
  {
    'A' <= c <= 'Z' || 'a' <= c <= 'z'
  }

  predicate IsDigit(c: char)
  {
    '0' <= c <= '9'
  }

  /** The characters Python's `str.strip()` removes: those for which `str.isspace()` holds. */
  predicate IsSpace(c: char)
  {
    ('\U{0009}' <= c <= '\U{000D}') || ('\U{001C}' <= c <= '\U{0020}')
    || c == '\U{0085}' || c == '\U{00A0}' || c == '\U{1680}'
    || ('\U{2000}' <= c <= '\U{200A}') || c == '\U{2028}' || c == '\U{2029}'
    || c == '\U{202F}' || c == '\U{205F}' || c == '\U{3000}'
  }

  predicate AllLetters(s: string)
  {
    forall k :: 0 <= k < |s| ==> IsAsciiLetter(s[k])
  }

  predicate AllDigits(s: string)
  {
    forall k :: 0 <= k < |s| ==> IsDigit(s[k])
  }

  /**
   * `str.upper()` on one character of a matched prefix. Prefixes hold ASCII
   * letters only, so only `a`..`z` need raising; other characters never reach it.
   */
  function UpperChar(c: char): (u: char)
  {
    if 'a' <= c <= 'z' then (c as int - 32) as char else c
  }

  function Upper(s: string): (r: string)
    ensures |r| == |s|
    ensures forall k :: 0 <= k < |s| ==> r[k] == UpperChar(s[k])
  {
    seq(|s|, k requires 0 <= k < |s| => UpperChar(s[k]))
  }

  function StripLeft(s: string): (r: string)
  {
    if s != [] && IsSpace(s[0]) then StripLeft(s[1..]) else s
  }

  function StripRight(s: string): (r: string)
  {
    if s != [] && IsSpace(s[|s| - 1]) then StripRight(s[..|s| - 1]) else s
  }

  /** `str.strip()`: leading and trailing whitespace removed. */
  function Strip(s: string): (r: string)
  {
    StripRight(StripLeft(s))
  }

  /** The index just past the run of ASCII letters that starts at index `i` of `t`. */
  function LetterEnd(t: string, i: nat): (e: nat)
    requires i <= |t|
    ensures i <= e <= |t|
    ensures forall k :: i <= k < e ==> IsAsciiLetter(t[k])
    ensures e == |t| || !IsAsciiLetter(t[e])
    decreases |t| - i
  {
    if i < |t| && IsAsciiLetter(t[i]) then LetterEnd(t, i + 1) else i
  }

  /** The index just past the run of ASCII digits that starts at index `i` of `t`. */
  function DigitEnd(t: string, i: nat): (e: nat)
    requires i <= |t|
    ensures i <= e <= |t|
    ensures forall k :: i <= k < e ==> IsDigit(t[k])
    ensures e == |t| || !IsDigit(t[e])
    decreases |t| - i
  {
    if i < |t| && IsDigit(t[i]) then DigitEnd(t, i + 1) else i
  }

  /** The decimal value of the first `n` digits of `s`. */
  function DigitsPrefixValue(s: string, n: nat): (value: nat)
    requires n <= |s| && AllDigits(s)
  {
    if n == 0 then 0 else 10 * DigitsPrefixValue(s, n - 1) + (s[n - 1] as int - '0' as int)
  }

  /** Python's `int()` of a run of decimal digits. */
  function DigitsValue(s: string): (value: nat)
    requires AllDigits(s)
  {
    DigitsPrefixValue(s, |s|)
  }

  /**
   * The match on already-stripped text whose letter run is `t[..i]` and
   * whose following digit run is `t[i..j]`: nothing may follow the digits
   * except a hyphen and a final run of digits.
   */
  function MatchAt(t: string, i: nat, j: nat): (r: Option<SampleCode>)
    requires i <= j <= |t| && AllDigits(t[i..j])
  {
    if i == 0 || j == i then None
    else if j == |t| then Some(SampleCode(Upper(t[..i]), Some(DigitsValue(t[i..j])), None))
    else if t[j] == '-' && j + 1 < |t| && AllDigits(t[j + 1..]) then
      Some(SampleCode(Upper(t[..i]), Some(DigitsValue(t[i..j])), Some(DigitsValue(t[j + 1..]))))
    else None
  }

  /**
   * The match on already-stripped text: letters, then digits, then nothing
   * or an optional hyphen followed by digits. The digit run is greedy, so
   * without a hyphen every digit belongs to the series.
   */
  function MatchCode(t: string): (r: Option<SampleCode>)
  {
    var i := LetterEnd(t, 0);
    var j := DigitEnd(t, i);
    assert forall k :: 0 <= k < j - i ==> t[i..j][k] == t[i + k];
    MatchAt(t, i, j)
  }

  /**
   * The parser. A name either comes back exactly as given, unstripped, with
   * no series and no replicate, or its stripped form has the accepted shape
   * and the parse is read from it: upper-cased letters, the first digit run,
   * and the digit run after the hyphen when there is one.
   */
  function ParseSampleCode(name: string): (code: SampleCode)
    ensures code.series.None? ==> code == SampleCode(name, None, None)
    ensures var t := Strip(name);
            code.series.Some? ==>
              exists i: nat, j: nat :: CodeShape(t, i, j)
                && code == SampleCode(Upper(t[..i]), Some(DigitsValue(t[i..j])),
                                      if j == |t| then None else Some(DigitsValue(t[j + 1..])))
  {
    var t := Strip(name);
    match MatchCode(t)
    case None => SampleCode(name, None, None)
    case Some(c) =>
      var i := LetterEnd(t, 0);
      var j := DigitEnd(t, i);
      assert AllLetters(t[..i]) && AllDigits(t[i..j]);
      assert CodeShape(t, i, j);
      c
  }

  /** A letter run is determined by where it stops. */
  lemma {:induction false} LetterEndAt(t: string, i: nat, n: nat)
    requires i <= n <= |t|
    requires forall k :: i <= k < n ==> IsAsciiLetter(t[k])
    requires n == |t| || !IsAsciiLetter(t[n])
    ensures LetterEnd(t, i) == n
    decreases n - i
  {
    if i < n {
      LetterEndAt(t, i + 1, n);
    }
  }

  /** A digit run is determined by where it stops. */
  lemma {:induction false} DigitEndAt(t: string, i: nat, n: nat)
    requires i <= n <= |t|
    requires forall k :: i <= k < n ==> IsDigit(t[k])
    requires n == |t| || !IsDigit(t[n])
    ensures DigitEnd(t, i) == n
    decreases n - i
  {
    if i < n {
      DigitEndAt(t, i + 1, n);
    }
  }

  /** `StripLeft` removes a leading block of whitespace and leaves a suffix that does not start with whitespace. */
  lemma {:induction false} StripLeftSuffix(s: string)
    ensures |StripLeft(s)| <= |s| && StripLeft(s) == s[|s| - |StripLeft(s)|..]
    ensures StripLeft(s) == [] || !IsSpace(StripLeft(s)[0])
    ensures forall k :: 0 <= k < |s| - |StripLeft(s)| ==> IsSpace(s[k])
  {
    if s != [] && IsSpace(s[0]) {
      var r := StripLeft(s[1..]);
      StripLeftSuffix(s[1..]);
      assert StripLeft(s) == r;
      assert s[1..][|s| - 1 - |r|..] == s[|s| - |r|..];
      forall k | 0 <= k < |s| - |r|
        ensures IsSpace(s[k])
      {
        if k > 0 {
          assert s[k] == s[1..][k - 1];
        }
      }
    }
  }

  /** `StripRight` removes a trailing block of whitespace and leaves a prefix that does not end with whitespace. */
  lemma {:induction false} StripRightPrefix(s: string)
    ensures |StripRight(s)| <= |s| && StripRight(s) == s[..|StripRight(s)|]
    ensures StripRight(s) == [] || !IsSpace(StripRight(s)[|StripRight(s)| - 1])
    ensures forall k :: |StripRight(s)| <= k < |s| ==> IsSpace(s[k])
  {
    if s != [] && IsSpace(s[|s| - 1]) {
      var r := StripRight(s[..|s| - 1]);
      StripRightPrefix(s[..|s| - 1]);
      assert StripRight(s) == r;
      assert s[..|s| - 1][..|r|] == s[..|r|];
      forall k | |r| <= k < |s|
        ensures IsSpace(s[k])
      {
        if k < |s| - 1 {
          assert s[k] == s[..|s| - 1][k];
        }
      }
    }
  }

  /** A text that neither starts nor ends with whitespace is its own `Strip`. */
  lemma StripUnpadded(s: string)
    requires s != [] && !IsSpace(s[0]) && !IsSpace(s[|s| - 1])
    ensures Strip(s) == s
  {
  }

  /** Leading whitespace in front of a text that does not start with whitespace is removed, and nothing else. */
  lemma {:induction false} StripLeftSpaces(pre: string, x: string)
    requires forall k :: 0 <= k < |pre| ==> IsSpace(pre[k])
    requires x != [] && !IsSpace(x[0])
    ensures StripLeft(pre + x) == x
  {
    if pre == [] {
      assert pre + x == x;
    } else {
      assert (pre + x)[1..] == pre[1..] + x;
      StripLeftSpaces(pre[1..], x);
    }
  }

  /** Trailing whitespace behind a text that does not end with whitespace is removed, and nothing else. */
  lemma {:induction false} StripRightSpaces(x: string, post: string)
    requires forall k :: 0 <= k < |post| ==> IsSpace(post[k])
    requires x != [] && !IsSpace(x[|x| - 1])
    ensures StripRight(x + post) == x
  {
    if post == [] {
      assert x + post == x;
    } else {
      var init := post[..|post| - 1];
      assert (x + post)[..|x + post| - 1] == x + init;
      StripRightSpaces(x, init);
    }
  }

  /** Any whitespace around a code that neither starts nor ends with whitespace is exactly what `Strip` removes. */
  lemma StripPadded(pre: string, code: string, post: string)
    requires forall k :: 0 <= k < |pre| ==> IsSpace(pre[k])
    requires forall k :: 0 <= k < |post| ==> IsSpace(post[k])
    requires code != [] && !IsSpace(code[0]) && !IsSpace(code[|code| - 1])
    ensures Strip(pre + code + post) == code
  {
    assert pre + code + post == pre + (code + post);
    StripLeftSpaces(pre, code + post);
    StripRightSpaces(code, post);
  }

  /** Whitespace around a matching code never changes its parse. */
  lemma ParseIgnoresPadding(pre: string, code: string, post: string)
    requires forall k :: 0 <= k < |pre| ==> IsSpace(pre[k])
    requires forall k :: 0 <= k < |post| ==> IsSpace(post[k])
    requires code != [] && !IsSpace(code[0]) && !IsSpace(code[|code| - 1])
    requires MatchCode(code).Some?
    ensures ParseSampleCode(pre + code + post) == ParseSampleCode(code)
  {
    StripPadded(pre, code, post);
    StripUnpadded(code);
  }

  /**
   * The shape the pattern accepts: letters `t[..i]`, digits `t[i..j]`, and
   * then either the end or a hyphen followed by digits to the end.
   */
  predicate CodeShape(t: string, i: nat, j: nat)
  {
    0 < i < j <= |t| && AllLetters(t[..i]) && AllDigits(t[i..j])
    && (j == |t| || (t[j] == '-' && j + 1 < |t| && AllDigits(t[j + 1..])))
  }

  /** Every text of the accepted shape matches, with the series and replicate read from its digit runs. */
  lemma ShapeMatches(t: string, i: nat, j: nat)
    requires CodeShape(t, i, j)
    ensures j == |t| ==> MatchCode(t) == Some(SampleCode(Upper(t[..i]), Some(DigitsValue(t[i..j])), None))
    ensures j < |t| ==> MatchCode(t) == Some(SampleCode(Upper(t[..i]), Some(DigitsValue(t[i..j])), Some(DigitsValue(t[j + 1..]))))
  {
    assert forall k :: 0 <= k < i ==> t[..i][k] == t[k];
    assert forall k :: i <= k < j ==> t[i..j][k - i] == t[k];
    LetterEndAt(t, 0, i);
    DigitEndAt(t, i, j);
  }

  /**
   * Conversely, a text matches only if it has the accepted shape, and the
   * match then reads the series and replicate from its digit runs.
   */
  lemma MatchShape(t: string) returns (i: nat, j: nat)
    requires MatchCode(t).Some?
    ensures CodeShape(t, i, j)
    ensures j == |t| ==> MatchCode(t).value == SampleCode(Upper(t[..i]), Some(DigitsValue(t[i..j])), None)
    ensures j < |t| ==> MatchCode(t).value == SampleCode(Upper(t[..i]), Some(DigitsValue(t[i..j])), Some(DigitsValue(t[j + 1..])))
  {
    i := LetterEnd(t, 0);
    j := DigitEnd(t, i);
    assert AllLetters(t[..i]);
    assert AllDigits(t[i..j]);
  }

  /** Letters followed by digits: prefix upper-cased, every digit in the series, no replicate. */
  lemma MatchLettersDigits(letters: string, digits: string)
    requires |letters| > 0 && AllLetters(letters)
    requires |digits| > 0 && AllDigits(digits)
    ensures MatchCode(letters + digits) == Some(SampleCode(Upper(letters), Some(DigitsValue(digits)), None))
  {
    var t := letters + digits;
    var i := |letters|;
    assert t[..i] == letters && t[i..|t|] == digits;
    ShapeMatches(t, i, |t|);
  }

  /** Letters, digits, a hyphen and digits: both digit runs are read. */
  lemma MatchWithReplicate(letters: string, series: string, replicate: string)
    requires |letters| > 0 && AllLetters(letters)
    requires |series| > 0 && AllDigits(series)
    requires |replicate| > 0 && AllDigits(replicate)
    ensures MatchCode(letters + series + "-" + replicate)
         == Some(SampleCode(Upper(letters), Some(DigitsValue(series)), Some(DigitsValue(replicate))))
  {
    var t := letters + series + "-" + replicate;
    var i, j := |letters|, |letters| + |series|;
    assert t[..i] == letters && t[i..j] == series && t[j] == '-' && t[j + 1..] == replicate;
    ShapeMatches(t, i, j);
  }

  /** Lower-case letters are raised and both digit runs are read. */
  lemma MatchExampleReplicate()
    ensures MatchCode("lb12-3") == Some(SampleCode("LB", Some(12), Some(3)))
  {
    MatchWithReplicate("lb", "12", "3");
    assert "lb" + "12" + "-" + "3" == "lb12-3";
    assert DigitsValue("12") == 12 by { assert DigitsPrefixValue("12", 1) == 1; }
    assert Upper("lb") == "LB";
  }

  /** One space on each side is removed by `Strip`. */
  lemma StripExample()
    ensures Strip(" lb12-3 ") == "lb12-3"
  {
    assert StripLeft(" lb12-3 ") == "lb12-3 " by { assert " lb12-3 "[1..] == "lb12-3 "; }
    assert StripRight("lb12-3 ") == "lb12-3" by { assert "lb12-3 "[..6] == "lb12-3"; }
  }

  /** Surrounding spaces are stripped and lower-case letters raised. */
  lemma ParseExamplePadded()
    ensures ParseSampleCode(" lb12-3 ") == SampleCode("LB", Some(12), Some(3))
  {
    MatchExampleReplicate();
    StripExample();
  }

  /** Without a hyphen the digit run is read greedily. */
  lemma MatchExampleGreedy()
    ensures MatchCode("SR123") == Some(SampleCode("SR", Some(123), None))
  {
    MatchLettersDigits("SR", "123");
    assert "SR" + "123" == "SR123";
    assert DigitsValue("123") == 123 by {
      assert DigitsPrefixValue("123", 1) == 1;
      assert DigitsPrefixValue("123", 2) == 12;
    }
    assert Upper("SR") == "SR";
  }

  /** Without a hyphen every trailing digit belongs to the series. */
  lemma ParseExampleGreedy()
    ensures ParseSampleCode("SR123") == SampleCode("SR", Some(123), None)
  {
    MatchExampleGreedy();
    StripUnpadded("SR123");
  }

  /** A code with no digit after its letters does not match and comes back unchanged. */
  lemma ParseExampleRejected()
    ensures ParseSampleCode("S-1") == SampleCode("S-1", None, None)
  {
    assert Strip("S-1") == "S-1";
    LetterEndAt("S-1", 0, 1);
    DigitEndAt("S-1", 1, 1);
  }
}
