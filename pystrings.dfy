/**
 * The parts of Python's `str` that the parsers rely on: the `in` substring
 * test, `str.splitlines()`, `str.strip()` and the whitespace and line-break
 * character classes behind them. Strings are sequences of Unicode scalar values.
 */
module PyStrings {

  /** `c.isspace()`: the characters Python treats as whitespace. */
  predicate IsSpace(c: char) {
    || c == ' '
    || ('\t' <= c <= '\r')            // \t \n \v \f \r
    || ('\U{1c}' <= c <= '\U{1f}')    // file, group, record and unit separators
    || c == '\U{85}' || c == '\U{a0}' || c == '\U{1680}'
    || ('\U{2000}' <= c <= '\U{200a}')
    || c == '\U{2028}' || c == '\U{2029}' || c == '\U{202f}' || c == '\U{205f}' || c == '\U{3000}'
  }

  /** The characters at which `str.splitlines()` ends a line. */
  predicate IsLineBreak(c: char): (b: bool)
    ensures b ==> IsSpace(c)   // so `strip()` also removes line breaks at either end
  {
    || c == '\n' || c == '\r' || c == '\U{0b}' || c == '\U{0c}'
    || c == '\U{1c}' || c == '\U{1d}' || c == '\U{1e}' || c == '\U{85}'
    || c == '\U{2028}' || c == '\U{2029}'
  }

  predicate NoLineBreak(s: string) {
    forall j :: 0 <= j < |s| ==> !IsLineBreak(s[j])
  }

  // ---------------------------------------------------------------------------
  // `m in s`
  // ---------------------------------------------------------------------------

  /** `m` occurs in `s` starting at index `p`. */
  predicate OccursAt(s: string, m: string, p: int) {
    0 <= p && p + |m| <= |s| && s[p..p + |m|] == m
  }

  /** Python's `m in s` on strings: `m` occurs in `s` as a contiguous substring. */
  predicate Contains(s: string, m: string) {
    exists p | 0 <= p <= |s| :: OccursAt(s, m, p)
  }

  /** An occurrence at position `p` of the slice `s[lo..hi]` is one at `lo + p` of `s`, and back. */
  lemma OccursInSlice(s: string, m: string, lo: nat, hi: nat, p: nat)
    requires lo <= hi <= |s|
    ensures OccursAt(s[lo..hi], m, p) <==> lo + p + |m| <= hi && OccursAt(s, m, lo + p)
  {
    if lo + p + |m| <= hi {
      var inner, outer := s[lo..hi][p..p + |m|], s[lo + p..lo + p + |m|];
      assert forall j :: 0 <= j < |m| ==> inner[j] == outer[j];
      assert inner == outer;
    }
  }

  /** Every slice of `s` occurs in `s` where it was cut. */
  lemma SliceOccurs(s: string, lo: nat, hi: nat)
    requires lo <= hi <= |s|
    ensures OccursAt(s, s[lo..hi], lo)
  {
  }

  /** A piece of a piece of `s` is a piece of `s`. */
  lemma ContainsTransitive(s: string, t: string, m: string)
    requires Contains(s, t) && Contains(t, m)
    ensures Contains(s, m)
  {
    var p :| 0 <= p <= |s| && OccursAt(s, t, p);
    assert OccursAt(s, t, p);
    var q :| 0 <= q <= |t| && OccursAt(t, m, q);
    assert OccursAt(t, m, q);
    assert t == s[p..p + |t|];
    OccursInSlice(s, m, p, p + |t|, q);
  }

  // ---------------------------------------------------------------------------
  // `s.splitlines()`
  // ---------------------------------------------------------------------------

  /** End of the line that starts at `i`: the index of the next line-break character, or `|s|`. */
  function LineEnd(s: string, i: nat): (j: nat)
    requires i <= |s|
    ensures i <= j <= |s|
    ensures forall k :: i <= k < j ==> !IsLineBreak(s[k])
    ensures j < |s| ==> IsLineBreak(s[j])
    decreases |s| - i
  {
    if i == |s| || IsLineBreak(s[i]) then i else LineEnd(s, i + 1)
  }

  /** How many characters the line boundary at `i` takes: `\r\n` counts as one boundary. */
  function BreakWidth(s: string, i: nat): (w: nat)
    requires i < |s|
    ensures 1 <= w <= 2 && i + w <= |s|
    ensures w == 2 <==> s[i] == '\r' && i + 1 < |s| && s[i + 1] == '\n'
  {
    if s[i] == '\r' && i + 1 < |s| && s[i + 1] == '\n' then 2 else 1
  }

  /** The lines of `s` from index `i` on, as `splitlines` cuts them. */
  function LinesFrom(s: string, i: nat): seq<string>
    requires i <= |s|
    decreases |s| - i
  {
    if i == |s| then []
    else
      var j := LineEnd(s, i);
      if j == |s| then [s[i..]]
      else [s[i..j]] + LinesFrom(s, j + BreakWidth(s, j))
  }

  /**
   * `s.splitlines()`: the lines of `s` without their terminators; a final
   * terminator does not open an empty last line.
   */
  function SplitLines(s: string): seq<string> {
    LinesFrom(s, 0)
  }

  /** The empty string has no lines, and any other string has at least one. */
  lemma SplitLinesEmpty(s: string)
    ensures s == [] <==> SplitLines(s) == []
  {
  }

  /** Index of the first line that contains `m`, or `|lines|` when none does. */
  function FirstMatch(lines: seq<string>, m: string): (k: nat)
    ensures k <= |lines|
    ensures k < |lines| ==> Contains(lines[k], m)
    ensures forall j :: 0 <= j < k ==> !Contains(lines[j], m)
  {
    if lines == [] then 0
    else if Contains(lines[0], m) then 0
    else 1 + FirstMatch(lines[1..], m)
  }

  /**
   * Where the `k`-th line from `i` on lies in `s`: it is the slice `s[a..b]`,
   * which holds no line-break character.
   */
  lemma {:induction false} LineBounds(s: string, i: nat, k: nat) returns (a: nat, b: nat)
    requires i <= |s| && k < |LinesFrom(s, i)|
    ensures i <= a <= b <= |s| && LinesFrom(s, i)[k] == s[a..b]
    ensures forall c :: a <= c < b ==> !IsLineBreak(s[c])
    decreases |s| - i
  {
    var j := LineEnd(s, i);
    if k == 0 {
      a, b := i, j;
      assert s[i..] == s[i..|s|];
    } else {
      var next := j + BreakWidth(s, j);
      assert LinesFrom(s, i)[k] == LinesFrom(s, next)[k - 1];
      a, b := LineBounds(s, next, k - 1);
    }
  }

  /** Every line that `s.splitlines()` yields is a piece of `s`. */
  lemma LinesAreSubstrings(s: string, k: nat)
    requires k < |SplitLines(s)|
    ensures Contains(s, SplitLines(s)[k])
  {
    var a, b := LineBounds(s, 0, k);
    SliceOccurs(s, a, b);
  }

  /** No line that `s.splitlines()` yields holds a line-break character. */
  lemma LinesHaveNoBreaks(s: string, k: nat)
    requires k < |SplitLines(s)|
    ensures NoLineBreak(SplitLines(s)[k])
  {
    var a, b := LineBounds(s, 0, k);
  }

  /**
   * A marker without line-break characters that occurs in `s` at or after
   * the start `i` of a line occurs inside one of the lines from there on: a
   * scan of those lines for it finds one.
   */
  lemma {:induction false} MarkerOnLineFrom(s: string, m: string, i: nat, p: int)
    requires m != [] && NoLineBreak(m)
    requires i <= p && OccursAt(s, m, p)
    ensures FirstMatch(LinesFrom(s, i), m) < |LinesFrom(s, i)|
    decreases |s| - i
  {
    var lines := LinesFrom(s, i);
    var j := LineEnd(s, i);
    if j == |s| {
      assert lines == [s[i..]];
      assert s[i..] == s[i..|s|];
      OccursInSlice(s, m, i, |s|, p - i);
    } else if p + |m| <= j {
      assert lines[0] == s[i..j];
      OccursInSlice(s, m, i, j, p - i);
    } else {
      assert forall c :: p <= c < p + |m| ==> s[c] == m[c - p];
      assert j < p;
      var w := BreakWidth(s, j);
      assert j + w <= p;
      MarkerOnLineFrom(s, m, j + w, p);
      assert lines[1..] == LinesFrom(s, j + w);
    }
  }

  /** The same for the whole of `s`: some line of `s.splitlines()` holds the marker. */
  lemma MarkerOnSomeLine(s: string, m: string, p: int)
    requires m != [] && NoLineBreak(m)
    requires OccursAt(s, m, p)
    ensures FirstMatch(SplitLines(s), m) < |SplitLines(s)|
  {
    MarkerOnLineFrom(s, m, 0, p);
  }

  // ---------------------------------------------------------------------------
  // `s.strip()`
  // ---------------------------------------------------------------------------

  /** The first index at or after `i` that is not whitespace, or `|s|`. */
  function SkipSpaces(s: string, i: nat): (j: nat)
    requires i <= |s|
    ensures i <= j <= |s|
    ensures forall k :: i <= k < j ==> IsSpace(s[k])
    ensures j < |s| ==> !IsSpace(s[j])
    decreases |s| - i
  {
    if i == |s| || !IsSpace(s[i]) then i else SkipSpaces(s, i + 1)
  }

  /** The end of `s[..e]` once its trailing whitespace is cut off. */
  function TrimEnd(s: string, e: nat): (f: nat)
    requires e <= |s|
    ensures f <= e
    ensures forall k :: f <= k < e ==> IsSpace(s[k])
    ensures 0 < f ==> !IsSpace(s[f - 1])
  {
    if e == 0 || !IsSpace(s[e - 1]) then e else TrimEnd(s, e - 1)
  }

  /** Neither end of `s` is whitespace. */
  predicate Trimmed(s: string) {
    s == [] || (!IsSpace(s[0]) && !IsSpace(s[|s| - 1]))
  }

  /** `s.strip()`: `s` without its leading and trailing whitespace. */
  function Strip(s: string): (r: string)
    ensures Trimmed(r)
    ensures Contains(s, r)
    ensures r == [] <==> forall j :: 0 <= j < |s| ==> IsSpace(s[j])
  {
    var a := SkipSpaces(s, 0);
    if a == |s| then
      assert OccursAt(s, [], 0);
      []
    else
      var e := TrimEnd(s, |s|);
      assert a < e;
      SliceOccurs(s, a, e);
      s[a..e]
  }

  /**
   * Stripping keeps every substring that neither starts nor ends with
   * whitespace: only the blank margins around it are removed.
   */
  lemma StripKeepsMarker(s: string, m: string)
    requires m != [] && !IsSpace(m[0]) && !IsSpace(m[|m| - 1])
    requires Contains(s, m)
    ensures Contains(Strip(s), m)
  {
    var p :| 0 <= p <= |s| && OccursAt(s, m, p);
    assert OccursAt(s, m, p);
    var a := SkipSpaces(s, 0);
    var e := TrimEnd(s, |s|);
    var last := p + |m| - 1;
    assert s[p] == m[0] && s[last] == m[|m| - 1];
    assert a <= p;
    assert last < e;
    assert Strip(s) == s[a..e];
    OccursInSlice(s, m, a, e, p - a);
    assert OccursAt(Strip(s), m, p - a);
  }
}
