/**
 * What every vendor parser returns, and the line scan the vendor parsers share.
 */
module BaseParser {
  import opened Wrappers
  import opened PyStrings

  /**
   * The three shapes a parse can take: a single `{"version": line}` mapping,
   * a list of records for tabular output, or `{"raw_output": text}` when no
   * template matched.
   */
  datatype ParseResult =
    | Version(line: string)
    | Table(records: seq<map<string, string>>)
    | Raw(output: string)

  /**
   * A marker the line scan can rely on: not empty, no line-break character
   * inside it (so it cannot straddle two lines) and no whitespace at its ends
   * (so `strip()` cannot cut into it).
   */
  predicate LineMarker(marker: string) {
    marker != [] && NoLineBreak(marker) && !IsSpace(marker[0]) && !IsSpace(marker[|marker| - 1])
  }

  /**
   * The loop `for line in text.splitlines(): if marker in line: ...`: the first
   * line that contains `marker`, or None when the loop runs to its end.
   */
  function FirstLineWith(text: string, marker: string): (r: Option<string>)
    ensures r.Some? ==> Contains(r.value, marker) && NoLineBreak(r.value) && Contains(text, r.value)
    ensures r.Some? ==> exists k :: 0 <= k < |SplitLines(text)| && SplitLines(text)[k] == r.value
                                    && forall j :: 0 <= j < k ==> !Contains(SplitLines(text)[j], marker)
    ensures r.None? ==> forall line :: line in SplitLines(text) ==> !Contains(line, marker)
  {
    var lines := SplitLines(text);
    var k := FirstMatch(lines, marker);
    if k < |lines| then
      LinesAreSubstrings(text, k);
      LinesHaveNoBreaks(text, k);
      Some(lines[k])
    else
      None
  }

  /**
   * The scan finds a line exactly when the marker occurs in the text: a marker
   * without line breaks always lies within one line.
   */
  lemma FirstLineFound(text: string, marker: string)
    requires LineMarker(marker)
    ensures FirstLineWith(text, marker).Some? <==> Contains(text, marker)
  {
    var r := FirstLineWith(text, marker);
    if Contains(text, marker) {
      var p :| 0 <= p <= |text| && OccursAt(text, marker, p);
      assert OccursAt(text, marker, p);
      MarkerOnSomeLine(text, marker, p);
    }
    if r.Some? {
      ContainsTransitive(text, r.value, marker);
    }
  }

  /** `line.strip()` of a line holding the marker still holds it and has no blank ends. */
  lemma StrippedLineKeepsMarker(text: string, line: string, marker: string)
    requires LineMarker(marker) && Contains(line, marker) && Contains(text, line)
    ensures Contains(Strip(line), marker) && Trimmed(Strip(line)) && Contains(text, Strip(line))
  {
    StripKeepsMarker(line, marker);
    ContainsTransitive(text, line, Strip(line));
  }
}
