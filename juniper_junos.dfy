/**
 * The Juniper Junos parser: the first line naming the Junos release,
 * otherwise the raw text.
 */
module JuniperJunos {
  import opened Wrappers
  import opened PyStrings
  import opened BaseParser

  const VersionMarker: string := "Junos:"

  /** `JuniperJunosParser.parse`. */
  function Parse(output: string): (r: ParseResult)
    ensures !r.Table?
    ensures r.Version? ==> Contains(output, VersionMarker) && Contains(r.line, VersionMarker)
                           && Trimmed(r.line) && Contains(output, r.line)
    ensures r.Raw? ==> r.output == output
  {
    if Contains(output, VersionMarker) then
      match FirstLineWith(output, VersionMarker)
      case Some(line) =>
        StrippedLineKeepsMarker(output, line, VersionMarker);
        Version(Strip(line))
      case None => Raw(output)   // the loop ran out of lines: fall through to the fallback
    else
      Raw(output)
  }

  /** Output that mentions `Junos:` yields the stripped first line holding it. */
  lemma VersionBranchReturns(output: string)
    requires Contains(output, VersionMarker)
    ensures FirstLineWith(output, VersionMarker).Some?
    ensures Parse(output) == Version(Strip(FirstLineWith(output, VersionMarker).value))
  {
    FirstLineFound(output, VersionMarker);
  }

  /** The fallback is taken exactly when `Junos:` is absent, and keeps the text as it is. */
  lemma RawExactlyWhenUnrecognised(output: string)
    ensures Parse(output).Raw? <==> !Contains(output, VersionMarker)
    ensures Parse(output).Raw? ==> Parse(output) == Raw(output)
  {
    if Contains(output, VersionMarker) {
      VersionBranchReturns(output);
    }
  }

  /** Re-parsing the text of a fallback result gives the same fallback. */
  lemma RawIdempotent(output: string)
    requires Parse(output).Raw?
    ensures Parse(Parse(output).output) == Parse(output)
  {
  }
}
