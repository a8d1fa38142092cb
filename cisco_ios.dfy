/**
 * The Cisco IOS parser: an interface table when the output carries the
 * `show ip interface brief` column headings, otherwise the IOS banner line,
 * otherwise the raw text.
 */
module CiscoIos {
  import opened Wrappers
  import opened PyStrings
  import opened BaseParser

  const InterfaceMarker: string := "Interface"
  const AddressMarker: string := "IP-Address"
  const VersionMarker: string := "Cisco IOS Software"

  /** The `Value` names of the interface template, in declaration order: the FSM's header. */
  const Header: seq<string> := ["Interface", "IP-Address", "Status", "Protocol"]

  /** One row the template records: one value per header column. */
  type FsmRow = row: seq<string> | |row| == 4 witness ["", "", "", ""]

  /**
   * `textfsm.TextFSM(template).ParseText(text)` for the interface template:
   * the regular-expression engine is outside this model, so it is a parameter.
   */
  type TextFsm = string -> seq<FsmRow>

  predicate HasTableMarkers(output: string) {
    Contains(output, InterfaceMarker) && Contains(output, AddressMarker)
  }

  function Min(a: nat, b: nat): nat { if a <= b then a else b }

  predicate Distinct(keys: seq<string>) {
    forall i, j :: 0 <= i < j < |keys| ==> keys[i] != keys[j]
  }

  /** `dict(zip(keys, values))`: pairs up to the shorter list; a repeated key keeps its last value. */
  function DictZip(keys: seq<string>, values: seq<string>): (d: map<string, string>)
    ensures forall x :: x in d <==> x in keys[..Min(|keys|, |values|)]
    ensures Distinct(keys) ==> forall i :: 0 <= i < Min(|keys|, |values|) ==> d[keys[i]] == values[i]
  {
    if keys == [] || values == [] then map[]
    else
      var d' := DictZip(keys[1..], values[1..]);
      assert keys[..Min(|keys|, |values|)] == [keys[0]] + keys[1..][..Min(|keys| - 1, |values| - 1)];
      if keys[0] in d' then d' else d'[keys[0] := values[0]]
  }

  /** The four column names differ, so no column of a row overwrites another. */
  lemma HeaderDistinct()
    ensures Distinct(Header)
  {
    assert Header[0][0] == 'I' && Header[1][0] == 'I' && Header[2][0] == 'S' && Header[3][0] == 'P';
    assert Header[0][1] == 'n' && Header[1][1] == 'P';
  }

  /** Zipping distinct keys with as many values gives a dictionary with exactly those keys, each with its own value. */
  lemma ZipDistinct(keys: seq<string>, values: seq<string>)
    requires |keys| == |values| && Distinct(keys)
    ensures forall x :: x in DictZip(keys, values) <==> x in keys
    ensures forall i :: 0 <= i < |keys| ==> DictZip(keys, values)[keys[i]] == values[i]
  {
    assert keys[..Min(|keys|, |values|)] == keys;
  }

  /** `dict(zip(fsm.header, row))` for one recorded row. */
  function Record(row: FsmRow): (rec: map<string, string>)
    ensures forall x :: x in rec <==> x in Header
    ensures forall j :: 0 <= j < 4 ==> rec[Header[j]] == row[j]
  {
    HeaderDistinct();
    ZipDistinct(Header, row);
    DictZip(Header, row)
  }

  /** The list comprehension `[dict(zip(fsm.header, row)) for row in result]`. */
  function Records(rows: seq<FsmRow>): (records: seq<map<string, string>>)
    ensures |records| == |rows|
    ensures forall i :: 0 <= i < |rows| ==> records[i] == Record(rows[i])
  {
    if rows == [] then [] else [Record(rows[0])] + Records(rows[1..])
  }

  /** `CiscoIosParser.parse`. */
  function Parse(output: string, fsm: TextFsm): (r: ParseResult)
    ensures r.Table? <==> HasTableMarkers(output)
    ensures r.Table? ==> |r.records| == |fsm(output)|
    ensures r.Version? ==> Contains(output, VersionMarker) && Contains(r.line, VersionMarker)
                           && Trimmed(r.line) && Contains(output, r.line)
    ensures r.Raw? ==> r.output == output
  {
    if HasTableMarkers(output) then
      Table(Records(fsm(output)))
    else if Contains(output, VersionMarker) then
      match FirstLineWith(output, VersionMarker)
      case Some(line) =>
        StrippedLineKeepsMarker(output, line, VersionMarker);
        Version(Strip(line))
      case None => Raw(output)   // the loop ran out of lines: fall through to the fallback
    else
      Raw(output)
  }

  /**
   * Every record of a table has exactly the four template columns as keys, and
   * the table has one record per row the FSM recorded, each carrying that
   * row's values under their column names.
   */
  lemma TableShape(output: string, fsm: TextFsm)
    requires HasTableMarkers(output)
    ensures Parse(output, fsm).Table?
    ensures |Parse(output, fsm).records| == |fsm(output)|
    ensures forall i, x :: 0 <= i < |fsm(output)| ==> (x in Parse(output, fsm).records[i] <==> x in Header)
    ensures forall i, j :: 0 <= i < |fsm(output)| && 0 <= j < 4 ==>
              Parse(output, fsm).records[i][Header[j]] == fsm(output)[i][j]
  {
    var records := Parse(output, fsm).records;
    forall i | 0 <= i < |records|
      ensures records[i] == Record(fsm(output)[i])
    {
    }
  }

  /**
   * Without the table headings, output that mentions the IOS banner yields the
   * stripped first line holding it: the scan never runs out of lines.
   */
  lemma VersionBranchReturns(output: string, fsm: TextFsm)
    requires !HasTableMarkers(output) && Contains(output, VersionMarker)
    ensures FirstLineWith(output, VersionMarker).Some?
    ensures Parse(output, fsm) == Version(Strip(FirstLineWith(output, VersionMarker).value))
  {
    FirstLineFound(output, VersionMarker);
  }

  /** The fallback is taken exactly when neither template applies, and keeps the text as it is. */
  lemma RawExactlyWhenUnrecognised(output: string, fsm: TextFsm)
    ensures Parse(output, fsm).Raw? <==> !HasTableMarkers(output) && !Contains(output, VersionMarker)
    ensures Parse(output, fsm).Raw? ==> Parse(output, fsm) == Raw(output)
  {
    if !HasTableMarkers(output) && Contains(output, VersionMarker) {
      VersionBranchReturns(output, fsm);
    }
  }

  /** Re-parsing the text of a fallback result gives the same fallback. */
  lemma RawIdempotent(output: string, fsm: TextFsm)
    requires Parse(output, fsm).Raw?
    ensures Parse(Parse(output, fsm).output, fsm) == Parse(output, fsm)
  {
  }
}
