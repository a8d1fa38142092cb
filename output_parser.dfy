/**
 * The parser registry: one parser per supported device type, fixed when the
 * module is loaded, and the polymorphic `parse` call that dispatches on it.
 */
module OutputParser {
  import opened Wrappers
  import opened BaseParser
  import CiscoIos
  import JuniperJunos

  /** The registered parser classes; `BaseParser` is the interface they share. */
  datatype Parser = CiscoIosParser | JuniperJunosParser

  /** `PARSERS`: the registry, never changed after it is built. */
  const Parsers: map<string, Parser> := map["cisco_ios" := CiscoIosParser, "juniper_junos" := JuniperJunosParser]

  /** `get_parser(device_type)`, that is `PARSERS.get(device_type)`. */
  function GetParser(deviceType: string): (r: Option<Parser>)
    ensures r == Some(CiscoIosParser) <==> deviceType == "cisco_ios"
    ensures r == Some(JuniperJunosParser) <==> deviceType == "juniper_junos"
    ensures r == None <==> deviceType != "cisco_ios" && deviceType != "juniper_junos"
  {
    if deviceType in Parsers then Some(Parsers[deviceType]) else None
  }

  /** The registry holds exactly the two vendors; the Arista entry is commented out. */
  lemma RegistryDomain()
    ensures Parsers.Keys == {"cisco_ios", "juniper_junos"}
    ensures GetParser("arista_eos") == None
  {
  }

  /** `parser.parse(output)`: the call the orchestrator makes on whichever parser it got. */
  function Parse(parser: Parser, output: string, fsm: CiscoIos.TextFsm): (r: ParseResult)
    ensures parser.JuniperJunosParser? ==> !r.Table?
    ensures r.Raw? ==> r.output == output
  {
    match parser
    case CiscoIosParser => CiscoIos.Parse(output, fsm)
    case JuniperJunosParser => JuniperJunos.Parse(output)
  }

  /** Every registered parser falls back to the unchanged text, and does so again on that text. */
  lemma FallbackIdempotent(parser: Parser, output: string, fsm: CiscoIos.TextFsm)
    requires Parse(parser, output, fsm).Raw?
    ensures Parse(parser, output, fsm) == Raw(output)
    ensures Parse(parser, Parse(parser, output, fsm).output, fsm) == Raw(output)
  {
  }
}
