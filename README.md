# network_extractor: the detect–connect–parse pipeline in Dafny

This project models the core of `network_extractor`, a tool that logs into a
network device, works out which operating system it runs, sends that
system's catalogued commands, and parses each command's output into
structured data. The modelled parts are:

- `Orchestrator.execute`. It detects the OS, looks up the command
  catalog, opens a session, picks a parser, runs and parses every command,
  then disconnects. The first four stages are fatal, and each ends the run
  with a one-field error document. A command that produces no output is
  recorded as failed, and the run goes on.
- The parser registry (`PARSERS`, `get_parser`) and the dispatch
  `parser.parse(output)`.
- The Cisco IOS parser:
  - an interface table when the output carries both the `Interface` and
    the `IP-Address` headings;
  - otherwise the stripped first line mentioning `Cisco IOS Software`;
  - otherwise the raw text.
- The Juniper Junos parser: the stripped first line mentioning `Junos:`,
  otherwise the raw text.
- The session object `DeviceConnector`, as the orchestrator uses it:
  `connect`, `send_command` and `disconnect`.

The Python string operations the parsers rely on are written out in
`pystrings.dfy`:

- `m in s`;
- `str.splitlines()`, with every line boundary Python recognises and `\r\n`
  as one boundary;
- `str.strip()`, with Python's whitespace set.

`Execute` is a method on an `Orchestrator` class. It holds the command
catalog and drives a `Session` object whose `connected` flag it updates in
place. `Execute` is proved equal to the function `Run`, including the
sequence of calls it makes on the transport. The pipeline's promises are
lemmas about `Run`:

- each fatal stage gives its own error;
- the result keeps the catalog's keys in the catalog's order;
- every command is sent once, in order;
- a session is closed exactly once when, and only when, it was opened;
- a command without output does not stop the rest.

Behaviour outside the program is passed in as parameters:

- what the OS detector returned (`Option<string>`);
- whether the host accepts the connection;
- what the host answers to each command (`Device`);
- the rows TextFSM extracts from a text (`TextFsm`).

Behaviour of the code worth noting:

- The parser is looked up once, after connecting. A device type with
  commands but no parser therefore connects, then disconnects, then fails
  (`ParserMiss`).
- The IOS banner branch falls through to the raw fallback when the scan
  over `splitlines()` finds no line. `CiscoIos.VersionBranchReturns` proves
  that this cannot happen for a marker without line-break characters.
- `disconnect` does not clear the connection (`Session.Disconnect` leaves
  `connected` as it was).
- `disconnect` is not in a `finally` block, so an exception while a command
  runs would skip it. Exceptions are not modelled (see "Left out").

## Model

| member | source | states |
|---|---|---|
| Orchestrator.Run | src/orchestrator.py:25-73 | The reference definition of `execute` that the pipeline lemmas are about. The run ends with data exactly when detection gives a non-empty name with a non-empty command section, the host connects and a parser is registered; the data then has one entry per command. |
| Orchestrator.Truthy | src/orchestrator.py:39 | Python truthiness of a string or None, as in `if not device_os` and `if output`: false exactly for None and the empty string. |
| Orchestrator.CommandsFor | src/orchestrator.py:45 | `self.commands.get(device_os)`: the device type's section when the catalog has one, None otherwise. |
| Orchestrator.Orchestrator.constructor | src/orchestrator.py:15-23 | The orchestrator holds the command catalog it was given. |
| Orchestrator.Orchestrator.Execute | src/orchestrator.py:25-73 | The returned document equals `Run`'s outcome, and the calls made on the session equal `Run`'s call sequence. The lemmas below state its properties. |
| Orchestrator.Orchestrator.RunCommands | src/orchestrator.py:61-69 | On an open session, the loop sends each command once, in catalog order. The session stays open. `device_data` gets, per key in order, the parse of that command's reply, or the failure marker. |
| Orchestrator.EntryFor | src/orchestrator.py:65-69 | A command's entry is the failure marker exactly when its output is None or empty. |
| Orchestrator.Collect | src/orchestrator.py:62-69 | The loop's result has one entry per catalogued command. |
| Orchestrator.CollectAt | src/orchestrator.py:63-69 | Entry `i` has key `i` of the catalog and the outcome of command `i`'s own output. |
| Orchestrator.SendsCounts | src/orchestrator.py:63-65 | The loop's transport calls send exactly the catalog's commands, in order. They contain no connect and no disconnect. |
| Orchestrator.DetectionFailure | src/orchestrator.py:37-40 | A None or empty detection gives "Could not detect device OS". No session is created. |
| Orchestrator.CatalogMiss | src/orchestrator.py:44-47 | A device type with no commands, or an empty command section, gives "No commands found for <os>". No connection is attempted. |
| Orchestrator.ConnectFailure | src/orchestrator.py:49-53 | A refused connection gives "Failed to connect to <host>" after exactly one attempt. Nothing is sent or closed. |
| Orchestrator.ParserMiss | src/orchestrator.py:55-59 | A device type without a parser gives "No parser found for <os>". The session was opened and is closed exactly once, and no command is sent. |
| Orchestrator.LiveSessionCounts | src/orchestrator.py:50-65 | Before the close, a complete run has made one successful connect and sent the catalog's commands. |
| Orchestrator.CompleteSessionCounts | src/orchestrator.py:49-72 | A complete run makes one connect, one send per command in order, and one disconnect. |
| Orchestrator.Success | src/orchestrator.py:25-73 | When every stage succeeds, the result has exactly the catalog's keys in catalog order. Each command is sent once, in order. The session is closed once, and that is the last call. |
| Orchestrator.PartialFailureTolerated | src/orchestrator.py:63-69 | Entry `i` is the failure marker when command `i` answers the empty string, and its parse otherwise, whatever the other commands do. |
| Orchestrator.SessionDiscipline | src/orchestrator.py:49-72 | On every path there is at most one connection attempt. Disconnects equal successful connects. Commands are sent only when a connection was made, and an opened session's first call is the connect and its last the disconnect, so every send lies between them. |
| Orchestrator.ErrorsIdentifyStage | src/orchestrator.py:38-59 | The four fatal error messages differ from one another, so the failing stage can be told from the message. |
| OutputParser.GetParser | src/output_parser.py:15-25 | `cisco_ios` gives the Cisco parser and `juniper_junos` the Juniper parser. Every other device type gives None. |
| OutputParser.RegistryDomain | src/output_parser.py:9-13 | The registry holds exactly the two vendors. `arista_eos` is not registered. |
| OutputParser.Parse | src/orchestrator.py:67 | The Juniper parser never yields a table. A fallback result keeps the output unchanged. |
| OutputParser.FallbackIdempotent | devices/parsers/cisco_ios.py:45-46 | A fallback is the raw output itself. Re-parsing it gives the same fallback, for either parser. |
| CiscoIos.Parse | devices/parsers/cisco_ios.py:12-46 | A table is produced exactly when both headings occur, with one record per FSM row. A version line holds the banner, has no blank ends, and is a piece of the output. The fallback keeps the output. |
| CiscoIos.DictZip | devices/parsers/cisco_ios.py:37 | `dict(zip(k, v))` has exactly the first min(len(k), len(v)) keys. With distinct keys, each key maps to its own value. |
| CiscoIos.HeaderDistinct | devices/parsers/cisco_ios.py:28-31 | The template's four `Value` names are distinct. |
| CiscoIos.ZipDistinct | devices/parsers/cisco_ios.py:37 | Zipping distinct keys with as many values keeps every key and its own value. |
| CiscoIos.Record | devices/parsers/cisco_ios.py:28-37 | A record's keys are exactly the template header, and column `j` carries the row's `j`-th value. |
| CiscoIos.Records | devices/parsers/cisco_ios.py:37 | The comprehension gives one record per row, in row order. |
| CiscoIos.TableShape | devices/parsers/cisco_ios.py:27-37 | With both headings present, the result is a table with one record per FSM row. Each record is keyed by the four columns and carries that row's values. |
| CiscoIos.VersionBranchReturns | devices/parsers/cisco_ios.py:40-43 | Without the table headings, output holding the banner yields the stripped first line holding it. The line scan never runs out. |
| CiscoIos.RawExactlyWhenUnrecognised | devices/parsers/cisco_ios.py:26-46 | The fallback is taken if and only if neither the table headings nor the banner occur. |
| CiscoIos.RawIdempotent | devices/parsers/cisco_ios.py:45-46 | Parsing the text of a fallback again gives the same fallback. |
| JuniperJunos.Parse | devices/parsers/juniper_junos.py:11-32 | Never a table. A version line holds `Junos:`, has no blank ends, and is a piece of the output. The fallback keeps the output. |
| JuniperJunos.VersionBranchReturns | devices/parsers/juniper_junos.py:26-29 | Output holding `Junos:` yields the stripped first line holding it. |
| JuniperJunos.RawExactlyWhenUnrecognised | devices/parsers/juniper_junos.py:26-32 | The fallback is taken if and only if `Junos:` does not occur. |
| JuniperJunos.RawIdempotent | devices/parsers/juniper_junos.py:31-32 | Parsing the text of a fallback again gives the same fallback. |
| BaseParser.FirstLineWith | devices/parsers/cisco_ios.py:41-43 | The scan returns the first line of `splitlines()` holding the marker. That line has no line break and is a piece of the text. None means no line holds the marker. |
| BaseParser.FirstLineFound | devices/parsers/cisco_ios.py:40-43 | For a marker without line breaks or blank ends, the scan finds a line if and only if the marker occurs in the text. |
| BaseParser.StrippedLineKeepsMarker | devices/parsers/cisco_ios.py:43 | `line.strip()` of a line holding the marker still holds it, has no blank ends, and is a piece of the text. |
| PyStrings.IsSpace | devices/parsers/cisco_ios.py:43 | The characters Python's `str.isspace()` accepts, which `strip()` removes. |
| PyStrings.IsLineBreak | devices/parsers/cisco_ios.py:41 | The characters at which `splitlines()` ends a line; every one of them is also whitespace. |
| PyStrings.Contains | devices/parsers/cisco_ios.py:27 | Python's `m in s` on strings: `m` occurs in `s` as a contiguous piece at some position. |
| PyStrings.SplitLines | devices/parsers/cisco_ios.py:41 | `str.splitlines()`: cuts at each line break, `\r\n` counting as one, without a trailing empty line. Its properties are the lemmas below. |
| PyStrings.Strip | devices/parsers/cisco_ios.py:43 | `strip()` leaves no whitespace at either end and returns a piece of its input. It is empty if and only if the input is all whitespace. |
| PyStrings.StripKeepsMarker | devices/parsers/cisco_ios.py:43 | `strip()` keeps every substring that neither starts nor ends with whitespace. |
| PyStrings.SplitLinesEmpty | devices/parsers/cisco_ios.py:41 | `splitlines()` gives no lines exactly for the empty string. |
| PyStrings.LineBounds | devices/parsers/cisco_ios.py:41 | Every line `splitlines()` yields is a slice of the text that holds no line-break character. |
| PyStrings.LinesAreSubstrings | devices/parsers/cisco_ios.py:41 | Every line is a piece of the text. |
| PyStrings.LinesHaveNoBreaks | devices/parsers/cisco_ios.py:41 | No line holds a line-break character. |
| PyStrings.MarkerOnLineFrom | devices/parsers/cisco_ios.py:41-42 | A marker without line breaks that occurs at or after the start of a line lies within one of the lines from there on. |
| PyStrings.MarkerOnSomeLine | devices/parsers/cisco_ios.py:40-42 | A marker without line breaks that occurs in the text lies within some line of `splitlines()`. |
| PyStrings.FirstMatch | devices/parsers/cisco_ios.py:41-42 | The index found is the first line holding the marker, or the number of lines when none does. |
| DeviceConnector.Session.constructor | src/device_connector.py:12-26 | A new session stores its host, credentials and device type, is not connected, and has made no calls. |
| DeviceConnector.Session.Connect | src/device_connector.py:28-42 | The call succeeds exactly when the host is reachable. A success connects the session. A failure leaves its earlier state. One attempt is logged. |
| DeviceConnector.Session.SendCommand | src/device_connector.py:51-63 | On a connected session, the call returns the device's reply and logs one send. Otherwise it returns None and logs nothing. |
| DeviceConnector.Session.Disconnect | src/device_connector.py:44-49 | The call closes (logs a disconnect) only when connected, and does not reset the connection. |
| DeviceConnector.CountersAppend | src/device_connector.py:28-63 | Connects, attempts, sent commands and disconnects add up over consecutive stretches of a session's calls. |

## Left out

- Loading the command file with YAML in `Orchestrator.__init__`: the parsed catalog is passed to the constructor. A catalog section is a sequence of `(key, command)` pairs with distinct keys, in file order. Sections that are not mappings are not modelled.
- `json.dumps`: `Execute` returns the document as a datatype (`Outcome`), not as JSON text.
- `print` calls in `execute` and `connect`: console output only.
- The OS detector (`src/device_detector.py`) is not part of this model. Its answer is a parameter of `Execute`: None or a string.
- The TextFSM regular-expression engine: the rows it records for a text are a parameter (`TextFsm`), four values per row. The template's regular expressions are not modelled. The table branch is modelled on the assumption that TextFSM accepts the template as the code passes it (a `str` rather than a file object, and a `${IP-Address}` placeholder); if it does not, the branch raises before building any record, which this model does not capture.
- The netmiko transport: a device is modelled as reachable or not, and as a fixed reply per command. Authentication, timeouts and changing replies are not modelled. `username` and `password` are only stored in the session.
- Exceptions raised by `send_command`, `ConnectHandler` (other than the two caught ones) or TextFSM are not modelled. With them, `disconnect` could be skipped, because the source has no `try`/`finally`.
- CiscoIos.DictZip: the result is a Dafny `map`, so the insertion order of Python's `dict` is not kept; keys and values are.
- `main.py` (argument parsing, printing the result) is not part of this model.
- Concurrent invocations of `execute` are not modelled; each run owns its session.
