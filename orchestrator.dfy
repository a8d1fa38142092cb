/**
 * The pipeline: detect the device type, look up its commands, connect, pick
 * its parser, run and parse every command, disconnect. The first four stages
 * are fatal and end the run with a one-field error; a command that produces
 * no output is recorded as failed and the run goes on.
 */
module Orchestrator {
  import opened Wrappers
  import opened BaseParser
  import opened OutputParser
  import opened DeviceConnector
  import CiscoIos

  predicate DistinctKeys(entries: seq<(string, string)>) {
    forall i, j :: 0 <= i < j < |entries| ==> entries[i].0 != entries[j].0
  }

  /** One device type's section of the command file: `key: command` pairs in file order, keys unique. */
  type Commands = entries: seq<(string, string)> | DistinctKeys(entries)

  /** `self.commands`: the command file, by device type. */
  type Catalog = map<string, Commands>

  /** One key of the result: the parser's output, or `{"error": ...}` for a command that produced nothing. */
  datatype Entry = Parsed(result: ParseResult) | Failed(error: string)

  /** What `execute` returns: a one-field error document, or the per-key results in command order. */
  datatype Outcome = Error(error: string) | Done(data: seq<(string, Entry)>)

  /** The outcome together with the calls the session made on the transport. */
  datatype Execution = Execution(outcome: Outcome, events: seq<Event>)

  const DetectError: string := "Could not detect device OS"
  const ExecError: string := "Command execution failed"

  function NoCommandsError(deviceOs: string): string { "No commands found for " + deviceOs }
  function ConnectError(host: string): string { "Failed to connect to " + host }
  function NoParserError(deviceOs: string): string { "No parser found for " + deviceOs }

  /** Python truthiness of a value that is a string or None. */
  predicate Truthy(s: Option<string>) {
    s.Some? && s.value != ""
  }

  /** `self.commands.get(device_os)`. */
  function CommandsFor(catalog: Catalog, deviceOs: string): Option<Commands> {
    if deviceOs in catalog then Some(catalog[deviceOs]) else None
  }

  /** The keys of an ordered mapping, in order. */
  function Keys<V>(entries: seq<(string, V)>): (keys: seq<string>)
    ensures |keys| == |entries| && forall i :: 0 <= i < |entries| ==> keys[i] == entries[i].0
  {
    seq(|entries|, i requires 0 <= i < |entries| => entries[i].0)
  }

  /** The command strings of a section, in order. */
  function CommandTexts(commands: seq<(string, string)>): (texts: seq<string>)
    ensures |texts| == |commands| && forall i :: 0 <= i < |commands| ==> texts[i] == commands[i].1
  {
    seq(|commands|, i requires 0 <= i < |commands| => commands[i].1)
  }

  /** The loop body's choice between `parser.parse(output)` and the failure marker. */
  function EntryFor(parser: Parser, output: Option<string>, fsm: CiscoIos.TextFsm): (e: Entry)
    ensures e.Failed? <==> !Truthy(output)
  {
    if Truthy(output) then Parsed(Parse(parser, output.value, fsm)) else Failed(ExecError)
  }

  /** `device_data` after the loop has run over `commands` on a live connection, built in loop order. */
  function Collect(commands: seq<(string, string)>, parser: Parser, reply: string -> string, fsm: CiscoIos.TextFsm)
    : (data: seq<(string, Entry)>)
    ensures |data| == |commands|
  {
    if commands == [] then []
    else
      var last := commands[|commands| - 1];
      Collect(commands[..|commands| - 1], parser, reply, fsm)
        + [(last.0, EntryFor(parser, Some(reply(last.1)), fsm))]
  }

  /** The `i`-th entry of `device_data` is the `i`-th command's key with the outcome of its own output. */
  lemma {:induction false} CollectAt(commands: seq<(string, string)>, parser: Parser, reply: string -> string,
                                     fsm: CiscoIos.TextFsm, i: nat)
    requires i < |commands|
    ensures Collect(commands, parser, reply, fsm)[i] == (commands[i].0, EntryFor(parser, Some(reply(commands[i].1)), fsm))
    decreases |commands|
  {
    if i < |commands| - 1 {
      var init := commands[..|commands| - 1];
      CollectAt(init, parser, reply, fsm, i);
    }
  }

  /** The transport calls the loop makes: one send per command, in order. */
  function SendsOf(commands: seq<(string, string)>): (events: seq<Event>)
    ensures |events| == |commands|
  {
    if commands == [] then []
    else SendsOf(commands[..|commands| - 1]) + [SendCall(commands[|commands| - 1].1)]
  }

  /** The sends carry the section's commands in order, and nothing else is a connect or a disconnect. */
  lemma {:induction false} SendsCounts(commands: seq<(string, string)>)
    ensures Sent(SendsOf(commands)) == CommandTexts(commands)
    ensures Connects(SendsOf(commands)) == 0 && ConnectAttempts(SendsOf(commands)) == 0
    ensures Disconnects(SendsOf(commands)) == 0
    decreases |commands|
  {
    if commands != [] {
      var init := commands[..|commands| - 1];
      var last := SendCall(commands[|commands| - 1].1);
      SendsCounts(init);
      CountersSingle(last);
      CountersAppend(SendsOf(init), [last]);
      assert CommandTexts(commands) == CommandTexts(init) + [commands[|commands| - 1].1];
    }
  }

  /** One more turn of the loop appends one entry to `device_data`... */
  lemma CollectStep(commands: seq<(string, string)>, i: nat, parser: Parser, reply: string -> string,
                    fsm: CiscoIos.TextFsm)
    requires i < |commands|
    ensures Collect(commands[..i + 1], parser, reply, fsm)
         == Collect(commands[..i], parser, reply, fsm) + [(commands[i].0, EntryFor(parser, Some(reply(commands[i].1)), fsm))]
  {
    assert commands[..i + 1][..i] == commands[..i];
  }

  /** ... and one send to the session. */
  lemma SendsStep(commands: seq<(string, string)>, i: nat)
    requires i < |commands|
    ensures SendsOf(commands[..i + 1]) == SendsOf(commands[..i]) + [SendCall(commands[i].1)]
  {
    assert commands[..i + 1][..i] == commands[..i];
  }

  /**
   * `execute(host, username, password)` as a function of what the detector
   * returned, the command file, and how the device behaves.
   */
  function Run(catalog: Catalog, host: string, detected: Option<string>, device: Device, fsm: CiscoIos.TextFsm)
    : (r: Execution)
    ensures r.outcome.Done? <==> Truthy(detected) && detected.value in catalog && catalog[detected.value] != []
                                 && device.reachable && GetParser(detected.value).Some?
    ensures r.outcome.Done? ==> |r.outcome.data| == |catalog[detected.value]|
  {
    if !Truthy(detected) then Execution(Error(DetectError), [])
    else
      var deviceOs := detected.value;
      var found := CommandsFor(catalog, deviceOs);
      if found.None? || found.value == [] then Execution(Error(NoCommandsError(deviceOs)), [])
      else if !device.reachable then Execution(Error(ConnectError(host)), [ConnectCall(false)])
      else match GetParser(deviceOs)
        case None => Execution(Error(NoParserError(deviceOs)), [ConnectCall(true), DisconnectCall])
        case Some(parser) =>
          Execution(Done(Collect(found.value, parser, device.reply, fsm)),
                    [ConnectCall(true)] + SendsOf(found.value) + [DisconnectCall])
  }

  /** `Orchestrator`: holds the command file loaded at construction. */
  class Orchestrator {
    const commands: Catalog

    /** `__init__`, with the parsed command file passed in instead of read from disk. */
    constructor (commands: Catalog)
      ensures this.commands == commands
    {
      this.commands := commands;
    }

    /**
     * `execute`: `detected` is what `detect_device_os(host, username, password)`
     * returned, `device` how the host answers the session, `fsm` the TextFSM engine.
     */
    method Execute(host: string, username: string, password: string,
                   detected: Option<string>, device: Device, fsm: CiscoIos.TextFsm)
      returns (result: Outcome, ghost events: seq<Event>)
      ensures result == Run(commands, host, detected, device, fsm).outcome
      ensures events == Run(commands, host, detected, device, fsm).events
    {
      events := [];
      // 1. Detect device OS
      if !Truthy(detected) {
        return Error(DetectError), events;
      }
      var deviceOs := detected.value;

      // 2. Get commands for the detected OS
      var deviceCommands := CommandsFor(commands, deviceOs);
      if deviceCommands.None? || deviceCommands.value == [] {
        return Error(NoCommandsError(deviceOs)), events;
      }
      var entries := deviceCommands.value;

      // 3. Connect with the known device type
      var connector := new Session(host, username, password, deviceOs, device);
      var connection := connector.Connect();
      if !connection {
        return Error(ConnectError(host)), connector.log;
      }

      // 4. Get the parser for the device
      var parser := GetParser(deviceOs);
      if parser.None? {
        connector.Disconnect();
        return Error(NoParserError(deviceOs)), connector.log;
      }

      // 5. Execute the commands and parse their output
      var deviceData := RunCommands(connector, entries, parser.value, fsm);

      // 6. Disconnect and return the data
      connector.Disconnect();
      result, events := Done(deviceData), connector.log;
    }

    /** The loop of step 5: one `send_command` per entry, in order, each output parsed or marked failed. */
    method RunCommands(connector: Session, entries: seq<(string, string)>, parser: Parser, fsm: CiscoIos.TextFsm)
      returns (deviceData: seq<(string, Entry)>)
      requires connector.connected && connector.log == [ConnectCall(true)]
      modifies connector
      ensures connector.connected
      ensures connector.log == [ConnectCall(true)] + SendsOf(entries)
      ensures deviceData == Collect(entries, parser, connector.device.reply, fsm)
    {
      deviceData := [];
      var i := 0;
      while i < |entries|
        invariant 0 <= i <= |entries|
        invariant connector.connected
        invariant connector.log == [ConnectCall(true)] + SendsOf(entries[..i])
        invariant deviceData == Collect(entries[..i], parser, connector.device.reply, fsm)
      {
        var key, command := entries[i].0, entries[i].1;
        var output := connector.SendCommand(command);
        assert output == Some(connector.device.reply(command));
        SendsStep(entries, i);
        assert connector.log == [ConnectCall(true)] + SendsOf(entries[..i + 1]);
        var entry: Entry;
        if Truthy(output) {
          entry := Parsed(Parse(parser, output.value, fsm));
        } else {
          entry := Failed(ExecError);
        }
        assert entry == EntryFor(parser, output, fsm);
        deviceData := deviceData + [(key, entry)];
        CollectStep(entries, i, parser, connector.device.reply, fsm);
        i := i + 1;
      }
      assert entries[..i] == entries;
    }
  }

  // ---------------------------------------------------------------------------
  // Properties of the pipeline
  // ---------------------------------------------------------------------------

  /** A failed or empty detection ends the run before any session exists. */
  lemma DetectionFailure(catalog: Catalog, host: string, detected: Option<string>, device: Device, fsm: CiscoIos.TextFsm)
    requires !Truthy(detected)
    ensures Run(catalog, host, detected, device, fsm) == Execution(Error(DetectError), [])
  {
  }

  /** A device type with no or no non-empty command section ends the run before any connection attempt. */
  lemma CatalogMiss(catalog: Catalog, host: string, deviceOs: string, device: Device, fsm: CiscoIos.TextFsm)
    requires deviceOs != ""
    requires deviceOs !in catalog || catalog[deviceOs] == []
    ensures Run(catalog, host, Some(deviceOs), device, fsm) == Execution(Error(NoCommandsError(deviceOs)), [])
  {
  }

  /** A refused connection is reported by host name; nothing is sent and nothing is closed. */
  lemma ConnectFailure(catalog: Catalog, host: string, deviceOs: string, device: Device, fsm: CiscoIos.TextFsm)
    requires deviceOs != "" && deviceOs in catalog && catalog[deviceOs] != []
    requires !device.reachable
    ensures var run := Run(catalog, host, Some(deviceOs), device, fsm);
            && run.outcome == Error(ConnectError(host))
            && run.events == [ConnectCall(false)]
            && ConnectAttempts(run.events) == 1 && Connects(run.events) == 0
            && Sent(run.events) == [] && Disconnects(run.events) == 0
  {
    CountersSingle(ConnectCall(false));
  }

  /** A device type without a parser is found only after connecting; the session is closed once and sees no command. */
  lemma ParserMiss(catalog: Catalog, host: string, deviceOs: string, device: Device, fsm: CiscoIos.TextFsm)
    requires deviceOs in catalog && catalog[deviceOs] != []
    requires device.reachable
    requires deviceOs != "" && deviceOs != "cisco_ios" && deviceOs != "juniper_junos"
    ensures var run := Run(catalog, host, Some(deviceOs), device, fsm);
            && run.outcome == Error(NoParserError(deviceOs))
            && run.events == [ConnectCall(true), DisconnectCall]
            && Connects(run.events) == 1 && Sent(run.events) == [] && Disconnects(run.events) == 1
  {
    CountersSingle(ConnectCall(true));
    CountersSingle(DisconnectCall);
    CountersAppend([ConnectCall(true)], [DisconnectCall]);
  }

  /** The calls of a live session before it is closed: one connect, then one send per command. */
  lemma LiveSessionCounts(commands: seq<(string, string)>)
    ensures var events := [ConnectCall(true)] + SendsOf(commands);
            && Sent(events) == CommandTexts(commands)
            && Connects(events) == 1 && ConnectAttempts(events) == 1 && Disconnects(events) == 0
  {
    var sends := SendsOf(commands);
    var head := [ConnectCall(true)];
    CountersSingle(ConnectCall(true));
    assert Sent(head) == [] && Connects(head) == 1 && ConnectAttempts(head) == 1 && Disconnects(head) == 0;
    CountersAppend(head, sends);
    SendsCounts(commands);
  }

  /** The calls of a complete run: connect, one send per command, disconnect. */
  lemma CompleteSessionCounts(commands: seq<(string, string)>)
    ensures var events := [ConnectCall(true)] + SendsOf(commands) + [DisconnectCall];
            && Sent(events) == CommandTexts(commands)
            && Connects(events) == 1 && ConnectAttempts(events) == 1 && Disconnects(events) == 1
  {
    var live := [ConnectCall(true)] + SendsOf(commands);
    LiveSessionCounts(commands);
    CountersSingle(DisconnectCall);
    CountersAppend(live, [DisconnectCall]);
  }

  /**
   * When every stage succeeds, the result has exactly the catalog's keys in
   * the catalog's order, each command is sent once in that order, and the
   * session is closed once, as the last call.
   */
  lemma Success(catalog: Catalog, host: string, deviceOs: string, device: Device, fsm: CiscoIos.TextFsm)
    requires deviceOs in catalog && catalog[deviceOs] != []
    requires device.reachable
    requires deviceOs == "cisco_ios" || deviceOs == "juniper_junos"
    ensures var run := Run(catalog, host, Some(deviceOs), device, fsm);
            && run.outcome.Done?
            && Keys(run.outcome.data) == Keys(catalog[deviceOs])
            && Sent(run.events) == CommandTexts(catalog[deviceOs])
            && Connects(run.events) == 1 && ConnectAttempts(run.events) == 1
            && Disconnects(run.events) == 1
            && run.events[0] == ConnectCall(true) && run.events[|run.events| - 1] == DisconnectCall
  {
    var commands := catalog[deviceOs];
    var run := Run(catalog, host, Some(deviceOs), device, fsm);
    var parser := GetParser(deviceOs).value;
    assert run.outcome.data == Collect(commands, parser, device.reply, fsm);
    forall i | 0 <= i < |commands| {
      CollectAt(commands, parser, device.reply, fsm, i);
    }
    assert Keys(run.outcome.data) == Keys(commands);
    assert run.events == [ConnectCall(true)] + SendsOf(commands) + [DisconnectCall];
    CompleteSessionCounts(commands);
  }

  /**
   * A command that produces no output gets the failure marker, and every
   * other command its parse, each depending only on its own output.
   */
  lemma PartialFailureTolerated(catalog: Catalog, host: string, deviceOs: string, device: Device,
                                fsm: CiscoIos.TextFsm, i: nat)
    requires deviceOs in catalog && i < |catalog[deviceOs]|
    requires device.reachable
    requires deviceOs == "cisco_ios" || deviceOs == "juniper_junos"
    ensures var run := Run(catalog, host, Some(deviceOs), device, fsm);
            var output := device.reply(catalog[deviceOs][i].1);
            && run.outcome.Done?
            && run.outcome.data[i].0 == catalog[deviceOs][i].0
            && run.outcome.data[i].1 == if output == "" then Failed(ExecError)
                                        else Parsed(Parse(GetParser(deviceOs).value, output, fsm))
  {
    CollectAt(catalog[deviceOs], GetParser(deviceOs).value, device.reply, fsm, i);
  }

  /**
   * Whatever path the run takes, it attempts at most one connection, and the
   * session is closed exactly once if and only if that connection was made;
   * an opened session's first call is the connect and its last the
   * disconnect, so every command is sent between the two.
   */
  lemma SessionDiscipline(catalog: Catalog, host: string, detected: Option<string>, device: Device,
                          fsm: CiscoIos.TextFsm)
    ensures var events := Run(catalog, host, detected, device, fsm).events;
            && ConnectAttempts(events) <= 1
            && Disconnects(events) == Connects(events)
            && (Sent(events) != [] ==> Connects(events) == 1)
            && (Connects(events) == 1 ==>
                  |events| >= 2 && events[0] == ConnectCall(true) && events[|events| - 1] == DisconnectCall)
  {
    var run := Run(catalog, host, detected, device, fsm);
    if Truthy(detected) {
      var deviceOs := detected.value;
      if deviceOs in catalog && catalog[deviceOs] != [] {
        if !device.reachable {
          ConnectFailure(catalog, host, deviceOs, device, fsm);
        } else if GetParser(deviceOs).None? {
          ParserMiss(catalog, host, deviceOs, device, fsm);
        } else {
          Success(catalog, host, deviceOs, device, fsm);
        }
      }
    }
  }

  /** The four fatal messages differ from one another, so the caller can tell which stage failed. */
  lemma ErrorsIdentifyStage(deviceOs: string, host: string, otherOs: string)
    ensures DetectError != NoCommandsError(deviceOs) && DetectError != ConnectError(host)
    ensures DetectError != NoParserError(otherOs)
    ensures NoCommandsError(deviceOs) != ConnectError(host) && NoCommandsError(deviceOs) != NoParserError(otherOs)
    ensures ConnectError(host) != NoParserError(otherOs)
  {
    assert DetectError[0] == 'C' && NoCommandsError(deviceOs)[0] == 'N';
    assert ConnectError(host)[0] == 'F' && NoParserError(otherOs)[0] == 'N';
    assert NoCommandsError(deviceOs)[3] == 'c' && NoParserError(otherOs)[3] == 'p';
  }
}
