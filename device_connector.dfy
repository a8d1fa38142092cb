/**
 * The remote session the orchestrator drives. The transport itself is outside
 * the model: a `Device` value stands for what the host does, and a ghost log
 * records every call that reaches the live connection.
 */
module DeviceConnector {
  import opened Wrappers

  /** The remote host as the session sees it: whether it accepts the login, and what it prints per command. */
  datatype Device = Device(reachable: bool, reply: string -> string)

  /** A call that reached the transport: a connection attempt, a command, or closing the connection. */
  datatype Event = ConnectCall(ok: bool) | SendCall(command: string) | DisconnectCall

  /** `DeviceConnector`: credentials, the device type, and the connection once one is open. */
  class Session {
    const host: string
    const username: string
    const password: string
    const deviceType: string
    const device: Device
    /** `self.connection` is set (truthy). */
    var connected: bool
    ghost var log: seq<Event>

    constructor (host: string, username: string, password: string, deviceType: string, device: Device)
      ensures this.host == host && this.username == username && this.password == password
      ensures this.deviceType == deviceType && this.device == device
      ensures !connected && log == []
    {
      this.host := host;
      this.username := username;
      this.password := password;
      this.deviceType := deviceType;
      this.device := device;
      connected := false;
      log := [];
    }

    /** `connect()`: a refused login or a timeout leaves the connection as it was and reports failure. */
    method Connect() returns (ok: bool)
      modifies this
      ensures ok == device.reachable
      ensures connected == (old(connected) || ok)
      ensures log == old(log) + [ConnectCall(ok)]
    {
      ok := device.reachable;
      if ok {
        connected := true;
      }
      log := log + [ConnectCall(ok)];
    }

    /** `send_command(command)`: the device's reply, or None when there is no connection. */
    method SendCommand(command: string) returns (output: Option<string>)
      modifies this
      ensures connected == old(connected)
      ensures output == if connected then Some(device.reply(command)) else None
      ensures log == old(log) + if connected then [SendCall(command)] else []
    {
      if connected {
        output := Some(device.reply(command));
        log := log + [SendCall(command)];
      } else {
        output := None;
      }
    }

    /**
     * `disconnect()`: closes the connection if there is one and is a no-op
     * otherwise. Like the source, it leaves `connection` set.
     */
    method Disconnect()
      modifies this
      ensures connected == old(connected)
      ensures log == old(log) + if connected then [DisconnectCall] else []
    {
      if connected {
        log := log + [DisconnectCall];
      }
    }
  }

  /** Successful connection attempts in a log. */
  function Connects(log: seq<Event>): nat
  {
    if log == [] then 0 else Connects(log[..|log| - 1]) + if log[|log| - 1] == ConnectCall(true) then 1 else 0
  }

  /** Connection attempts in a log, successful or not. */
  function ConnectAttempts(log: seq<Event>): nat
  {
    if log == [] then 0 else ConnectAttempts(log[..|log| - 1]) + if log[|log| - 1].ConnectCall? then 1 else 0
  }

  /** The commands sent, in order. */
  function Sent(log: seq<Event>): seq<string>
  {
    if log == [] then [] else Sent(log[..|log| - 1]) + if log[|log| - 1].SendCall? then [log[|log| - 1].command] else []
  }

  /** Connections closed. */
  function Disconnects(log: seq<Event>): nat
  {
    if log == [] then 0 else Disconnects(log[..|log| - 1]) + if log[|log| - 1] == DisconnectCall then 1 else 0
  }

  /** The counters of a one-call log. */
  lemma CountersSingle(e: Event)
    ensures Connects([e]) == if e == ConnectCall(true) then 1 else 0
    ensures ConnectAttempts([e]) == if e.ConnectCall? then 1 else 0
    ensures Sent([e]) == if e.SendCall? then [e.command] else []
    ensures Disconnects([e]) == if e == DisconnectCall then 1 else 0
  {
    assert [e][..0] == [];
  }

  /** The counters add up over consecutive stretches of a log. */
  lemma {:induction false} CountersAppend(a: seq<Event>, b: seq<Event>)
    ensures Connects(a + b) == Connects(a) + Connects(b)
    ensures ConnectAttempts(a + b) == ConnectAttempts(a) + ConnectAttempts(b)
    ensures Sent(a + b) == Sent(a) + Sent(b)
    ensures Disconnects(a + b) == Disconnects(a) + Disconnects(b)
    decreases |b|
  {
    if b == [] {
      assert a + b == a;
    } else {
      var b' := b[..|b| - 1];
      assert (a + b)[..|a + b| - 1] == a + b';
      CountersAppend(a, b');
    }
  }
}
