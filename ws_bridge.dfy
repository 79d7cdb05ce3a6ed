/**
 * The module-level state of `server/websocket-server.js` and the code that reassigns it:
 * `connectToArduino`, `reconnect` with its timeout, the interval callback, the port's
 * `error` and `close` listeners, the parser's `data` listener with its broadcast loop,
 * the server's `connection` listener and the `SIGINT` handler.  Each method changes the
 * fields as the source does and is proved to follow `WsRules`.
 */
module WsBridge {
  import opened Wrappers
  import opened WsRules

  class Bridge {
    /** `WebSocketServer.OPEN`, compared with each client's `readyState` (`None`: undefined). */
    const openConstant: Option<int>
    var serialPort: Option<SerialHandle>
    var parser: Option<LineParser>
    /** How many `SerialPort` objects have been created: the id of the next one. */
    var created: nat
    /** How many `reconnect` timeouts are waiting to fire. */
    var pendingRetries: nat
    /** `wss.clients`, in insertion order. */
    var clients: seq<Client>
    /** Every `send` so far, in order. */
    var sent: seq<Delivery>

    function State(): BridgeState
      reads this
    {
      BridgeState(serialPort, parser, created, pendingRetries, clients, sent)
    }

    ghost predicate Valid()
      reads this
    {
      WsRules.Valid(State())
    }

    /** The server before the first connection attempt. */
    constructor (openConstant: Option<int>)
      ensures Valid()
      ensures State() == InitialState && this.openConstant == openConstant
    {
      this.openConstant := openConstant;
      serialPort, parser, created, pendingRetries, clients, sent := None, None, 0, 0, [], [];
    }

    /** `connectToArduino()`, given what `SerialPort.list()` returns and what `open` reports. */
    method ConnectToArduino(listing: Listing, outcome: OpenOutcome) returns (ok: bool)
      requires Valid()
      modifies this
      ensures Valid()
      ensures (State(), ok) == Connect(old(State()), listing, outcome)
      ensures old(IsOpen(serialPort)) ==> serialPort == old(serialPort)
      ensures ok ==> IsOpen(serialPort)
    {
      ConnectPreservesValid(State(), listing, outcome);
      var portPath := FindArduinoPort(listing);
      if portPath.None? || portPath.value == "" {
        return false;
      }
      if serialPort.Some? && serialPort.value.isOpen {
        return true;
      }
      var handle := SerialHandle(created, portPath.value, BaudRate, false);
      serialPort := Some(handle);
      created := created + 1;
      if outcome.OpenErr? {
        return false;
      }
      serialPort := Some(handle.(isOpen := true));
      parser := Some(LineParser(handle.id, LineDelimiter));
      return true;
    }

    /** `reconnect()`: `closeRequested` tells whether `close()` was called. */
    method Reconnect() returns (closeRequested: bool)
      requires Valid()
      modifies this
      ensures Valid()
      ensures (State(), closeRequested) == WsRules.Reconnect(old(State()))
      ensures pendingRetries == old(pendingRetries) + 1 && !IsOpen(serialPort)
    {
      closeRequested := false;
      if serialPort.Some? && serialPort.value.isOpen {
        serialPort := Some(serialPort.value.(isOpen := false));
        closeRequested := true;
      }
      pendingRetries := pendingRetries + 1;
    }

    /** The port's `error` listener. */
    method OnSerialError() returns (closeRequested: bool)
      requires Valid()
      modifies this
      ensures Valid()
      ensures (State(), closeRequested) == WsRules.OnSerialError(old(State()))
      ensures sent == old(sent)
    {
      closeRequested := Reconnect();
    }

    /** The `close` listener of the port object `portId`. */
    method OnSerialClose(portId: nat) returns (closeRequested: bool)
      requires Valid()
      modifies this
      ensures Valid()
      ensures (State(), closeRequested) == WsRules.OnSerialClose(old(State()), portId)
      ensures sent == old(sent)
    {
      if serialPort.Some? && serialPort.value.id == portId {
        serialPort := Some(serialPort.value.(isOpen := false));
      }
      closeRequested := Reconnect();
    }

    /** The interval callback; `attempted` tells whether it called `connectToArduino()`. */
    method IntervalTick(listing: Listing, outcome: OpenOutcome) returns (attempted: bool)
      requires Valid()
      modifies this
      ensures Valid()
      ensures (State(), attempted) == WsRules.IntervalTick(old(State()), listing, outcome)
      ensures attempted <==> !old(IsOpen(serialPort))
    {
      attempted := false;
      if !(serialPort.Some? && serialPort.value.isOpen) {
        var _ := ConnectToArduino(listing, outcome);
        attempted := true;
      }
    }

    /** A pending `reconnect` timeout fires. */
    method RetryTimerFires(listing: Listing, outcome: OpenOutcome)
      requires Valid()
      modifies this
      ensures Valid()
      ensures State() == WsRules.RetryTimerFires(old(State()), listing, outcome)
    {
      if pendingRetries > 0 {
        pendingRetries := pendingRetries - 1;
        var _ := ConnectToArduino(listing, outcome);
      }
    }

    /** The parser's `data` listener: builds `{type:"data", data}` once and sends it to every
        client whose `readyState` equals the OPEN constant, in registry order. */
    method OnLine(data: string)
      requires Valid()
      modifies this
      ensures Valid()
      ensures State() == WsRules.OnLine(old(State()), data, openConstant)
    {
      var message := DataMessage(data);
      var registry := clients;
      var out := sent;
      var i := 0;
      while i < |registry|
        invariant 0 <= i <= |registry|
        invariant out == sent + Fanout(registry[..i], message, openConstant)
      {
        var client := registry[i];
        if openConstant.Some? && client.readyState == openConstant.value {
          out := out + [Delivery(client.id, message)];
        }
        assert registry[..i + 1][..i] == registry[..i];
        i := i + 1;
      }
      assert registry[..i] == registry;
      sent := out;
    }

    /** The server's `connection` listener. */
    method OnClientJoin(client: Client)
      requires Valid()
      modifies this
      ensures Valid()
      ensures State() == WsRules.OnClientJoin(old(State()), client)
      ensures sent == old(sent) + [Delivery(client.id, StatusMessage(old(IsOpen(serialPort))))]
    {
      StepPreservesValid(State(), ClientJoin(client), openConstant);
      if !HasClient(clients, client.id) {
        clients := clients + [client];
      }
      sent := sent + [Delivery(client.id, StatusMessage(serialPort.Some? && serialPort.value.isOpen))];
    }

    /** A socket closes and leaves `wss.clients`. */
    method OnClientLeave(clientId: nat)
      requires Valid()
      modifies this
      ensures Valid()
      ensures State() == WsRules.OnClientLeave(old(State()), clientId)
    {
      clients := RemoveClient(clients, clientId);
    }

    /** The `SIGINT` handler: closes the port if open; the exit code is always 0. */
    method SigInt() returns (closeRequested: bool, exitCode: int)
      requires Valid()
      modifies this
      ensures Valid()
      ensures (State(), closeRequested, exitCode) == WsRules.SigInt(old(State()))
      ensures exitCode == 0
    {
      closeRequested := false;
      if serialPort.Some? && serialPort.value.isOpen {
        serialPort := Some(serialPort.value.(isOpen := false));
        closeRequested := true;
      }
      exitCode := 0;
    }
  }

  /** The server's start-up: the constructor, then the initial connection attempt. */
  method Start(openConstant: Option<int>, listing: Listing, outcome: OpenOutcome) returns (bridge: Bridge, ok: bool)
    ensures fresh(bridge) && bridge.Valid() && bridge.openConstant == openConstant
    ensures (bridge.State(), ok) == Connect(InitialState, listing, outcome)
    ensures ok <==> FindArduinoPort(listing).Some? && FindArduinoPort(listing).value != "" && outcome.OpenOk?
  {
    bridge := new Bridge(openConstant);
    ok := bridge.ConnectToArduino(listing, outcome);
  }
}
