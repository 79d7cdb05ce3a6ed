/**
 * The module-level state of `server/api/sensor-data.ts` and the code that reassigns it:
 * `initializeSerialPort` with its `open`, `data`, `error` and `close` listeners and its
 * open-failure callback, the endpoint handler and the shutdown signal handler.  Each
 * method changes the fields as the source does and is proved to follow `SensorRules`.
 */
module SensorSession {
  import opened Wrappers
  import opened JsValues
  import opened SensorRules

  class SensorPort {
    var port: Option<PortHandle>
    var parser: Option<LineParser>
    var isPortInitialized: bool
    var latestSensorData: Option<SensorData>
    /** How many `SerialPort` objects have been created: the id of the next one. */
    var created: nat

    function State(): Session
      reads this
    {
      Session(port, parser, isPortInitialized, latestSensorData, created)
    }

    ghost predicate Valid()
      reads this
    {
      SensorRules.Valid(State())
    }

    /** The module as first evaluated: no port, no data. */
    constructor ()
      ensures Valid()
      ensures State() == InitialSession
    {
      port, parser, isPortInitialized, latestSensorData, created := None, None, false, None, 0;
    }

    /** `initializeSerialPort()`.  Opening is asynchronous: the new port starts closed and
        `OnOpen` or `OnOpenFailed` reports the outcome. */
    method InitializeSerialPort()
      requires Valid()
      modifies this
      ensures Valid()
      ensures State() == SensorRules.InitializeSerialPort(old(State()))
      ensures old(isPortInitialized) ==> unchanged(this)
    {
      if isPortInitialized {
        return;
      }
      port := Some(PortHandle(created, SerialPortPath, BaudRate, false));
      created := created + 1;
      parser := Some(LineParser(port.value.id, LineDelimiter));
    }

    /** The `open` listener of the port object `portId`. */
    method OnOpen(portId: nat)
      requires Valid()
      modifies this
      ensures Valid()
      ensures State() == SensorRules.OnOpen(old(State()), portId)
      ensures isPortInitialized
    {
      if port.Some? && port.value.id == portId {
        port := Some(port.value.(isOpen := true));
      }
      isPortInitialized := true;
    }

    /** The constructor callback, called with an error. */
    method OnOpenFailed()
      requires Valid()
      modifies this
      ensures Valid()
      ensures State() == SensorRules.OnOpenFailed(old(State()))
      ensures !isPortInitialized && port.None? && latestSensorData == old(latestSensorData)
    {
      isPortInitialized := false;
      port := None;
    }

    /** The parser's `data` listener, given what `JSON.parse` made of the line. */
    method OnLine(parsed: ParseResult)
      requires Valid()
      modifies this
      ensures Valid()
      ensures State() == SensorRules.OnLine(old(State()), parsed)
      ensures ValidateLine(parsed).None? ==> unchanged(this)
    {
      match parsed {
        case ParseError =>
        case Parsed(data) =>
          if TypeofIsObject(data) && data != JNull && (HasProperty(data, "temperature") || HasProperty(data, "waterDetected")) {
            var temperature := GetProperty(data, "temperature");
            var number := if temperature.Some? then Some(ToNumber(temperature.value)) else None;
            // a throwing `Number` lands in the `catch`, before the assignment
            if number != Some(Throws) {
              latestSensorData := Some(SensorData(number, BooleanOf(GetProperty(data, "waterDetected"))));
            }
          }
      }
    }

    /** The `error` listener; `closeRequested` tells whether it called `port.close()`. */
    method OnError() returns (closeRequested: bool)
      requires Valid()
      modifies this
      ensures Valid()
      ensures (State(), closeRequested) == SensorRules.OnError(old(State()))
      ensures closeRequested <==> PortIsOpen(old(port))
    {
      closeRequested := false;
      if port.Some? && port.value.isOpen {
        closeRequested := true;
      }
      port := None;
      parser := None;
      isPortInitialized := false;
      latestSensorData := None;
    }

    /** The `close` listener. */
    method OnClose()
      requires Valid()
      modifies this
      ensures Valid()
      ensures State() == SensorRules.OnClose(old(State()))
    {
      port := None;
      parser := None;
      isPortInitialized := false;
      latestSensorData := None;
    }

    /** The endpoint handler: reads the session and sets the status code. */
    method HandleRequest(statusCode: int) returns (response: Response)
      ensures response == Respond(State(), statusCode)
      ensures response.statusCode != statusCode ==> response.statusCode == ServiceUnavailable
      ensures response.body.Latest? ==> isPortInitialized && port.Some? && port.value.isOpen
    {
      if !isPortInitialized || port.None? || !port.value.isOpen {
        return Response(ServiceUnavailable, Unavailable(NotConnectedError, latestSensorData));
      }
      return Response(statusCode, Latest(latestSensorData));
    }

    /** The signal handler: closes the port if it is open, then exits with 1 only when that
        close reported an error (`closeFailed`, the close callback's argument). */
    method Shutdown(closeFailed: bool) returns (closeRequested: bool, exitCode: int)
      ensures closeRequested <==> PortIsOpen(port)
      ensures exitCode == ShutdownExitCode(State(), closeFailed)
      ensures exitCode == 1 <==> closeRequested && closeFailed
    {
      if port.Some? && port.value.isOpen {
        closeRequested := true;
        exitCode := if closeFailed then 1 else 0;
      } else {
        closeRequested := false;
        exitCode := 0;
      }
    }
  }

  /** The module's evaluation: fresh state, then the one call to `initializeSerialPort()`. */
  method Load() returns (session: SensorPort)
    ensures fresh(session) && session.Valid()
    ensures session.State() == SensorRules.InitializeSerialPort(InitialSession)
    ensures session.port == Some(PortHandle(0, SerialPortPath, BaudRate, false)) && !session.isPortInitialized
  {
    session := new SensorPort();
    session.InitializeSerialPort();
  }
}
