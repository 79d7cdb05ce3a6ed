/**
 * The HTTP snapshot endpoint `server/api/sensor-data.ts`, as pure rules: the session
 * state held in four module variables, its transitions on the serial library's events,
 * the validation and normalisation of one received line, the endpoint's response and
 * the shutdown exit code.  The class in `SensorSession` drives these rules in place.
 */
module SensorRules {
  import opened Wrappers
  import opened JsValues

  const SerialPortPath: string := "COM3"
  const BaudRate: nat := 9600
  /** The line parser splits on CR LF, as the device's `println` writes it. */
  const LineDelimiter: string := "\r\n"
  const ServiceUnavailable: int := 503
  const NotConnectedError: string := "Serial port not connected or initialized."

  /** `latestSensorData` when not null; a `None` temperature is JSON `null`. */
  datatype SensorData = SensorData(temperature: Option<JsNumber>, waterDetected: bool)

  /** A `SerialPort` object: `id` tells apart the objects created one after another. */
  datatype PortHandle = PortHandle(id: nat, path: string, baudRate: nat, isOpen: bool)

  /** A `ReadlineParser` piped from the port with the given id. */
  datatype LineParser = LineParser(portId: nat, delimiter: string)

  /** The module variables `port`, `parser`, `isPortInitialized`, `latestSensorData`,
      and the number of port objects created so far. */
  datatype Session = Session(
    port: Option<PortHandle>,
    parser: Option<LineParser>,
    isPortInitialized: bool,
    latestSensorData: Option<SensorData>,
    created: nat)

  const InitialSession: Session := Session(None, None, false, None, 0)

  /** What the library reports, one event at a time. */
  datatype Event =
    | Initialize                    // `initializeSerialPort()` is called
    | PortOpened(portId: nat)       // the `open` event of the port object `portId`
    | OpenFailed                    // the constructor's callback with an error
    | LineRead(parsed: ParseResult) // the parser's `data` event, after `JSON.parse`
    | PortError                     // the `error` event
    | PortClosed                    // the `close` event

  /** The body returned by the endpoint. */
  datatype Body =
    | Unavailable(error: string, lastData: Option<SensorData>)
    | Latest(data: Option<SensorData>)

  datatype Response = Response(statusCode: int, body: Body)

  // ----- Invariant -----

  /** What every reachable session satisfies: a port, when present, is the latest object
      created, for the configured path and rate, and has its CR LF parser attached. */
  predicate Valid(s: Session) {
    && (s.port.Some? ==>
          && s.port.value.id == s.created - 1
          && s.port.value.path == SerialPortPath
          && s.port.value.baudRate == BaudRate
          && s.parser == Some(LineParser(s.port.value.id, LineDelimiter)))
    && (s.parser.Some? ==> s.parser.value.portId < s.created && s.parser.value.delimiter == LineDelimiter)
  }

  predicate PortIsOpen(port: Option<PortHandle>) {
    port.Some? && port.value.isOpen
  }

  // ----- Line validation and normalisation -----

  /** The inline check: `typeof data === "object" && data !== null &&
      ("temperature" in data || "waterDetected" in data)`. */
  predicate Accepts(v: Json) {
    TypeofIsObject(v) && v != JNull && (HasProperty(v, "temperature") || HasProperty(v, "waterDetected"))
  }

  /** `Number(data.temperature)` throws: the `catch` around the listener's body drops the
      line before `latestSensorData` is assigned. */
  predicate TemperatureThrows(v: Json)
    requires Accepts(v)
  {
    "temperature" in v.members && ToNumber(v.members["temperature"]).Throws?
  }

  /** The record stored for an accepted value whose temperature converts: `Number(temperature)`
      or null when the key is missing, and `Boolean(waterDetected)`. */
  function Normalize(v: Json): SensorData
    requires Accepts(v)
  {
    var t := GetProperty(v, "temperature");
    SensorData(if t.Some? then Some(ToNumber(t.value)) else None, BooleanOf(GetProperty(v, "waterDetected")))
  }

  /** The new value of `latestSensorData` a received line yields, or `None` when the line
      leaves it untouched (parse error, rejected value, or a temperature `Number` throws on). */
  function ValidateLine(p: ParseResult): (r: Option<SensorData>)
    ensures r.Some? <==>
      && p.Parsed? && p.value.JObject?
      && ("temperature" in p.value.members || "waterDetected" in p.value.members)
      && !("temperature" in p.value.members && ToNumber(p.value.members["temperature"]).Throws?)
    ensures r.Some? ==>
      && (r.value.temperature.None? <==> "temperature" !in p.value.members)
      && (r.value.temperature.Some? ==>
            r.value.temperature.value == ToNumber(p.value.members["temperature"])
            && !r.value.temperature.value.Throws?)
      && (r.value.waterDetected <==> "waterDetected" in p.value.members && Truthy(p.value.members["waterDetected"]))
  {
    match p
    case ParseError => None
    case Parsed(v) =>
      if !Accepts(v) then None
      else if TemperatureThrows(v) then None
      else Some(Normalize(v))
  }

  // ----- Transitions -----

  /** `initializeSerialPort`: a no-op once the flag is set; otherwise a new port object
      (opening asynchronously) and its parser replace the old ones. */
  function InitializeSerialPort(s: Session): Session {
    if s.isPortInitialized then s
    else
      var handle := PortHandle(s.created, SerialPortPath, BaudRate, false);
      s.(port := Some(handle),
         parser := Some(LineParser(handle.id, LineDelimiter)),
         created := s.created + 1)
  }

  /** The `open` listener: the flag is set, whichever port object fired. */
  function OnOpen(s: Session, portId: nat): Session {
    var port := if s.port.Some? && s.port.value.id == portId then Some(s.port.value.(isOpen := true)) else s.port;
    s.(port := port, isPortInitialized := true)
  }

  /** The constructor callback with an error: flag cleared and `port` nulled; the parser
      and the data are left as they were. */
  function OnOpenFailed(s: Session): Session {
    s.(isPortInitialized := false, port := None)
  }

  function OnLine(s: Session, p: ParseResult): Session {
    var d := ValidateLine(p);
    if d.Some? then s.(latestSensorData := d) else s
  }

  /** The `error` listener: everything reset; the boolean says whether `close()` was requested. */
  function OnError(s: Session): (Session, bool) {
    (Session(None, None, false, None, s.created), PortIsOpen(s.port))
  }

  /** The `close` listener: everything reset. */
  function OnClose(s: Session): Session {
    Session(None, None, false, None, s.created)
  }

  function Step(s: Session, e: Event): Session {
    match e
    case Initialize => InitializeSerialPort(s)
    case PortOpened(id) => OnOpen(s, id)
    case OpenFailed => OnOpenFailed(s)
    case LineRead(p) => OnLine(s, p)
    case PortError => OnError(s).0
    case PortClosed => OnClose(s)
  }

  function Run(s: Session, events: seq<Event>): Session
    decreases |events|
  {
    if events == [] then s else Run(Step(s, events[0]), events[1..])
  }

  // ----- Endpoint and shutdown -----

  /** The guard of the endpoint: initialised, a port present, and that port open. */
  predicate Serving(s: Session) {
    s.isPortInitialized && PortIsOpen(s.port)
  }

  /** The event handler, given the response's current status code. */
  function Respond(s: Session, statusCode: int): (r: Response)
    ensures !Serving(s) <==> r.body.Unavailable?
    ensures !Serving(s) ==> r.statusCode == ServiceUnavailable && r.body.lastData == s.latestSensorData
    ensures Serving(s) ==> r.statusCode == statusCode && r.body.data == s.latestSensorData
  {
    if !s.isPortInitialized || s.port.None? || !s.port.value.isOpen then
      Response(ServiceUnavailable, Unavailable(NotConnectedError, s.latestSensorData))
    else
      Response(statusCode, Latest(s.latestSensorData))
  }

  /** The signal handler's exit code, given whether `close` reported an error. */
  function ShutdownExitCode(s: Session, closeFailed: bool): (code: int)
    ensures code == 0 || code == 1
    ensures code == 1 <==> PortIsOpen(s.port) && closeFailed
  {
    if s.port.Some? && s.port.value.isOpen then (if closeFailed then 1 else 0) else 0
  }

  // ----- Properties -----

  /** Arrays pass the `typeof` test but never hold either key: exactly the objects with
      a `temperature` or `waterDetected` member are accepted. */
  lemma AcceptsExactlyObjectsWithKey(v: Json)
    ensures Accepts(v) <==> v.JObject? && ("temperature" in v.members || "waterDetected" in v.members)
    ensures v.JArray? ==> TypeofIsObject(v) && !Accepts(v)
  {
  }

  /** A present `temperature` is converted even when it is `null`: the stored temperature is
      then 0, not null; only a missing key gives null. */
  lemma NullTemperatureBecomesZero(m: map<string, Json>)
    requires "temperature" in m && m["temperature"] == JNull
    ensures ValidateLine(Parsed(JObject(m))) == Some(SensorData(Some(Finite(0.0)), BooleanOf(GetProperty(JObject(m), "waterDetected"))))
  {
  }

  /** `Boolean` of the text "false" is true: a string flag reads as water detected unless empty. */
  lemma StringFlagIsTruthy(m: map<string, Json>)
    requires m == map["waterDetected" := JString("false")]
    ensures ValidateLine(Parsed(JObject(m))) == Some(SensorData(None, true))
  {
  }

  /** A temperature object with its own `toString` member makes `Number` throw, so the line
      is dropped even though it carries a `temperature` key. */
  lemma OwnToStringTemperatureIsDropped(s: Session, m: map<string, Json>)
    requires m == map["temperature" := JObject(map["toString" := JNumber(1.0)]), "waterDetected" := JBool(true)]
    ensures Accepts(JObject(m))
    ensures OnLine(s, Parsed(JObject(m))) == s
  {
  }

  /** The same holds when such an object sits at any depth inside an array temperature:
      the array's string form converts every element. */
  lemma NestedOwnToStringIsDropped(s: Session, m: map<string, Json>)
    requires m == map["temperature" := JArray([JNumber(1.0), JArray([JObject(map["toString" := JNull])])])]
    ensures OnLine(s, Parsed(JObject(m))) == s
  {
    var inner := JArray([JObject(map["toString" := JNull])]);
    assert ConversionThrows(inner.items[0]) by { assert inner.items[0].members == map["toString" := JNull]; }
    assert ConversionThrows(inner);
    assert ConversionThrows(m["temperature"]) by { assert m["temperature"].items[1] == inner; }
  }

  /** An object temperature without an own `toString` is stored as NaN; an own `valueOf`
      member is not callable and is skipped. */
  lemma PlainObjectTemperatureIsNaN(m: map<string, Json>)
    requires m == map["temperature" := JObject(map["valueOf" := JNumber(1.0)])]
    ensures ValidateLine(Parsed(JObject(m))) == Some(SensorData(Some(NaN), false))
  {
  }

  /** A line leaves the whole session unchanged unless it is accepted, and an accepted line
      changes only `latestSensorData`. */
  lemma LineChangesOnlyData(s: Session, p: ParseResult)
    ensures ValidateLine(p).None? ==> OnLine(s, p) == s
    ensures ValidateLine(p).Some? ==> OnLine(s, p) == s.(latestSensorData := ValidateLine(p))
  {
  }

  lemma InitializeIsIdempotentOnceOpen(s: Session)
    requires s.isPortInitialized
    ensures InitializeSerialPort(s) == s
  {
  }

  /** The flag is set by the `open` event only, and that event always sets it. */
  lemma OnlyOpenSetsFlag(s: Session, e: Event)
    ensures !s.isPortInitialized && Step(s, e).isPortInitialized ==> e.PortOpened?
    ensures e.PortOpened? ==> Step(s, e).isPortInitialized
  {
  }

  /** The open-failure callback clears the flag and the port. */
  lemma OpenFailureClearsPort(s: Session)
    ensures !OnOpenFailed(s).isPortInitialized && OnOpenFailed(s).port.None?
    ensures OnOpenFailed(s).latestSensorData == s.latestSensorData
  {
  }

  /** `error` and `close` leave nothing behind, `close()` is requested exactly when the port
      was open, and the endpoint then answers 503 with null data. */
  lemma ResetLeavesNothing(s: Session, statusCode: int)
    ensures var (r, closeRequested) := OnError(s);
      && r.port.None? && r.parser.None? && !r.isPortInitialized && r.latestSensorData.None?
      && (closeRequested <==> PortIsOpen(s.port))
    ensures var r := OnClose(s);
      r.port.None? && r.parser.None? && !r.isPortInitialized && r.latestSensorData.None?
    ensures Respond(OnClose(s), statusCode) == Response(ServiceUnavailable, Unavailable(NotConnectedError, None))
    ensures Respond(OnError(s).0, statusCode) == Response(ServiceUnavailable, Unavailable(NotConnectedError, None))
  {
  }

  /** The flag guards initialisation only once the port has opened: a second call before the
      `open` event creates a second port object, which replaces the first. */
  lemma SecondInitializeBeforeOpenReplacesPort()
    ensures var s := Run(InitialSession, [Initialize, Initialize]);
      s.created == 2 && s.port == Some(PortHandle(1, SerialPortPath, BaudRate, false))
  {
    var s1 := Step(InitialSession, Initialize);
    assert s1.port == Some(PortHandle(0, SerialPortPath, BaudRate, false));
    var s2 := Step(s1, Initialize);
    assert Run(InitialSession, [Initialize, Initialize]) == Run(s1, [Initialize]);
    assert Run(s1, [Initialize]) == Run(s2, []);
  }

  lemma StepPreservesValid(s: Session, e: Event)
    requires Valid(s)
    ensures Valid(Step(s, e))
  {
  }

  lemma {:induction false} RunPreservesValid(s: Session, events: seq<Event>)
    requires Valid(s)
    ensures Valid(Run(s, events))
    decreases |events|
  {
    if events != [] {
      StepPreservesValid(s, events[0]);
      RunPreservesValid(Step(s, events[0]), events[1..]);
    }
  }

  predicate IsAcceptedLine(e: Event) {
    e.LineRead? && ValidateLine(e.parsed).Some?
  }

  /** Once the data is null (initially, or after `error` or `close`), it stays null until an
      accepted line arrives: no stale reading survives a reset. */
  lemma {:induction false} NoDataWithoutAcceptedLine(s: Session, events: seq<Event>)
    requires s.latestSensorData.None?
    requires forall k :: 0 <= k < |events| ==> !IsAcceptedLine(events[k])
    ensures Run(s, events).latestSensorData.None?
    decreases |events|
  {
    if events != [] {
      assert !IsAcceptedLine(events[0]);
      NoDataWithoutAcceptedLine(Step(s, events[0]), events[1..]);
    }
  }

  /** The endpoint serves data only after some `open` event since the flag was last clear. */
  lemma {:induction false} ServingNeedsOpenEvent(s: Session, events: seq<Event>)
    requires !s.isPortInitialized
    requires Serving(Run(s, events))
    ensures exists k :: 0 <= k < |events| && events[k].PortOpened?
    decreases |events|
  {
    if events == [] {
    } else if events[0].PortOpened? {
    } else {
      var s1 := Step(s, events[0]);
      assert !s1.isPortInitialized;
      ServingNeedsOpenEvent(s1, events[1..]);
      var k :| 0 <= k < |events[1..]| && events[1..][k].PortOpened?;
      assert events[k + 1].PortOpened?;
    }
  }

  /** From the start, the endpoint answers 503 until the port has opened. */
  lemma UnavailableUntilOpened(events: seq<Event>, statusCode: int)
    requires forall k :: 0 <= k < |events| ==> !events[k].PortOpened?
    ensures Respond(Run(InitialSession, events), statusCode).statusCode == ServiceUnavailable
  {
    if Serving(Run(InitialSession, events)) {
      ServingNeedsOpenEvent(InitialSession, events);
    }
  }

  /** Shutdown exits with 0 whenever the port is not open, whatever `close` would report. */
  lemma ClosedPortExitsCleanly(s: Session, closeFailed: bool)
    requires !PortIsOpen(s.port)
    ensures ShutdownExitCode(s, closeFailed) == 0
  {
  }
}
