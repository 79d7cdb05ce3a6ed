# Water-monitoring serial bridge: a Dafny model

The repository connects an Arduino that prints one JSON reading per line (temperature and a
water-detected flag) to a web front end, in two ways:

- `server/websocket-server.js`, a **WebSocket bridge**. It finds the Arduino among the
  serial ports, opens it at 9600 baud, and forwards every line it reads as
  `{type:"data", data}` to each client whose `readyState` equals `WebSocketServer.OPEN`.
  It retries on a 5-second interval and after port errors. Each joining client gets one `{type:"status", connected}` message.
- `server/api/sensor-data.ts`, an **HTTP snapshot endpoint**. It opens `COM3`, keeps the
  latest validated reading in module state, and answers each request with that reading.
  It answers 503 when the port is not up.

Both files keep their state in module variables that callbacks reassign. The model turns
each file into two Dafny modules:

- **Pure rules** (`WsRules`, `SensorRules`). The state is a datatype (`BridgeState`,
  `Session`). Every timer tick and library callback is an explicit event with a
  transition function. `Step`/`Run` apply events one at a time. The lemmas state the guard,
  transition and invariant properties.
- **Classes** (`WsBridge.Bridge`, `SensorSession.SensorPort`). The module variables become
  fields, and each method reassigns them as the source does. Every method is proved to
  produce exactly the state the matching rule gives (`State() == Rule(old(State()), …)`).
  Methods also keep `Valid()`. For the endpoint, `Valid()` means that a present port is
  the last port object created, for `COM3` at 9600 baud, with its `\r\n` parser attached.
  For the bridge, it means that `serialPort` is the last port object created and that an
  open port has its `\n` parser attached.

`JsValues` models what `JSON.parse` returns as a datatype (null, bool, number, string,
array, object). A parse failure is a separate case (`ParseError`). The module also models
`Boolean(v)` (truthiness) and `Number(v)`. `Wrappers.Option` stands for `null`/`undefined`.

The serial and WebSocket libraries are inputs. A port listing is either a list of
`PortInfo` or `ListFailed`. Opening reports `OpenOk` or `OpenErr`. Port objects are
`SerialHandle`/`PortHandle` values whose `id` counts the objects created, so an event from
an older port object can be told apart from one from the current object. A client is an id
plus its numeric `readyState`. Every `send` is appended to a log (`sent`) as a `Delivery`.

Where the repository's intended design and its code differ, the model follows the code:

- The bridge forwards lines verbatim. It does not validate them as JSON, trim them, or drop
  empty lines.
- Discovery runs before the "already open" guard. So a connection attempt returns false
  when discovery finds nothing, even if the port is open (`NoPathNoAttempt`).
- Only one vendor id (`2341`) is matched, plus the manufacturer keyword `arduino`.
- No status message is sent when the port fails or closes. A status message goes only to a
  client that joins (`NoStatusOnDisconnect`).
- A failed open leaves `serialPort` holding the new, unopened port object
  (`FailedOpenKeepsUnopenedHandle`). No stale port is closed before a new one is opened.
- The bridge's `SIGINT` handler always exits with 0 and does not wait for the close
  (`SigIntExitsZero`). Only the endpoint's shutdown exits with 1 when closing fails.
- The endpoint's `isPortInitialized` flag is set only by the `open` event. A second
  initialisation before that event creates a second port object
  (`SecondInitializeBeforeOpenReplacesPort`).
- The endpoint stores `temperature: 0` for a line whose `temperature` is JSON `null`,
  because the key is present and `Number(null)` is 0 (`NullTemperatureBecomesZero`).
- A parsed object has no callable members, so one with its own `toString` member makes
  `Number` throw a `TypeError`, and so does an array holding such an object at any depth.
  The listener's `catch` then drops the line although it passed the key test
  (`OwnToStringTemperatureIsDropped`, `NestedOwnToStringIsDropped`).

## Model

| member | source | states |
|---|---|---|
| `WsRules.HandleProtocols` | server/websocket-server.js:14-16 | the chosen sub-protocol is the first offered one exactly when the list is present, non-empty and its first entry is non-empty; otherwise `false` (None) |
| `WsRules.ManufacturerMatchIsCaseInsensitive` | server/websocket-server.js:27-28 | the lower-cased manufacturer includes `arduino` exactly when the manufacturer spells it somewhere with each letter in either case |
| `WsRules.IncludesIffOccurs` | server/websocket-server.js:28 | `includes` holds exactly when the keyword occurs at some position of the text |
| `WsRules.FirstArduino` | server/websocket-server.js:24-29 | `ports.find`: the result is a matching port with no match before it, and none means no port matches |
| `WsRules.FindArduinoPort` | server/websocket-server.js:19-45 | a thrown listing gives no path; otherwise a path exists iff some port has vendor id `2341` or a manufacturer containing `arduino` ignoring case, and it is the path of the first such port |
| `WsRules.FirstMatchIsChosen` | server/websocket-server.js:24-40 | earlier matches win: a matching port with no match before it is the one whose path is returned |
| `WsRules.ManufacturerMatchIgnoresCase` | server/websocket-server.js:26-28 | a port reported as "Arduino LLC" without a vendor id satisfies the `find` predicate |
| `WsRules.NoPathNoAttempt` | server/websocket-server.js:49-53 | with no path (or an empty one) the attempt returns false and the state is unchanged, even when the port is open |
| `WsRules.ListingFailureFindsNothing` | server/websocket-server.js:41-53 | a listing that throws makes the attempt return false with nothing created or opened |
| `WsRules.OpenPortIsKept` | server/websocket-server.js:55-58 | with a path found and the port open, the attempt returns true and the state, handle included, is unchanged |
| `WsRules.FailedOpenKeepsUnopenedHandle` | server/websocket-server.js:60-78 | a failed open returns false, `serialPort` holds the new unopened 9600-baud port for the found path, the old parser stays |
| `WsRules.SuccessfulOpenAttachesParser` | server/websocket-server.js:60-103 | a successful open returns true with the new port open and a `\n` line parser piped from it |
| `WsRules.ConnectReplacesOnlyClosedPort` | server/websocket-server.js:55-64 | an attempt replaces the port only when it is not open, true implies the port is open, and clients and sends are untouched |
| `WsRules.TickAttemptsOnlyWhenNotOpen` | server/websocket-server.js:144-148 | the interval attempts to connect iff the port is not open, and otherwise changes nothing |
| `WsRules.ReconnectClosesOnlyOpenPort` | server/websocket-server.js:110-118 | `close()` is called iff the port is open; afterwards it is not open, stays in place, and exactly one more attempt is scheduled |
| `WsRules.NoStatusOnDisconnect` | server/websocket-server.js:93-101 | the port's `error` and `close` listeners send nothing to the clients |
| `WsRules.StaleCloseClosesCurrentPort` | server/websocket-server.js:98-113 | the `close` event of an earlier port object still closes the current port if it is open |
| `WsRules.Fanout` | server/websocket-server.js:86-90 | each send of a broadcast carries the message and goes to a registered client whose `readyState` equals the OPEN constant |
| `WsRules.FanoutReachesExactlyOpenClients` | server/websocket-server.js:86-90 | each registered client receives exactly one copy if its `readyState` equals the OPEN constant, and none otherwise |
| `WsRules.UndefinedOpenConstantDeliversNothing` | server/websocket-server.js:87 | if the OPEN constant is `undefined`, no client receives any data message |
| `WsRules.LineReachesExactlyOpenClients` | server/websocket-server.js:82-91 | a line adds one `{type:"data"}` message carrying the line verbatim for each OPEN client and none for the others; nothing else changes |
| `WsRules.JoinSendsOneStatus` | server/websocket-server.js:127-132 | a joining client gets exactly one status message, `connected` iff the port is open, false when there is no port |
| `WsRules.RemoveClient` | server/websocket-server.js:13 | a closed socket leaves the tracked set and no other client is removed; ids stay distinct |
| `WsRules.SigIntExitsZero` | server/websocket-server.js:150-157 | `SIGINT` calls `close()` iff the port is open, leaves it closed, and the exit code is always 0 |
| `WsRules.ConnectPreservesValid` | server/websocket-server.js:60-80 | an attempt keeps the invariant: the port is the last one created, non-empty path, 9600 baud, and an open port has its parser |
| `WsRules.StepPreservesValid` | server/websocket-server.js:82-133 | every event keeps the invariant, including distinct client ids |
| `WsRules.RunPreservesValid` | server/websocket-server.js:139-148 | every state reached by any sequence of events keeps the invariant |
| `WsRules.SentOnlyGrows` | server/websocket-server.js:82-132 | messages already sent stay in the log: every event only appends |
| `WsBridge.Bridge.constructor` | server/websocket-server.js:6-17 | the server starts with no port, no parser, no client and nothing sent |
| `WsBridge.Bridge.ConnectToArduino` | server/websocket-server.js:47-108 | the fields and result are those of `Connect`; an open port is never replaced; true implies open |
| `WsBridge.Bridge.Reconnect` | server/websocket-server.js:110-118 | the new state is that of `Reconnect`: port not open, one more pending attempt |
| `WsBridge.Bridge.OnSerialError` | server/websocket-server.js:93-96 | the port's `error` listener runs `reconnect()` and sends nothing |
| `WsBridge.Bridge.OnSerialClose` | server/websocket-server.js:98-101 | the `close` listener marks that port object closed, runs `reconnect()` and sends nothing |
| `WsBridge.Bridge.IntervalTick` | server/websocket-server.js:144-148 | attempts to connect iff the port was not open, with the state of `IntervalTick` |
| `WsBridge.Bridge.RetryTimerFires` | server/websocket-server.js:114-117 | a pending timeout fires one connection attempt regardless of the port state |
| `WsBridge.Bridge.OnLine` | server/websocket-server.js:82-91 | the `forEach` loop appends exactly `Fanout` of the registry to the sends |
| `WsBridge.Bridge.OnClientJoin` | server/websocket-server.js:120-133 | the socket joins the registry and exactly one status message is appended |
| `WsBridge.Bridge.OnClientLeave` | server/websocket-server.js:13 | the closed socket is removed from the registry |
| `WsBridge.Bridge.SigInt` | server/websocket-server.js:150-157 | closes the port if open; exit code 0 |
| `WsBridge.Start` | server/websocket-server.js:139-141 | start-up is one attempt from the initial state, true iff a non-empty path is found and the open succeeds |
| `JsValues.InAgreesWithGet` | server/api/sensor-data.ts:55-59 | on a parsed object or array, `key in data` holds exactly when `data[key] !== undefined`, so the key test and the conversion see the same members |
| `JsValues.FalsyValues` | server/api/sensor-data.ts:60 | `Boolean` is false exactly for `null`, `false`, 0 and the empty string |
| `JsValues.ScalarsConvertExactly` | server/api/sensor-data.ts:59 | `Number` of null, a boolean or a number is a finite number, the number itself for a number |
| `JsValues.NumberThrowsExactly` | server/api/sensor-data.ts:59 | `Number` throws exactly for an object with an own `toString` member or an array holding one at any depth |
| `SensorRules.ValidateLine` | server/api/sensor-data.ts:47-69 | a line yields data iff it parses to an object with a `temperature` or `waterDetected` key and `Number` does not throw on its temperature; temperature is null iff its key is absent, else `Number` of it; `waterDetected` is the truthiness of its value, false when absent |
| `SensorRules.AcceptsExactlyObjectsWithKey` | server/api/sensor-data.ts:52-56 | arrays and `null` pass `typeof` but are rejected: exactly the objects with one of the two keys are accepted |
| `SensorRules.NullTemperatureBecomesZero` | server/api/sensor-data.ts:58-59 | a `temperature` that is JSON `null` is stored as 0, not as null |
| `SensorRules.StringFlagIsTruthy` | server/api/sensor-data.ts:60 | `waterDetected: "false"` is stored as true |
| `SensorRules.OwnToStringTemperatureIsDropped` | server/api/sensor-data.ts:47-69 | a line whose temperature is an object with its own `toString` passes the key test yet leaves the session unchanged |
| `SensorRules.NestedOwnToStringIsDropped` | server/api/sensor-data.ts:47-69 | the same for such an object nested inside an array temperature |
| `SensorRules.PlainObjectTemperatureIsNaN` | server/api/sensor-data.ts:58-59 | an object temperature without an own `toString` is stored as NaN |
| `SensorRules.LineChangesOnlyData` | server/api/sensor-data.ts:47-69 | a rejected line (parse error, non-object, null, neither key) leaves the session unchanged; an accepted one changes only the data |
| `SensorRules.InitializeIsIdempotentOnceOpen` | server/api/sensor-data.ts:20-23 | initialisation is a no-op when the flag is set |
| `SensorRules.OnlyOpenSetsFlag` | server/api/sensor-data.ts:42-45 | the flag goes from false to true only on the `open` event, which always sets it |
| `SensorRules.OpenFailureClearsPort` | server/api/sensor-data.ts:28-34 | an open failure clears the flag and the port and keeps the data |
| `SensorRules.ResetLeavesNothing` | server/api/sensor-data.ts:71-90 | `error` and `close` leave port, parser, flag and data null/false; `close()` is requested iff the port was open; the endpoint then answers 503 with null data |
| `SensorRules.SecondInitializeBeforeOpenReplacesPort` | server/api/sensor-data.ts:19-45 | two initialisations before any `open` event create two port objects, the second replacing the first |
| `SensorRules.StepPreservesValid` | server/api/sensor-data.ts:26-40 | every event keeps the invariant: a present port is the last created for `COM3` at 9600 baud with its `\r\n` parser |
| `SensorRules.RunPreservesValid` | server/api/sensor-data.ts:19-99 | every state reached by any sequence of events keeps that invariant |
| `SensorRules.NoDataWithoutAcceptedLine` | server/api/sensor-data.ts:47-90 | once the data is null it stays null until an accepted line arrives, whatever else happens |
| `SensorRules.ServingNeedsOpenEvent` | server/api/sensor-data.ts:42-45 | from a cleared flag, the endpoint can serve data only after some `open` event |
| `SensorRules.UnavailableUntilOpened` | server/api/sensor-data.ts:102-114 | from start-up, every request is answered 503 until the port has opened |
| `SensorRules.Respond` | server/api/sensor-data.ts:102-118 | 503 with `{error, lastData}` unless initialised, port present and open; otherwise the latest data with the status untouched |
| `SensorRules.ShutdownExitCode` | server/api/sensor-data.ts:123-139 | the exit code is 1 iff the port was open and its close reported an error, else 0 |
| `SensorRules.ClosedPortExitsCleanly` | server/api/sensor-data.ts:136-138 | with the port not open, the exit code is 0 whatever close would report |
| `SensorSession.SensorPort.constructor` | server/api/sensor-data.ts:11-17 | the module starts with no port, no parser, the flag clear and no data |
| `SensorSession.SensorPort.InitializeSerialPort` | server/api/sensor-data.ts:19-40 | the fields become those of `InitializeSerialPort`; nothing changes when the flag is set |
| `SensorSession.SensorPort.OnOpen` | server/api/sensor-data.ts:42-45 | the `open` listener sets the flag and marks that port object open |
| `SensorSession.SensorPort.OnOpenFailed` | server/api/sensor-data.ts:28-34 | the open-failure callback clears the flag and the port and keeps the data |
| `SensorSession.SensorPort.OnLine` | server/api/sensor-data.ts:47-69 | the `data` listener stores the normalised value of an accepted line and changes nothing otherwise, also when `Number` throws on the temperature |
| `SensorSession.SensorPort.OnError` | server/api/sensor-data.ts:71-81 | requests `close()` iff the port is open, then resets all four variables |
| `SensorSession.SensorPort.OnClose` | server/api/sensor-data.ts:83-90 | resets all four variables |
| `SensorSession.SensorPort.HandleRequest` | server/api/sensor-data.ts:102-118 | the response is `Respond` of the current state; a changed status is 503; data is served only when initialised, present and open |
| `SensorSession.SensorPort.Shutdown` | server/api/sensor-data.ts:123-139 | `close()` is requested iff the port is open, and the exit code is 1 iff that close failed |
| `SensorSession.Load` | server/api/sensor-data.ts:93-99 | module evaluation creates port object 0 for `COM3`, not yet open, with the flag clear |

## Left out

- The `serialport` and `ws` libraries are not part of this model: port listing, opening,
  `isOpen`, `pipe`, client sockets and their handshakes. Their results are inputs and events.
  `ReadlineParser` is not modelled either, so lines arrive already split.
- `JSON.parse` is an input (`ParseResult`). `JSON.stringify` is the `Message` constructor.
  Messages are compared as values, not as serialised text.
- Numbers are reals. IEEE doubles (rounding, -0, overflow to Infinity) are not modelled.
  `Number(text)` is kept abstract as `FromString(text)`, because JavaScript's
  string-to-number grammar is not part of this model.
- `toLowerCase` folds ASCII letters only. No non-ASCII letter folds into the ASCII keyword
  `arduino`, so port selection is unaffected.
- `WsBridge.Bridge.ConnectToArduino`: one attempt is one atomic step. An interval tick or a
  retry timeout that fires while an `open` is still pending is not modelled. In that case
  the source can create a second port object and pipe the parser from whichever object
  `serialPort` then holds.
- The `if (!serialPort) return reject(...)` guard (websocket-server.js:67) and the
  `if (!port) return` guard (sensor-data.ts:38) cannot fire. A constructor either returns an
  object or throws, so neither guard is modelled.
- Timing is not modelled: the 5-second interval and timeout, and Promise scheduling. Ticks
  and timeouts are events. A count of pending timeouts stands in for the timers.
- Logging (`console.*`), signal registration (`process.on`) and `process.exit` are left out.
  Only the exit code is modelled.
- `wss.close()` in the `SIGINT` handler and the client `error` listener are left out: their
  effects belong to the `ws` library or are logging only.
- A client's `readyState` is fixed at join. Later state changes inside `ws` are not modelled.
  A socket leaves the registry through `OnClientLeave`.
- Whether `WebSocketServer` defines the `OPEN` constant depends on the `ws` library, which is
  not part of this model. The constant is a parameter, and
  `UndefinedOpenConstantDeliversNothing` shows what an `undefined` constant would mean.
- `handleProtocols` receives the offered protocols as an ordered list, the way the handler
  indexes them. The collection type `ws` actually passes is not part of this model.
- HTTP plumbing (`defineEventHandler`, `event.node.res`) is left out. The incoming status
  code is a parameter and the response is a value.
- nuxt.config.ts is build and CORS configuration only, with no logic to model.
