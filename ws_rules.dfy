/**
 * The serial-to-WebSocket bridge `server/websocket-server.js`, as pure rules: how a port
 * is chosen among those listed, the sub-protocol choice, the broadcast filter, and the
 * transitions of the bridge's state (`serialPort`, `parser`, the connected clients and
 * what has been sent to them) on timer ticks and library events.  The class in
 * `WsBridge` drives these rules in place.
 */
module WsRules {
  import opened Wrappers

  const ArduinoVendorId: string := "2341"
  const ManufacturerKeyword: string := "arduino"
  const BaudRate: nat := 9600
  const LineDelimiter: string := "\n"

  // ----- Port selection -----

  /** One entry of `SerialPort.list()`. */
  datatype PortInfo = PortInfo(path: string, vendorId: Option<string>, manufacturer: Option<string>)

  /** The outcome of `SerialPort.list()`: the ports, or a thrown error. */
  datatype Listing = Listed(ports: seq<PortInfo>) | ListFailed

  /** `toLowerCase` on one character; only ASCII letters are folded. */
  function LowerAscii(c: char): char {
    if 'A' <= c <= 'Z' then (c as int + 32) as char else c
  }

  function ToLower(s: string): (r: string)
    ensures |r| == |s| && forall i :: 0 <= i < |s| ==> r[i] == LowerAscii(s[i])
  {
    seq(|s|, i requires 0 <= i < |s| => LowerAscii(s[i]))
  }

  /** `s.includes(sub)`, searching from the left. */
  predicate Includes(s: string, sub: string)
    decreases |s|
  {
    |sub| <= |s| && (s[..|sub|] == sub || (|s| > 0 && Includes(s[1..], sub)))
  }

  /** `sub` occurs in `s` starting at index `i`. */
  predicate OccursAt(s: string, sub: string, i: nat) {
    i + |sub| <= |s| && s[i..i + |sub|] == sub
  }

  /** The search agrees with the positional definition of a substring, in both directions. */
  lemma {:induction false} IncludesIffOccurs(s: string, sub: string)
    ensures Includes(s, sub) <==> exists i: nat :: OccursAt(s, sub, i)
    decreases |s|
  {
    if Includes(s, sub) {
      if s[..|sub|] == sub {
        assert OccursAt(s, sub, 0);
      } else {
        IncludesIffOccurs(s[1..], sub);
        var i: nat :| OccursAt(s[1..], sub, i);
        assert s[i + 1..i + 1 + |sub|] == s[1..][i..i + |sub|];
        assert OccursAt(s, sub, i + 1);
      }
    }
    if exists i: nat :: OccursAt(s, sub, i) {
      var i: nat :| OccursAt(s, sub, i);
      if i > 0 {
        assert s[1..][i - 1..i - 1 + |sub|] == s[i..i + |sub|];
        assert OccursAt(s[1..], sub, i - 1);
        IncludesIffOccurs(s[1..], sub);
      }
    }
  }

  /** The predicate given to `ports.find`. */
  predicate IsArduino(p: PortInfo) {
    || p.vendorId == Some(ArduinoVendorId)
    || (p.manufacturer.Some? && p.manufacturer.value != ""
        && Includes(ToLower(p.manufacturer.value), ManufacturerKeyword))
  }

  /** `ports.find(IsArduino)`, as an index: the first match in list order. */
  function FirstArduino(ports: seq<PortInfo>): (r: Option<nat>)
    ensures r.Some? ==> r.value < |ports| && IsArduino(ports[r.value])
    ensures r.Some? ==> forall j :: 0 <= j < r.value ==> !IsArduino(ports[j])
    ensures r.None? ==> forall j :: 0 <= j < |ports| ==> !IsArduino(ports[j])
  {
    if ports == [] then None
    else if IsArduino(ports[0]) then Some(0)
    else match FirstArduino(ports[1..])
      case None => None
      case Some(k) => Some(k + 1)
  }

  /** `findArduinoPort()`: the path of the first matching port; `None` stands for both the
      `undefined` of no match and the `null` of a listing that threw. */
  function FindArduinoPort(listing: Listing): (r: Option<string>)
    ensures listing.ListFailed? ==> r.None?
    ensures listing.Listed? ==>
      (r.Some? <==> exists i :: 0 <= i < |listing.ports| && IsArduino(listing.ports[i]))
    ensures r.Some? ==> exists i :: (0 <= i < |listing.ports| && IsArduino(listing.ports[i])
      && r.value == listing.ports[i].path
      && forall j :: 0 <= j < i ==> !IsArduino(listing.ports[j]))
  {
    match listing
    case ListFailed => None
    case Listed(ports) =>
      match FirstArduino(ports)
      case None => None
      case Some(i) => Some(ports[i].path)
  }

  /** Earlier matches win: any matching port with no match before it is the one chosen. */
  lemma FirstMatchIsChosen(ports: seq<PortInfo>, i: nat)
    requires i < |ports| && IsArduino(ports[i])
    requires forall j :: 0 <= j < i ==> !IsArduino(ports[j])
    ensures FindArduinoPort(Listed(ports)) == Some(ports[i].path)
  {
  }

  /** The manufacturer `m` spells the keyword at index `i`, each letter in either case. */
  predicate KeywordAt(m: string, i: nat) {
    i + |ManufacturerKeyword| <= |m|
    && forall j :: 0 <= j < |ManufacturerKeyword| ==>
         m[i + j] == ManufacturerKeyword[j] || m[i + j] == "ARDUINO"[j]
  }

  lemma KeywordAtIffLowerOccurs(m: string, i: nat)
    ensures OccursAt(ToLower(m), ManufacturerKeyword, i) <==> KeywordAt(m, i)
  {
    var lower := ToLower(m);
    var n := |ManufacturerKeyword|;
    if i + n <= |m| {
      if OccursAt(lower, ManufacturerKeyword, i) {
        forall j | 0 <= j < n
          ensures m[i + j] == ManufacturerKeyword[j] || m[i + j] == "ARDUINO"[j]
        {
          assert lower[i..i + n][j] == lower[i + j];
        }
      }
      if KeywordAt(m, i) {
        forall j | 0 <= j < n ensures lower[i..i + n][j] == ManufacturerKeyword[j] {
          assert lower[i + j] == LowerAscii(m[i + j]);
        }
      }
    }
  }

  /** `manufacturer.toLowerCase().includes("arduino")` holds exactly when the manufacturer
      spells "arduino" somewhere with each letter in either case. */
  lemma ManufacturerMatchIsCaseInsensitive(m: string)
    ensures Includes(ToLower(m), ManufacturerKeyword) <==> exists i: nat :: KeywordAt(m, i)
  {
    IncludesIffOccurs(ToLower(m), ManufacturerKeyword);
    if Includes(ToLower(m), ManufacturerKeyword) {
      var i: nat :| OccursAt(ToLower(m), ManufacturerKeyword, i);
      KeywordAtIffLowerOccurs(m, i);
    }
    if exists i: nat :: KeywordAt(m, i) {
      var i: nat :| KeywordAt(m, i);
      KeywordAtIffLowerOccurs(m, i);
    }
  }

  /** The manufacturer test ignores case: a port reported as "Arduino LLC" with no vendor id
      satisfies the `find` predicate. */
  lemma ManufacturerMatchIgnoresCase()
    ensures IsArduino(PortInfo("/dev/ttyACM0", None, Some("Arduino LLC")))
  {
    var lower := ToLower("Arduino LLC");
    assert lower[..7] == ManufacturerKeyword;
  }

  // ----- Sub-protocol choice -----

  /** `handleProtocols`: `protocols?.[0] || false`, with `None` for `false`. */
  function HandleProtocols(protocols: Option<seq<string>>): (r: Option<string>)
    ensures r.Some? <==> protocols.Some? && |protocols.value| > 0 && protocols.value[0] != ""
    ensures r.Some? ==> r.value == protocols.value[0]
  {
    if protocols.Some? && |protocols.value| > 0 && protocols.value[0] != "" then Some(protocols.value[0])
    else None
  }

  // ----- Clients and messages -----

  /** A connected WebSocket client: an identity and its numeric `readyState`. */
  datatype Client = Client(id: nat, readyState: int)

  /** The two JSON messages sent to clients: `{type:"data", data}` and `{type:"status", connected}`. */
  datatype Message = DataMessage(data: string) | StatusMessage(connected: bool)

  /** One `send` of a message to the client with the given id. */
  datatype Delivery = Delivery(clientId: nat, message: Message)

  /** `client.readyState === WebSocketServer.OPEN`; `openConstant` is that constant, `None`
      when it is `undefined`. */
  predicate ReceivesBroadcast(c: Client, openConstant: Option<int>) {
    openConstant.Some? && c.readyState == openConstant.value
  }

  /** The registry is a set of sockets: no two entries share an id. */
  predicate DistinctIds(clients: seq<Client>) {
    forall i, j :: 0 <= i < j < |clients| ==> clients[i].id != clients[j].id
  }

  predicate HasClient(clients: seq<Client>, id: nat) {
    exists k :: 0 <= k < |clients| && clients[k].id == id
  }

  /** The sends of one `wss.clients.forEach` pass, in registry order. */
  function Fanout(clients: seq<Client>, message: Message, openConstant: Option<int>): (r: seq<Delivery>)
    ensures |r| <= |clients|
    ensures forall d :: d in r ==> d.message == message
    ensures forall d :: d in r ==> exists c :: c in clients && c.id == d.clientId && ReceivesBroadcast(c, openConstant)
    decreases |clients|
  {
    if clients == [] then []
    else
      var last := clients[|clients| - 1];
      Fanout(clients[..|clients| - 1], message, openConstant)
        + (if ReceivesBroadcast(last, openConstant) then [Delivery(last.id, message)] else [])
  }

  /** How many of the deliveries go to the client `id`. */
  function DeliveriesTo(ds: seq<Delivery>, id: nat): nat
    decreases |ds|
  {
    if ds == [] then 0
    else DeliveriesTo(ds[..|ds| - 1], id) + (if ds[|ds| - 1].clientId == id then 1 else 0)
  }

  lemma {:induction false} DeliveriesToAppend(a: seq<Delivery>, b: seq<Delivery>, id: nat)
    ensures DeliveriesTo(a + b, id) == DeliveriesTo(a, id) + DeliveriesTo(b, id)
    decreases |b|
  {
    if b != [] {
      assert (a + b)[..|a + b| - 1] == a + b[..|b| - 1];
      DeliveriesToAppend(a, b[..|b| - 1], id);
    } else {
      assert a + b == a;
    }
  }

  /** A client id absent from the registry receives nothing. */
  lemma {:induction false} FanoutSkipsAbsentId(clients: seq<Client>, message: Message, openConstant: Option<int>, id: nat)
    requires forall j :: 0 <= j < |clients| ==> clients[j].id != id
    ensures DeliveriesTo(Fanout(clients, message, openConstant), id) == 0
    decreases |clients|
  {
    if clients != [] {
      var n := |clients| - 1;
      var head := Fanout(clients[..n], message, openConstant);
      var tail := if ReceivesBroadcast(clients[n], openConstant) then [Delivery(clients[n].id, message)] else [];
      FanoutSkipsAbsentId(clients[..n], message, openConstant, id);
      DeliveriesToAppend(head, tail, id);
      if tail != [] {
        assert tail[..0] == [];
      }
    }
  }

  /** Each client of the registry gets exactly one copy of a broadcast message when its
      state equals the OPEN constant, and none otherwise. */
  lemma {:induction false} FanoutReachesExactlyOpenClients(clients: seq<Client>, message: Message, openConstant: Option<int>, k: nat)
    requires DistinctIds(clients) && k < |clients|
    ensures DeliveriesTo(Fanout(clients, message, openConstant), clients[k].id)
      == if ReceivesBroadcast(clients[k], openConstant) then 1 else 0
    decreases |clients|
  {
    var n := |clients| - 1;
    var init, last := clients[..n], clients[n];
    var head := Fanout(init, message, openConstant);
    var tail := if ReceivesBroadcast(last, openConstant) then [Delivery(last.id, message)] else [];
    assert Fanout(clients, message, openConstant) == head + tail;
    DeliveriesToAppend(head, tail, clients[k].id);
    assert DeliveriesTo(tail, clients[k].id)
      == if ReceivesBroadcast(last, openConstant) && last.id == clients[k].id then 1 else 0 by {
      if tail != [] {
        assert tail[..0] == [];
      }
    }
    if k == n {
      FanoutSkipsAbsentId(init, message, openConstant, last.id);
    } else {
      assert init[k] == clients[k];
      assert last.id != clients[k].id;
      FanoutReachesExactlyOpenClients(init, message, openConstant, k);
    }
  }

  /** When the OPEN constant is `undefined`, no client ever receives a data message. */
  lemma UndefinedOpenConstantDeliversNothing(clients: seq<Client>, message: Message)
    ensures Fanout(clients, message, None) == []
  {
  }

  /** The registry without the client `id` (a socket that has closed). */
  function RemoveClient(clients: seq<Client>, id: nat): (r: seq<Client>)
    ensures forall c :: c in r <==> c in clients && c.id != id
    ensures DistinctIds(clients) ==> DistinctIds(r)
    decreases |clients|
  {
    if clients == [] then []
    else if clients[0].id == id then RemoveClient(clients[1..], id)
    else
      var rest := RemoveClient(clients[1..], id);
      assert DistinctIds(clients) ==> forall c :: c in rest ==> c.id != clients[0].id by {
        if DistinctIds(clients) {
          forall c | c in rest ensures c.id != clients[0].id {
            var j :| 0 <= j < |clients[1..]| && clients[1..][j] == c;
            assert clients[j + 1] == c;
          }
        }
      }
      [clients[0]] + rest
  }

  // ----- Bridge state -----

  /** A `SerialPort` object, told apart from earlier ones by `id`. */
  datatype SerialHandle = SerialHandle(id: nat, path: string, baudRate: nat, isOpen: bool)

  /** A `ReadlineParser` piped from the port object `portId`. */
  datatype LineParser = LineParser(portId: nat, delimiter: string)

  /** What `serialPort.open` reported. */
  datatype OpenOutcome = OpenOk | OpenErr

  /** The module variables `serialPort` and `parser`, how many port objects have been
      created, how many retry timeouts are pending, the client registry and every message
      sent so far. */
  datatype BridgeState = BridgeState(
    serialPort: Option<SerialHandle>,
    parser: Option<LineParser>,
    created: nat,
    pendingRetries: nat,
    clients: seq<Client>,
    sent: seq<Delivery>)

  const InitialState: BridgeState := BridgeState(None, None, 0, 0, [], [])

  /** `serialPort?.isOpen`, false when there is no port. */
  predicate IsOpen(port: Option<SerialHandle>) {
    port.Some? && port.value.isOpen
  }

  /** What every reachable state satisfies: `serialPort` is never reset, so it is the last
      port object created; an open port has its LF parser attached; client ids are distinct. */
  predicate Valid(s: BridgeState) {
    && (s.serialPort.None? <==> s.created == 0)
    && (s.serialPort.Some? ==>
          && s.serialPort.value.id == s.created - 1
          && s.serialPort.value.path != ""
          && s.serialPort.value.baudRate == BaudRate)
    && (s.parser.Some? ==> s.parser.value.portId < s.created && s.parser.value.delimiter == LineDelimiter)
    && (IsOpen(s.serialPort) ==> s.parser == Some(LineParser(s.serialPort.value.id, LineDelimiter)))
    && DistinctIds(s.clients)
  }

  // ----- Transitions -----

  /** `connectToArduino()` with the listing discovery sees and the outcome of `open`:
      the new state and the returned boolean.  Discovery comes first; an empty path counts
      as none; an open port is kept; otherwise a new closed port object replaces the old
      one and, once open, gets its parser. */
  function Connect(s: BridgeState, listing: Listing, outcome: OpenOutcome): (BridgeState, bool) {
    var portPath := FindArduinoPort(listing);
    if portPath.None? || portPath.value == "" then (s, false)
    else if IsOpen(s.serialPort) then (s, true)
    else
      var handle := SerialHandle(s.created, portPath.value, BaudRate, false);
      var s1 := s.(serialPort := Some(handle), created := s.created + 1);
      match outcome
      case OpenErr => (s1, false)
      case OpenOk =>
        (s1.(serialPort := Some(handle.(isOpen := true)), parser := Some(LineParser(handle.id, LineDelimiter))), true)
  }

  /** `reconnect()`: close the port if it is open, and schedule one more attempt.  The
      boolean says whether `close()` was called. */
  function Reconnect(s: BridgeState): (BridgeState, bool) {
    if IsOpen(s.serialPort) then
      (s.(serialPort := Some(s.serialPort.value.(isOpen := false)), pendingRetries := s.pendingRetries + 1), true)
    else
      (s.(pendingRetries := s.pendingRetries + 1), false)
  }

  /** The port's `error` listener. */
  function OnSerialError(s: BridgeState): (BridgeState, bool) {
    Reconnect(s)
  }

  /** The `close` listener of the port object `portId`: that object is now closed, and
      `reconnect()` then looks at whatever `serialPort` holds. */
  function OnSerialClose(s: BridgeState, portId: nat): (BridgeState, bool) {
    var closed := if s.serialPort.Some? && s.serialPort.value.id == portId
      then Some(s.serialPort.value.(isOpen := false)) else s.serialPort;
    Reconnect(s.(serialPort := closed))
  }

  /** The interval callback: attempts to connect only when the port is not open.  The
      boolean says whether an attempt was made. */
  function IntervalTick(s: BridgeState, listing: Listing, outcome: OpenOutcome): (BridgeState, bool) {
    if !IsOpen(s.serialPort) then (Connect(s, listing, outcome).0, true) else (s, false)
  }

  /** One pending `reconnect` timeout fires and attempts to connect, whatever the port's state. */
  function RetryTimerFires(s: BridgeState, listing: Listing, outcome: OpenOutcome): BridgeState {
    if s.pendingRetries == 0 then s
    else Connect(s.(pendingRetries := s.pendingRetries - 1), listing, outcome).0
  }

  /** The parser's `data` listener: the line, verbatim, to every client in the OPEN state. */
  function OnLine(s: BridgeState, data: string, openConstant: Option<int>): BridgeState {
    s.(sent := s.sent + Fanout(s.clients, DataMessage(data), openConstant))
  }

  /** The server's `connection` listener: the socket joins the registry (a set, so a socket
      already present stays once) and is sent one status message. */
  function OnClientJoin(s: BridgeState, c: Client): BridgeState {
    s.(clients := if HasClient(s.clients, c.id) then s.clients else s.clients + [c],
       sent := s.sent + [Delivery(c.id, StatusMessage(IsOpen(s.serialPort)))])
  }

  /** A socket leaves the registry when it closes. */
  function OnClientLeave(s: BridgeState, id: nat): BridgeState {
    s.(clients := RemoveClient(s.clients, id))
  }

  /** The `SIGINT` handler: close the port if open, then exit with code 0. */
  function SigInt(s: BridgeState): (BridgeState, bool, int) {
    var (s1, closeRequested) :=
      if IsOpen(s.serialPort) then (s.(serialPort := Some(s.serialPort.value.(isOpen := false))), true)
      else (s, false);
    (s1, closeRequested, 0)
  }

  datatype Event =
    | Tick(listing: Listing, outcome: OpenOutcome)
    | RetryTimer(listing: Listing, outcome: OpenOutcome)
    | SerialError
    | SerialClose(portId: nat)
    | LineRead(data: string)
    | ClientJoin(client: Client)
    | ClientLeave(clientId: nat)

  function Step(s: BridgeState, e: Event, openConstant: Option<int>): BridgeState {
    match e
    case Tick(l, o) => IntervalTick(s, l, o).0
    case RetryTimer(l, o) => RetryTimerFires(s, l, o)
    case SerialError => OnSerialError(s).0
    case SerialClose(id) => OnSerialClose(s, id).0
    case LineRead(data) => OnLine(s, data, openConstant)
    case ClientJoin(c) => OnClientJoin(s, c)
    case ClientLeave(id) => OnClientLeave(s, id)
  }

  function Run(s: BridgeState, events: seq<Event>, openConstant: Option<int>): BridgeState
    decreases |events|
  {
    if events == [] then s else Run(Step(s, events[0], openConstant), events[1..], openConstant)
  }

  // ----- Properties of the transitions -----

  /** No usable path (no match, a listing that threw, or an empty path): the attempt
      returns false and creates or opens nothing, even when the current port is open. */
  lemma NoPathNoAttempt(s: BridgeState, listing: Listing, outcome: OpenOutcome)
    requires FindArduinoPort(listing).None? || FindArduinoPort(listing) == Some("")
    ensures Connect(s, listing, outcome) == (s, false)
  {
  }

  /** A listing that throws never leads to a port object. */
  lemma ListingFailureFindsNothing(s: BridgeState, outcome: OpenOutcome)
    ensures Connect(s, ListFailed, outcome) == (s, false)
  {
  }

  /** With a path found and the port open, the attempt succeeds without a new port object. */
  lemma OpenPortIsKept(s: BridgeState, listing: Listing, outcome: OpenOutcome)
    requires FindArduinoPort(listing).Some? && FindArduinoPort(listing).value != ""
    requires IsOpen(s.serialPort)
    ensures Connect(s, listing, outcome) == (s, true)
  {
  }

  /** A failed open returns false and leaves `serialPort` holding the new, unopened port
      object; the parser of an earlier session stays as it was. */
  lemma FailedOpenKeepsUnopenedHandle(s: BridgeState, listing: Listing, path: string)
    requires FindArduinoPort(listing) == Some(path) && path != ""
    requires !IsOpen(s.serialPort)
    ensures var (r, ok) := Connect(s, listing, OpenErr);
      && !ok
      && r.serialPort == Some(SerialHandle(s.created, path, BaudRate, false))
      && r.parser == s.parser
      && r.created == s.created + 1
  {
  }

  /** A successful open returns true, with the new port open and its LF parser attached. */
  lemma SuccessfulOpenAttachesParser(s: BridgeState, listing: Listing, path: string)
    requires FindArduinoPort(listing) == Some(path) && path != ""
    requires !IsOpen(s.serialPort)
    ensures var (r, ok) := Connect(s, listing, OpenOk);
      && ok
      && r.serialPort == Some(SerialHandle(s.created, path, BaudRate, true))
      && r.parser == Some(LineParser(s.created, LineDelimiter))
  {
  }

  /** At most one open port object: an attempt only ever replaces a port that is not open,
      and a true result means the port is open; clients and sends are untouched. */
  lemma ConnectReplacesOnlyClosedPort(s: BridgeState, listing: Listing, outcome: OpenOutcome)
    ensures var (r, ok) := Connect(s, listing, outcome);
      && (r.serialPort != s.serialPort ==> !IsOpen(s.serialPort))
      && (ok ==> IsOpen(r.serialPort))
      && r.clients == s.clients && r.sent == s.sent && r.pendingRetries == s.pendingRetries
  {
  }

  /** The interval attempts a connection exactly when the port is not open. */
  lemma TickAttemptsOnlyWhenNotOpen(s: BridgeState, listing: Listing, outcome: OpenOutcome)
    ensures IntervalTick(s, listing, outcome).1 <==> !IsOpen(s.serialPort)
    ensures IsOpen(s.serialPort) ==> IntervalTick(s, listing, outcome).0 == s
    ensures !IsOpen(s.serialPort) ==> IntervalTick(s, listing, outcome).0 == Connect(s, listing, outcome).0
  {
  }

  /** `reconnect()` calls `close()` exactly when the port is open, leaves the port closed
      but in place, and schedules exactly one attempt. */
  lemma ReconnectClosesOnlyOpenPort(s: BridgeState)
    ensures var (r, closeRequested) := Reconnect(s);
      && (closeRequested <==> IsOpen(s.serialPort))
      && !IsOpen(r.serialPort)
      && (r.serialPort.Some? <==> s.serialPort.Some?)
      && (r.serialPort.Some? ==> r.serialPort.value.id == s.serialPort.value.id)
      && r.pendingRetries == s.pendingRetries + 1
      && r.parser == s.parser && r.clients == s.clients && r.sent == s.sent
  {
  }

  /** Nothing is sent to the clients when the port fails or closes: status reaches a client
      only when it joins. */
  lemma NoStatusOnDisconnect(s: BridgeState, portId: nat)
    ensures OnSerialError(s).0.sent == s.sent
    ensures OnSerialClose(s, portId).0.sent == s.sent
  {
  }

  /** The `close` event of an earlier port object still runs `reconnect()`, which closes the
      current port if it is open. */
  lemma StaleCloseClosesCurrentPort(s: BridgeState, staleId: nat)
    requires IsOpen(s.serialPort) && s.serialPort.value.id != staleId
    ensures OnSerialClose(s, staleId).1
    ensures !IsOpen(OnSerialClose(s, staleId).0.serialPort)
  {
  }

  /** A joining client gets exactly one message, a status whose `connected` is whether the
      port is open (false when there is no port). */
  lemma JoinSendsOneStatus(s: BridgeState, c: Client)
    ensures OnClientJoin(s, c).sent == s.sent + [Delivery(c.id, StatusMessage(IsOpen(s.serialPort)))]
    ensures s.serialPort.None? ==> OnClientJoin(s, c).sent[|s.sent|].message == StatusMessage(false)
  {
  }

  /** A line reaches each registered client once if its state equals the OPEN constant and
      not at all otherwise, carrying the line unchanged; nothing else changes. */
  lemma LineReachesExactlyOpenClients(s: BridgeState, data: string, openConstant: Option<int>, k: nat)
    requires Valid(s) && k < |s.clients|
    ensures var r := OnLine(s, data, openConstant);
      && DeliveriesTo(r.sent, s.clients[k].id)
         == DeliveriesTo(s.sent, s.clients[k].id) + (if ReceivesBroadcast(s.clients[k], openConstant) then 1 else 0)
      && (forall d :: d in r.sent[|s.sent|..] ==> d.message == DataMessage(data))
      && r.(sent := s.sent) == s
  {
    var fan := Fanout(s.clients, DataMessage(data), openConstant);
    DeliveriesToAppend(s.sent, fan, s.clients[k].id);
    FanoutReachesExactlyOpenClients(s.clients, DataMessage(data), openConstant, k);
    assert (s.sent + fan)[|s.sent|..] == fan;
  }

  /** The bridge's `SIGINT` handler always exits with 0, even when the port was open. */
  lemma SigIntExitsZero(s: BridgeState)
    ensures SigInt(s).2 == 0
    ensures SigInt(s).1 <==> IsOpen(s.serialPort)
    ensures !IsOpen(SigInt(s).0.serialPort)
  {
  }

  lemma ConnectPreservesValid(s: BridgeState, listing: Listing, outcome: OpenOutcome)
    requires Valid(s)
    ensures Valid(Connect(s, listing, outcome).0)
  {
  }

  lemma StepPreservesValid(s: BridgeState, e: Event, openConstant: Option<int>)
    requires Valid(s)
    ensures Valid(Step(s, e, openConstant))
  {
    match e
    case Tick(l, o) => ConnectPreservesValid(s, l, o);
    case RetryTimer(l, o) =>
      if s.pendingRetries > 0 {
        ConnectPreservesValid(s.(pendingRetries := s.pendingRetries - 1), l, o);
      }
    case ClientJoin(c) =>
      if !HasClient(s.clients, c.id) {
        var cs := s.clients + [c];
        forall i, j | 0 <= i < j < |cs| ensures cs[i].id != cs[j].id {
          if j == |s.clients| {
            assert cs[i] == s.clients[i];
          }
        }
      }
    case _ =>
  }

  /** Every state reached from a valid one by any sequence of events is valid. */
  lemma {:induction false} RunPreservesValid(s: BridgeState, events: seq<Event>, openConstant: Option<int>)
    requires Valid(s)
    ensures Valid(Run(s, events, openConstant))
    decreases |events|
  {
    if events != [] {
      StepPreservesValid(s, events[0], openConstant);
      RunPreservesValid(Step(s, events[0], openConstant), events[1..], openConstant);
    }
  }

  /** What has been sent is never taken back: every event only appends to the log. */
  lemma {:induction false} SentOnlyGrows(s: BridgeState, events: seq<Event>, openConstant: Option<int>)
    ensures |s.sent| <= |Run(s, events, openConstant).sent|
    ensures Run(s, events, openConstant).sent[..|s.sent|] == s.sent
    decreases |events|
  {
    if events != [] {
      var s1 := Step(s, events[0], openConstant);
      assert |s.sent| <= |s1.sent| && s1.sent[..|s.sent|] == s.sent;
      SentOnlyGrows(s1, events[1..], openConstant);
      var r := Run(s, events, openConstant);
      assert r == Run(s1, events[1..], openConstant);
      assert r.sent[..|s.sent|] == r.sent[..|s1.sent|][..|s.sent|];
    }
  }
}
