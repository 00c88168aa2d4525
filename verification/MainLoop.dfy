/** The sensor's main loop as functions: query correlation, the envelope check,
    dispatch into the engine and the poll cadence. */
module MainLoop {
  import opened Prelude
  import opened Json
  import opened Text
  import opened Registry
  import opened Ocsf
  import Engine = EngineRuns
  import Dxl = DxlMessage
  import Utf8

  /** The configuration, the sensor's reply topic and the JSON parser. */
  datatype Env = Env(cfg: Config, replyTopic: string, parse: Parser)

  /** The engine, the ids of the two pending registry queries ("" for none) and
      the second of the last poll. */
  datatype Sensor = Sensor(engine: State, svcQueryId: string, brokerQueryId: string, lastPoll: int)

  // Looking at a message

  /** `decode_payload_value`: JSON if it parses, or else the text itself. */
  function DecodePayload(env: Env, payload: Bytes): Option<Value> {
    match Utf8.Decode(payload)
    case None => None
    case Some(raw) =>
      if Blank(raw) then None
      else
        match env.parse(raw)
        case Some(v) => Some(v)
        case None => Some(Str(raw))
  }

  const CERTS_FIELD := "dxl.certs"

  function CertsOf(m: Dxl.Message): Option<string> {
    if CERTS_FIELD in m.otherFields then Some(m.otherFields[CERTS_FIELD]) else None
  }

  predicate HasClientCerts(m: Dxl.Message) { CertsOf(m).Some? && !Blank(CertsOf(m).value) }

  /** The last piece that is not blank, trimmed. */
  function LastNonBlank(pieces: seq<string>): Option<string> {
    if pieces == [] then None
    else
      var last := Trim(pieces[|pieces| - 1]);
      if last != "" then Some(last) else LastNonBlank(pieces[..|pieces| - 1])
  }

  function CertThumbprint(m: Dxl.Message): Option<string> {
    match CertsOf(m)
    case Some(certs) => LastNonBlank(Split(certs, ';'))
    case None => None
  }

  datatype SpoofReason =
    | UnrecognizedTopic
    | EmptySource
    | ClientCerts
    | SourceIsThumbprint
    | GuidIsThumbprint
    | GuidMismatch
    | NotABroker

  /** `is_spoofed_broker_envelope` */
  function EnvelopeSpoof(env: Env, brokers: map<string, Value>, topic: string, m: Dxl.Message)
    : Option<SpoofReason>
  {
    match KindOf(topic)
    case Application => None
    case UnrecognizedBrokerEvent => Some(UnrecognizedTopic)
    case kind =>
      if Blank(m.sourceClientId) then Some(EmptySource)
      else if HasClientCerts(m) then Some(ClientCerts)
      else if IsHexThumbprint(m.sourceClientId) then Some(SourceIsThumbprint)
      else
        var guid := if kind == BrokerState then ClaimedGuid(env, m) else None;
        if guid.Some? && IsHexThumbprint(guid.value) then Some(GuidIsThumbprint)
        else if guid.Some? && guid.value != m.sourceClientId then Some(GuidMismatch)
        else if brokers != map[] && m.sourceClientId !in brokers then Some(NotABroker)
        else None
  }

  /** The GUID a payload names if it is JSON text. */
  function ClaimedGuid(env: Env, m: Dxl.Message): Option<string> {
    match Utf8.Decode(m.payload)
    case None => None
    case Some(raw) =>
      match env.parse(raw)
      case Some(v) => v.GetStr("guid")
      case None => None
  }

  /** The event the engine is given. */
  function EventOf(env: Env, topic: string, m: Dxl.Message): Event {
    Event(topic, DecodePayload(env, m.payload).GetOr(Null), m.sourceClientId, CertThumbprint(m))
  }

  // Normalized records

  /** `handle_dxl_message`: the record of a connect, disconnect, register or
      unregister event. */
  function Normalize(env: Env, st: State, topic: string, m: Dxl.Message): Option<OcsfEvent> {
    if EnvelopeSpoof(env, st.brokers, topic, m).Some? then None
    else
      match Utf8.Decode(m.payload)
      case None => None
      case Some(raw) =>
        match env.parse(raw)
        case None => None
        case Some(v) =>
          match KindOf(topic)
          case Connect => Some(NetworkRecord(v, true))
          case Disconnect => Some(NetworkRecord(v, false))
          case Register => Some(ServiceRecord(st, v, true))
          case Unregister => Some(ServiceRecord(st, v, false))
          case _ => None
  }

  function NetworkRecord(v: Value, connect: bool): OcsfEvent {
    var parts := Split(v.GetStr("clientGuid").GetOr("unknown"), ':');
    var ip := match v.GetStr("remoteAddress")
              case None => None
              case Some(a) => Some(if StartsWith(a, "::ffff:") then a[7..] else a);
    var version, cipher, cert := v.GetStr("tlsVersion"), v.GetStr("cipher"), v.GetStr("certThumbprint");
    NetworkActivity(
      if connect then Header(4001, "Connect", 1, 400101) else Header(4001, "Disconnect", 1, 400102),
      parts[0], if |parts| > 1 then Some(parts[1]) else None,
      ip, v.GetStr("protocol"),
      if version.Some? || cipher.Some? || cert.Some?
      then Some(Tls(version.GetOr(""), if cipher.Some? then [cipher.value] else [], cert)) else None
    )
  }

  /** A register event names its service type; for an unregister event the type
      is the one still stored under the GUID. */
  function ServiceRecord(st: State, v: Value, register: bool): OcsfEvent {
    var guid := v.GetStr("serviceGuid").GetOr("unknown");
    var name :=
      if register then v.GetStr("serviceType").GetOr("unknown")
      else if guid in st.services then st.services[guid].serviceType
      else "unknown";
    if register then
      ApiActivity(Header(6003, "Register Service", 1, 600301), "register", guid, name, v.GetStr("clientGuid"))
    else
      ApiActivity(Header(6003, "Unregister Service", 1, 600304), "unregister", guid, name, v.GetStr("clientGuid"))
  }

  // Dispatch

  predicate AuthenticReply(env: Env, topic: string, m: Dxl.Message) {
    && topic == env.replyTopic
    && m.messageType == Dxl.RESPONSE
    && !HasClientCerts(m)
    && !IsHexThumbprint(m.sourceClientId)
  }

  /** The sensor as the loop is entered at `start` milliseconds. */
  function Started(start: int): Sensor { Sensor(Initial(), "", "", start / 1000) }

  /** What the loop does with a message. */
  datatype Dispatch = ServiceReply | BrokerReply | OtherReply | Spoofed(reason: SpoofReason) | ForEngine

  function DispatchOf(env: Env, s: Sensor, topic: string, m: Dxl.Message): Dispatch {
    if AuthenticReply(env, topic, m) && s.svcQueryId != "" && m.requestMessageId == Some(s.svcQueryId) then
      ServiceReply
    else if AuthenticReply(env, topic, m) && s.brokerQueryId != "" && m.requestMessageId == Some(s.brokerQueryId) then
      BrokerReply
    else if topic == env.replyTopic then
      OtherReply
    else
      match EnvelopeSpoof(env, s.engine.brokers, topic, m)
      case Some(reason) => Spoofed(reason)
      case None => ForEngine
  }

  /** What one turn of the loop receives. A successful handshake delivers the
      ids of its two registry queries. */
  datatype Input =
    | ConnAck(ids: Option<(string, string)>)
    | Publish(topic: string, raw: Bytes)
    | Quiet

  /** What the engine is asked to do with an input; `order` is the order in which
      a JSON object is walked. */
  function EngineOp(env: Env, s: Sensor, input: Input, at: int, order: seq<string>): seq<Engine.Op> {
    match input
    case Publish(topic, raw) =>
      (match Dxl.Parse(raw)
       case Fail(_) => []
       case Done(m, _) =>
         match DispatchOf(env, s, topic, m)
         case ServiceReply =>
           (match DecodePayload(env, m.payload)
            case Some(v) => [Engine.ServiceSync(at, v, order)]
            case None => [])
         case BrokerReply =>
           (match DecodePayload(env, m.payload)
            case Some(v) => [Engine.BrokerSync(at, v)]
            case None => [])
         case ForEngine => [Engine.Publish(at, EventOf(env, topic, m))]
         case _ => [])
    case _ => []
  }

  /** The query ids after an input: a handshake replaces both, and a reply that
      answers a query uses its id up. */
  function QueryIds(env: Env, s: Sensor, input: Input): (string, string) {
    match input
    case ConnAck(Some(ids)) => ids
    case Publish(topic, raw) =>
      (match Dxl.Parse(raw)
       case Fail(_) => (s.svcQueryId, s.brokerQueryId)
       case Done(m, _) =>
         match DispatchOf(env, s, topic, m)
         case ServiceReply => ("", s.brokerQueryId)
         case BrokerReply => (s.svcQueryId, "")
         case _ => (s.svcQueryId, s.brokerQueryId))
    case _ => (s.svcQueryId, s.brokerQueryId)
  }

  function Receive(env: Env, s: Sensor, input: Input, at: int, order: seq<string>): Sensor {
    var (svcId, brokerId) := QueryIds(env, s, input);
    Sensor(Engine.Run(env.cfg, s.engine, EngineOp(env, s, input, at, order)), svcId, brokerId, s.lastPoll)
  }

  /** The alert for a message the envelope check turns away. */
  function SpoofReport(env: Env, s: Sensor, input: Input, at: int): seq<Alert> {
    match input
    case Publish(topic, raw) =>
      (match Dxl.Parse(raw)
       case Fail(_) => []
       case Done(m, _) =>
         if DispatchOf(env, s, topic, m).Spoofed? then
           var publisher := CertThumbprint(m).GetOr(m.sourceClientId);
           [Alert(at, SpoofedBrokerEvent, [publisher, topic], NonEmpty(Some(publisher)))]
         else [])
    case _ => []
  }

  function OpAlerts(cfg: Config, st: State, ops: seq<Engine.Op>): seq<Alert>
    decreases |ops|
  {
    if ops == [] then []
    else Engine.AlertsOf(cfg, st, ops[0]) + OpAlerts(cfg, Engine.Apply(cfg, st, ops[0]), ops[1..])
  }

  lemma OneOpAlerts(cfg: Config, st: State, op: Engine.Op)
    ensures OpAlerts(cfg, st, [op]) == Engine.AlertsOf(cfg, st, op)
    ensures Engine.Run(cfg, st, [op]) == Engine.Apply(cfg, st, op)
  {
    hide Engine.AlertsOf, Engine.Apply;
    assert [op][1..] == [];
  }

  function ReceiveAlerts(env: Env, s: Sensor, input: Input, at: int, order: seq<string>): seq<Alert> {
    SpoofReport(env, s, input, at) + OpAlerts(env.cfg, s.engine, EngineOp(env, s, input, at, order))
  }

  /** The record an input is normalized to, before it reaches the engine. */
  function ReceiveRecord(env: Env, s: Sensor, input: Input): Option<OcsfEvent> {
    match input
    case Publish(topic, raw) =>
      (match Dxl.Parse(raw)
       case Fail(_) => None
       case Done(m, _) => Normalize(env, s.engine, topic, m))
    case _ => None
  }

  // The poll at the end of a turn

  const POLL_INTERVAL := 10

  predicate PollDue(s: Sensor, now: int) { now - s.lastPoll > POLL_INTERVAL }

  /** `now` is the second the loop reads; the poll reads the clock again. */
  function Tick(env: Env, s: Sensor, now: int, pollAt: int, order: seq<string>): Sensor {
    if PollDue(s, now) then
      s.(engine := Engine.Apply(env.cfg, s.engine, Engine.Poll(pollAt, order)), lastPoll := now)
    else
      s
  }

  /** One turn: an input at `at`, the loop's clock reading at `tickAt` and the
      poll's, if there is one, at `pollAt`, all in milliseconds. */
  datatype Turn = Turn(input: Input, at: int, order: seq<string>,
                       tickAt: int, pollAt: int, pollOrder: seq<string>)

  function TickSecond(t: Turn): int { t.tickAt / 1000 }

  function Step(env: Env, s: Sensor, t: Turn): Sensor {
    Tick(env, Receive(env, s, t.input, t.at, t.order), TickSecond(t), t.pollAt, t.pollOrder)
  }

  /** The state of a turn between its input and its poll. */
  function Received(env: Env, s: Sensor, t: Turn): Sensor { Receive(env, s, t.input, t.at, t.order) }

  /** The object an input has walked is walked in full. */
  ghost predicate InputWalked(env: Env, s: Sensor, input: Input, at: int, order: seq<string>) {
    forall op :: op in EngineOp(env, s, input, at, order) ==> Engine.Walked(s.engine, op)
  }

  /** If a turn polls, its poll walks all the services. */
  ghost predicate PollWalked(env: Env, s: Sensor, t: Turn) {
    PollDue(s, TickSecond(t)) ==> Engine.Walked(Received(env, s, t).engine, Engine.Poll(t.pollAt, t.pollOrder))
  }

  function Run(env: Env, s: Sensor, turns: seq<Turn>): Sensor
    decreases |turns|
  {
    if turns == [] then s else Run(env, Step(env, s, turns[0]), turns[1..])
  }

  /** Everything a turn raises. */
  function TurnAlerts(env: Env, s: Sensor, t: Turn): seq<Alert> {
    var received := Receive(env, s, t.input, t.at, t.order);
    ReceiveAlerts(env, s, t.input, t.at, t.order)
    + if PollDue(received, TickSecond(t))
      then Engine.AlertsOf(env.cfg, received.engine, Engine.Poll(t.pollAt, t.pollOrder)) else []
  }

  function AlertLog(env: Env, s: Sensor, turns: seq<Turn>): seq<seq<Alert>>
    decreases |turns|
  {
    if turns == [] then [] else [TurnAlerts(env, s, turns[0])] + AlertLog(env, Step(env, s, turns[0]), turns[1..])
  }
}
