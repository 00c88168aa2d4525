/** The detection engine as functions: what one event, poll or sync does to the
    registries and which alerts it raises. */
module Registry {
  import opened Prelude
  import opened Json
  import opened Text
  import opened RateWindow
  import opened TopicFilter

  /** `allowed` holds normalized, non-empty thumbprints. */
  datatype Config = Config(graceMins: u32, allowed: seq<string>, sensitive: seq<string>)

  datatype Service = Service(
    guid: string, serviceType: string, clientGuid: Option<string>,
    registrationTime: i64, ttlMins: u32, reported: bool
  )

  datatype State = State(
    services: map<string, Service>, brokers: map<string, Value>,
    clientRates: Queues, topicRates: Queues
  )

  function Initial(): State { State(map[], map[], map[], map[]) }

  datatype Title =
    | SpoofedBrokerEvent
    | UnknownThumbprint
    | LegacyCipher
    | ServiceHijack
    | TtlExpired
    | CertificateRevoked
    | IdentitySpoofing
    | SensitiveTopic
    | ClientRate
    | TopicRate
    | FabricChanged

  /** `about` lists what the alert's description names, in the order it does. */
  datatype Alert = Alert(time: int, title: Title, about: seq<string>, suser: Option<string>)

  datatype Event = Event(topic: string, payload: Value, source: string, cert: Option<string>)

  // Topics

  const BROKER_PREFIX := "/mcafee/event/dxl/"

  /** Which of the engine's cases a topic falls into. The named topics are all
      different and all start with the broker prefix. */
  datatype TopicKind =
    | Connect
    | Disconnect
    | Register
    | Unregister
    | FabricChange
    | BrokerState
    | RevocationList
    | OtherBrokerEvent
    | UnrecognizedBrokerEvent
    | Application

  function KindOf(topic: string): TopicKind {
    if !StartsWith(topic, BROKER_PREFIX) then Application
    else if topic == "/mcafee/event/dxl/clientregistry/connect" then Connect
    else if topic == "/mcafee/event/dxl/clientregistry/disconnect" then Disconnect
    else if topic == "/mcafee/event/dxl/svcregistry/register" then Register
    else if topic == "/mcafee/event/dxl/svcregistry/unregister" then Unregister
    else if topic == "/mcafee/event/dxl/fabricchange" then FabricChange
    else if topic == "/mcafee/event/dxl/brokerregistry/brokerstate" then BrokerState
    else if topic == "/mcafee/event/dxl/revocation/list" then RevocationList
    else if topic in OTHER_BROKER_TOPICS then OtherBrokerEvent
    else UnrecognizedBrokerEvent
  }

  /** The rest of the topics are those of applications, which lie outside the
      brokers' own topic tree, and those of brokers that name no kind. */
  lemma OutsideBrokers(topic: string)
    ensures KindOf(topic) == Application <==> !StartsWith(topic, BROKER_PREFIX)
  {
  }

  /** Each named topic, and no other, has the kind named after it. */
  lemma NamedTopics(topic: string)
    ensures KindOf(topic) == Connect <==> topic == "/mcafee/event/dxl/clientregistry/connect"
    ensures KindOf(topic) == Disconnect <==> topic == "/mcafee/event/dxl/clientregistry/disconnect"
    ensures KindOf(topic) == Register <==> topic == "/mcafee/event/dxl/svcregistry/register"
    ensures KindOf(topic) == Unregister <==> topic == "/mcafee/event/dxl/svcregistry/unregister"
    ensures KindOf(topic) == FabricChange <==> topic == "/mcafee/event/dxl/fabricchange"
    ensures KindOf(topic) == BrokerState <==> topic == "/mcafee/event/dxl/brokerregistry/brokerstate"
    ensures KindOf(topic) == RevocationList <==> topic == "/mcafee/event/dxl/revocation/list"
  {
    ConnectTopic();
    DisconnectTopic();
    RegisterTopic();
    UnregisterTopic();
    FabricChangeTopic();
    BrokerStateTopic();
    RevocationListTopic();
  }

  lemma ConnectTopic()
    ensures KindOf("/mcafee/event/dxl/clientregistry/connect") == Connect
  {
  }

  lemma DisconnectTopic()
    ensures KindOf("/mcafee/event/dxl/clientregistry/disconnect") == Disconnect
  {
  }

  lemma RegisterTopic()
    ensures KindOf("/mcafee/event/dxl/svcregistry/register") == Register
  {
  }

  lemma UnregisterTopic()
    ensures KindOf("/mcafee/event/dxl/svcregistry/unregister") == Unregister
  {
  }

  lemma FabricChangeTopic()
    ensures KindOf("/mcafee/event/dxl/fabricchange") == FabricChange
  {
  }

  lemma BrokerStateTopic()
    ensures KindOf("/mcafee/event/dxl/brokerregistry/brokerstate") == BrokerState
  {
  }

  lemma RevocationListTopic()
    ensures KindOf("/mcafee/event/dxl/revocation/list") == RevocationList
  {
  }

  const OTHER_BROKER_TOPICS := [
    "/mcafee/event/dxl/brokerregistry/brokerstatetopics",
    "/mcafee/event/dxl/brokerregistry/topicadded",
    "/mcafee/event/dxl/brokerregistry/topicremoved",
    "/mcafee/event/dxl/eventsubscribernotfound",
    "/mcafee/event/dxl/dumpbrokerstate",
    "/mcafee/event/dxl/dumpservicestate",
    "/mcafee/event/dxl/tenant/limit/exceeded",
    "/mcafee/event/dxl/tenant/limit/reset"
  ]

  lemma OtherTopicPrefix(i: nat)
    requires i < |OTHER_BROKER_TOPICS|
    ensures BROKER_PREFIX <= OTHER_BROKER_TOPICS[i]
  {
  }

  /** The fifteen topics brokers publish on. */
  predicate KnownBrokerTopic(topic: string) {
    || topic == "/mcafee/event/dxl/clientregistry/connect"
    || topic == "/mcafee/event/dxl/clientregistry/disconnect"
    || topic == "/mcafee/event/dxl/svcregistry/register"
    || topic == "/mcafee/event/dxl/svcregistry/unregister"
    || topic == "/mcafee/event/dxl/fabricchange"
    || topic == "/mcafee/event/dxl/brokerregistry/brokerstate"
    || topic == "/mcafee/event/dxl/revocation/list"
    || topic == "/mcafee/event/dxl/brokerregistry/brokerstatetopics"
    || topic == "/mcafee/event/dxl/brokerregistry/topicadded"
    || topic == "/mcafee/event/dxl/brokerregistry/topicremoved"
    || topic == "/mcafee/event/dxl/eventsubscribernotfound"
    || topic == "/mcafee/event/dxl/dumpbrokerstate"
    || topic == "/mcafee/event/dxl/dumpservicestate"
    || topic == "/mcafee/event/dxl/tenant/limit/exceeded"
    || topic == "/mcafee/event/dxl/tenant/limit/reset"
  }

  /** A topic under the brokers' prefix is unrecognized unless it is one of those. */
  lemma KnownTopicsExactly(topic: string)
    ensures KindOf(topic) == UnrecognizedBrokerEvent
       <==> StartsWith(topic, "/mcafee/event/dxl/") && !KnownBrokerTopic(topic)
    ensures KindOf(topic) == Application <==> !StartsWith(topic, "/mcafee/event/dxl/")
  {
    NamedTopics(topic);
    if topic in OTHER_BROKER_TOPICS {
      var i :| 0 <= i < |OTHER_BROKER_TOPICS| && OTHER_BROKER_TOPICS[i] == topic;
      OtherTopicPrefix(i);
    }
  }

  const FIRST_INSTANCE_TOPIC := "/mcafee/event/tie/file/firstinstance"

  // Who published

  function NonEmpty(o: Option<string>): Option<string> {
    if o.Some? && o.value != "" then o else None
  }

  function CertOf(e: Event): Option<string> {
    match e.cert
    case None => None
    case Some(c) => NonEmpty(Some(Trim(c)))
  }

  function PublisherOf(e: Event): string { CertOf(e).GetOr(e.source) }

  // The early return on spoofed broker events

  /** The alert with which the engine turns an event away, if it does. */
  function SpoofAlert(brokers: map<string, Value>, e: Event, now: int): Option<Alert> {
    var publisher := PublisherOf(e);
    var stranger := brokers != map[] && e.source !in brokers;
    match KindOf(e.topic)
    case Application => None
    case UnrecognizedBrokerEvent =>
      Some(Alert(now, SpoofedBrokerEvent, [publisher, e.topic], NonEmpty(Some(publisher))))
    case kind =>
      if Blank(e.source) then
        Some(Alert(now, SpoofedBrokerEvent, [e.topic], CertOf(e)))
      else if kind == BrokerState then
        var claimed := e.payload.GetStr("guid");
        if || IsHexThumbprint(e.source)
           || (claimed.Some? && IsHexThumbprint(claimed.value))
           || (e.source != "" && claimed.Some? && claimed.value != e.source)
           || stranger
        then Some(Alert(now, SpoofedBrokerEvent, [publisher], NonEmpty(Some(publisher))))
        else None
      else if stranger then
        Some(Alert(now, SpoofedBrokerEvent, [publisher, e.topic], Some(publisher)))
      else
        None
  }

  // Thumbprints, ciphers and revocations

  predicate Unknown(cfg: Config, cert: string) {
    NormalizeThumbprint(cert) != "" && NormalizeThumbprint(cert) !in cfg.allowed
  }

  function UnknownAlert(cfg: Config, cert: string, now: int): seq<Alert> {
    if Unknown(cfg, cert) then [Alert(now, UnknownThumbprint, [cert], Some(cert))] else []
  }

  /** The thumbprint a connect event names, or else the head of its client GUID. */
  function ConnectCert(payload: Value): Option<string> {
    match payload.GetStr("certThumbprint")
    case Some(c) => Some(c)
    case None =>
      match payload.GetStr("clientGuid")
      case Some(g) => Some(Before(g, ':'))
      case None => None
  }

  function CertListAlerts(cfg: Config, certs: seq<Value>, now: int): seq<Alert> {
    if certs == [] then []
    else
      (if certs[0].Str? then UnknownAlert(cfg, certs[0].s, now) else [])
      + CertListAlerts(cfg, certs[1..], now)
  }

  function ThumbprintAlerts(cfg: Config, brokers: map<string, Value>, e: Event, now: int): seq<Alert> {
    if cfg.allowed == [] then []
    else
      match KindOf(e.topic)
      case Connect =>
        var cert := ConnectCert(e.payload);
        if cert.Some? then UnknownAlert(cfg, cert.value, now) else []
      case Application =>
        if e.source !in brokers && PublisherOf(e) != "" then UnknownAlert(cfg, PublisherOf(e), now) else []
      case Register =>
        CertListAlerts(cfg, e.payload.GetArray("certificates").GetOr([]), now)
      case _ => []
  }

  function CipherAlerts(e: Event, now: int): seq<Alert> {
    var cipher := e.payload.GetStr("cipher");
    if && KindOf(e.topic) == Connect && cipher.Some?
       && StartsWith(cipher.value, "TLS_RSA_") && !Contains(cipher.value, "ECDHE")
    then [Alert(now, LegacyCipher, [cipher.value], ConnectCert(e.payload))]
    else []
  }

  function RevokedAlerts(lines: seq<string>, now: int): seq<Alert> {
    if lines == [] then []
    else
      var cert := NormalizeThumbprint(lines[0]);
      (if cert != "" then [Alert(now, CertificateRevoked, [cert], Some(cert))] else [])
      + RevokedAlerts(lines[1..], now)
  }

  function RevocationAlerts(e: Event, now: int): seq<Alert> {
    if KindOf(e.topic) == RevocationList && e.payload.Str? then RevokedAlerts(Lines(e.payload.s), now) else []
  }

  // Claimed identities on application topics

  const IDENTITY_FIELDS := ["agentGuid", "clientGuid", "certThumbprint"]

  /** The publisher has an identity, and the claimed one is neither its client
      id nor its certificate. */
  predicate FalseClaim(e: Event, claimed: string) {
    var sender := NormalizeIdentity(e.source);
    var cert := if CertOf(e).Some? then NormalizeIdentity(CertOf(e).value) else "";
    var claim := NormalizeIdentity(claimed);
    && claim != ""
    && (sender != "" || cert != "")
    && !(sender != "" && claim == sender)
    && !(cert != "" && claim == cert)
  }

  function ClaimAlert(e: Event, field: string, now: int): seq<Alert> {
    var claimed := e.payload.GetStr(field);
    if && !(field == "agentGuid" && e.topic == FIRST_INSTANCE_TOPIC)
       && claimed.Some? && FalseClaim(e, claimed.value)
    then [Alert(now, IdentitySpoofing, [PublisherOf(e), e.topic, field, claimed.value], Some(PublisherOf(e)))]
    else []
  }

  function ClaimAlerts(e: Event, fields: seq<string>, now: int): seq<Alert> {
    if fields == [] then [] else ClaimAlert(e, fields[0], now) + ClaimAlerts(e, fields[1..], now)
  }

  function IdentityAlerts(brokers: map<string, Value>, e: Event, now: int): seq<Alert> {
    if KindOf(e.topic) == Application && (e.source != "" || CertOf(e).Some?) && e.source !in brokers
    then ClaimAlerts(e, IDENTITY_FIELDS, now)
    else []
  }

  function SensitiveAlerts(filters: seq<string>, e: Event, now: int): seq<Alert> {
    if filters == [] then []
    else
      (if Matches(LevelsOf(filters[0]), LevelsOf(e.topic))
       then [Alert(now, SensitiveTopic, [PublisherOf(e), e.topic], Some(PublisherOf(e)))] else [])
      + SensitiveAlerts(filters[1..], e, now)
  }

  // Services

  function ToU32(n: nat): u32 { n % 0x1_0000_0000 }

  /** Sums of 64-bit integers wrap around. */
  function ToI64(n: int): i64 {
    var low := n % 0x1_0000_0000_0000_0000;
    if low < 0x8000_0000_0000_0000 then low else low - 0x1_0000_0000_0000_0000
  }

  /** The service a payload describes under `guid`, if it has all the fields. */
  function ServiceFrom(guid: string, info: Value): Option<Service> {
    match (info.GetStr("serviceType"), info.GetU64("ttlMins"), info.GetI64("registrationTime"))
    case (Some(serviceType), Some(ttl), Some(time)) =>
      Some(Service(guid, serviceType, NonEmpty(info.GetStr("clientGuid")), time, ToU32(ttl), false))
    case _ => None
  }

  /** The service a register event asks for. */
  function Registered(e: Event): Option<Service> {
    if KindOf(e.topic) != Register then None
    else
      match e.payload.GetStr("serviceGuid")
      case Some(guid) => ServiceFrom(guid, e.payload)
      case None => None
  }

  /** The service an unregister event names. */
  function Unregistered(e: Event): Option<string> {
    if KindOf(e.topic) == Unregister then e.payload.GetStr("serviceGuid") else None
  }

  /** The second after which a service is overdue, as the engine computes it. */
  function Expiry(cfg: Config, s: Service): i64 {
    ToI64(s.registrationTime + s.ttlMins * 60 + cfg.graceMins * 60)
  }

  /** `s` would take a service over from a client with another identity. */
  predicate Hijacks(services: map<string, Service>, s: Service) {
    && s.clientGuid.Some?
    && s.guid in services && services[s.guid].clientGuid.Some?
    && NormalizeIdentity(services[s.guid].clientGuid.value) != NormalizeIdentity(s.clientGuid.value)
  }

  function TtlAlert(s: Service, time: int): Alert {
    Alert(time, TtlExpired, [s.guid, s.serviceType], None)
  }

  function HijackAlert(services: map<string, Service>, s: Service, now: int): Alert
    requires Hijacks(services, s)
  {
    Alert(now, ServiceHijack,
          [s.guid, s.serviceType, s.clientGuid.value, services[s.guid].clientGuid.value], s.clientGuid)
  }

  /** Whole seconds of a millisecond clock, by truncating division. */
  function Seconds(now: int): int { if now >= 0 then now / 1000 else -(-now / 1000) }

  function ServicesAfter(services: map<string, Service>, e: Event): map<string, Service> {
    match (Registered(e), Unregistered(e))
    case (Some(s), _) => if Hijacks(services, s) then services else services[s.guid := s]
    case (None, Some(guid)) => services - {guid}
    case (None, None) => services
  }

  function ServiceAlerts(cfg: Config, services: map<string, Service>, e: Event, now: int): seq<Alert> {
    match (Registered(e), Unregistered(e))
    case (Some(s), _) => if Hijacks(services, s) then [HijackAlert(services, s, now)] else []
    case (None, Some(guid)) =>
      if guid in services && !services[guid].reported && Seconds(now) >= Expiry(cfg, services[guid])
      then [TtlAlert(services[guid], now)] else []
    case (None, None) => []
  }

  // Brokers

  function BrokersAfter(brokers: map<string, Value>, e: Event): map<string, Value> {
    match e.payload.GetStr("guid")
    case Some(guid) => if KindOf(e.topic) == BrokerState then brokers[guid := e.payload] else brokers
    case None => brokers
  }

  predicate FabricChanges(brokers: map<string, Value>, e: Event) {
    match KindOf(e.topic)
    case FabricChange => true
    case BrokerState =>
      var guid := e.payload.GetStr("guid");
      || guid.None?
      || guid.value !in brokers
      || brokers[guid.value].Get("bridges") != e.payload.Get("bridges")
      || brokers[guid.value].Get("startTime") != e.payload.Get("startTime")
    case _ => false
  }

  function FabricAlerts(brokers: map<string, Value>, e: Event, now: int): seq<Alert> {
    if FabricChanges(brokers, e) then [Alert(now, FabricChanged, [], None)] else []
  }

  // One event

  function RateAlert(verdict: Verdict, title: Title, key: string, now: int): seq<Alert> {
    if verdict == Counted(true) then [Alert(now, title, [key], None)] else []
  }

  /** What an event the engine lets through makes of the state. */
  function Accepted(st: State, e: Event, now: int): State {
    State(ServicesAfter(st.services, e), BrokersAfter(st.brokers, e),
          TrackRate(st.clientRates, PublisherOf(e), now).0, TrackRate(st.topicRates, e.topic, now).0)
  }

  function AcceptedAlerts(cfg: Config, st: State, e: Event, now: int): seq<Alert> {
    ThumbprintAlerts(cfg, st.brokers, e, now) + CipherAlerts(e, now)
    + ServiceAlerts(cfg, st.services, e, now) + RevocationAlerts(e, now)
    + IdentityAlerts(st.brokers, e, now) + SensitiveAlerts(cfg.sensitive, e, now)
    + RateAlert(TrackRate(st.clientRates, PublisherOf(e), now).1, ClientRate, PublisherOf(e), now)
    + RateAlert(TrackRate(st.topicRates, e.topic, now).1, TopicRate, e.topic, now)
    + FabricAlerts(st.brokers, e, now)
  }

  /** `process_event_with_cert` */
  function Handle(cfg: Config, st: State, e: Event, now: int): (State, seq<Alert>) {
    match SpoofAlert(st.brokers, e, now)
    case Some(alert) => (st, [alert])
    case None => (Accepted(st, e, now), AcceptedAlerts(cfg, st, e, now))
  }

  // Polls. `order` is the order in which the hash map yields the services.

  predicate Overdue(cfg: Config, s: Service, nowSecs: int) { !s.reported && nowSecs > Expiry(cfg, s) }

  function ServicesPolled(cfg: Config, services: map<string, Service>, nowSecs: int): map<string, Service> {
    map g | g in services ::
      if Overdue(cfg, services[g], nowSecs) then services[g].(reported := true) else services[g]
  }

  function PollAlerts(cfg: Config, services: map<string, Service>, order: seq<string>, nowSecs: int): seq<Alert> {
    if order == [] then []
    else
      var front, g := order[..|order| - 1], order[|order| - 1];
      PollAlerts(cfg, services, front, nowSecs)
      + if g in services && Overdue(cfg, services[g], nowSecs) then [TtlAlert(services[g], nowSecs * 1000)] else []
  }

  /** `poll_timeouts_at` */
  function Polled(cfg: Config, st: State, nowSecs: int): State {
    State(ServicesPolled(cfg, st.services, nowSecs), st.brokers,
          Sweep(st.clientRates, nowSecs * 1000), Sweep(st.topicRates, nowSecs * 1000))
  }

  // Syncs. `order` is the order in which the JSON object yields its members.

  /** After a sync the services are exactly the well-formed entries. */
  function ServicesSynced(members: map<string, Value>): map<string, Service> {
    map g | g in members && ServiceFrom(g, members[g]).Some? :: ServiceFrom(g, members[g]).value
  }

  function SyncAlerts(cfg: Config, members: map<string, Value>, order: seq<string>, now: int): seq<Alert> {
    if order == [] || cfg.allowed == [] then []
    else
      var front, g := order[..|order| - 1], order[|order| - 1];
      SyncAlerts(cfg, members, front, now)
      + if g in members then CertListAlerts(cfg, members[g].GetArray("certificates").GetOr([]), now) else []
  }

  function BrokersSynced(members: map<string, Value>): map<string, Value> {
    map g | g in members && !IsHexThumbprint(g) :: members[g]
  }

  /** `process_sync_response`: without a `services` object nothing happens. */
  function Synced(st: State, payload: Value): State {
    match payload.GetObject("services")
    case Some(members) => st.(services := ServicesSynced(members))
    case None => st
  }

  /** `process_broker_sync_response` */
  function BrokerSynced(st: State, payload: Value): State {
    match payload.GetObject("brokers")
    case Some(members) => st.(brokers := BrokersSynced(members))
    case None => st
  }
}
