/** What the alerts of an accepted event and of a registry reply mean: each kind is
    raised exactly when there is cause for it, whatever else is raised. */
module AlertMeaning {
  import opened Prelude
  import opened Json
  import opened Text
  import opened Registry
  import opened TopicFilter
  import opened AlertCount
  import opened EngineRuns
  import Rate = RateWindow

  /** Some alert carries this title and names `subject` first. */
  predicate Reported(alerts: seq<Alert>, title: Title, subject: string) {
    exists a :: a in alerts && Is(a, title, subject)
  }

  /** Which part of the engine raises alerts with a given title. */
  function Part(cfg: Config, st: State, e: Event, now: int, title: Title): seq<Alert> {
    match title
    case SpoofedBrokerEvent => []
    case UnknownThumbprint => ThumbprintAlerts(cfg, st.brokers, e, now)
    case LegacyCipher => CipherAlerts(e, now)
    case ServiceHijack => ServiceAlerts(cfg, st.services, e, now)
    case TtlExpired => ServiceAlerts(cfg, st.services, e, now)
    case CertificateRevoked => RevocationAlerts(e, now)
    case IdentitySpoofing => IdentityAlerts(st.brokers, e, now)
    case SensitiveTopic => SensitiveAlerts(cfg.sensitive, e, now)
    case ClientRate => RateAlert(Rate.TrackRate(st.clientRates, PublisherOf(e), now).1, ClientRate, PublisherOf(e), now)
    case TopicRate => RateAlert(Rate.TrackRate(st.topicRates, e.topic, now).1, TopicRate, e.topic, now)
    case FabricChanged => FabricAlerts(st.brokers, e, now)
  }

  lemma InParts(a: Alert, a1: seq<Alert>, a2: seq<Alert>, a3: seq<Alert>, a4: seq<Alert>, a5: seq<Alert>,
                a6: seq<Alert>, a7: seq<Alert>, a8: seq<Alert>, a9: seq<Alert>)
    ensures a in a1 + a2 + a3 + a4 + a5 + a6 + a7 + a8 + a9
       <==> a in a1 || a in a2 || a in a3 || a in a4 || a in a5 || a in a6 || a in a7 || a in a8 || a in a9
  {
  }

  lemma ServicesTitled(cfg: Config, services: map<string, Service>, e: Event, now: int)
    ensures forall a :: a in ServiceAlerts(cfg, services, e, now) ==> a.title in {ServiceHijack, TtlExpired}
  {
    hide Hijacks, Expiry, Seconds, Registered, Unregistered;
  }

  /** The alerts of one title are those of one part. */
  lemma AlertsOfTitle(cfg: Config, st: State, e: Event, now: int, a: Alert)
    ensures a in AcceptedAlerts(cfg, st, e, now) ==> a in Part(cfg, st, e, now, a.title)
    ensures a in Part(cfg, st, e, now, a.title) ==> a in AcceptedAlerts(cfg, st, e, now)
  {
    PiecesTitled(cfg, st.brokers, e, now);
    ServicesTitled(cfg, st.services, e, now);
    hide ThumbprintAlerts, CipherAlerts, RevocationAlerts, IdentityAlerts, SensitiveAlerts, FabricAlerts;
    hide ServiceAlerts, PublisherOf, Rate.TrackRate;
    InParts(a, ThumbprintAlerts(cfg, st.brokers, e, now), CipherAlerts(e, now),
            ServiceAlerts(cfg, st.services, e, now), RevocationAlerts(e, now),
            IdentityAlerts(st.brokers, e, now), SensitiveAlerts(cfg.sensitive, e, now),
            Part(cfg, st, e, now, ClientRate), Part(cfg, st, e, now, TopicRate), FabricAlerts(st.brokers, e, now));
  }

  lemma ReportedByPart(cfg: Config, st: State, e: Event, now: int, title: Title, subject: string)
    ensures Reported(AcceptedAlerts(cfg, st, e, now), title, subject)
       <==> Reported(Part(cfg, st, e, now, title), title, subject)
  {
    hide AcceptedAlerts, Part;
    forall a | Is(a, title, subject)
      ensures a in AcceptedAlerts(cfg, st, e, now) <==> a in Part(cfg, st, e, now, title)
    {
      AlertsOfTitle(cfg, st, e, now, a);
    }
  }

  // Thumbprints

  /** A connect event names `cert`: as the thumbprint, or without one at the head
      of the client GUID. */
  predicate Connects(payload: Value, cert: string) {
    || payload.GetStr("certThumbprint") == Some(cert)
    || (&& payload.GetStr("certThumbprint").None? && payload.GetStr("clientGuid").Some?
        && Before(payload.GetStr("clientGuid").value, ':') == cert)
  }

  /** The thumbprints an event brings before the allow-list: the one a connecting
      client names, those a service registers with, and the publisher of an
      application message that no known broker sent. */
  predicate Presents(brokers: map<string, Value>, e: Event, cert: string) {
    || (e.topic == "/mcafee/event/dxl/clientregistry/connect" && Connects(e.payload, cert))
    || (e.topic == "/mcafee/event/dxl/svcregistry/register"
        && Str(cert) in e.payload.GetArray("certificates").GetOr([]))
    || (!StartsWith(e.topic, BROKER_PREFIX) && e.source !in brokers && PublisherOf(e) == cert)
  }

  lemma {:induction false} CertListReported(cfg: Config, certs: seq<Value>, now: int, cert: string)
    ensures Reported(CertListAlerts(cfg, certs, now), UnknownThumbprint, cert)
       <==> Str(cert) in certs && Unknown(cfg, cert)
  {
    hide Unknown;
    if certs == [] {
    } else {
      CertListReported(cfg, certs[1..], now, cert);
      var first := if certs[0].Str? then UnknownAlert(cfg, certs[0].s, now) else [];
      ReportedJoin(first, CertListAlerts(cfg, certs[1..], now), UnknownThumbprint, cert);
      if certs[0].Str? {
        UnknownReported(cfg, certs[0].s, now, cert);
      }
      assert certs == [certs[0]] + certs[1..];
    }
  }

  lemma ReportedJoin(a: seq<Alert>, b: seq<Alert>, title: Title, subject: string)
    ensures Reported(a + b, title, subject) <==> Reported(a, title, subject) || Reported(b, title, subject)
  {
    if Reported(a, title, subject) {
      var x :| x in a && Is(x, title, subject);
      assert x in a + b;
    }
    if Reported(b, title, subject) {
      var x :| x in b && Is(x, title, subject);
      assert x in a + b;
    }
  }

  lemma UnknownReported(cfg: Config, named: string, now: int, cert: string)
    ensures Reported(UnknownAlert(cfg, named, now), UnknownThumbprint, cert) <==> named == cert && Unknown(cfg, named)
  {
    hide Unknown;
    if Unknown(cfg, named) {
      assert Alert(now, UnknownThumbprint, [named], Some(named)) in UnknownAlert(cfg, named, now);
    }
  }

  lemma ConnectsExactly(payload: Value, cert: string)
    ensures ConnectCert(payload) == Some(cert) <==> Connects(payload, cert)
  {
    hide Before;
  }

  lemma UnknownMeans(cfg: Config, cert: string)
    ensures Unknown(cfg, cert) <==> NormalizeThumbprint(cert) != "" && NormalizeThumbprint(cert) !in cfg.allowed
  {
    hide NormalizeThumbprint;
  }

  lemma NothingReported(title: Title, subject: string)
    ensures !Reported([], title, subject)
  {
  }

  /** A thumbprint is reported as unknown exactly when there is an allow-list, the
      event presents it, and its normal form is neither empty nor listed. */
  lemma UnknownThumbprintExactly(cfg: Config, st: State, e: Event, now: int, cert: string)
    ensures Reported(AcceptedAlerts(cfg, st, e, now), UnknownThumbprint, cert)
       <==> && cfg.allowed != [] && Presents(st.brokers, e, cert)
            && NormalizeThumbprint(cert) != "" && NormalizeThumbprint(cert) !in cfg.allowed
  {
    ReportedByPart(cfg, st, e, now, UnknownThumbprint, cert);
    EmptyIsKnown(cfg);
    ConnectsExactly(e.payload, cert);
    UnknownMeans(cfg, cert);
    NamedTopics(e.topic);
    OutsideBrokers(e.topic);
    hide StartsWith, Connects, Reported;
    hide AcceptedAlerts, KindOf, PublisherOf, NormalizeThumbprint, CertListAlerts, UnknownAlert, Unknown, ConnectCert;
    NothingReported(UnknownThumbprint, cert);
    CertListReported(cfg, e.payload.GetArray("certificates").GetOr([]), now, cert);
    UnknownReported(cfg, PublisherOf(e), now, cert);
    if ConnectCert(e.payload).Some? {
      UnknownReported(cfg, ConnectCert(e.payload).value, now, cert);
    }
  }

  lemma EmptyIsKnown(cfg: Config)
    ensures !Unknown(cfg, "")
  {
  }

  /** Some listed member of a registry query's reply has `cert` among its
      certificates. */
  predicate Lists(members: map<string, Value>, order: seq<string>, cert: string) {
    exists g :: g in order && g in members && Str(cert) in members[g].GetArray("certificates").GetOr([])
  }

  lemma {:induction false} SyncReported(cfg: Config, members: map<string, Value>, order: seq<string>, now: int,
                                        cert: string)
    ensures Reported(SyncAlerts(cfg, members, order, now), UnknownThumbprint, cert)
       <==> cfg.allowed != [] && Lists(members, order, cert) && Unknown(cfg, cert)
    decreases |order|
  {
    hide Unknown, CertListAlerts, Is;
    if order == [] || cfg.allowed == [] {
    } else {
      var front, g := order[..|order| - 1], order[|order| - 1];
      var certs := if g in members then members[g].GetArray("certificates").GetOr([]) else [];
      SyncReported(cfg, members, front, now, cert);
      ReportedJoin(SyncAlerts(cfg, members, front, now), CertListAlerts(cfg, certs, now), UnknownThumbprint, cert);
      CertListReported(cfg, certs, now, cert);
      assert order == front + [g];
    }
  }

  /** A registry query's reply has a thumbprint reported as unknown exactly when
      there is an allow-list, some member of its `services` object lists the
      thumbprint, and its normal form is neither empty nor listed: also for a
      member that is no well-formed service. */
  lemma SyncThumbprintExactly(cfg: Config, st: State, at: int, payload: Value, order: seq<string>, cert: string)
    requires Walked(st, ServiceSync(at, payload, order))
    ensures Reported(AlertsOf(cfg, st, ServiceSync(at, payload, order)), UnknownThumbprint, cert)
       <==> && cfg.allowed != [] && NormalizeThumbprint(cert) != "" && NormalizeThumbprint(cert) !in cfg.allowed
            && payload.GetObject("services").Some?
            && var members := payload.GetObject("services").value;
               exists g :: g in members && Str(cert) in members[g].GetArray("certificates").GetOr([])
  {
    UnknownMeans(cfg, cert);
    hide Unknown, SyncAlerts, Is, NormalizeThumbprint;
    match payload.GetObject("services")
    case None =>
    case Some(members) => SyncReported(cfg, members, order, at, cert);
  }

  // Revocations

  lemma {:induction false} RevokedReported(lines: seq<string>, now: int, cert: string)
    ensures Reported(RevokedAlerts(lines, now), CertificateRevoked, cert)
       <==> cert != "" && exists i :: 0 <= i < |lines| && NormalizeThumbprint(lines[i]) == cert
  {
    hide NormalizeThumbprint;
    if lines == [] {
    } else {
      var c := NormalizeThumbprint(lines[0]);
      RevokedReported(lines[1..], now, cert);
      var first := if c != "" then [Alert(now, CertificateRevoked, [c], Some(c))] else [];
      ReportedJoin(first, RevokedAlerts(lines[1..], now), CertificateRevoked, cert);
      if c != "" {
        assert Alert(now, CertificateRevoked, [c], Some(c)) in first;
      }
      assert forall i :: 0 < i < |lines| ==> lines[i] == lines[1..][i - 1];
      if exists i :: 0 <= i < |lines[1..]| && NormalizeThumbprint(lines[1..][i]) == cert {
        var i :| 0 <= i < |lines[1..]| && NormalizeThumbprint(lines[1..][i]) == cert;
        assert NormalizeThumbprint(lines[i + 1]) == cert;
      }
    }
  }

  /** A certificate is reported as revoked exactly when a revocation list in plain
      text has a line that normalizes to it. */
  lemma RevokedExactly(cfg: Config, st: State, e: Event, now: int, cert: string)
    ensures Reported(AcceptedAlerts(cfg, st, e, now), CertificateRevoked, cert)
       <==> && e.topic == "/mcafee/event/dxl/revocation/list" && e.payload.Str? && cert != ""
            && exists i :: 0 <= i < |Lines(e.payload.s)| && NormalizeThumbprint(Lines(e.payload.s)[i]) == cert
  {
    ReportedByPart(cfg, st, e, now, CertificateRevoked, cert);
    NamedTopics(e.topic);
    hide AcceptedAlerts, KindOf, RevokedAlerts, NormalizeThumbprint, Lines;
    if e.payload.Str? {
      RevokedReported(Lines(e.payload.s), now, cert);
    }
  }

  // Claimed identities

  /** The normalized identities of a publisher: client id and certificate. */
  function Identities(e: Event): set<string> {
    {NormalizeIdentity(e.source), NormalizeIdentity(CertOf(e).GetOr(""))} - {""}
  }

  /** Field `field` of the payload names someone, and the publisher is someone
      else; first-instance messages may name any agent. */
  predicate Claims(e: Event, field: string) {
    && !(field == "agentGuid" && e.topic == "/mcafee/event/tie/file/firstinstance")
    && e.payload.GetStr(field).Some?
    && Identities(e) != {}
    && NormalizeIdentity(e.payload.GetStr(field).value) !in Identities(e) + {""}
  }

  lemma FalseClaimMeans(e: Event, claimed: string)
    ensures FalseClaim(e, claimed) <==> Identities(e) != {} && NormalizeIdentity(claimed) !in Identities(e) + {""}
  {
    assert NormalizeIdentity("") == "";
    hide NormalizeIdentity, CertOf;
    var sender, cert := NormalizeIdentity(e.source), NormalizeIdentity(CertOf(e).GetOr(""));
    assert sender != "" ==> sender in Identities(e);
    assert cert != "" ==> cert in Identities(e);
  }

  /** A publisher is reported for claiming another identity exactly when an
      application message, not sent by a known broker, does so in one of the
      identity fields. */
  lemma IdentitySpoofingExactly(cfg: Config, st: State, e: Event, now: int)
    ensures Reported(AcceptedAlerts(cfg, st, e, now), IdentitySpoofing, PublisherOf(e))
       <==> && !StartsWith(e.topic, BROKER_PREFIX) && e.source !in st.brokers
            && (Claims(e, "agentGuid") || Claims(e, "clientGuid") || Claims(e, "certThumbprint"))
  {
    NoIdentityNoClaim(e);
    ThreeFields();
    OutsideBrokers(e.topic);
    hide StartsWith;
    hide AcceptedAlerts, KindOf, PublisherOf, FalseClaim, ClaimAlerts, Is, Identities;
    ReportedByPart(cfg, st, e, now, IdentitySpoofing, PublisherOf(e));
    ClaimsReported(e, IDENTITY_FIELDS, now);
  }

  lemma ThreeFields()
    ensures forall f :: f in IDENTITY_FIELDS <==> f == "agentGuid" || f == "clientGuid" || f == "certThumbprint"
  {
    assert IDENTITY_FIELDS[0] == "agentGuid" && IDENTITY_FIELDS[1] == "clientGuid";
    assert IDENTITY_FIELDS[2] == "certThumbprint";
  }

  lemma NoIdentityNoClaim(e: Event)
    ensures e.source == "" && CertOf(e).None? ==> Identities(e) == {}
  {
  }

  lemma {:induction false} ClaimsReported(e: Event, fields: seq<string>, now: int)
    ensures Reported(ClaimAlerts(e, fields, now), IdentitySpoofing, PublisherOf(e))
       <==> exists field :: field in fields && Claims(e, field)
  {
    hide FalseClaim, PublisherOf, Identities;
    if fields == [] {
    } else {
      if e.payload.GetStr(fields[0]).Some? {
        FalseClaimMeans(e, e.payload.GetStr(fields[0]).value);
      }
      ClaimsReported(e, fields[1..], now);
      ReportedJoin(ClaimAlert(e, fields[0], now), ClaimAlerts(e, fields[1..], now), IdentitySpoofing, PublisherOf(e));
      assert fields == [fields[0]] + fields[1..];
      if Claims(e, fields[0]) {
        assert ClaimAlert(e, fields[0], now)[0] in ClaimAlert(e, fields[0], now);
      }
    }
  }

  // Sensitive topics

  lemma {:induction false} SensitiveReported(filters: seq<string>, e: Event, now: int)
    ensures Reported(SensitiveAlerts(filters, e, now), SensitiveTopic, PublisherOf(e))
       <==> exists f :: f in filters && Matches(LevelsOf(f), LevelsOf(e.topic))
  {
    hide Matches, LevelsOf, PublisherOf;
    if filters == [] {
    } else {
      SensitiveReported(filters[1..], e, now);
      var own := Alert(now, SensitiveTopic, [PublisherOf(e), e.topic], Some(PublisherOf(e)));
      var first := if Matches(LevelsOf(filters[0]), LevelsOf(e.topic)) then [own] else [];
      ReportedJoin(first, SensitiveAlerts(filters[1..], e, now), SensitiveTopic, PublisherOf(e));
      assert filters == [filters[0]] + filters[1..];
      if first != [] {
        assert own in first;
      }
    }
  }

  /** A publication is reported as sensitive exactly when, by the standard's rules
      of matching, a configured filter takes its topic. */
  lemma SensitiveTopicExactly(cfg: Config, st: State, e: Event, now: int)
    requires forall f :: f in cfg.sensitive ==> WellFormedFilter(LevelsOf(f))
    ensures Reported(AcceptedAlerts(cfg, st, e, now), SensitiveTopic, PublisherOf(e))
       <==> exists f :: f in cfg.sensitive && MqttMatches(LevelsOf(f), LevelsOf(e.topic))
  {
    hide AcceptedAlerts, SensitiveAlerts, PublisherOf, Matches, MqttMatches, LevelsOf, WellFormedFilter, Is;
    ReportedByPart(cfg, st, e, now, SensitiveTopic, PublisherOf(e));
    SensitiveReported(cfg.sensitive, e, now);
    forall f | f in cfg.sensitive
      ensures Matches(LevelsOf(f), LevelsOf(e.topic)) <==> MqttMatches(LevelsOf(f), LevelsOf(e.topic))
    {
      MatchesStandard(LevelsOf(f), LevelsOf(e.topic));
    }
  }

  // Ciphers

  /** A cipher is reported as legacy exactly when a connect event names it and it is
      an RSA key exchange that does not mention ECDHE. */
  lemma LegacyCipherExactly(cfg: Config, st: State, e: Event, now: int, cipher: string)
    ensures Reported(AcceptedAlerts(cfg, st, e, now), LegacyCipher, cipher)
       <==> && e.topic == "/mcafee/event/dxl/clientregistry/connect"
            && e.payload.GetStr("cipher") == Some(cipher)
            && "TLS_RSA_" <= cipher && !exists a, b :: cipher == a + "ECDHE" + b
  {
    ReportedByPart(cfg, st, e, now, LegacyCipher, cipher);
    NamedTopics(e.topic);
    ContainsExactly(cipher, "ECDHE");
    hide AcceptedAlerts, KindOf, Contains, ConnectCert;
    var alerts := CipherAlerts(e, now);
    if alerts != [] {
      assert alerts[0] in alerts;
    }
  }

  // Fabric changes

  /** A fabric change is reported exactly for a fabric-change event and for a broker
      state that names no broker, a new one, or one whose bridges or start time it
      changes. */
  lemma FabricChangedExactly(cfg: Config, st: State, e: Event, now: int)
    ensures (exists a :: a in AcceptedAlerts(cfg, st, e, now) && a.title == FabricChanged)
       <==> || e.topic == "/mcafee/event/dxl/fabricchange"
            || (&& e.topic == "/mcafee/event/dxl/brokerregistry/brokerstate"
                && forall g :: e.payload.GetStr("guid") == Some(g) && g in st.brokers ==>
                     || st.brokers[g].Get("bridges") != e.payload.Get("bridges")
                     || st.brokers[g].Get("startTime") != e.payload.Get("startTime"))
  {
    NamedTopics(e.topic);
    hide AcceptedAlerts, KindOf;
    var part := FabricAlerts(st.brokers, e, now);
    if part != [] {
      AlertsOfTitle(cfg, st, e, now, part[0]);
      assert part[0] in part;
    }
    forall a | a in AcceptedAlerts(cfg, st, e, now) && a.title == FabricChanged ensures a in part {
      AlertsOfTitle(cfg, st, e, now, a);
    }
  }

  /** An accepted broker state is stored under the GUID it names; no other event
      touches the brokers. */
  lemma BrokersExactly(cfg: Config, st: State, e: Event, at: int)
    requires !Refused(st, Publish(at, e))
    ensures Apply(cfg, st, Publish(at, e)).brokers
         == if e.topic == "/mcafee/event/dxl/brokerregistry/brokerstate" && e.payload.GetStr("guid").Some?
            then st.brokers[e.payload.GetStr("guid").value := e.payload] else st.brokers
  {
    NamedTopics(e.topic);
    hide KindOf, SpoofAlert, ServicesAfter, Rate.TrackRate, AcceptedAlerts, PublisherOf;
  }

  lemma RepeatedState(cfg: Config, st: State, e: Event, now: int, later: int)
    requires KindOf(e.topic) == BrokerState && e.payload.GetStr("guid").Some?
    requires SpoofAlert(st.brokers, e, now).None?
    ensures var after := Accepted(st, e, now);
            && SpoofAlert(after.brokers, e, later).None?
            && forall a :: a in AcceptedAlerts(cfg, after, e, later) ==> a.title != FabricChanged
  {
    hide KindOf, IsHexThumbprint, Rate.TrackRate, ServicesAfter, AcceptedAlerts;
    AcceptedBroker(st.brokers, e, now);
    var after := Accepted(st, e, now);
    forall a | a in AcceptedAlerts(cfg, after, e, later) ensures a.title != FabricChanged {
      AlertsOfTitle(cfg, after, e, later, a);
    }
  }

  /** An identical broker heartbeat is accepted again and does not fire again. */
  lemma HeartbeatQuiet(cfg: Config, st: State, e: Event, now: int, later: int)
    requires e.topic == "/mcafee/event/dxl/brokerregistry/brokerstate" && e.payload.GetStr("guid").Some?
    requires SpoofAlert(st.brokers, e, now).None?
    ensures var after := Accepted(st, e, now);
            && SpoofAlert(after.brokers, e, later).None?
            && forall a :: a in AcceptedAlerts(cfg, after, e, later) ==> a.title != FabricChanged
  {
    NamedTopics(e.topic);
    hide KindOf, SpoofAlert, Accepted, AcceptedAlerts;
    RepeatedState(cfg, st, e, now, later);
  }

  // What an alert carries

  /** The user an alert of an accepted event is about, and what its description
      names, by its title. */
  ghost predicate WellMade(st: State, e: Event, now: int, a: Alert) {
    var publisher := PublisherOf(e);
    && a.time == now
    && match a.title
       case SpoofedBrokerEvent => false
       case UnknownThumbprint => |a.about| == 1 && a.suser == Some(a.about[0])
       case LegacyCipher =>
         && |a.about| == 1
         && (a.suser.Some? ==> Connects(e.payload, a.suser.value))
         && (a.suser.None? ==> forall cert :: !Connects(e.payload, cert))
       case ServiceHijack =>
         && |a.about| == 4
         && e.payload.GetStr("serviceGuid") == Some(a.about[0]) && e.payload.GetStr("serviceType") == Some(a.about[1])
         && e.payload.GetStr("clientGuid") == Some(a.about[2]) == a.suser
         && a.about[0] in st.services && st.services[a.about[0]].clientGuid == Some(a.about[3])
       case TtlExpired =>
         && |a.about| == 2 && a.suser == None
         && e.payload.GetStr("serviceGuid") == Some(a.about[0])
         && a.about[0] in st.services && st.services[a.about[0]].serviceType == a.about[1]
       case CertificateRevoked => |a.about| == 1 && a.suser == Some(a.about[0])
       case IdentitySpoofing =>
         && |a.about| == 4 && a.about[0] == publisher && a.about[1] == e.topic && a.suser == Some(publisher)
         && e.payload.GetStr(a.about[2]) == Some(a.about[3])
       case SensitiveTopic => a.about == [publisher, e.topic] && a.suser == Some(publisher)
       case ClientRate => a.about == [publisher] && a.suser == None
       case TopicRate => a.about == [e.topic] && a.suser == None
       case FabricChanged => a.about == [] && a.suser == None
  }

  lemma {:induction false} CertListMade(cfg: Config, st: State, e: Event, certs: seq<Value>, now: int)
    ensures forall a :: a in CertListAlerts(cfg, certs, now) ==> a.title == UnknownThumbprint && WellMade(st, e, now, a)
  {
    hide Unknown, PublisherOf, Connects;
    if certs == [] {
    } else {
      CertListMade(cfg, st, e, certs[1..], now);
    }
  }

  lemma {:induction false} RevokedMade(st: State, e: Event, lines: seq<string>, now: int)
    ensures forall a :: a in RevokedAlerts(lines, now) ==> a.title == CertificateRevoked && WellMade(st, e, now, a)
  {
    hide NormalizeThumbprint, PublisherOf, Connects;
    if lines == [] {
    } else {
      RevokedMade(st, e, lines[1..], now);
    }
  }

  lemma {:induction false} ClaimsMade(st: State, e: Event, fields: seq<string>, now: int)
    ensures forall a :: a in ClaimAlerts(e, fields, now) ==> a.title == IdentitySpoofing && WellMade(st, e, now, a)
  {
    hide FalseClaim, PublisherOf, Connects;
    if fields == [] {
    } else {
      ClaimsMade(st, e, fields[1..], now);
    }
  }

  lemma {:induction false} SensitiveMade(st: State, e: Event, filters: seq<string>, now: int)
    ensures forall a :: a in SensitiveAlerts(filters, e, now) ==> a.title == SensitiveTopic && WellMade(st, e, now, a)
  {
    hide PublisherOf, Connects, Matches, LevelsOf;
    if filters == [] {
    } else {
      SensitiveMade(st, e, filters[1..], now);
    }
  }

  lemma CipherMade(st: State, e: Event, now: int)
    ensures forall a :: a in CipherAlerts(e, now) ==> a.title == LegacyCipher && WellMade(st, e, now, a)
  {
    hide KindOf, Contains, PublisherOf, Before;
  }

  lemma ServiceMade(cfg: Config, st: State, e: Event, now: int)
    requires Inv(st)
    ensures forall a :: a in ServiceAlerts(cfg, st.services, e, now) ==> WellMade(st, e, now, a)
  {
    hide KindOf, Expiry, Seconds, NormalizeIdentity, PublisherOf, Connects;
  }

  lemma ThumbprintMade(cfg: Config, st: State, e: Event, now: int)
    ensures forall a :: a in ThumbprintAlerts(cfg, st.brokers, e, now) ==> WellMade(st, e, now, a)
  {
    CertListMade(cfg, st, e, e.payload.GetArray("certificates").GetOr([]), now);
    hide KindOf, PublisherOf, ConnectCert, Unknown, CertListAlerts, Connects;
  }

  lemma RevocationMade(st: State, e: Event, now: int)
    ensures forall a :: a in RevocationAlerts(e, now) ==> WellMade(st, e, now, a)
  {
    hide KindOf, WellMade, RevokedAlerts, Lines;
    if e.payload.Str? {
      RevokedMade(st, e, Lines(e.payload.s), now);
    }
  }

  lemma IdentityMade(st: State, e: Event, now: int)
    ensures forall a :: a in IdentityAlerts(st.brokers, e, now) ==> WellMade(st, e, now, a)
  {
    hide KindOf, WellMade, ClaimAlerts;
    ClaimsMade(st, e, IDENTITY_FIELDS, now);
  }

  lemma RateMade(st: State, e: Event, now: int, verdict: Rate.Verdict)
    ensures forall a :: a in RateAlert(verdict, ClientRate, PublisherOf(e), now) ==> WellMade(st, e, now, a)
    ensures forall a :: a in RateAlert(verdict, TopicRate, e.topic, now) ==> WellMade(st, e, now, a)
  {
    hide PublisherOf, Connects;
  }

  lemma FabricMade(st: State, e: Event, now: int)
    ensures forall a :: a in FabricAlerts(st.brokers, e, now) ==> WellMade(st, e, now, a)
  {
    hide PublisherOf, Connects, FabricChanges;
  }

  /** Every alert of an accepted event carries the time of the event, what its
      description is to name, and the user it is about, if there is one. */
  lemma AlertsWellMade(cfg: Config, st: State, e: Event, now: int, a: Alert)
    requires Inv(st) && a in AcceptedAlerts(cfg, st, e, now)
    ensures WellMade(st, e, now, a)
  {
    AlertsOfTitle(cfg, st, e, now, a);
    hide AcceptedAlerts, WellMade, PublisherOf, KindOf, Rate.TrackRate, Lines;
    hide ThumbprintAlerts, CipherAlerts, ServiceAlerts, RevokedAlerts, IdentityAlerts, SensitiveAlerts, FabricAlerts;
    hide RateAlert;
    match a.title
    case SpoofedBrokerEvent =>
    case UnknownThumbprint => ThumbprintMade(cfg, st, e, now);
    case LegacyCipher => CipherMade(st, e, now);
    case ServiceHijack => ServiceMade(cfg, st, e, now);
    case TtlExpired => ServiceMade(cfg, st, e, now);
    case CertificateRevoked => RevocationMade(st, e, now);
    case IdentitySpoofing => IdentityMade(st, e, now);
    case SensitiveTopic => SensitiveMade(st, e, cfg.sensitive, now);
    case ClientRate => RateMade(st, e, now, Rate.TrackRate(st.clientRates, PublisherOf(e), now).1);
    case TopicRate => RateMade(st, e, now, Rate.TrackRate(st.topicRates, e.topic, now).1);
    case FabricChanged => FabricMade(st, e, now);
  }

  /** The alert with which the engine's guard turns an event away names the
      publisher, if any, and except for a broker state the topic. */
  lemma SpoofAlertMade(brokers: map<string, Value>, e: Event, now: int)
    requires SpoofAlert(brokers, e, now).Some?
    ensures var a, publisher := SpoofAlert(brokers, e, now).value, PublisherOf(e);
            && a.time == now && a.title == SpoofedBrokerEvent
            && if !KnownBrokerTopic(e.topic) then
                 a.about == [publisher, e.topic] && a.suser == if publisher == "" then None else Some(publisher)
               else if AllWhitespace(e.source) then
                 && a.about == [e.topic]
                 && a.suser == if e.cert.Some? && !AllWhitespace(e.cert.value) then Some(Trim(e.cert.value)) else None
               else if e.topic == "/mcafee/event/dxl/brokerregistry/brokerstate" then
                 a.about == [publisher] && a.suser == if publisher == "" then None else Some(publisher)
               else
                 a.about == [publisher, e.topic] && a.suser == Some(publisher)
  {
    NamedTopics(e.topic);
    KnownTopicsExactly(e.topic);
    BlankExactly(e.source);
    if e.cert.Some? {
      BlankExactly(e.cert.value);
    }
    hide KindOf, KnownBrokerTopic, StartsWith, IsHexThumbprint, Trim, AllWhitespace;
  }

  /** A poll's alerts name an overdue service and its type, and carry the second of
      the poll. */
  lemma {:induction false} PollMade(cfg: Config, services: map<string, Service>, order: seq<string>, at: int)
    requires KeyedByGuid(services)
    ensures forall a :: a in PollAlerts(cfg, services, order, PollSeconds(at)) ==>
              && a.title == TtlExpired && a.time == at / 1000 * 1000 && a.suser == None
              && |a.about| == 2 && a.about[0] in order && a.about[0] in services
              && services[a.about[0]].serviceType == a.about[1] && Overdue(cfg, services[a.about[0]], at / 1000)
    decreases |order|
  {
    hide Overdue;
    if order == [] {
    } else {
      PollMade(cfg, services, order[..|order| - 1], at);
    }
  }

  /** A registry reply's alerts name a thumbprint each and carry the time of the
      reply. */
  lemma {:induction false} SyncMade(cfg: Config, members: map<string, Value>, order: seq<string>, now: int)
    ensures forall a :: a in SyncAlerts(cfg, members, order, now) ==>
              a.title == UnknownThumbprint && a.time == now && |a.about| == 1 && a.suser == Some(a.about[0])
    decreases |order|
  {
    hide CertListAlerts;
    if order == [] || cfg.allowed == [] {
    } else {
      var g := order[|order| - 1];
      SyncMade(cfg, members, order[..|order| - 1], now);
      if g in members {
        ListMade(cfg, members[g].GetArray("certificates").GetOr([]), now);
      }
    }
  }

  lemma {:induction false} ListMade(cfg: Config, certs: seq<Value>, now: int)
    ensures forall a :: a in CertListAlerts(cfg, certs, now) ==>
              a.title == UnknownThumbprint && a.time == now && |a.about| == 1 && a.suser == Some(a.about[0])
  {
    hide Unknown;
    if certs == [] {
    } else {
      ListMade(cfg, certs[1..], now);
    }
  }
}
