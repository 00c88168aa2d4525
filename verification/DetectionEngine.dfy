/** The detection engine as an object: its methods update the registries in
    place and are tied to the functions of `Registry`. */
module DetectionEngine {
  import opened Prelude
  import opened Json
  import opened Text
  import opened RateWindow
  import opened TopicFilter
  import opened Registry

  method NormalizeAllowed(thumbprints: seq<string>) returns (allowed: seq<string>)
    ensures "" !in allowed
    ensures forall t :: t in allowed <==>
              t != "" && exists i :: 0 <= i < |thumbprints| && t == NormalizeThumbprint(thumbprints[i])
  {
    allowed := [];
    for i := 0 to |thumbprints|
      invariant "" !in allowed
      invariant forall t :: t in allowed <==>
                  t != "" && exists j :: 0 <= j < i && t == NormalizeThumbprint(thumbprints[j])
    {
      var t := NormalizeThumbprint(thumbprints[i]);
      if t != "" {
        allowed := allowed + [t];
      }
    }
  }

  // What is left of each list of alerts when a loop has dealt with its first
  // `i` items, and that nothing is left at the end.

  lemma CertListNext(cfg: Config, certs: seq<Value>, i: nat, now: int)
    requires i < |certs|
    ensures CertListAlerts(cfg, certs[i..], now)
         == (if certs[i].Str? then UnknownAlert(cfg, certs[i].s, now) else [])
            + CertListAlerts(cfg, certs[i + 1..], now)
  {
    assert certs[i..][1..] == certs[i + 1..];
  }

  lemma CertListEnds(cfg: Config, certs: seq<Value>, now: int)
    ensures CertListAlerts(cfg, certs[|certs|..], now) == [] && certs[0..] == certs
  {
  }

  lemma RevokedNext(lines: seq<string>, i: nat, now: int)
    requires i < |lines|
    ensures var cert := NormalizeThumbprint(lines[i]);
            RevokedAlerts(lines[i..], now)
            == (if cert != "" then [Alert(now, CertificateRevoked, [cert], Some(cert))] else [])
               + RevokedAlerts(lines[i + 1..], now)
  {
    assert lines[i..][1..] == lines[i + 1..];
  }

  lemma RevokedEnds(lines: seq<string>, now: int)
    ensures RevokedAlerts(lines[|lines|..], now) == [] && lines[0..] == lines
  {
  }

  lemma ClaimsNext(e: Event, fields: seq<string>, i: nat, now: int)
    requires i < |fields|
    ensures ClaimAlerts(e, fields[i..], now) == ClaimAlert(e, fields[i], now) + ClaimAlerts(e, fields[i + 1..], now)
  {
    assert fields[i..][1..] == fields[i + 1..];
  }

  lemma ClaimsEnd(e: Event, fields: seq<string>, now: int)
    ensures ClaimAlerts(e, fields[|fields|..], now) == [] && fields[0..] == fields
  {
  }

  lemma SensitiveNext(filters: seq<string>, i: nat, e: Event, now: int)
    requires i < |filters|
    ensures SensitiveAlerts(filters[i..], e, now)
         == (if Matches(LevelsOf(filters[i]), LevelsOf(e.topic))
             then [Alert(now, SensitiveTopic, [PublisherOf(e), e.topic], Some(PublisherOf(e)))] else [])
            + SensitiveAlerts(filters[i + 1..], e, now)
  {
    assert filters[i..][1..] == filters[i + 1..];
  }

  lemma SensitiveEnds(filters: seq<string>, e: Event, now: int)
    ensures SensitiveAlerts(filters[|filters|..], e, now) == [] && filters[0..] == filters
  {
  }

  lemma PollNext(cfg: Config, services: map<string, Service>, order: seq<string>, g: string, nowSecs: int)
    ensures PollAlerts(cfg, services, order + [g], nowSecs)
         == PollAlerts(cfg, services, order, nowSecs)
            + if g in services && Overdue(cfg, services[g], nowSecs)
              then [TtlAlert(services[g], nowSecs * 1000)] else []
  {
    assert (order + [g])[..|order|] == order;
  }

  lemma PollNothing(cfg: Config, services: map<string, Service>, nowSecs: int)
    ensures PollAlerts(cfg, services, [], nowSecs) == []
  {
  }

  class DetectionEngine {
    const cfg: Config
    var services: map<string, Service>
    var brokers: map<string, Value>
    const clientRates: RateTable
    const topicRates: RateTable

    ghost predicate Valid() { clientRates != topicRates }

    /** The engine's state as one value. */
    ghost function View(): State
      reads this, clientRates, topicRates
    {
      State(services, brokers, clientRates.queues, topicRates.queues)
    }

    constructor (graceMins: u32, thumbprints: seq<string>, sensitive: seq<string>)
      ensures Valid() && fresh(clientRates) && fresh(topicRates)
      ensures View() == Initial()
      ensures cfg.graceMins == graceMins && cfg.sensitive == sensitive
      ensures forall t :: t in cfg.allowed <==>
                t != "" && exists i :: 0 <= i < |thumbprints| && t == NormalizeThumbprint(thumbprints[i])
    {
      var allowed := NormalizeAllowed(thumbprints);
      this.cfg := Config(graceMins, allowed, sensitive);
      services, brokers := map[], map[];
      clientRates := new RateTable();
      topicRates := new RateTable();
    }

    method CheckCertificates(certs: seq<Value>, now: int) returns (alerts: seq<Alert>)
      ensures alerts == CertListAlerts(cfg, certs, now)
    {
      hide CertListAlerts, UnknownAlert;
      alerts := [];
      CertListEnds(cfg, certs, now);
      for i := 0 to |certs|
        invariant alerts + CertListAlerts(cfg, certs[i..], now) == CertListAlerts(cfg, certs, now)
      {
        CertListNext(cfg, certs, i, now);
        ghost var rest := CertListAlerts(cfg, certs[i + 1..], now);
        if certs[i].Str? {
          var more := UnknownAlert(cfg, certs[i].s, now);
          assert alerts + (more + rest) == alerts + more + rest;
          alerts := alerts + more;
        }
      }
    }

    method CheckRevocations(list: string, now: int) returns (alerts: seq<Alert>)
      ensures alerts == RevokedAlerts(Lines(list), now)
    {
      hide RevokedAlerts, NormalizeThumbprint, Lines;
      alerts := [];
      var lines := Lines(list);
      RevokedEnds(lines, now);
      for i := 0 to |lines|
        invariant alerts + RevokedAlerts(lines[i..], now) == RevokedAlerts(lines, now)
      {
        RevokedNext(lines, i, now);
        ghost var rest := RevokedAlerts(lines[i + 1..], now);
        var cert := NormalizeThumbprint(lines[i]);
        if cert != "" {
          var more := [Alert(now, CertificateRevoked, [cert], Some(cert))];
          assert alerts + (more + rest) == alerts + more + rest;
          alerts := alerts + more;
        }
      }
    }

    method CheckClaims(e: Event, now: int) returns (alerts: seq<Alert>)
      ensures alerts == ClaimAlerts(e, IDENTITY_FIELDS, now)
    {
      hide ClaimAlerts, ClaimAlert;
      alerts := [];
      var fields := IDENTITY_FIELDS;
      ClaimsEnd(e, fields, now);
      for i := 0 to |fields|
        invariant alerts + ClaimAlerts(e, fields[i..], now) == ClaimAlerts(e, fields, now)
      {
        ClaimsNext(e, fields, i, now);
        ghost var rest := ClaimAlerts(e, fields[i + 1..], now);
        var more := ClaimAlert(e, fields[i], now);
        assert alerts + (more + rest) == alerts + more + rest;
        alerts := alerts + more;
      }
    }

    method CheckSensitive(e: Event, now: int) returns (alerts: seq<Alert>)
      ensures alerts == SensitiveAlerts(cfg.sensitive, e, now)
    {
      hide Matches, LevelsOf, PublisherOf, SensitiveAlerts;
      alerts := [];
      SensitiveEnds(cfg.sensitive, e, now);
      for i := 0 to |cfg.sensitive|
        invariant alerts + SensitiveAlerts(cfg.sensitive[i..], e, now) == SensitiveAlerts(cfg.sensitive, e, now)
      {
        SensitiveNext(cfg.sensitive, i, e, now);
        ghost var rest := SensitiveAlerts(cfg.sensitive[i + 1..], e, now);
        var matched := TopicMatches(cfg.sensitive[i], e.topic);
        if matched {
          var more := [Alert(now, SensitiveTopic, [PublisherOf(e), e.topic], Some(PublisherOf(e)))];
          assert alerts + (more + rest) == alerts + more + rest;
          alerts := alerts + more;
        }
      }
    }

    /** Registering and unregistering services. */
    method UpdateServices(e: Event, now: int) returns (alerts: seq<Alert>)
      modifies this`services
      ensures services == ServicesAfter(old(services), e)
      ensures alerts == ServiceAlerts(cfg, old(services), e, now)
    {
      hide Expiry, NormalizeIdentity, Seconds, Registered, Unregistered;
      alerts := [];
      match (Registered(e), Unregistered(e))
      case (Some(s), _) =>
        if s.guid in services && s.clientGuid.Some? && services[s.guid].clientGuid.Some?
           && NormalizeIdentity(services[s.guid].clientGuid.value) != NormalizeIdentity(s.clientGuid.value) {
          alerts := [HijackAlert(services, s, now)];
        } else {
          services := services[s.guid := s];
        }
      case (None, Some(guid)) =>
        if guid in services {
          var s := services[guid];
          services := services - {guid};
          if !s.reported && Seconds(now) >= Expiry(cfg, s) {
            alerts := [TtlAlert(s, now)];
          }
        } else {
          assert services - {guid} == services;
        }
      case (None, None) =>
    }

    /** Fabric changes; a broker state is stored under the GUID it names. */
    method UpdateBrokers(e: Event, now: int) returns (alerts: seq<Alert>)
      modifies this`brokers
      ensures brokers == BrokersAfter(old(brokers), e)
      ensures alerts == FabricAlerts(old(brokers), e, now)
    {
      alerts := [];
      var kind := KindOf(e.topic);
      hide KindOf;
      if kind == FabricChange {
        alerts := [Alert(now, FabricChanged, [], None)];
      } else if kind == BrokerState {
        var changed := true;
        match e.payload.GetStr("guid") {
          case Some(guid) =>
            if guid in brokers {
              var previous := brokers[guid];
              changed := previous.Get("bridges") != e.payload.Get("bridges")
                         || previous.Get("startTime") != e.payload.Get("startTime");
            }
            brokers := brokers[guid := e.payload];
          case None =>
        }
        if changed {
          alerts := [Alert(now, FabricChanged, [], None)];
        }
      }
    }

    method ProcessEvent(e: Event, now: int) returns (alerts: seq<Alert>)
      requires Valid()
      modifies this, clientRates, topicRates
      ensures (View(), alerts) == Handle(cfg, old(View()), e, now)
    {
      hide KindOf, SpoofAlert, PublisherOf, ServicesAfter, BrokersAfter, TrackRate, ServiceAlerts, FabricAlerts;
      hide ThumbprintAlerts, CipherAlerts, RevocationAlerts, IdentityAlerts, SensitiveAlerts;
      match SpoofAlert(brokers, e, now) {
        case Some(alert) => return [alert];
        case None =>
      }
      var a1 := CheckThumbprints(e, now);
      var a2 := CipherAlerts(e, now);
      ghost var brokers0 := brokers;
      var a3 := UpdateServices(e, now);
      var a4 := CheckRevocationList(e, now);
      var a5 := CheckIdentity(e, now);
      var a6 := CheckSensitive(e, now);
      var publisher := PublisherOf(e);
      var v7 := clientRates.Track(publisher, now);
      var a7 := RateAlert(v7, ClientRate, publisher, now);
      var v8 := topicRates.Track(e.topic, now);
      var a8 := RateAlert(v8, TopicRate, e.topic, now);
      var a9 := UpdateBrokers(e, now);
      return a1 + a2 + a3 + a4 + a5 + a6 + a7 + a8 + a9;
    }

    method CheckThumbprints(e: Event, now: int) returns (alerts: seq<Alert>)
      ensures alerts == ThumbprintAlerts(cfg, brokers, e, now)
    {
      hide KindOf, Unknown, CertListAlerts;
      alerts := [];
      if cfg.allowed == [] {
        return;
      }
      var kind := KindOf(e.topic);
      if kind == Connect {
        var cert := ConnectCert(e.payload);
        if cert.Some? {
          alerts := UnknownAlert(cfg, cert.value, now);
        }
      }
      if kind == Application && e.source !in brokers && PublisherOf(e) != "" {
        alerts := UnknownAlert(cfg, PublisherOf(e), now);
      }
      if kind == Register {
        match e.payload.GetArray("certificates") {
          case Some(certs) => alerts := CheckCertificates(certs, now);
          case None => alerts := CheckCertificates([], now);
        }
      }
    }

    method CheckRevocationList(e: Event, now: int) returns (alerts: seq<Alert>)
      ensures alerts == RevocationAlerts(e, now)
    {
      hide KindOf, RevokedAlerts, Lines;
      if KindOf(e.topic) == RevocationList && e.payload.Str? {
        alerts := CheckRevocations(e.payload.s, now);
      } else {
        alerts := [];
      }
    }

    method CheckIdentity(e: Event, now: int) returns (alerts: seq<Alert>)
      ensures alerts == IdentityAlerts(brokers, e, now)
    {
      hide KindOf, ClaimAlerts;
      if KindOf(e.topic) == Application && (e.source != "" || CertOf(e).Some?) && e.source !in brokers {
        alerts := CheckClaims(e, now);
      } else {
        alerts := [];
      }
    }

    /** Prunes both rate tables and reports each overdue service once. */
    method PollTimeouts(nowSecs: int) returns (alerts: seq<Alert>, ghost order: seq<string>)
      requires Valid()
      modifies this`services, clientRates, topicRates
      ensures View() == Polled(cfg, old(View()), nowSecs)
      ensures Enumerates(order, old(services).Keys)
      ensures alerts == PollAlerts(cfg, old(services), order, nowSecs)
    {
      hide Sweep, Expiry, PollAlerts;
      clientRates.Retain(nowSecs * 1000);
      topicRates.Retain(nowSecs * 1000);
      alerts, order := [], [];
      PollNothing(cfg, services, nowSecs);
      var todo := services.Keys;
      while todo != {}
        invariant todo <= services.Keys && services.Keys == old(services).Keys
        invariant Enumerates(order, services.Keys - todo)
        invariant forall g :: g in services ==>
                    services[g] == if g in todo then old(services)[g]
                                   else ServicesPolled(cfg, old(services), nowSecs)[g]
        invariant alerts == PollAlerts(cfg, old(services), order, nowSecs)
        invariant clientRates.queues == Sweep(old(clientRates.queues), nowSecs * 1000)
        invariant topicRates.queues == Sweep(old(topicRates.queues), nowSecs * 1000)
        decreases todo
      {
        var g :| g in todo;
        var s := services[g];
        if !s.reported {
          var expiry := Expiry(cfg, s);
          if nowSecs > expiry {
            alerts := alerts + [TtlAlert(s, nowSecs * 1000)];
            services := services[g := s.(reported := true)];
          }
        }
        PollNext(cfg, old(services), order, g, nowSecs);
        todo, order := todo - {g}, order + [g];
      }
    }

    /** Takes over the services of a registry query's reply. */
    method ProcessSyncResponse(payload: Value, now: int) returns (alerts: seq<Alert>, ghost order: seq<string>)
      modifies this`services
      ensures services == Synced(old(View()), payload).services
      ensures match payload.GetObject("services")
              case Some(members) =>
                Enumerates(order, members.Keys) && alerts == SyncAlerts(cfg, members, order, now)
              case None => alerts == []
    {
      hide ServiceFrom;
      alerts, order := [], [];
      match payload.GetObject("services")
      case None =>
      case Some(members) =>
        var todo, seen := members.Keys, {};
        while todo != {}
          invariant todo <= members.Keys && seen == ServicesSynced(members).Keys - todo
          invariant Enumerates(order, members.Keys - todo)
          invariant forall g :: g in seen ==> g in services && services[g] == ServicesSynced(members)[g]
          invariant alerts == SyncAlerts(cfg, members, order, now)
          decreases todo
        {
          var guid :| guid in todo;
          var info := members[guid];
          match ServiceFrom(guid, info) {
            case Some(s) =>
              seen := seen + {guid};
              services := services[guid := s];
            case None =>
          }
          assert (order + [guid])[..|order|] == order;
          if cfg.allowed != [] {
            match info.GetArray("certificates") {
              case Some(certs) =>
                var more := CheckCertificates(certs, now);
                alerts := alerts + more;
              case None =>
            }
          }
          todo, order := todo - {guid}, order + [guid];
        }
        services := map g | g in services && g in seen :: services[g];
    }

    /** Takes over the brokers of a registry query's reply, except thumbprints. */
    method ProcessBrokerSyncResponse(payload: Value)
      modifies this`brokers
      ensures brokers == BrokerSynced(old(View()), payload).brokers
    {
      match payload.GetObject("brokers")
      case None =>
      case Some(members) =>
        var todo, seen := members.Keys, {};
        while todo != {}
          invariant todo <= members.Keys && seen == BrokersSynced(members).Keys - todo
          invariant forall g :: g in seen ==> g in brokers && brokers[g] == BrokersSynced(members)[g]
          decreases todo
        {
          hide IsHexThumbprint;
          var guid :| guid in todo;
          if !IsHexThumbprint(guid) {
            seen := seen + {guid};
            brokers := brokers[guid := members[guid]];
          }
          todo := todo - {guid};
        }
        brokers := map g | g in brokers && g in seen :: brokers[g];
    }
  }
}
