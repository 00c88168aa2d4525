/** Counting alerts by title and by what they are about. */
module AlertCount {
  import opened Prelude
  import opened Json
  import Text
  import opened Registry
  import opened EngineRuns
  import Rate = RateWindow

  predicate Is(a: Alert, title: Title, subject: string) {
    a.title == title && a.about != [] && a.about[0] == subject
  }

  /** How many alerts carry this title and name `subject` first. */
  function Count(alerts: seq<Alert>, title: Title, subject: string): nat {
    if alerts == [] then 0
    else Count(alerts[..|alerts| - 1], title, subject)
         + if Is(alerts[|alerts| - 1], title, subject) then 1 else 0
  }

  predicate AllTitled(alerts: seq<Alert>, title: Title) {
    forall a :: a in alerts ==> a.title == title
  }

  lemma {:induction false} CountJoin(a: seq<Alert>, b: seq<Alert>, title: Title, subject: string)
    ensures Count(a + b, title, subject) == Count(a, title, subject) + Count(b, title, subject)
    decreases |b|
  {
    if b == [] {
      assert a + b == a;
    } else {
      assert (a + b)[..|a + b| - 1] == a + b[..|b| - 1];
      CountJoin(a, b[..|b| - 1], title, subject);
    }
  }

  lemma CountSingle(a: Alert, title: Title, subject: string)
    ensures Count([a], title, subject) == if Is(a, title, subject) then 1 else 0
  {
    assert [a][..0] == [];
  }

  lemma {:induction false} CountOther(alerts: seq<Alert>, title: Title, other: Title, subject: string)
    requires AllTitled(alerts, other) && title != other
    ensures Count(alerts, title, subject) == 0
  {
    if alerts == [] {
    } else {
      CountOther(alerts[..|alerts| - 1], title, other, subject);
    }
  }

  // Over the alert lists of a run

  function Total(log: seq<seq<Alert>>, title: Title, subject: string): nat {
    if log == [] then 0 else Count(log[0], title, subject) + Total(log[1..], title, subject)
  }

  lemma {:induction false} TotalJoin(a: seq<seq<Alert>>, b: seq<seq<Alert>>, title: Title, subject: string)
    ensures Total(a + b, title, subject) == Total(a, title, subject) + Total(b, title, subject)
    decreases |a|
  {
    hide Count;
    if a == [] {
      assert a + b == b;
    } else {
      assert (a + b)[1..] == a[1..] + b;
      TotalJoin(a[1..], b, title, subject);
    }
  }

  /** How many alerts with this title a run of the engine raises about `subject`. */
  function Raised(cfg: Config, st: State, ops: seq<Op>, title: Title, subject: string): nat {
    Total(AlertLog(cfg, st, ops), title, subject)
  }

  lemma RaisedNext(cfg: Config, st: State, ops: seq<Op>, title: Title, subject: string)
    ensures Raised(cfg, st, ops, title, subject)
         == if ops == [] then 0
            else
              Count(AlertsOf(cfg, st, ops[0]), title, subject)
              + Raised(cfg, Apply(cfg, st, ops[0]), ops[1..], title, subject)
  {
    hide Count, AlertsOf, Apply;
    if ops == [] {
    } else {
      var rest := AlertLog(cfg, Apply(cfg, st, ops[0]), ops[1..]);
      assert ([AlertsOf(cfg, st, ops[0])] + rest)[1..] == rest;
    }
  }

  lemma RaisedSingle(cfg: Config, st: State, op: Op, title: Title, subject: string)
    ensures Raised(cfg, st, [op], title, subject) == Count(AlertsOf(cfg, st, op), title, subject)
  {
    hide Raised, Count, AlertsOf, Apply;
    RaisedNext(cfg, st, [op], title, subject);
    RaisedNext(cfg, Apply(cfg, st, op), [op][1..], title, subject);
  }

  lemma RaisedJoin(cfg: Config, st: State, a: seq<Op>, b: seq<Op>, title: Title, subject: string)
    ensures Raised(cfg, st, a + b, title, subject)
         == Raised(cfg, st, a, title, subject) + Raised(cfg, Run(cfg, st, a), b, title, subject)
  {
    hide Total, AlertLog, Run;
    AlertLogJoin(cfg, st, a, b);
    TotalJoin(AlertLog(cfg, st, a), AlertLog(cfg, Run(cfg, st, a), b), title, subject);
  }

  // Which titles each part of the engine uses

  lemma {:induction false} CertListTitled(cfg: Config, certs: seq<Value>, now: int)
    ensures AllTitled(CertListAlerts(cfg, certs, now), UnknownThumbprint)
  {
    if certs == [] {
    } else {
      CertListTitled(cfg, certs[1..], now);
    }
  }

  lemma {:induction false} SyncTitled(cfg: Config, members: map<string, Value>, order: seq<string>, now: int)
    ensures AllTitled(SyncAlerts(cfg, members, order, now), UnknownThumbprint)
    decreases |order|
  {
    if order == [] || cfg.allowed == [] {
    } else {
      var g := order[|order| - 1];
      SyncTitled(cfg, members, order[..|order| - 1], now);
      if g in members {
        CertListTitled(cfg, members[g].GetArray("certificates").GetOr([]), now);
      }
    }
  }

  lemma {:induction false} PollTitled(cfg: Config, services: map<string, Service>, order: seq<string>, nowSecs: int)
    ensures AllTitled(PollAlerts(cfg, services, order, nowSecs), TtlExpired)
  {
    hide Overdue;
    if order == [] {
    } else {
      PollTitled(cfg, services, order[..|order| - 1], nowSecs);
    }
  }

  lemma {:induction false} RevokedTitled(lines: seq<string>, now: int)
    ensures AllTitled(RevokedAlerts(lines, now), CertificateRevoked)
  {
    if lines == [] {
    } else {
      RevokedTitled(lines[1..], now);
    }
  }

  lemma {:induction false} ClaimsTitled(e: Event, fields: seq<string>, now: int)
    ensures AllTitled(ClaimAlerts(e, fields, now), IdentitySpoofing)
  {
    hide FalseClaim, PublisherOf;
    if fields == [] {
    } else {
      ClaimsTitled(e, fields[1..], now);
    }
  }

  lemma {:induction false} SensitiveTitled(filters: seq<string>, e: Event, now: int)
    ensures AllTitled(SensitiveAlerts(filters, e, now), SensitiveTopic)
  {
    hide PublisherOf;
    if filters == [] {
    } else {
      SensitiveTitled(filters[1..], e, now);
    }
  }

  lemma PiecesTitled(cfg: Config, brokers: map<string, Value>, e: Event, now: int)
    ensures AllTitled(ThumbprintAlerts(cfg, brokers, e, now), UnknownThumbprint)
    ensures AllTitled(CipherAlerts(e, now), LegacyCipher)
    ensures AllTitled(RevocationAlerts(e, now), CertificateRevoked)
    ensures AllTitled(IdentityAlerts(brokers, e, now), IdentitySpoofing)
    ensures AllTitled(SensitiveAlerts(cfg.sensitive, e, now), SensitiveTopic)
    ensures AllTitled(FabricAlerts(brokers, e, now), FabricChanged)
  {
    hide KindOf, FabricChanges, Unknown, PublisherOf, CertListAlerts, RevokedAlerts, ClaimAlerts;
    CertListTitled(cfg, e.payload.GetArray("certificates").GetOr([]), now);
    if e.payload.Str? {
      RevokedTitled(Text.Lines(e.payload.s), now);
    }
    ClaimsTitled(e, IDENTITY_FIELDS, now);
    SensitiveTitled(cfg.sensitive, e, now);
  }

  lemma CountParts(a1: seq<Alert>, a2: seq<Alert>, a3: seq<Alert>, a4: seq<Alert>, a5: seq<Alert>,
                   a6: seq<Alert>, a7: seq<Alert>, a8: seq<Alert>, a9: seq<Alert>,
                   title: Title, subject: string)
    ensures Count(a1 + a2 + a3 + a4 + a5 + a6 + a7 + a8 + a9, title, subject)
         == Count(a1, title, subject) + Count(a2, title, subject) + Count(a3, title, subject)
            + Count(a4, title, subject) + Count(a5, title, subject) + Count(a6, title, subject)
            + Count(a7, title, subject) + Count(a8, title, subject) + Count(a9, title, subject)
  {
    hide Count;
    CountJoin(a1, a2, title, subject);
    CountJoin(a1 + a2, a3, title, subject);
    CountJoin(a1 + a2 + a3, a4, title, subject);
    CountJoin(a1 + a2 + a3 + a4, a5, title, subject);
    CountJoin(a1 + a2 + a3 + a4 + a5, a6, title, subject);
    CountJoin(a1 + a2 + a3 + a4 + a5 + a6, a7, title, subject);
    CountJoin(a1 + a2 + a3 + a4 + a5 + a6 + a7, a8, title, subject);
    CountJoin(a1 + a2 + a3 + a4 + a5 + a6 + a7 + a8, a9, title, subject);
  }

  /** Of an accepted event's alerts, those about services and rates come from
      the parts of the engine that deal with them and from nowhere else. */
  lemma AcceptedCount(cfg: Config, st: State, e: Event, now: int, title: Title, subject: string)
    requires title in {TtlExpired, ServiceHijack, ClientRate, TopicRate}
    ensures var service := ServiceAlerts(cfg, st.services, e, now);
            var client := Rate.TrackRate(st.clientRates, PublisherOf(e), now).1;
            var topic := Rate.TrackRate(st.topicRates, e.topic, now).1;
            Count(AcceptedAlerts(cfg, st, e, now), title, subject)
            == match title
               case ClientRate => (if client == Rate.Counted(true) && PublisherOf(e) == subject then 1 else 0)
               case TopicRate => (if topic == Rate.Counted(true) && e.topic == subject then 1 else 0)
               case _ => Count(service, title, subject)
  {
    hide KindOf, Rate.TrackRate, PublisherOf, Expiry, Hijacks;
    PiecesTitled(cfg, st.brokers, e, now);
    hide ThumbprintAlerts, CipherAlerts, RevocationAlerts, IdentityAlerts, SensitiveAlerts, FabricAlerts;
    if title == ClientRate || title == TopicRate {
      ServiceTitles(cfg, st.services, e, now, title, subject);
    }
    hide ServiceAlerts, Count;
    var a1, a2 := ThumbprintAlerts(cfg, st.brokers, e, now), CipherAlerts(e, now);
    var a3, a4 := ServiceAlerts(cfg, st.services, e, now), RevocationAlerts(e, now);
    var a5, a6 := IdentityAlerts(st.brokers, e, now), SensitiveAlerts(cfg.sensitive, e, now);
    var a7 := RateAlert(Rate.TrackRate(st.clientRates, PublisherOf(e), now).1, ClientRate, PublisherOf(e), now);
    var a8 := RateAlert(Rate.TrackRate(st.topicRates, e.topic, now).1, TopicRate, e.topic, now);
    var a9 := FabricAlerts(st.brokers, e, now);
    CountParts(a1, a2, a3, a4, a5, a6, a7, a8, a9, title, subject);
    CountOther(a1, title, UnknownThumbprint, subject);
    CountOther(a2, title, LegacyCipher, subject);
    CountOther(a4, title, CertificateRevoked, subject);
    CountOther(a5, title, IdentitySpoofing, subject);
    CountOther(a6, title, SensitiveTopic, subject);
    CountOther(a9, title, FabricChanged, subject);
    RateCount(Rate.TrackRate(st.clientRates, PublisherOf(e), now).1, ClientRate, PublisherOf(e), now, title, subject);
    RateCount(Rate.TrackRate(st.topicRates, e.topic, now).1, TopicRate, e.topic, now, title, subject);
  }

  lemma RateCount(verdict: Rate.Verdict, own: Title, key: string, now: int, title: Title, subject: string)
    ensures Count(RateAlert(verdict, own, key, now), title, subject)
         == if verdict == Rate.Counted(true) && own == title && key == subject then 1 else 0
  {
    CountSingle(Alert(now, own, [key], None), title, subject);
  }

  lemma ServiceTitles(cfg: Config, services: map<string, Service>, e: Event, now: int,
                      title: Title, subject: string)
    requires title != TtlExpired && title != ServiceHijack
    ensures Count(ServiceAlerts(cfg, services, e, now), title, subject) == 0
  {
    hide KindOf, Expiry, Hijacks, Seconds, Registered, Unregistered;
    var alerts := ServiceAlerts(cfg, services, e, now);
    if alerts != [] {
      CountSingle(alerts[0], title, subject);
    }
  }
}
