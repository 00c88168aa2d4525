/** The service registry over runs: each registration is reported overdue at
    most once and exactly when it should be, and a service keeps its owner. */
module ServiceRuns {
  import opened Prelude
  import opened Json
  import opened Text
  import opened Registry
  import opened EngineRuns
  import opened AlertCount
  import Rate = RateWindow

  // Expiry

  /** The second at which the stored TTL and the grace period run out. */
  function DueSecond(cfg: Config, s: Service): int {
    s.registrationTime + 60 * (s.ttlMins + cfg.graceMins)
  }

  /** The engine's 64-bit sum is that second up to a multiple of 2^64, and exactly
      that second when it does not overflow. */
  lemma ExpiryExact(cfg: Config, s: Service)
    ensures Expiry(cfg, s) == DueSecond(cfg, s) <==> DueSecond(cfg, s) < 0x8000_0000_0000_0000
    ensures (Expiry(cfg, s) - DueSecond(cfg, s)) % 0x1_0000_0000_0000_0000 == 0
  {
    assert s.registrationTime + s.ttlMins * 60 + cfg.graceMins * 60 == DueSecond(cfg, s);
  }

  /** Whenever the clock is not negative, comparing it with the computed expiry
      decides whether the service is due exactly when the sum does not overflow:
      both as a poll compares and as an unregister does. */
  lemma ExpiryDecides(cfg: Config, s: Service, second: int)
    requires 0 <= second < 0x8000_0000_0000_0000
    ensures (second > Expiry(cfg, s) <==> second > DueSecond(cfg, s))
       <==> DueSecond(cfg, s) < 0x8000_0000_0000_0000
    ensures (second >= Expiry(cfg, s) <==> second >= DueSecond(cfg, s))
       <==> DueSecond(cfg, s) < 0x8000_0000_0000_0000
  {
    ExpiryExact(cfg, s);
    assert s.registrationTime + s.ttlMins * 60 + cfg.graceMins * 60 == DueSecond(cfg, s);
  }

  /** It can overflow: a registration time at the end of its range makes the
      engine report a service at once that is due in the far future. */
  lemma ExpiryOverflows(second: int)
    requires 0 <= second < 0x8000_0000_0000_0000
    ensures var cfg := Config(5, [], []);
            var s := Service("g", "t", None, 0x7FFF_FFFF_FFFF_FFFF, 10, false);
            Overdue(cfg, s, second) && second < DueSecond(cfg, s)
  {
  }

  /** The second at which the TTL a payload declares and the grace period run out. */
  function DeclaredDue(cfg: Config, info: Value): int
    requires info.GetU64("ttlMins").Some? && info.GetI64("registrationTime").Some?
  {
    info.GetI64("registrationTime").value + 60 * (info.GetU64("ttlMins").value + cfg.graceMins)
  }

  /** The stored TTL has 32 bits: a stored service is due when its registration
      declared exactly if the declared TTL fits. */
  lemma DeclaredTtlKept(cfg: Config, guid: string, info: Value)
    requires ServiceFrom(guid, info).Some?
    ensures DueSecond(cfg, ServiceFrom(guid, info).value) == DeclaredDue(cfg, info)
       <==> info.GetU64("ttlMins").value < 0x1_0000_0000
  {
  }

  /** It can be lost: a declared TTL of 2^32 minutes is stored as none, and the
      service is reported once the grace period is over. */
  lemma DeclaredTtlLost(cfg: Config, second: int)
    requires 60 * cfg.graceMins < second < 0x1_0000_0000
    ensures var info := Obj(map["serviceType" := Str("t"), "ttlMins" := Num(Int(0x1_0000_0000)),
                                "registrationTime" := Num(Int(0))]);
            && ServiceFrom("g", info).Some?
            && Overdue(cfg, ServiceFrom("g", info).value, second) && second < DeclaredDue(cfg, info)
  {
    var info := Obj(map["serviceType" := Str("t"), "ttlMins" := Num(Int(0x1_0000_0000)),
                        "registrationTime" := Num(Int(0))]);
    assert ServiceFrom("g", info) == Some(Service("g", "t", None, 0, 0, false));
  }

  /** The engine's expiry is what the registration declared exactly if neither the
      stored TTL nor the sum loses anything. */
  lemma ExpiryOfDeclared(cfg: Config, guid: string, info: Value)
    requires ServiceFrom(guid, info).Some?
    ensures Expiry(cfg, ServiceFrom(guid, info).value) == DeclaredDue(cfg, info)
       <==> info.GetU64("ttlMins").value < 0x1_0000_0000 && DeclaredDue(cfg, info) < 0x8000_0000_0000_0000
  {
    var s, ttl := ServiceFrom(guid, info).value, info.GetU64("ttlMins").value;
    assert s.registrationTime + s.ttlMins * 60 + cfg.graceMins * 60 == DueSecond(cfg, s);
    assert ttl == ttl / 0x1_0000_0000 * 0x1_0000_0000 + s.ttlMins;
    hide ServiceFrom, ToU32;
    WrappedSum(DueSecond(cfg, s), DeclaredDue(cfg, info) - DueSecond(cfg, s));
  }

  /** A sum that wraps around equals a larger one in range only if they are one. */
  lemma WrappedSum(n: int, more: nat)
    requires -0x8000_0000_0000_0000 <= n
    ensures ToI64(n) == n + more <==> more == 0 && n < 0x8000_0000_0000_0000
  {
  }

  // One service over a stretch of a run

  /** `op` replaces or removes the record of `g`. */
  predicate Ends(st: State, op: Op, g: string) {
    match op
    case Publish(_, e) =>
      && !Refused(st, op)
      && (match (Registered(e), Unregistered(e))
          case (Some(s), _) => s.guid == g && !Hijacks(st.services, s)
          case (None, Some(guid)) => guid == g
          case (None, None) => false)
    case ServiceSync(_, payload, _) => payload.GetObject("services").Some?
    case _ => false
  }

  predicate NeverEnds(cfg: Config, st: State, ops: seq<Op>, g: string)
    decreases |ops|
  {
    ops == [] || (!Ends(st, ops[0], g) && NeverEnds(cfg, Apply(cfg, st, ops[0]), ops[1..], g))
  }

  /** Every poll walks all the services, in some order. */
  ghost predicate PollsComplete(cfg: Config, st: State, ops: seq<Op>)
    decreases |ops|
  {
    ops == []
    || ((ops[0].Poll? ==> Enumerates(ops[0].order, st.services.Keys))
        && PollsComplete(cfg, Apply(cfg, st, ops[0]), ops[1..]))
  }

  lemma {:induction false} PollCount(cfg: Config, services: map<string, Service>, order: seq<string>,
                                     nowSecs: int, g: string)
    requires KeyedByGuid(services)
    requires forall i, j :: 0 <= i < j < |order| ==> order[i] != order[j]
    ensures Count(PollAlerts(cfg, services, order, nowSecs), TtlExpired, g)
         == if g in order && g in services && Overdue(cfg, services[g], nowSecs) then 1 else 0
    decreases |order|
  {
    hide Overdue;
    if order == [] {
    } else {
      var front, last := order[..|order| - 1], order[|order| - 1];
      PollCount(cfg, services, front, nowSecs, g);
      var more := if last in services && Overdue(cfg, services[last], nowSecs)
                  then [TtlAlert(services[last], nowSecs * 1000)] else [];
      CountJoin(PollAlerts(cfg, services, front, nowSecs), more, TtlExpired, g);
      if more != [] {
        CountSingle(more[0], TtlExpired, g);
      }
      assert order == front + [last];
    }
  }

  /** A published event that does not end `g` raises no TTL alert about it and
      leaves its record as it is. */
  lemma PublishKeeps(cfg: Config, st: State, op: Op, g: string)
    requires op.Publish? && Inv(st) && g in st.services && !Ends(st, op, g)
    ensures g in Apply(cfg, st, op).services && Apply(cfg, st, op).services[g] == st.services[g]
    ensures Count(AlertsOf(cfg, st, op), TtlExpired, g) == 0
  {
    hide KindOf, PublisherOf, Rate.TrackRate, Expiry, Seconds, Hijacks, Registered, Unregistered;
    hide AcceptedAlerts, BrokersAfter;
    var e := op.event;
    match SpoofAlert(st.brokers, e, op.at)
    case Some(alert) =>
      RejectedAlert(cfg, st, op);
      CountOther(AlertsOf(cfg, st, op), TtlExpired, SpoofedBrokerEvent, g);
    case None =>
      AcceptedCount(cfg, st, e, op.at, TtlExpired, g);
      var alerts := ServiceAlerts(cfg, st.services, e, op.at);
      if alerts != [] {
        CountSingle(alerts[0], TtlExpired, g);
      }
  }

  /** One operation that does not end `g`: its record changes at most by being
      reported, which happens at a poll after its expiry and raises one alert. */
  lemma StepKeeps(cfg: Config, st: State, op: Op, g: string)
    requires Inv(st) && g in st.services && !Ends(st, op, g)
    requires op.Poll? ==> Enumerates(op.order, st.services.Keys)
    ensures var s, after, alerts := st.services[g], Apply(cfg, st, op).services,
                                    Count(AlertsOf(cfg, st, op), TtlExpired, g);
            && g in after
            && if op.Poll? && Overdue(cfg, s, op.at / 1000)
               then after[g] == s.(reported := true) && alerts == 1
               else after[g] == s && alerts == 0
  {
    hide Overdue, Rate.Sweep;
    match op
    case Publish(_, _) => PublishKeeps(cfg, st, op, g);
    case Poll(at, order) => PollCount(cfg, st.services, order, PollSeconds(at), g);
    case ServiceSync(_, _, _) =>
    case BrokerSync(_, _) =>
  }

  /** A record over any stretch of a run that does not end it: it raises at most
      one TTL alert, namely when it goes from unreported to reported, and that
      never happens before its expiry. */
  lemma {:induction false} LifeOfRecord(cfg: Config, st: State, ops: seq<Op>, g: string, now: int)
    requires Inv(st) && g in st.services && NeverEnds(cfg, st, ops, g) && PollsComplete(cfg, st, ops)
    requires forall i :: 0 <= i < |ops| ==> ops[i].at <= now
    ensures var s, after := st.services[g], Run(cfg, st, ops).services;
            && g in after
            && after[g] == s.(reported := after[g].reported)
            && (s.reported ==> after[g].reported)
            && Raised(cfg, st, ops, TtlExpired, g) == (if after[g].reported && !s.reported then 1 else 0)
            && (after[g].reported && !s.reported ==> now / 1000 > Expiry(cfg, s))
    decreases |ops|
  {
    hide Apply, Ends, Inv, Expiry, AlertsOf, Raised, Count;
    RaisedNext(cfg, st, ops, TtlExpired, g);
    if ops == [] {
    } else {
      var next := Apply(cfg, st, ops[0]);
      StepKeeps(cfg, st, ops[0], g);
      ApplyInv(cfg, st, ops[0]);
      LifeOfRecord(cfg, next, ops[1..], g, now);
      ExpiryOfRecord(cfg, st.services[g], next.services[g]);
    }
  }

  lemma ExpiryOfRecord(cfg: Config, s: Service, t: Service)
    requires t == s.(reported := t.reported)
    ensures Expiry(cfg, t) == Expiry(cfg, s)
  {
  }

  /** Exactly once: an unreported record that an accepted unregister ends raises,
      over its whole life and whatever the polling schedule, one TTL alert if it
      is unregistered at its expiry or later, and none if before. Without
      overflow the expiry is the due second. */
  lemma TtlExactlyOnce(cfg: Config, st: State, ops: seq<Op>, g: string, at: int, e: Event)
    requires Inv(st) && g in st.services && !st.services[g].reported
    requires NeverEnds(cfg, st, ops, g) && PollsComplete(cfg, st, ops)
    requires forall i :: 0 <= i < |ops| ==> ops[i].at <= at
    requires !Refused(Run(cfg, st, ops), Publish(at, e)) && Unregisters(e, g)
    ensures var s, second := st.services[g], if at >= 0 then at / 1000 else -(-at / 1000);
            var alerts := Raised(cfg, st, ops, TtlExpired, g)
                          + Count(AlertsOf(cfg, Run(cfg, st, ops), Publish(at, e)), TtlExpired, g);
            && alerts == (if second >= Expiry(cfg, s) then 1 else 0)
            && (DueSecond(cfg, s) < 0x8000_0000_0000_0000 ==>
                  alerts == if second >= DueSecond(cfg, s) then 1 else 0)
    ensures g !in Run(cfg, st, ops + [Publish(at, e)]).services
  {
    RegistersExactly(e, g);
    hide Unregisters;
    hide Run, NeverEnds, PollsComplete, Raised, AcceptedAlerts, SpoofAlert, Expiry;
    hide KindOf, Registered, PublisherOf, Rate.TrackRate, BrokersAfter, Inv;
    var end := Run(cfg, st, ops);
    LifeOfRecord(cfg, st, ops, g, at);
    RunInv(cfg, st, ops);
    ExpiryExact(cfg, st.services[g]);
    ExpiryOfRecord(cfg, st.services[g], end.services[g]);
    RunSnoc(cfg, st, ops, Publish(at, e));
    UnregisterCount(cfg, end, g, at, e);
  }

  /** The TTL alerts an accepted unregister raises about its service. */
  lemma UnregisterCount(cfg: Config, st: State, g: string, at: int, e: Event)
    requires Inv(st) && g in st.services && !Refused(st, Publish(at, e)) && Unregistered(e) == Some(g)
    ensures Count(AlertsOf(cfg, st, Publish(at, e)), TtlExpired, g)
         == if && !st.services[g].reported
               && (if at >= 0 then at / 1000 else -(-at / 1000)) >= Expiry(cfg, st.services[g]) then 1 else 0
    ensures g !in Apply(cfg, st, Publish(at, e)).services
  {
    assert Seconds(at) == if at >= 0 then at / 1000 else -(-at / 1000);
    hide PublisherOf, Rate.TrackRate, Expiry, Seconds, AcceptedAlerts, BrokersAfter, SpoofAlert;
    assert Registered(e).None?;
    hide KindOf, Registered, Unregistered;
    AcceptedCount(cfg, st, e, at, TtlExpired, g);
    var alerts := ServiceAlerts(cfg, st.services, e, at);
    if alerts != [] {
      CountSingle(alerts[0], TtlExpired, g);
    }
  }

  /** Whatever is asked of the engine besides a poll, it raises no TTL alert about
      a service that is stored afterwards. */
  lemma StoredRaisesNone(cfg: Config, st: State, op: Op, g: string)
    requires Inv(st) && !op.Poll? && g in Apply(cfg, st, op).services
    ensures Count(AlertsOf(cfg, st, op), TtlExpired, g) == 0
  {
    hide KindOf, PublisherOf, Rate.TrackRate, Expiry, Seconds, Hijacks, Registered, Unregistered;
    hide AcceptedAlerts, BrokersAfter;
    match op
    case Publish(at, e) =>
      if Refused(st, op) {
        RejectedAlert(cfg, st, op);
        CountOther(AlertsOf(cfg, st, op), TtlExpired, SpoofedBrokerEvent, g);
      } else {
        AcceptedCount(cfg, st, e, at, TtlExpired, g);
        var alerts := ServiceAlerts(cfg, st.services, e, at);
        if alerts != [] {
          CountSingle(alerts[0], TtlExpired, g);
        }
      }
    case ServiceSync(at, payload, order) =>
      if payload.GetObject("services").Some? {
        SyncTitled(cfg, payload.GetObject("services").value, order, at);
        CountOther(AlertsOf(cfg, st, op), TtlExpired, UnknownThumbprint, g);
      }
    case BrokerSync(_, _) =>
  }

  /** A record that another registration or a sync replaces raises at most one
      TTL alert over its life, and none up to its expiry. */
  lemma TtlAtMostOnce(cfg: Config, st: State, ops: seq<Op>, g: string, op: Op)
    requires Inv(st) && g in st.services && !st.services[g].reported
    requires NeverEnds(cfg, st, ops, g) && PollsComplete(cfg, st, ops)
    requires forall i :: 0 <= i < |ops| ==> ops[i].at <= op.at
    requires Ends(Run(cfg, st, ops), op, g) && (op.Publish? ==> Registered(op.event).Some?)
    ensures var alerts := Raised(cfg, st, ops, TtlExpired, g)
                          + Count(AlertsOf(cfg, Run(cfg, st, ops), op), TtlExpired, g);
            alerts <= 1 && (alerts == 1 ==> op.at / 1000 > Expiry(cfg, st.services[g]))
  {
    hide Run, NeverEnds, PollsComplete, Raised, AcceptedAlerts, SpoofAlert, Expiry, Hijacks;
    hide KindOf, Registered, PublisherOf, Rate.TrackRate, BrokersAfter, Inv, Accepted;
    LifeOfRecord(cfg, st, ops, g, op.at);
    var end := Run(cfg, st, ops);
    match op
    case Publish(at, e) =>
      AcceptedCount(cfg, end, e, at, TtlExpired, g);
      assert ServiceAlerts(cfg, end.services, e, at) == [];
    case ServiceSync(at, payload, order) =>
      SyncTitled(cfg, payload.GetObject("services").value, order, at);
      CountOther(AlertsOf(cfg, end, op), TtlExpired, UnknownThumbprint, g);
  }

  // What payloads say about services

  /** A payload that describes a service. */
  predicate Describes(info: Value) {
    info.GetStr("serviceType").Some? && info.GetU64("ttlMins").Some? && info.GetI64("registrationTime").Some?
  }

  /** The client a payload names: an empty name is none. */
  function ClientOf(info: Value): Option<string> {
    var name := info.GetStr("clientGuid");
    if name == Some("") then None else name
  }

  /** The record a describing payload asks for; of the TTL 32 bits are kept. */
  function RecordOf(guid: string, info: Value): Service
    requires Describes(info)
  {
    Service(guid, info.GetStr("serviceType").value, ClientOf(info), info.GetI64("registrationTime").value,
            info.GetU64("ttlMins").value % 0x1_0000_0000, false)
  }

  lemma ServiceFromExactly(guid: string, info: Value)
    ensures ServiceFrom(guid, info) == if Describes(info) then Some(RecordOf(guid, info)) else None
  {
  }

  predicate Registers(e: Event, g: string) {
    && e.topic == "/mcafee/event/dxl/svcregistry/register"
    && e.payload.GetStr("serviceGuid") == Some(g) && Describes(e.payload)
  }

  predicate Unregisters(e: Event, g: string) {
    e.topic == "/mcafee/event/dxl/svcregistry/unregister" && e.payload.GetStr("serviceGuid") == Some(g)
  }

  /** Which events register or unregister a service, and as what. */
  lemma RegistersExactly(e: Event, g: string)
    ensures Registers(e, g) <==> Registered(e).Some? && Registered(e).value.guid == g
    ensures Registers(e, g) ==> Registered(e) == Some(RecordOf(g, e.payload))
    ensures Unregisters(e, g) <==> Unregistered(e) == Some(g)
  {
    NamedTopics(e.topic);
    hide KindOf, ServiceFrom, Describes, RecordOf;
    if e.payload.GetStr("serviceGuid").Some? {
      ServiceFromExactly(e.payload.GetStr("serviceGuid").value, e.payload);
      RecordGuid(e.payload.GetStr("serviceGuid").value, e.payload);
    }
  }

  lemma RecordGuid(guid: string, info: Value)
    ensures Describes(info) ==> RecordOf(guid, info).guid == guid
  {
  }

  // Ownership

  /** The normalized identity that owns `g`, if the record names one. */
  function Owner(st: State, g: string): Option<string> {
    if g in st.services && st.services[g].clientGuid.Some?
    then Some(NormalizeIdentity(st.services[g].clientGuid.value)) else None
  }

  /** What an accepted event makes of the services. */
  lemma ServicesOf(cfg: Config, st: State, at: int, e: Event)
    requires !Refused(st, Publish(at, e))
    ensures Apply(cfg, st, Publish(at, e)).services == ServicesAfter(st.services, e)
  {
    hide SpoofAlert, PublisherOf, Rate.TrackRate, BrokersAfter, AcceptedAlerts, ServicesAfter;
  }

  /** An accepted event keeps the owner of a service exactly unless it
      unregisters the service or registers it anew without naming a client. */
  lemma OwnerKeptExactly(cfg: Config, st: State, at: int, e: Event, g: string)
    requires !Refused(st, Publish(at, e)) && Owner(st, g).Some?
    ensures Owner(Apply(cfg, st, Publish(at, e)), g) == Owner(st, g)
       <==> !Unregisters(e, g) && !(Registers(e, g) && ClientOf(e.payload).None?)
  {
    RegistersExactly(e, g);
    ServicesOf(cfg, st, at, e);
    assert Registered(e).Some? ==> Unregistered(e).None?;
    hide Registers, Unregisters, Registered, Unregistered, Apply, Refused, NormalizeIdentity, Describes;
  }

  /** Such a register exists, and the engine accepts it: whoever owns the service,
      a registration that names no client takes the owner away. */
  lemma OwnerCanBeCleared(cfg: Config, st: State, at: int)
    requires Owner(st, "g").Some? && (st.brokers != map[] ==> "b" in st.brokers)
    ensures var payload := Obj(map["serviceGuid" := Str("g"), "serviceType" := Str("t"),
                                   "ttlMins" := Num(Int(1)), "registrationTime" := Num(Int(0))]);
            var op := Publish(at, Event("/mcafee/event/dxl/svcregistry/register", payload, "b", None));
            && !Refused(st, op)
            && Owner(Apply(cfg, st, op), "g").None?
            && Apply(cfg, st, op).services == st.services["g" := Service("g", "t", None, 0, 1, false)]
  {
    var payload := Obj(map["serviceGuid" := Str("g"), "serviceType" := Str("t"),
                           "ttlMins" := Num(Int(1)), "registrationTime" := Num(Int(0))]);
    var e := Event("/mcafee/event/dxl/svcregistry/register", payload, "b", None);
    RegisterTopic();
    BrokerIsNamed();
    hide KindOf, NormalizeIdentity, Blank, Rate.TrackRate, BrokersAfter, AcceptedAlerts, PublisherOf;
    assert ServiceFrom("g", payload) == Some(Service("g", "t", None, 0, 1, false));
    assert Registered(e) == ServiceFrom("g", payload);
  }

  lemma BrokerIsNamed()
    ensures !Blank("b")
  {
  }

  predicate DropsOwner(st: State, op: Op, g: string) {
    match op
    case Publish(_, e) =>
      !Refused(st, op) && (Unregisters(e, g) || (Registers(e, g) && ClientOf(e.payload).None?))
    case ServiceSync(_, payload, _) => payload.GetObject("services").Some?
    case _ => false
  }

  predicate NeverDropsOwner(cfg: Config, st: State, ops: seq<Op>, g: string)
    decreases |ops|
  {
    ops == [] || (!DropsOwner(st, ops[0], g) && NeverDropsOwner(cfg, Apply(cfg, st, ops[0]), ops[1..], g))
  }

  lemma OwnerStep(cfg: Config, st: State, op: Op, g: string)
    requires Owner(st, g).Some? && !DropsOwner(st, op, g)
    ensures Owner(Apply(cfg, st, op), g) == Owner(st, g)
  {
    hide NormalizeIdentity, Rate.Sweep, Overdue, SpoofAlert, Registers, Unregisters, AcceptedAlerts, Accepted;
    match op
    case Publish(at, e) =>
      if !Refused(st, op) {
        OwnerKeptExactly(cfg, st, at, e, g);
      }
    case Poll(_, _) =>
    case ServiceSync(_, _, _) =>
    case BrokerSync(_, _) =>
  }

  /** Between syncs and unregisters of a service, if every register of it names a
      client, its owner stays the same identity once it is set. */
  lemma {:induction false} OwnerStable(cfg: Config, st: State, ops: seq<Op>, g: string)
    requires Owner(st, g).Some? && NeverDropsOwner(cfg, st, ops, g)
    ensures Owner(Run(cfg, st, ops), g) == Owner(st, g)
    decreases |ops|
  {
    hide Apply, DropsOwner, Owner;
    if ops == [] {
    } else {
      OwnerStep(cfg, st, ops[0], g);
      OwnerStable(cfg, Apply(cfg, st, ops[0]), ops[1..], g);
    }
  }

  /** A register event, from its payload: under another identity than the owner's it
      raises exactly one hijack alert, which names both, and changes no service;
      any other raises none and its record is stored, the client it names, if any,
      becoming the owner. */
  lemma HijackAlerted(cfg: Config, st: State, at: int, e: Event, g: string)
    requires !Refused(st, Publish(at, e)) && Registers(e, g)
    ensures var client, owner := ClientOf(e.payload), Owner(st, g);
            var other := client.Some? && owner.Some? && owner.value != NormalizeIdentity(client.value);
            var after, alerts := Apply(cfg, st, Publish(at, e)), AlertsOf(cfg, st, Publish(at, e));
            && Count(alerts, ServiceHijack, g) == (if other then 1 else 0)
            && after.services == (if other then st.services else st.services[g := RecordOf(g, e.payload)])
            && Owner(after, g) == (if other then owner
                                   else if client.Some? then Some(NormalizeIdentity(client.value)) else None)
            && ServiceAlerts(cfg, st.services, e, at)
               == if other then
                    [Alert(at, ServiceHijack, [g, RecordOf(g, e.payload).serviceType, client.value,
                                               st.services[g].clientGuid.value], client)]
                  else []
  {
    RegistersExactly(e, g);
    hide SpoofAlert, KindOf, PublisherOf, Rate.TrackRate, BrokersAfter, AcceptedAlerts, NormalizeIdentity;
    hide Registered, Unregistered, Registers, Unregisters, Describes;
    AcceptedCount(cfg, st, e, at, ServiceHijack, g);
    var alerts := ServiceAlerts(cfg, st.services, e, at);
    if alerts != [] {
      CountSingle(alerts[0], ServiceHijack, g);
    }
  }

  lemma NamesNothing(e: Event)
    requires forall g :: !Registers(e, g)
    ensures Registered(e).None?
    ensures forall g :: Unregisters(e, g) <==> Unregistered(e) == Some(g)
  {
    hide Registers, Unregisters, Registered, Unregistered;
    if Registered(e).Some? {
      RegistersExactly(e, Registered(e).value.guid);
    }
    forall g ensures Unregisters(e, g) <==> Unregistered(e) == Some(g) {
      RegistersExactly(e, g);
    }
  }

  /** Any other accepted event leaves the services alone, except that an unregister
      event removes the service it names. */
  lemma OthersKeepServices(cfg: Config, st: State, at: int, e: Event)
    requires !Refused(st, Publish(at, e)) && forall g :: !Registers(e, g)
    ensures var after := Apply(cfg, st, Publish(at, e)).services;
            && (forall g :: Unregisters(e, g) ==> after == st.services - {g})
            && ((forall g :: !Unregisters(e, g)) ==> after == st.services)
  {
    NamesNothing(e);
    ServicesOf(cfg, st, at, e);
    hide Registers, Unregisters, Registered, Unregistered, Apply, Refused, Hijacks;
    if Unregistered(e).Some? {
      assert Unregisters(e, Unregistered(e).value);
    }
  }

  /** After a registry query's reply the services are exactly the members of its
      `services` object that describe one, each with the owner its entry names. */
  lemma SyncedServices(cfg: Config, st: State, at: int, payload: Value, order: seq<string>, g: string)
    requires payload.GetObject("services").Some?
    ensures var members := payload.GetObject("services").value;
            var after := Apply(cfg, st, ServiceSync(at, payload, order));
            && (g in after.services <==> g in members && Describes(members[g]))
            && (g in after.services ==>
                  && after.services[g] == RecordOf(g, members[g])
                  && Owner(after, g) == if ClientOf(members[g]).Some?
                                        then Some(NormalizeIdentity(ClientOf(members[g]).value)) else None)
  {
    var members := payload.GetObject("services").value;
    if g in members {
      ServiceFromExactly(g, members[g]);
    }
    hide ServiceFrom, Describes, NormalizeIdentity;
  }
}
