/** What holds of the detection engine over whole runs. */
module EngineRuns {
  import opened Prelude
  import opened Json
  import opened Text
  import opened Registry
  import Rate = RateWindow

  /** What reaches the engine. `at` is the clock in milliseconds; `order` is the
      order in which a hash map or a JSON object is walked. */
  datatype Op =
    | Publish(at: int, event: Event)
    | Poll(at: int, order: seq<string>)
    | ServiceSync(at: int, payload: Value, order: seq<string>)
    | BrokerSync(at: int, payload: Value)

  /** A poll reads its clock in whole seconds. */
  function PollSeconds(at: int): int { at / 1000 }

  function Apply(cfg: Config, st: State, op: Op): State {
    match op
    case Publish(at, e) => Handle(cfg, st, e, at).0
    case Poll(at, _) => Polled(cfg, st, PollSeconds(at))
    case ServiceSync(_, payload, _) => Synced(st, payload)
    case BrokerSync(_, payload) => BrokerSynced(st, payload)
  }

  function AlertsOf(cfg: Config, st: State, op: Op): seq<Alert> {
    match op
    case Publish(at, e) => Handle(cfg, st, e, at).1
    case Poll(at, order) => PollAlerts(cfg, st.services, order, PollSeconds(at))
    case ServiceSync(at, payload, order) =>
      (match payload.GetObject("services")
       case Some(members) => SyncAlerts(cfg, members, order, at)
       case None => [])
    case BrokerSync(_, _) => []
  }

  /** What an operation walks, it walks in full: a poll all the services, a service
      sync all members of the object it is given. */
  ghost predicate Walked(st: State, op: Op) {
    match op
    case Poll(_, order) => Enumerates(order, st.services.Keys)
    case ServiceSync(_, payload, order) =>
      (match payload.GetObject("services")
       case Some(members) => Enumerates(order, members.Keys)
       case None => true)
    case _ => true
  }

  function Run(cfg: Config, st: State, ops: seq<Op>): State
    decreases |ops|
  {
    if ops == [] then st else Run(cfg, Apply(cfg, st, ops[0]), ops[1..])
  }

  /** The alerts of a run, one list for each operation. */
  function AlertLog(cfg: Config, st: State, ops: seq<Op>): (log: seq<seq<Alert>>)
    ensures |log| == |ops|
    decreases |ops|
  {
    if ops == [] then []
    else [AlertsOf(cfg, st, ops[0])] + AlertLog(cfg, Apply(cfg, st, ops[0]), ops[1..])
  }

  predicate Monotone(ops: seq<Op>) {
    forall i, j :: 0 <= i < j < |ops| ==> ops[i].at <= ops[j].at
  }

  lemma {:induction false} RunSnoc(cfg: Config, st: State, ops: seq<Op>, op: Op)
    ensures Run(cfg, st, ops + [op]) == Apply(cfg, Run(cfg, st, ops), op)
    decreases |ops|
  {
    hide Apply;
    if ops == [] {
      assert ops + [op] == [op] && [op][1..] == [];
    } else {
      assert (ops + [op])[1..] == ops[1..] + [op];
      RunSnoc(cfg, Apply(cfg, st, ops[0]), ops[1..], op);
    }
  }

  lemma {:induction false} RunJoin(cfg: Config, st: State, a: seq<Op>, b: seq<Op>)
    ensures Run(cfg, st, a + b) == Run(cfg, Run(cfg, st, a), b)
    decreases |a|
  {
    hide Apply;
    if a == [] {
      assert a + b == b;
    } else {
      assert (a + b)[1..] == a[1..] + b;
      RunJoin(cfg, Apply(cfg, st, a[0]), a[1..], b);
    }
  }

  lemma {:induction false} AlertLogJoin(cfg: Config, st: State, a: seq<Op>, b: seq<Op>)
    ensures AlertLog(cfg, st, a + b) == AlertLog(cfg, st, a) + AlertLog(cfg, Run(cfg, st, a), b)
    decreases |a|
  {
    hide Apply, AlertsOf;
    if a == [] {
      assert a + b == b;
    } else {
      assert (a + b)[1..] == a[1..] + b;
      AlertLogJoin(cfg, Apply(cfg, st, a[0]), a[1..], b);
    }
  }

  // Invariants of every reachable state

  predicate NoThumbprints(brokers: map<string, Value>) {
    forall g :: g in brokers ==> !IsHexThumbprint(g)
  }

  predicate KeyedByGuid(services: map<string, Service>) {
    forall g :: g in services ==> services[g].guid == g
  }

  ghost predicate Inv(st: State) {
    NoThumbprints(st.brokers) && KeyedByGuid(st.services)
  }

  lemma ApplyInv(cfg: Config, st: State, op: Op)
    requires Inv(st)
    ensures Inv(Apply(cfg, st, op))
  {
    hide KindOf, IsHexThumbprint, Rate.TrackRate, AcceptedAlerts, Hijacks, NormalizeThumbprint, Blank;
    match op
    case Publish(at, e) =>
      if SpoofAlert(st.brokers, e, at).None? && KindOf(e.topic) == BrokerState && e.payload.GetStr("guid").Some? {
        AcceptedBroker(st.brokers, e, at);
      }
    case Poll(_, _) =>
    case ServiceSync(_, _, _) =>
    case BrokerSync(_, _) =>
  }

  /** A brokerstate event the engine lets through names its own sender, which is
      no thumbprint and, once brokers are known, one of them. */
  lemma AcceptedBroker(brokers: map<string, Value>, e: Event, now: int)
    requires SpoofAlert(brokers, e, now).None?
    requires KindOf(e.topic) == BrokerState && e.payload.GetStr("guid").Some?
    ensures var guid := e.payload.GetStr("guid").value;
            && guid == e.source && !IsHexThumbprint(guid)
            && (brokers != map[] ==> guid in brokers)
  {
    hide IsHexThumbprint, KindOf;
    assert e.source == "" ==> Blank(e.source);
  }

  lemma {:induction false} RunInv(cfg: Config, st: State, ops: seq<Op>)
    requires Inv(st)
    ensures Inv(Run(cfg, st, ops))
    decreases |ops|
  {
    hide Inv, Apply;
    if ops == [] {
    } else {
      ApplyInv(cfg, st, ops[0]);
      RunInv(cfg, Apply(cfg, st, ops[0]), ops[1..]);
    }
  }

  /** In every reachable state no broker key is a certificate thumbprint and
      every service is stored under its own GUID. */
  lemma ReachableInv(cfg: Config, ops: seq<Op>)
    ensures Inv(Run(cfg, Initial(), ops))
  {
    RunInv(cfg, Initial(), ops);
  }

  // The broker set between syncs

  predicate SyncsBrokers(op: Op) {
    op.BrokerSync? && op.payload.GetObject("brokers").Some?
  }

  lemma BrokerStep(cfg: Config, st: State, op: Op)
    requires !SyncsBrokers(op)
    ensures var after := Apply(cfg, st, op).brokers.Keys;
            if st.brokers == map[] then |after| <= 1 else after == st.brokers.Keys
  {
    hide KindOf, IsHexThumbprint, Rate.TrackRate, AcceptedAlerts, ServicesAfter;
    if op.Publish? && SpoofAlert(st.brokers, op.event, op.at).None? {
      var e := op.event;
      if KindOf(e.topic) == BrokerState && e.payload.GetStr("guid").Some? {
        AcceptedBroker(st.brokers, e, op.at);
        var guid := e.payload.GetStr("guid").value;
        assert st.brokers[guid := e.payload].Keys == st.brokers.Keys + {guid};
      }
    }
  }

  /** Between broker syncs, whatever is published: a known broker set never
      changes, and an empty one gains at most one broker. */
  lemma {:induction false} BrokerSetStable(cfg: Config, st: State, ops: seq<Op>)
    requires forall i :: 0 <= i < |ops| ==> !SyncsBrokers(ops[i])
    ensures var after := Run(cfg, st, ops).brokers.Keys;
            if st.brokers == map[] then |after| <= 1 else after == st.brokers.Keys
    decreases |ops|
  {
    hide Apply;
    if ops == [] {
    } else {
      BrokerStep(cfg, st, ops[0]);
      BrokerSetStable(cfg, Apply(cfg, st, ops[0]), ops[1..]);
    }
  }

  // Erasing rejected events

  predicate Refused(st: State, op: Op) {
    op.Publish? && SpoofAlert(st.brokers, op.event, op.at).Some?
  }

  /** The run without the events the engine turns away. */
  function Kept(cfg: Config, st: State, ops: seq<Op>): seq<Op>
    decreases |ops|
  {
    if ops == [] then []
    else
      (if Refused(st, ops[0]) then [] else [ops[0]])
      + Kept(cfg, Apply(cfg, st, ops[0]), ops[1..])
  }

  lemma {:induction false} KeptJoin(cfg: Config, st: State, a: seq<Op>, b: seq<Op>)
    ensures Kept(cfg, st, a + b) == Kept(cfg, st, a) + Kept(cfg, Run(cfg, st, a), b)
    decreases |a|
  {
    hide Apply, Refused;
    if a == [] {
      assert a + b == b;
    } else {
      assert (a + b)[1..] == a[1..] + b;
      KeptJoin(cfg, Apply(cfg, st, a[0]), a[1..], b);
    }
  }

  /** The alert lists of the operations that are kept. */
  function KeptAlerts(cfg: Config, st: State, ops: seq<Op>): seq<seq<Alert>>
    decreases |ops|
  {
    if ops == [] then []
    else
      (if Refused(st, ops[0]) then [] else [AlertsOf(cfg, st, ops[0])])
      + KeptAlerts(cfg, Apply(cfg, st, ops[0]), ops[1..])
  }

  /** A rejected event leaves no trace but its own alert: without it the run ends
      in the same services, brokers and rate tables, every other operation
      raises the same alerts, and nothing else is rejected. */
  lemma {:induction false} RejectedEventsErased(cfg: Config, st: State, ops: seq<Op>)
    ensures Run(cfg, st, Kept(cfg, st, ops)) == Run(cfg, st, ops)
    ensures AlertLog(cfg, st, Kept(cfg, st, ops)) == KeptAlerts(cfg, st, ops)
    ensures Kept(cfg, st, Kept(cfg, st, ops)) == Kept(cfg, st, ops)
    decreases |ops|
  {
    hide AlertsOf, SpoofAlert, Accepted;
    if ops == [] {
    } else {
      var rest := Kept(cfg, Apply(cfg, st, ops[0]), ops[1..]);
      RejectedEventsErased(cfg, Apply(cfg, st, ops[0]), ops[1..]);
      assert Refused(st, ops[0]) ==> [] + rest == rest;
      assert ([ops[0]] + rest)[1..] == rest;
    }
  }

  /** An event the engine turns away raises exactly one alert, of that kind. */
  lemma RejectedAlert(cfg: Config, st: State, op: Op)
    requires Refused(st, op)
    ensures Apply(cfg, st, op) == st
    ensures |AlertsOf(cfg, st, op)| == 1 && AlertsOf(cfg, st, op)[0].title == SpoofedBrokerEvent
  {
    hide KindOf, IsHexThumbprint, Blank, AcceptedAlerts;
  }
}
