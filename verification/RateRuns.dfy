/** The rate checks inside the engine: every engine run drives each rate table
    through a run of its own, so the laws of `RateWindow` hold of the alerts. */
module RateRuns {
  import opened Registry
  import opened EngineRuns
  import opened AlertCount
  import Rate = RateWindow

  datatype Table = ByClient | ByTopic

  function Rates(st: State, table: Table): Rate.Queues {
    match table
    case ByClient => st.clientRates
    case ByTopic => st.topicRates
  }

  function KeyOf(e: Event, table: Table): string {
    match table
    case ByClient => PublisherOf(e)
    case ByTopic => e.topic
  }

  function TitleOf(table: Table): Title {
    match table
    case ByClient => ClientRate
    case ByTopic => TopicRate
  }

  /** What one engine operation is to a rate table. */
  function RateOp(st: State, op: Op, table: Table): seq<Rate.Op> {
    match op
    case Publish(at, e) => if Refused(st, op) then [] else [Rate.Message(KeyOf(e, table), at)]
    case Poll(at, _) => [Rate.Poll(at)]
    case _ => []
  }

  function RateOps(cfg: Config, st: State, ops: seq<Op>, table: Table): seq<Rate.Op>
    decreases |ops|
  {
    if ops == [] then []
    else RateOp(st, ops[0], table) + RateOps(cfg, Apply(cfg, st, ops[0]), ops[1..], table)
  }

  lemma RateStep(cfg: Config, st: State, op: Op, table: Table)
    ensures Rates(Apply(cfg, st, op), table) == Rate.RunOn(Rates(st, table), RateOp(st, op, table))
  {
    hide SpoofAlert, PublisherOf, AcceptedAlerts, ServicesAfter, BrokersAfter, Rate.TrackRate, Rate.Sweep;
    if RateOp(st, op, table) != [] {
      assert RateOp(st, op, table)[1..] == [];
    }
  }

  lemma {:induction false} RunOnJoin(m: Rate.Queues, a: seq<Rate.Op>, b: seq<Rate.Op>)
    ensures Rate.RunOn(m, a + b) == Rate.RunOn(Rate.RunOn(m, a), b)
    decreases |a|
  {
    if a == [] {
      assert a + b == b;
    } else {
      assert (a + b)[1..] == a[1..] + b;
      RunOnJoin(Rate.Step(m, a[0]), a[1..], b);
    }
  }

  /** The engine's rate table is the table of its rate run. */
  lemma {:induction false} RatesFollow(cfg: Config, st: State, ops: seq<Op>, table: Table)
    ensures Rates(Run(cfg, st, ops), table) == Rate.RunOn(Rates(st, table), RateOps(cfg, st, ops, table))
    decreases |ops|
  {
    hide Apply, RateOp;
    if ops == [] {
    } else {
      RateStep(cfg, st, ops[0], table);
      var next := Apply(cfg, st, ops[0]);
      RatesFollow(cfg, next, ops[1..], table);
      RunOnJoin(Rates(st, table), RateOp(st, ops[0], table), RateOps(cfg, next, ops[1..], table));
    }
  }

  lemma RatesOfRun(cfg: Config, ops: seq<Op>, table: Table)
    ensures Rates(Run(cfg, Initial(), ops), table) == Rate.Run(RateOps(cfg, Initial(), ops, table))
  {
    RatesFollow(cfg, Initial(), ops, table);
    Rate.RunOnContinues([], RateOps(cfg, Initial(), ops, table));
    assert [] + RateOps(cfg, Initial(), ops, table) == RateOps(cfg, Initial(), ops, table);
  }

  lemma {:induction false} RateOpsMonotone(cfg: Config, st: State, ops: seq<Op>, table: Table)
    requires Monotone(ops)
    ensures Rate.Monotone(RateOps(cfg, st, ops, table))
    ensures ops != [] ==> forall i :: 0 <= i < |RateOps(cfg, st, ops, table)| ==>
              ops[0].at <= RateOps(cfg, st, ops, table)[i].at <= ops[|ops| - 1].at
    decreases |ops|
  {
    hide Apply, Refused, KeyOf;
    if ops == [] {
    } else {
      var next := Apply(cfg, st, ops[0]);
      RateOpsMonotone(cfg, next, ops[1..], table);
      if |ops| == 1 {
        assert RateOps(cfg, next, ops[1..], table) == [];
      } else {
        assert ops[1..][|ops| - 2] == ops[|ops| - 1];
      }
    }
  }

  /** In every reachable state each rate map has at most 10,000 keys, each with
      at most 100 times. */
  lemma RatesBounded(cfg: Config, ops: seq<Op>, table: Table)
    ensures |Rates(Run(cfg, Initial(), ops), table)| <= 10_000
    ensures forall k :: k in Rates(Run(cfg, Initial(), ops), table) ==>
              |Rates(Run(cfg, Initial(), ops), table)[k]| <= 100
  {
    RatesOfRun(cfg, ops, table);
    Rate.Capacity(RateOps(cfg, Initial(), ops, table));
  }

  lemma {:induction false} RateOpsJoin(cfg: Config, st: State, ops: seq<Op>, more: seq<Op>, table: Table)
    ensures RateOps(cfg, st, ops + more, table)
         == RateOps(cfg, st, ops, table) + RateOps(cfg, Run(cfg, st, ops), more, table)
    decreases |ops|
  {
    hide Apply, RateOp;
    if ops == [] {
      assert ops + more == more;
    } else {
      assert (ops + more)[1..] == ops[1..] + more;
      RateOpsJoin(cfg, Apply(cfg, st, ops[0]), ops[1..], more, table);
    }
  }

  lemma RateOpsNext(cfg: Config, ops: seq<Op>, op: Op, table: Table)
    requires op.Publish? && !Refused(Run(cfg, Initial(), ops), op)
    ensures RateOps(cfg, Initial(), ops + [op], table)
         == RateOps(cfg, Initial(), ops, table) + [Rate.Message(KeyOf(op.event, table), op.at)]
  {
    hide Run, Apply, Refused, KeyOf;
    var st := Run(cfg, Initial(), ops);
    RateOpsJoin(cfg, Initial(), ops, [op], table);
    assert [op][1..] == [];
    assert RateOps(cfg, st, [op], table) == RateOp(st, op, table) + [];
  }

  /** How many rate alerts for its own key an accepted event raises. */
  lemma RateAlertVerdict(cfg: Config, st: State, e: Event, at: int, table: Table)
    requires !Refused(st, Publish(at, e))
    ensures Count(AlertsOf(cfg, st, Publish(at, e)), TitleOf(table), KeyOf(e, table))
         == if Rate.TrackRate(Rates(st, table), KeyOf(e, table), at).1 == Rate.Counted(true) then 1 else 0
  {
    hide SpoofAlert, AcceptedAlerts, PublisherOf, Rate.TrackRate, Accepted;
    AcceptedCount(cfg, st, e, at, TitleOf(table), KeyOf(e, table));
  }

  /** The rate alert an accepted event raises, after any run on a nondecreasing
      clock: none if its table did not count it; otherwise exactly one if the
      plain log of its key, cleared only by that key's alerts, then holds 101
      messages of the last minute, and none if not. */
  lemma EngineRateAlert(cfg: Config, ops: seq<Op>, at: int, e: Event, table: Table)
    requires Monotone(ops + [Publish(at, e)])
    requires !Refused(Run(cfg, Initial(), ops), Publish(at, e))
    ensures var st := Run(cfg, Initial(), ops);
            var rates := RateOps(cfg, Initial(), ops + [Publish(at, e)], table);
            var n := |RateOps(cfg, Initial(), ops, table)|;
            && n < |rates| && rates[n] == Rate.Message(KeyOf(e, table), at)
            && var alerts := Count(AlertsOf(cfg, st, Publish(at, e)), TitleOf(table), KeyOf(e, table));
               var log := Rate.Log(Rate.Tracked(rates[..n]), KeyOf(e, table)) + [at];
               if Rate.VerdictAt(rates, n).Counted? && |Rate.Within(log, at)| == 101 then alerts == 1 else alerts == 0
  {
    hide Run, Apply, AlertsOf, Refused, KeyOf, Rate.TrackRate, Rate.Log, Rate.Tracked, Rate.Within;
    var op, st := Publish(at, e), Run(cfg, Initial(), ops);
    var before, rates := RateOps(cfg, Initial(), ops, table), RateOps(cfg, Initial(), ops + [op], table);
    RateOpsNext(cfg, ops, op, table);
    RateOpsMonotone(cfg, Initial(), ops + [op], table);
    RatesOfRun(cfg, ops, table);
    RateAlertVerdict(cfg, st, e, at, table);
    assert rates[..|before|] == before;
    if Rate.VerdictAt(rates, |before|).Counted? {
      Rate.RateRefinement(rates, |before|);
    }
  }

  // The alerts of whole runs

  /** The rate alerts of one operation: those of an event the engine accepts. */
  lemma OpRateAlerts(cfg: Config, st: State, op: Op, table: Table, k: string)
    ensures Count(AlertsOf(cfg, st, op), TitleOf(table), k)
         == if && op.Publish? && !Refused(st, op) && KeyOf(op.event, table) == k
               && Rate.TrackRate(Rates(st, table), k, op.at).1 == Rate.Counted(true)
            then 1 else 0
  {
    hide SpoofAlert, AcceptedAlerts, PublisherOf, Rate.TrackRate, Accepted;
    match op
    case Publish(at, e) =>
      if Refused(st, op) {
        RejectedAlert(cfg, st, op);
        CountOther(AlertsOf(cfg, st, op), TitleOf(table), SpoofedBrokerEvent, k);
      } else {
        AcceptedCount(cfg, st, e, at, TitleOf(table), k);
      }
    case Poll(at, order) =>
      PollTitled(cfg, st.services, order, PollSeconds(at));
      CountOther(AlertsOf(cfg, st, op), TitleOf(table), TtlExpired, k);
    case ServiceSync(at, payload, order) =>
      if payload.GetObject("services").Some? {
        SyncTitled(cfg, payload.GetObject("services").value, order, at);
        CountOther(AlertsOf(cfg, st, op), TitleOf(table), UnknownThumbprint, k);
      }
    case BrokerSync(_, _) =>
  }

  lemma AlertsNext(cfg: Config, st: State, op: Op, rates: seq<Rate.Op>, table: Table, k: string)
    requires Rates(st, table) == Rate.Run(rates)
    ensures Rate.CountAlerts(rates + RateOp(st, op, table), k)
         == Rate.CountAlerts(rates, k) + Count(AlertsOf(cfg, st, op), TitleOf(table), k)
  {
    hide Rate.TrackRate, AlertsOf, Refused, KeyOf, Rate.Run, Count;
    OpRateAlerts(cfg, st, op, table, k);
    var more := RateOp(st, op, table);
    if more == [] {
      assert rates + more == rates;
    } else {
      assert (rates + more)[..|rates|] == rates;
    }
  }

  /** The rate alerts a run of the engine raises about a key are the alerts of the
      table's own run. */
  lemma {:induction false} RateAlertsCounted(cfg: Config, ops: seq<Op>, table: Table, k: string)
    ensures Raised(cfg, Initial(), ops, TitleOf(table), k)
         == Rate.CountAlerts(RateOps(cfg, Initial(), ops, table), k)
  {
    hide Raised, Run, RateOp, Rate.Run, Rate.CountAlerts, Count, AlertsOf;
    if ops == [] {
      RaisedNext(cfg, Initial(), ops, TitleOf(table), k);
      NoAlerts(k);
    } else {
      var front, op := ops[..|ops| - 1], ops[|ops| - 1];
      var st := Run(cfg, Initial(), front);
      assert ops == front + [op] && [op][1..] == [];
      RateAlertsCounted(cfg, front, table, k);
      RaisedJoin(cfg, Initial(), front, [op], TitleOf(table), k);
      RaisedSingle(cfg, st, op, TitleOf(table), k);
      RateOpsJoin(cfg, Initial(), front, [op], table);
      assert RateOps(cfg, st, [op], table) == RateOp(st, op, table);
      RatesOfRun(cfg, front, table);
      AlertsNext(cfg, st, op, RateOps(cfg, Initial(), front, table), table, k);
    }
  }

  lemma NoAlerts(k: string)
    ensures Rate.CountAlerts([], k) == 0
  {
  }

  /** Debouncing, over any run of the engine and on any clock: 101 times the rate
      alerts about a key and the times still queued for it never exceed the
      messages of that key which the table counted, let alone those accepted. */
  lemma EngineDebounce(cfg: Config, ops: seq<Op>, table: Table, k: string)
    ensures var rates := RateOps(cfg, Initial(), ops, table);
            101 * Raised(cfg, Initial(), ops, TitleOf(table), k)
            + |Rate.Queue(Rates(Run(cfg, Initial(), ops), table), k)|
            <= Rate.CountTracked(rates, k) <= Rate.CountMessages(rates, k)
  {
    hide Raised, Run, RateOps, Rate.CountAlerts, Rate.CountTracked, Rate.CountMessages;
    RateAlertsCounted(cfg, ops, table, k);
    RatesOfRun(cfg, ops, table);
    Rate.DebounceAccounting(RateOps(cfg, Initial(), ops, table), k);
    Rate.TrackedAreMessages(RateOps(cfg, Initial(), ops, table), k);
  }

  /** Burst completeness over runs of the engine: a stretch within a minute in
      which a table counts 101 messages of a key raises a rate alert about it. */
  lemma EngineBurst(cfg: Config, ops: seq<Op>, i: nat, j: nat, table: Table, k: string)
    requires Monotone(ops) && i < j <= |ops| && ops[j - 1].at - ops[i].at <= 60_000
    requires Rate.CountTracked(RateOps(cfg, Initial(), ops[..j], table), k)
             - Rate.CountTracked(RateOps(cfg, Initial(), ops[..i], table), k) >= 101
    ensures Raised(cfg, Initial(), ops[..i], TitleOf(table), k) < Raised(cfg, Initial(), ops[..j], TitleOf(table), k)
  {
    hide Raised, Run, RateOps, Rate.CountAlerts, Rate.CountTracked, Rate.AlertAt;
    var before, stretch, st := ops[..i], ops[i..j], Run(cfg, Initial(), ops[..i]);
    var r1, r2 := RateOps(cfg, Initial(), before, table), RateOps(cfg, st, stretch, table);
    var rates := RateOps(cfg, Initial(), ops[..j], table);
    assert ops[..j] == before + stretch;
    RateOpsJoin(cfg, Initial(), before, stretch, table);
    RateOpsMonotone(cfg, Initial(), ops[..j], table);
    RateOpsMonotone(cfg, st, stretch, table);
    assert rates == r1 + r2 && rates[..|r1|] == r1 && rates[..|rates|] == rates;
    assert r2 == [] ==> rates == r1;
    assert rates[|r1|] == r2[0] && rates[|rates| - 1] == r2[|r2| - 1];
    Rate.BurstComplete(rates, |r1|, |rates|, k);
    Rate.AlertsGrow(rates, |r1|, |rates|, k);
    RateAlertsCounted(cfg, before, table, k);
    RateAlertsCounted(cfg, ops[..j], table, k);
  }
}
