/** What holds of the main loop over whole runs. */
module MainLoopRuns {
  import opened Prelude
  import opened Json
  import opened Text
  import opened Registry
  import opened MainLoop
  import Engine = EngineRuns
  import AlertCount
  import Services = ServiceRuns
  import Dxl = DxlMessage
  import Utf8

  // The two spoof guards

  /** A message the envelope check lets through never meets the engine's own
      spoof guard, for every payload, whatever the JSON parser makes of it. */
  lemma GuardsAgree(env: Env, brokers: map<string, Value>, topic: string, m: Dxl.Message, now: int)
    requires EnvelopeSpoof(env, brokers, topic, m).None?
    ensures SpoofAlert(brokers, EventOf(env, topic, m), now).None?
  {
    hide KindOf, IsHexThumbprint, CertThumbprint, Utf8.Decode, HasClientCerts;
    hide Trim;
  }

  /** So in the main loop no operation that reaches the engine is refused. */
  lemma EngineNeverRefuses(env: Env, s: Sensor, input: Input, at: int, order: seq<string>)
    ensures forall i :: 0 <= i < |EngineOp(env, s, input, at, order)| ==>
              !Engine.Refused(s.engine, EngineOp(env, s, input, at, order)[i])
  {
    hide EnvelopeSpoof, SpoofAlert, AuthenticReply, Dxl.Parse, DecodePayload, EventOf;
    if input.Publish? && Dxl.Parse(input.raw).Done? {
      var m := Dxl.Parse(input.raw).value;
      if EnvelopeSpoof(env, s.engine.brokers, input.topic, m).None? {
        GuardsAgree(env, s.engine.brokers, input.topic, m, at);
      }
    }
  }

  /** Everything a run of the loop asks of the engine, polls included. */
  function EngineTrace(env: Env, s: Sensor, turns: seq<Turn>): seq<Engine.Op>
    decreases |turns|
  {
    if turns == [] then []
    else TurnOps(env, s, turns[0]) + EngineTrace(env, Step(env, s, turns[0]), turns[1..])
  }

  function TurnOps(env: Env, s: Sensor, t: Turn): seq<Engine.Op> {
    EngineOp(env, s, t.input, t.at, t.order) + PollOps(s, t)
  }

  /** The poll of a turn, if it is due. */
  function PollOps(s: Sensor, t: Turn): seq<Engine.Op> {
    if PollDue(s, TickSecond(t)) then [Engine.Poll(t.pollAt, t.pollOrder)] else []
  }

  /** An input gives the engine at most one thing to do, which is no poll. */
  lemma EngineOpOnce(env: Env, s: Sensor, input: Input, at: int, order: seq<string>)
    ensures var ops := EngineOp(env, s, input, at, order);
            && |ops| <= 1
            && (ops != [] ==> !ops[0].Poll?)
            && Engine.Run(env.cfg, s.engine, ops)
               == if ops == [] then s.engine else Engine.Apply(env.cfg, s.engine, ops[0])
  {
    hide DispatchOf, Dxl.Parse, DecodePayload, EventOf, Engine.Apply;
    var ops := EngineOp(env, s, input, at, order);
    if ops != [] {
      assert ops[1..] == [];
    }
  }

  lemma TurnIsEngineRun(env: Env, s: Sensor, t: Turn)
    ensures Step(env, s, t).engine == Engine.Run(env.cfg, s.engine, TurnOps(env, s, t))
    ensures Engine.Kept(env.cfg, s.engine, TurnOps(env, s, t)) == TurnOps(env, s, t)
  {
    var ops := EngineOp(env, s, t.input, t.at, t.order);
    var poll := Engine.Poll(t.pollAt, t.pollOrder);
    EngineNeverRefuses(env, s, t.input, t.at, t.order);
    EngineOpOnce(env, s, t.input, t.at, t.order);
    hide QueryIds, EngineOp, Engine.Apply, SpoofAlert;
    Engine.RunJoin(env.cfg, s.engine, ops, [poll]);
    Engine.KeptJoin(env.cfg, s.engine, ops, [poll]);
    assert [poll][1..] == [];
    if ops != [] {
      assert ops[1..] == [] && ops == [ops[0]];
    }
    assert ops + [] == ops;
  }

  /** The loop drives the engine through a run of its own, in which no event is
      refused, so whatever holds of engine runs holds of the loop. */
  lemma {:induction false} LoopIsEngineRun(env: Env, s: Sensor, turns: seq<Turn>)
    ensures Run(env, s, turns).engine == Engine.Run(env.cfg, s.engine, EngineTrace(env, s, turns))
    ensures Engine.Kept(env.cfg, s.engine, EngineTrace(env, s, turns)) == EngineTrace(env, s, turns)
    decreases |turns|
  {
    hide Step, TurnOps;
    if turns == [] {
    } else {
      var next := Step(env, s, turns[0]);
      var ops, rest := TurnOps(env, s, turns[0]), EngineTrace(env, next, turns[1..]);
      TurnIsEngineRun(env, s, turns[0]);
      LoopIsEngineRun(env, next, turns[1..]);
      Engine.RunJoin(env.cfg, s.engine, ops, rest);
      Engine.KeptJoin(env.cfg, s.engine, ops, rest);
    }
  }

  lemma {:induction false} TraceJoin(env: Env, s: Sensor, a: seq<Turn>, b: seq<Turn>)
    ensures EngineTrace(env, s, a + b) == EngineTrace(env, s, a) + EngineTrace(env, Run(env, s, a), b)
    ensures Run(env, s, a + b) == Run(env, Run(env, s, a), b)
    decreases |a|
  {
    hide Step, TurnOps;
    if a == [] {
      assert a + b == b;
    } else {
      assert (a + b)[1..] == a[1..] + b;
      TraceJoin(env, Step(env, s, a[0]), a[1..], b);
    }
  }

  /** The clock readings of a turn, and the turns, are in order from `start` on. */
  predicate ClockInOrder(turns: seq<Turn>, start: int)
    decreases |turns|
  {
    turns == []
    || (start <= turns[0].at <= turns[0].tickAt <= turns[0].pollAt && ClockInOrder(turns[1..], turns[0].pollAt))
  }

  /** The last clock reading of these turns. */
  function LastClock(turns: seq<Turn>, start: int): int
    decreases |turns|
  {
    if turns == [] then start else LastClock(turns[1..], turns[0].pollAt)
  }

  /** A clock in order over two stretches of turns is in order over each. */
  lemma {:induction false} ClockSplit(before: seq<Turn>, rest: seq<Turn>, start: int)
    requires ClockInOrder(before + rest, start)
    ensures ClockInOrder(before, start) && ClockInOrder(rest, LastClock(before, start))
    ensures LastClock(before + rest, start) == LastClock(rest, LastClock(before, start))
    decreases |before|
  {
    if before == [] {
      assert before + rest == rest;
    } else {
      assert (before + rest)[1..] == before[1..] + rest;
      ClockSplit(before[1..], rest, before[0].pollAt);
    }
  }

  lemma EngineOpTime(env: Env, s: Sensor, input: Input, at: int, order: seq<string>)
    ensures forall i :: 0 <= i < |EngineOp(env, s, input, at, order)| ==> EngineOp(env, s, input, at, order)[i].at == at
  {
    hide DispatchOf, Dxl.Parse, DecodePayload, EventOf;
  }

  lemma TurnOpsInOrder(env: Env, s: Sensor, t: Turn)
    requires t.at <= t.pollAt
    ensures Engine.Monotone(TurnOps(env, s, t))
    ensures forall i :: 0 <= i < |TurnOps(env, s, t)| ==> t.at <= TurnOps(env, s, t)[i].at <= t.pollAt
  {
    hide EngineOp;
    EngineOpTime(env, s, t.input, t.at, t.order);
    EngineOpOnce(env, s, t.input, t.at, t.order);
  }

  lemma MonotoneJoin(a: seq<Engine.Op>, b: seq<Engine.Op>, middle: int)
    requires Engine.Monotone(a) && Engine.Monotone(b)
    requires forall i :: 0 <= i < |a| ==> a[i].at <= middle
    requires forall i :: 0 <= i < |b| ==> middle <= b[i].at
    ensures Engine.Monotone(a + b)
  {
  }

  /** An ordered clock gives the engine a nondecreasing one. */
  lemma {:induction false} TraceMonotone(env: Env, s: Sensor, turns: seq<Turn>, start: int)
    requires ClockInOrder(turns, start)
    ensures Engine.Monotone(EngineTrace(env, s, turns))
    ensures forall i :: 0 <= i < |EngineTrace(env, s, turns)| ==>
              start <= EngineTrace(env, s, turns)[i].at <= LastClock(turns, start)
    ensures start <= LastClock(turns, start)
    decreases |turns|
  {
    hide Step, TurnOps;
    if turns == [] {
    } else {
      var t, next := turns[0], Step(env, s, turns[0]);
      TurnOpsInOrder(env, s, t);
      TraceMonotone(env, next, turns[1..], t.pollAt);
      MonotoneJoin(TurnOps(env, s, t), EngineTrace(env, next, turns[1..]), t.pollAt);
    }
  }

  /** A message for the engine is one event, which the engine accepts; its alerts
      are those of the event. */
  lemma ForEngineOp(env: Env, s: Sensor, topic: string, raw: Bytes, at: int, order: seq<string>)
    requires Dxl.Parse(raw).Done? && DispatchOf(env, s, topic, Dxl.Parse(raw).value) == ForEngine
    ensures var op := Engine.Publish(at, EventOf(env, topic, Dxl.Parse(raw).value));
            && !Engine.Refused(s.engine, op)
            && ReceiveAlerts(env, s, Publish(topic, raw), at, order) == Engine.AlertsOf(env.cfg, s.engine, op)
            && Receive(env, s, Publish(topic, raw), at, order).engine == Engine.Apply(env.cfg, s.engine, op)
  {
    hide Dxl.Parse, DispatchOf, EventOf, Engine.AlertsOf, Engine.Apply, Engine.Refused, OpAlerts, QueryIds;
    var op := Engine.Publish(at, EventOf(env, topic, Dxl.Parse(raw).value));
    EngineNeverRefuses(env, s, Publish(topic, raw), at, order);
    assert EngineOp(env, s, Publish(topic, raw), at, order)[0] == op;
    OneOpAlerts(env.cfg, s.engine, op);
  }

  /** A broker event that passes the check carries no client certificate, so the
      engine takes its sender for the publisher. */
  lemma GenuineHasNoCert(env: Env, brokers: map<string, Value>, topic: string, m: Dxl.Message)
    requires EnvelopeSpoof(env, brokers, topic, m).None? && KindOf(topic) != Application
    ensures CertThumbprint(m) == None && PublisherOf(EventOf(env, topic, m)) == m.sourceClientId
  {
    hide KindOf, IsHexThumbprint, ClaimedGuid, DecodePayload, Trim;
    if CertsOf(m).Some? {
      var certs := CertsOf(m).value;
      BlankIsWhitespace(certs);
      assert !IsWhitespace(';') && ';' !in certs;
      SplitWithout(certs, ';');
      assert [certs][..0] == [] && Trim(certs) == "";
      assert LastNonBlank([certs]) == LastNonBlank([]);
    }
  }

  /** The record of an unregister event names the type under which the service was
      last registered: it is made before the engine forgets the service. */
  lemma UnregisterNamesType(env: Env, st: State, register: Event, at: int, topic: string, m: Dxl.Message)
    requires !Engine.Refused(st, Engine.Publish(at, register)) && Registered(register).Some?
    requires !Hijacks(st.services, Registered(register).value)
    requires var after := Engine.Apply(env.cfg, st, Engine.Publish(at, register));
             && Normalize(env, after, topic, m).Some? && topic == "/mcafee/event/dxl/svcregistry/unregister"
             && DecodePayload(env, m.payload).Some?
             && DecodePayload(env, m.payload).value.GetStr("serviceGuid") == Some(Registered(register).value.guid)
    ensures var after := Engine.Apply(env.cfg, st, Engine.Publish(at, register));
            var record := Normalize(env, after, topic, m).value;
            && record.ApiActivity? && record.operation == "unregister"
            && record.serviceUid == Registered(register).value.guid
            && record.serviceName == Registered(register).value.serviceType
  {
    NamedTopics(topic);
    hide EnvelopeSpoof, KindOf, Utf8.Decode, SpoofAlert, AcceptedAlerts, Registered, BrokersAfter, PublisherOf;
    hide Hijacks, Blank;
  }

  // Counting the loop's alerts

  /** How many alerts with this title these turns raise about `subject`. */
  function LoopRaised(env: Env, s: Sensor, turns: seq<Turn>, title: Title, subject: string): nat {
    AlertCount.Total(AlertLog(env, s, turns), title, subject)
  }

  lemma LoopRaisedNext(env: Env, s: Sensor, turns: seq<Turn>, title: Title, subject: string)
    ensures LoopRaised(env, s, turns, title, subject)
         == if turns == [] then 0
            else
              AlertCount.Count(TurnAlerts(env, s, turns[0]), title, subject)
              + LoopRaised(env, Step(env, s, turns[0]), turns[1..], title, subject)
  {
    hide AlertCount.Count, TurnAlerts, Step;
    if turns == [] {
    } else {
      var rest := AlertLog(env, Step(env, s, turns[0]), turns[1..]);
      assert ([TurnAlerts(env, s, turns[0])] + rest)[1..] == rest;
    }
  }

  /** Apart from the reports of spoofed messages, the alerts of an input, of a turn
      and of a run are those of the engine's operations. */
  lemma ReceiveRaised(env: Env, s: Sensor, input: Input, at: int, order: seq<string>, title: Title, subject: string)
    requires title != SpoofedBrokerEvent
    ensures AlertCount.Count(ReceiveAlerts(env, s, input, at, order), title, subject)
         == AlertCount.Raised(env.cfg, s.engine, EngineOp(env, s, input, at, order), title, subject)
  {
    var report, ops := SpoofReport(env, s, input, at), EngineOp(env, s, input, at, order);
    ReportTitled(env, s, input, at);
    EngineOpOnce(env, s, input, at, order);
    hide SpoofReport, EngineOp, AlertCount.Raised, AlertCount.Count, Engine.AlertsOf, Engine.Apply, Engine.Run;
    AlertCount.CountOther(report, title, SpoofedBrokerEvent, subject);
    AlertCount.CountJoin(report, OpAlerts(env.cfg, s.engine, ops), title, subject);
    if ops == [] {
      AlertCount.CountOther([], title, SpoofedBrokerEvent, subject);
      AlertCount.RaisedNext(env.cfg, s.engine, ops, title, subject);
    } else {
      assert ops == [ops[0]];
      OneOpAlerts(env.cfg, s.engine, ops[0]);
      AlertCount.RaisedSingle(env.cfg, s.engine, ops[0], title, subject);
    }
  }

  lemma ReportTitled(env: Env, s: Sensor, input: Input, at: int)
    ensures AlertCount.AllTitled(SpoofReport(env, s, input, at), SpoofedBrokerEvent)
  {
    hide DispatchOf, Dxl.Parse, CertThumbprint;
  }

  lemma TurnRaised(env: Env, s: Sensor, t: Turn, title: Title, subject: string)
    ensures AlertCount.Count(TurnAlerts(env, s, t), title, subject)
         == AlertCount.Count(ReceiveAlerts(env, s, t.input, t.at, t.order), title, subject)
            + AlertCount.Raised(env.cfg, Received(env, s, t).engine, PollOps(s, t), title, subject)
  {
    hide ReceiveAlerts, Engine.AlertsOf, Engine.Apply, AlertCount.Count, AlertCount.Raised, QueryIds, EngineOp;
    var received, poll := Received(env, s, t), Engine.Poll(t.pollAt, t.pollOrder);
    var input, polled := ReceiveAlerts(env, s, t.input, t.at, t.order), Engine.AlertsOf(env.cfg, received.engine, poll);
    if PollDue(s, TickSecond(t)) {
      AlertCount.CountJoin(input, polled, title, subject);
      AlertCount.RaisedSingle(env.cfg, received.engine, poll, title, subject);
    } else {
      assert input + [] == input;
      AlertCount.RaisedNext(env.cfg, received.engine, [], title, subject);
    }
  }

  lemma {:induction false} TraceRaised(env: Env, s: Sensor, turns: seq<Turn>, title: Title, subject: string)
    requires title != SpoofedBrokerEvent
    ensures LoopRaised(env, s, turns, title, subject)
         == AlertCount.Raised(env.cfg, s.engine, EngineTrace(env, s, turns), title, subject)
    decreases |turns|
  {
    hide Step, TurnAlerts, ReceiveAlerts, EngineOp, PollOps, LoopRaised, AlertCount.Raised, AlertCount.Count;
    hide Engine.Run;
    LoopRaisedNext(env, s, turns, title, subject);
    if turns == [] {
      AlertCount.RaisedNext(env.cfg, s.engine, [], title, subject);
    } else {
      var t, next := turns[0], Step(env, s, turns[0]);
      var input := EngineOp(env, s, t.input, t.at, t.order);
      TurnRaised(env, s, t, title, subject);
      ReceiveRaised(env, s, t.input, t.at, t.order, title, subject);
      TurnIsEngineRun(env, s, t);
      AlertCount.RaisedJoin(env.cfg, s.engine, input, PollOps(s, t), title, subject);
      TraceRaised(env, next, turns[1..], title, subject);
      AlertCount.RaisedJoin(env.cfg, s.engine, TurnOps(env, s, t), EngineTrace(env, next, turns[1..]), title, subject);
    }
  }

  // Erasing spoofed messages

  predicate IsSpoofed(env: Env, s: Sensor, input: Input) {
    && input.Publish?
    && Dxl.Parse(input.raw).Done?
    && DispatchOf(env, s, input.topic, Dxl.Parse(input.raw).value).Spoofed?
  }

  /** The run in which every spoofed message never arrived. */
  function Silenced(env: Env, s: Sensor, turns: seq<Turn>): seq<Turn>
    decreases |turns|
  {
    if turns == [] then []
    else
      [if IsSpoofed(env, s, turns[0].input) then turns[0].(input := Quiet) else turns[0]]
      + Silenced(env, Step(env, s, turns[0]), turns[1..])
  }

  lemma SpoofedStep(env: Env, s: Sensor, t: Turn)
    requires IsSpoofed(env, s, t.input)
    ensures Step(env, s, t) == Step(env, s, t.(input := Quiet))
    ensures TurnAlerts(env, s, t)
         == SpoofReport(env, s, t.input, t.at) + TurnAlerts(env, s, t.(input := Quiet))
    ensures |SpoofReport(env, s, t.input, t.at)| == 1
    ensures SpoofReport(env, s, t.input, t.at)[0].title == SpoofedBrokerEvent
  {
    hide DispatchOf, Dxl.Parse, Tick, CertThumbprint, EventOf, DecodePayload;
    assert EngineOp(env, s, t.input, t.at, t.order) == [];
    var quiet := t.(input := Quiet);
    assert Receive(env, s, t.input, t.at, t.order) == Receive(env, s, quiet.input, t.at, t.order);
    var report := SpoofReport(env, s, t.input, t.at);
    assert report + [] == report;
    assert forall rest: seq<Alert> :: [] + rest == rest;
  }

  /** The reports of spoofed messages, turn by turn. */
  function SpoofReports(env: Env, s: Sensor, turns: seq<Turn>): (r: seq<seq<Alert>>)
    ensures |r| == |turns|
    decreases |turns|
  {
    if turns == [] then []
    else [SpoofReport(env, s, turns[0].input, turns[0].at)] + SpoofReports(env, Step(env, s, turns[0]), turns[1..])
  }

  /** A spoofed message leaves no trace but its report: had it never arrived, the
      run would end in the same state, and every turn would raise the same
      alerts except for the report, which comes first. */
  lemma {:induction false} SpoofedMessagesErased(env: Env, s: Sensor, turns: seq<Turn>)
    ensures Run(env, s, Silenced(env, s, turns)) == Run(env, s, turns)
    ensures |Silenced(env, s, turns)| == |turns|
    ensures |AlertLog(env, s, turns)| == |AlertLog(env, s, Silenced(env, s, turns))| == |turns|
    ensures forall i :: 0 <= i < |turns| ==>
              AlertLog(env, s, turns)[i]
              == SpoofReports(env, s, turns)[i] + AlertLog(env, s, Silenced(env, s, turns))[i]
    decreases |turns|
  {
    hide Step, TurnAlerts, IsSpoofed, SpoofReport;
    if turns == [] {
    } else {
      var t, next := turns[0], Step(env, s, turns[0]);
      SpoofedMessagesErased(env, next, turns[1..]);
      if IsSpoofed(env, s, t.input) {
        SpoofedStep(env, s, t);
      } else {
        GenuineReport(env, s, t.input, t.at);
        assert [] + TurnAlerts(env, s, t) == TurnAlerts(env, s, t);
      }
      assert Silenced(env, s, turns)[1..] == Silenced(env, next, turns[1..]);
    }
  }

  lemma GenuineReport(env: Env, s: Sensor, input: Input, at: int)
    requires !IsSpoofed(env, s, input)
    ensures SpoofReport(env, s, input, at) == []
  {
  }

  // Sync correlation

  datatype Query = ServiceQuery | BrokerQuery

  function QueryId(s: Sensor, q: Query): string {
    match q
    case ServiceQuery => s.svcQueryId
    case BrokerQuery => s.brokerQueryId
  }

  /** The pending query id, if there is one. */
  function Pending(s: Sensor, q: Query): seq<string> {
    if QueryId(s, q) == "" then [] else [QueryId(s, q)]
  }

  /** The query id that an input answers, if it does. */
  function Answered(env: Env, s: Sensor, input: Input, q: Query): seq<string> {
    match input
    case Publish(topic, raw) =>
      (match Dxl.Parse(raw)
       case Fail(_) => []
       case Done(m, _) =>
         var d := DispatchOf(env, s, topic, m);
         if d == (match q case ServiceQuery => ServiceReply case BrokerQuery => BrokerReply)
         then [QueryId(s, q)] else [])
    case _ => []
  }

  /** A message is a genuine reply to the query `id`: it is a response on the reply
      topic, not from a client, and names a query that is pending. */
  predicate RepliesTo(env: Env, topic: string, m: Dxl.Message, id: string) {
    && topic == env.replyTopic
    && m.messageType == 1
    && !("dxl.certs" in m.otherFields && !AllWhitespace(m.otherFields["dxl.certs"]))
    && !IsHexThumbprint(m.sourceClientId)
    && id != ""
    && m.requestMessageId == Some(id)
  }

  /** A pending query is answered exactly by a genuine reply to it; a reply to both
      queries answers the service query. */
  lemma AnsweredExactly(env: Env, s: Sensor, topic: string, raw: Bytes)
    requires Dxl.Parse(raw).Done?
    ensures var m := Dxl.Parse(raw).value;
            var service, broker := RepliesTo(env, topic, m, s.svcQueryId), RepliesTo(env, topic, m, s.brokerQueryId);
            && Answered(env, s, Publish(topic, raw), ServiceQuery) == (if service then [s.svcQueryId] else [])
            && Answered(env, s, Publish(topic, raw), BrokerQuery)
               == (if broker && !service then [s.brokerQueryId] else [])
  {
    var m := Dxl.Parse(raw).value;
    AuthenticExactly(env, topic, m);
    hide Dxl.Parse, AuthenticReply, EnvelopeSpoof, IsHexThumbprint, AllWhitespace;
  }

  lemma AuthenticExactly(env: Env, topic: string, m: Dxl.Message)
    ensures AuthenticReply(env, topic, m)
       <==> && topic == env.replyTopic && m.messageType == 1
            && !("dxl.certs" in m.otherFields && !AllWhitespace(m.otherFields["dxl.certs"]))
            && !IsHexThumbprint(m.sourceClientId)
  {
    hide IsHexThumbprint, Blank, AllWhitespace;
    if "dxl.certs" in m.otherFields {
      BlankExactly(m.otherFields["dxl.certs"]);
    }
  }

  /** The id of the query a successful handshake sends. */
  function Issued(input: Input, q: Query): seq<string> {
    match input
    case ConnAck(Some((svc, broker))) => [match q case ServiceQuery => svc case BrokerQuery => broker]
    case _ => []
  }

  function AllAnswered(env: Env, s: Sensor, turns: seq<Turn>, q: Query): seq<string>
    decreases |turns|
  {
    if turns == [] then []
    else Answered(env, s, turns[0].input, q) + AllAnswered(env, Step(env, s, turns[0]), turns[1..], q)
  }

  function AllIssued(turns: seq<Turn>, q: Query): seq<string>
    decreases |turns|
  {
    if turns == [] then [] else Issued(turns[0].input, q) + AllIssued(turns[1..], q)
  }

  /** An answer uses up the pending id; a handshake replaces it; nothing else
      touches it. */
  lemma PendingAfter(env: Env, s: Sensor, t: Turn, q: Query)
    ensures multiset(Answered(env, s, t.input, q)) + multiset(Pending(Step(env, s, t), q))
         <= multiset(Pending(s, q)) + multiset(Issued(t.input, q))
  {
    IdsAfter(env, s, t, q);
    hide Answered, Step, Issued;
  }

  lemma IdsAfter(env: Env, s: Sensor, t: Turn, q: Query)
    ensures var id, answered, issued := QueryId(Step(env, s, t), q), Answered(env, s, t.input, q), Issued(t.input, q);
            if issued != [] then issued == [id] && answered == []
            else if answered != [] then answered == [QueryId(s, q)] && answered[0] != "" && id == ""
            else id == QueryId(s, q)
  {
    hide Dxl.Parse, AuthenticReply, EnvelopeSpoof, EngineOp;
    match q
    case ServiceQuery =>
    case BrokerQuery =>
  }

  /** Each issued query id is answered at most once: counted with multiplicity,
      the ids that replies answer are among those pending at the start and those
      issued since. */
  lemma {:induction false} AnsweredWereIssued(env: Env, s: Sensor, turns: seq<Turn>, q: Query)
    ensures multiset(AllAnswered(env, s, turns, q)) <= multiset(Pending(s, q)) + multiset(AllIssued(turns, q))
    decreases |turns|
  {
    hide Step, Answered, Pending, Issued;
    if turns == [] {
    } else {
      var next := Step(env, s, turns[0]);
      PendingAfter(env, s, turns[0], q);
      AnsweredWereIssued(env, next, turns[1..], q);
      var first, rest := Answered(env, s, turns[0].input, q), AllAnswered(env, next, turns[1..], q);
      var issued, later := Issued(turns[0].input, q), AllIssued(turns[1..], q);
      assert AllAnswered(env, s, turns, q) == first + rest && AllIssued(turns, q) == issued + later;
      MultisetChain(multiset(first), multiset(rest), multiset(Pending(next, q)), multiset(Pending(s, q)),
                    multiset(issued), multiset(later));
    }
  }

  lemma MultisetChain(a: multiset<string>, b: multiset<string>, p: multiset<string>, p0: multiset<string>,
                      i: multiset<string>, l: multiset<string>)
    requires a + p <= p0 + i && b <= p + l
    ensures a + b <= p0 + (i + l)
  {
    assert a + b <= a + (p + l);
    assert a + (p + l) == (a + p) + l;
  }

  function Handshakes(turns: seq<Turn>): nat
    decreases |turns|
  {
    if turns == [] then 0
    else (if turns[0].input.ConnAck? && turns[0].input.ids.Some? then 1 else 0) + Handshakes(turns[1..])
  }

  lemma {:induction false} IssuedPerHandshake(turns: seq<Turn>, q: Query)
    ensures |AllIssued(turns, q)| == Handshakes(turns)
    decreases |turns|
  {
    if turns == [] {
    } else {
      IssuedPerHandshake(turns[1..], q);
    }
  }

  /** From a start without pending queries: there are at most as many answered
      queries of each kind as successful handshakes, and if the issued ids are
      all different, no id is answered twice, not even once as each kind. */
  lemma SyncsAtMostOnce(env: Env, s: Sensor, turns: seq<Turn>, id: string)
    requires s.svcQueryId == "" && s.brokerQueryId == ""
    ensures forall q :: |AllAnswered(env, s, turns, q)| <= Handshakes(turns)
    ensures multiset(AllIssued(turns, ServiceQuery) + AllIssued(turns, BrokerQuery))[id] <= 1 ==>
              multiset(AllAnswered(env, s, turns, ServiceQuery) + AllAnswered(env, s, turns, BrokerQuery))[id] <= 1
  {
    hide AllAnswered, AllIssued;
    forall q ensures |AllAnswered(env, s, turns, q)| <= Handshakes(turns) {
      AnsweredWereIssued(env, s, turns, q);
      IssuedPerHandshake(turns, q);
      MultisetSize(AllAnswered(env, s, turns, q), AllIssued(turns, q));
    }
    AnsweredWereIssued(env, s, turns, ServiceQuery);
    AnsweredWereIssued(env, s, turns, BrokerQuery);
  }

  lemma MultisetSize(xs: seq<string>, ys: seq<string>)
    requires multiset(xs) <= multiset(ys)
    ensures |xs| <= |ys|
  {
    assert multiset(ys) == multiset(xs) + (multiset(ys) - multiset(xs));
    assert |multiset(xs)| == |xs| && |multiset(ys)| == |ys|;
  }

  /** What a sync makes of the engine. */
  lemma SyncEffect(cfg: Config, st: State, op: Engine.Op)
    requires op.ServiceSync? || op.BrokerSync?
    ensures var after := Engine.Apply(cfg, st, op);
            && after.clientRates == st.clientRates && after.topicRates == st.topicRates
            && (if op.ServiceSync? && op.payload.GetObject("services").Some? then
                  var members := op.payload.GetObject("services").value;
                  forall g :: (g in after.services <==> g in members && Services.Describes(members[g]))
                              && (g in after.services ==> after.services[g] == Services.RecordOf(g, members[g]))
                else
                  after.services == st.services)
            && (if op.BrokerSync? && op.payload.GetObject("brokers").Some? then
                  var members := op.payload.GetObject("brokers").value;
                  forall g :: (g in after.brokers <==> g in members && !IsHexThumbprint(g))
                              && (g in after.brokers ==> after.brokers[g] == members[g])
                else
                  after.brokers == st.brokers)
  {
    hide IsHexThumbprint, Services.Describes, Services.RecordOf;
    if op.ServiceSync? && op.payload.GetObject("services").Some? {
      var members := op.payload.GetObject("services").value;
      var after := Engine.Apply(cfg, st, op);
      forall g
        ensures g in after.services <==> g in members && Services.Describes(members[g])
        ensures g in after.services ==> after.services[g] == Services.RecordOf(g, members[g])
      {
        Services.SyncedServices(cfg, st, op.at, op.payload, op.order, g);
      }
    }
  }

  /** What a message on the reply topic asks of the engine. */
  lemma ReplyOp(env: Env, s: Sensor, topic: string, raw: Bytes, at: int, order: seq<string>)
    requires topic == env.replyTopic && Dxl.Parse(raw).Done?
    ensures var input := Publish(topic, raw);
            var decoded := DecodePayload(env, Dxl.Parse(raw).value.payload);
            EngineOp(env, s, input, at, order)
            == if decoded.None? then []
               else if Answered(env, s, input, ServiceQuery) != [] then [Engine.ServiceSync(at, decoded.value, order)]
               else if Answered(env, s, input, BrokerQuery) != [] then [Engine.BrokerSync(at, decoded.value)]
               else []
  {
    hide Dxl.Parse, AuthenticReply, EnvelopeSpoof, DecodePayload, EventOf;
  }

  /** What a message on the reply topic does: a genuine reply to a pending query is
      applied if its payload decodes, and nothing else changes the engine. A
      service sync leaves exactly the entries that describe a service, a broker
      sync exactly the entries that are not thumbprints. */
  lemma ReplyEffect(env: Env, s: Sensor, topic: string, raw: Bytes, at: int, order: seq<string>)
    requires topic == env.replyTopic && Dxl.Parse(raw).Done?
    ensures var m := Dxl.Parse(raw).value;
            var service, broker := RepliesTo(env, topic, m, s.svcQueryId), RepliesTo(env, topic, m, s.brokerQueryId);
            var before, after := s.engine, Receive(env, s, Publish(topic, raw), at, order).engine;
            var v := DecodePayload(env, m.payload).GetOr(Null);
            && after.clientRates == before.clientRates && after.topicRates == before.topicRates
            && (if service && v.GetObject("services").Some? then
                  var members := v.GetObject("services").value;
                  forall g :: (g in after.services <==> g in members && Services.Describes(members[g]))
                              && (g in after.services ==> after.services[g] == Services.RecordOf(g, members[g]))
                else
                  after.services == before.services)
            && (if broker && !service && v.GetObject("brokers").Some? then
                  var members := v.GetObject("brokers").value;
                  forall g :: (g in after.brokers <==> g in members && !IsHexThumbprint(g))
                              && (g in after.brokers ==> after.brokers[g] == members[g])
                else
                  after.brokers == before.brokers)
  {
    AnsweredExactly(env, s, topic, raw);
    ReplyOp(env, s, topic, raw, at, order);
    EngineOpOnce(env, s, Publish(topic, raw), at, order);
    hide Dxl.Parse, RepliesTo, Answered, EngineOp, DecodePayload, IsHexThumbprint, QueryIds, Engine.Run, Engine.Apply;
    var ops := EngineOp(env, s, Publish(topic, raw), at, order);
    if ops != [] {
      SyncEffect(env.cfg, s.engine, ops[0]);
    }
  }

  // The poll cadence

  /** A turn polls exactly if the loop reads a second more than ten after the last
      poll, and remembers the second it read. */
  lemma PollsExactly(env: Env, s: Sensor, t: Turn)
    ensures PollOps(s, t) == if t.tickAt / 1000 - s.lastPoll > 10 then [Engine.Poll(t.pollAt, t.pollOrder)] else []
    ensures Step(env, s, t).lastPoll == if t.tickAt / 1000 - s.lastPoll > 10 then t.tickAt / 1000 else s.lastPoll
  {
    hide QueryIds, EngineOp;
  }

  /** After every turn the last poll is at most ten seconds old. */
  lemma PollIsRecent(env: Env, s: Sensor, t: Turn)
    ensures t.tickAt / 1000 - Step(env, s, t).lastPoll <= 10
  {
    hide QueryIds, EngineOp;
  }

  /** If a turn follows another by at most `d` seconds and polls, its poll comes
      at most `10 + d` seconds after the last one. */
  lemma PollGap(env: Env, s: Sensor, t1: Turn, t2: Turn, d: nat)
    requires t2.tickAt / 1000 - t1.tickAt / 1000 <= d
    ensures var s1 := Step(env, s, t1);
            var s2 := Step(env, s1, t2);
            s2.lastPoll - s1.lastPoll <= 10 + d || s2.lastPoll == s1.lastPoll
  {
    hide QueryIds, EngineOp;
    PollIsRecent(env, s, t1);
  }
}
