/** The main loop as it runs: one object that holds the engine, the pending query
    ids and the time of the last poll, tied to the functions of `MainLoop`. */
module SensorLoop {
  import opened Prelude
  import opened Json
  import opened Registry
  import opened Ocsf
  import opened MainLoop
  import opened DetectionEngine
  import Engine = EngineRuns
  import Dxl = DxlMessage
  import DxlCodec

  class SensorLoop {
    const env: Env
    const engine: DetectionEngine
    var svcQueryId: string
    var brokerQueryId: string
    var lastPoll: int

    ghost predicate Valid()
      reads this
    {
      engine.Valid() && env.cfg == engine.cfg
    }

    ghost function View(): Sensor
      reads this, engine, engine.clientRates, engine.topicRates
    {
      Sensor(engine.View(), svcQueryId, brokerQueryId, lastPoll)
    }

    constructor (replyTopic: string, parse: Parser, engine: DetectionEngine, now: int)
      requires engine.Valid()
      ensures Valid() && this.engine == engine && env == Env(engine.cfg, replyTopic, parse)
      ensures View() == Sensor(engine.View(), "", "", now)
      ensures forall start :: engine.View() == Initial() && now == start / 1000 ==> View() == Started(start)
    {
      this.env := Env(engine.cfg, replyTopic, parse);
      this.engine := engine;
      svcQueryId, brokerQueryId, lastPoll := "", "", now;
    }

    /** A connection was acknowledged; `ids` are those of the queries sent, if
        the handshake went through. */
    method OnConnAck(ids: Option<(string, string)>)
      requires Valid()
      modifies this`svcQueryId, this`brokerQueryId
      ensures Valid()
      ensures forall at: int, order: seq<string> :: View() == Receive(env, old(View()), ConnAck(ids), at, order)
    {
      match ids
      case Some((svc, broker)) => svcQueryId, brokerQueryId := svc, broker;
      case None =>
    }

    /** A message arrived: its record goes out, and then it answers a query, is
        reported as spoofed, or is handed to the engine. */
    method OnPublish(topic: string, raw: Bytes, at: int)
      returns (record: Option<OcsfEvent>, alerts: seq<Alert>, ghost order: seq<string>)
      requires Valid()
      modifies this`svcQueryId, this`brokerQueryId, engine, engine.clientRates, engine.topicRates
      ensures Valid()
      ensures View() == Receive(env, old(View()), Publish(topic, raw), at, order)
      ensures alerts == ReceiveAlerts(env, old(View()), Publish(topic, raw), at, order)
      ensures InputWalked(env, old(View()), Publish(topic, raw), at, order)
      ensures record == ReceiveRecord(env, old(View()), Publish(topic, raw))
    {
      hide Dxl.Parse, AuthenticReply, EnvelopeSpoof, DecodePayload, CertThumbprint, Normalize, Handle;
      hide ServicesSynced, BrokersSynced, SyncAlerts;
      record, alerts, order := None, [], [];
      ghost var s, input := View(), Publish(topic, raw);
      var parsed := DxlCodec.ParseDxlMessage(raw);
      if parsed.Err? {
        return;
      }
      var m := parsed.value;
      var st := State(engine.services, engine.brokers, engine.clientRates.queues, engine.topicRates.queues);
      record := Normalize(env, st, topic, m);
      var payload := DecodePayload(env, m.payload);
      var authentic := AuthenticReply(env, topic, m);
      if authentic && svcQueryId != "" && m.requestMessageId == Some(svcQueryId) {
        svcQueryId := "";
        match payload {
          case Some(v) =>
            alerts, order := engine.ProcessSyncResponse(v, at);
            OneOpAlerts(env.cfg, s.engine, Engine.ServiceSync(at, v, order));
          case None =>
        }
      } else if authentic && brokerQueryId != "" && m.requestMessageId == Some(brokerQueryId) {
        brokerQueryId := "";
        match payload {
          case Some(v) =>
            engine.ProcessBrokerSyncResponse(v);
            OneOpAlerts(env.cfg, s.engine, Engine.BrokerSync(at, v));
          case None =>
        }
      } else if topic == env.replyTopic {
      } else if EnvelopeSpoof(env, engine.brokers, topic, m).Some? {
        var publisher := CertThumbprint(m).GetOr(m.sourceClientId);
        alerts := [Alert(at, SpoofedBrokerEvent, [publisher, topic], NonEmpty(Some(publisher)))];
      } else {
        var e := Event(topic, payload.GetOr(Null), m.sourceClientId, CertThumbprint(m));
        alerts := engine.ProcessEvent(e, at);
        OneOpAlerts(env.cfg, s.engine, Engine.Publish(at, e));
      }
    }

    /** The periodic check at the end of a turn. */
    method OnTick(now: int, pollAt: int) returns (alerts: seq<Alert>, ghost order: seq<string>)
      requires Valid()
      modifies this`lastPoll, engine`services, engine.clientRates, engine.topicRates
      ensures Valid()
      ensures View() == Tick(env, old(View()), now, pollAt, order)
      ensures alerts == if PollDue(old(View()), now)
                        then Engine.AlertsOf(env.cfg, old(View()).engine, Engine.Poll(pollAt, order)) else []
      ensures PollDue(old(View()), now) ==> Enumerates(order, old(engine.services).Keys)
    {
      alerts, order := [], [];
      if now - lastPoll > POLL_INTERVAL {
        alerts, order := engine.PollTimeouts(pollAt / 1000);
        lastPoll := now;
      }
    }
  }

  /** One turn of the loop: an input and then the periodic check. */
  method RunTurn(loop: SensorLoop, input: Input, at: int, tickAt: int, pollAt: int)
    returns (record: Option<OcsfEvent>, alerts: seq<Alert>, ghost t: Turn)
    requires loop.Valid()
    modifies loop, loop.engine, loop.engine.clientRates, loop.engine.topicRates
    ensures loop.Valid()
    ensures t.input == input && t.at == at && t.tickAt == tickAt && t.pollAt == pollAt
    ensures loop.View() == Step(loop.env, old(loop.View()), t)
    ensures alerts == TurnAlerts(loop.env, old(loop.View()), t)
    ensures InputWalked(loop.env, old(loop.View()), input, at, t.order)
    ensures PollWalked(loop.env, old(loop.View()), t)
    ensures record == ReceiveRecord(loop.env, old(loop.View()), input)
  {
    hide Receive, ReceiveAlerts, Tick;
    record, alerts := None, [];
    ghost var order: seq<string> := [];
    match input {
      case ConnAck(ids) => loop.OnConnAck(ids);
      case Publish(topic, raw) => record, alerts, order := loop.OnPublish(topic, raw, at);
      case Quiet =>
    }
    ghost var s := old(loop.View());
    QuietAlerts(loop.env, s, input, at, order);
    var more, pollOrder := loop.OnTick(tickAt / 1000, pollAt);
    alerts := alerts + more;
    t := Turn(input, at, order, tickAt, pollAt, pollOrder);
  }

  lemma QuietAlerts(env: Env, s: Sensor, input: Input, at: int, order: seq<string>)
    ensures !input.Publish? ==> ReceiveAlerts(env, s, input, at, order) == []
    ensures input.Quiet? ==> Receive(env, s, input, at, order) == s
  {
  }
}
