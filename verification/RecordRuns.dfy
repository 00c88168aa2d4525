/** The life of one service record in the main loop: how often it is reported
    overdue and how soon. */
module RecordRuns {
  import opened Prelude
  import opened Registry
  import opened MainLoop
  import opened MainLoopRuns
  import opened AlertCount
  import Engine = EngineRuns
  import Services = ServiceRuns
  import Dxl = DxlMessage

  // One record over turns

  predicate Unreported(s: Sensor, r: Service) {
    r.guid in s.engine.services && s.engine.services[r.guid] == r && !r.reported
  }

  /** No input of these turns ends the record of `g`, and every poll walks all
      the services. */
  ghost predicate Undisturbed(env: Env, s: Sensor, turns: seq<Turn>, g: string)
    decreases |turns|
  {
    turns == []
    || (&& Services.NeverEnds(env.cfg, s.engine, EngineOp(env, s, turns[0].input, turns[0].at, turns[0].order), g)
        && PollWalked(env, s, turns[0])
        && Undisturbed(env, Step(env, s, turns[0]), turns[1..], g))
  }

  // From turns to operations

  lemma {:induction false} QuietJoin(cfg: Config, st: State, a: seq<Engine.Op>, b: seq<Engine.Op>, g: string)
    ensures Services.NeverEnds(cfg, st, a + b, g)
       <==> Services.NeverEnds(cfg, st, a, g) && Services.NeverEnds(cfg, Engine.Run(cfg, st, a), b, g)
    ensures Services.PollsComplete(cfg, st, a + b)
       <==> Services.PollsComplete(cfg, st, a) && Services.PollsComplete(cfg, Engine.Run(cfg, st, a), b)
    decreases |a|
  {
    hide Engine.Apply, Services.Ends, Enumerates;
    if a == [] {
      assert a + b == b;
    } else {
      assert (a + b)[1..] == a[1..] + b;
      QuietJoin(cfg, Engine.Apply(cfg, st, a[0]), a[1..], b, g);
    }
  }

  /** The poll of a turn ends no record and is complete if it walks all services. */
  lemma PollQuiet(env: Env, s: Sensor, t: Turn, g: string)
    requires PollWalked(env, s, t)
    ensures var st := Received(env, s, t).engine;
            && Services.NeverEnds(env.cfg, st, PollOps(s, t), g)
            && Services.PollsComplete(env.cfg, st, PollOps(s, t))
            && Step(env, s, t).engine == Engine.Run(env.cfg, st, PollOps(s, t))
  {
    hide Received, Engine.Apply, QueryIds, EngineOp, Enumerates;
    InputKeepsPoll(env, s, t);
    assert [Engine.Poll(t.pollAt, t.pollOrder)][1..] == [];
  }

  lemma InputKeepsPoll(env: Env, s: Sensor, t: Turn)
    ensures Received(env, s, t).lastPoll == s.lastPoll
    ensures Step(env, s, t) == Tick(env, Received(env, s, t), TickSecond(t), t.pollAt, t.pollOrder)
  {
  }

  /** Turns that leave a record alone are operations that do. */
  lemma {:induction false} QuietTrace(env: Env, s: Sensor, turns: seq<Turn>, g: string)
    requires Undisturbed(env, s, turns, g)
    ensures Services.NeverEnds(env.cfg, s.engine, EngineTrace(env, s, turns), g)
    ensures Services.PollsComplete(env.cfg, s.engine, EngineTrace(env, s, turns))
    decreases |turns|
  {
    hide Step, EngineOp, PollOps, Engine.Run, PollWalked;
    if turns == [] {
    } else {
      var t, next := turns[0], Step(env, s, turns[0]);
      var input := EngineOp(env, s, t.input, t.at, t.order);
      EngineOpOnce(env, s, t.input, t.at, t.order);
      PollQuiet(env, s, t, g);
      TurnIsEngineRun(env, s, t);
      QuietTrace(env, next, turns[1..], g);
      QuietJoin(env.cfg, s.engine, input, PollOps(s, t), g);
      QuietJoin(env.cfg, s.engine, TurnOps(env, s, t), EngineTrace(env, next, turns[1..]), g);
    }
  }

  /** A record over undisturbed turns: it stays, changes at most by being reported,
      and raises one TTL alert if that happens and none if it does not. */
  lemma RecordKept(env: Env, s: Sensor, turns: seq<Turn>, g: string, start: int)
    requires Engine.Inv(s.engine) && g in s.engine.services
    requires ClockInOrder(turns, start) && Undisturbed(env, s, turns, g)
    ensures var r, after := s.engine.services[g], Run(env, s, turns).engine.services;
            && g in after
            && after[g] == r.(reported := after[g].reported)
            && (r.reported ==> after[g].reported)
            && LoopRaised(env, s, turns, TtlExpired, g) == (if after[g].reported && !r.reported then 1 else 0)
  {
    hide Engine.Inv, Engine.Run, EngineTrace, Run, Undisturbed, ClockInOrder, LoopRaised, Raised;
    hide Services.NeverEnds, Services.PollsComplete, Expiry;
    QuietTrace(env, s, turns, g);
    TraceRaised(env, s, turns, TtlExpired, g);
    TraceMonotone(env, s, turns, start);
    LoopIsEngineRun(env, s, turns);
    Services.LifeOfRecord(env.cfg, s.engine, EngineTrace(env, s, turns), g, LastClock(turns, start));
  }

  // Reporting, turn by turn

  /** An input that does not end a record leaves it as it is. */
  lemma ReceiveKeeps(env: Env, s: Sensor, t: Turn, g: string)
    requires Engine.Inv(s.engine) && g in s.engine.services
    requires Services.NeverEnds(env.cfg, s.engine, EngineOp(env, s, t.input, t.at, t.order), g)
    ensures var received := Received(env, s, t);
            && Engine.Inv(received.engine) && received.lastPoll == s.lastPoll
            && g in received.engine.services && received.engine.services[g] == s.engine.services[g]
  {
    hide Engine.Inv, Engine.Apply, Engine.Run, Services.Ends, QueryIds, EngineOp;
    var ops := EngineOp(env, s, t.input, t.at, t.order);
    EngineOpOnce(env, s, t.input, t.at, t.order);
    if ops != [] {
      Services.StepKeeps(env.cfg, s.engine, ops[0], g);
      Engine.ApplyInv(env.cfg, s.engine, ops[0]);
    }
  }

  /** A poll reports an unreported record if it comes after its expiry, and
      otherwise leaves it as it is. */
  lemma TickReports(env: Env, s: Sensor, t: Turn, r: Service)
    requires Engine.Inv(s.engine) && Unreported(s, r) && t.tickAt <= t.pollAt
    requires PollDue(s, TickSecond(t)) ==> Enumerates(t.pollOrder, s.engine.services.Keys)
    ensures var s' := Tick(env, s, TickSecond(t), t.pollAt, t.pollOrder);
            && Engine.Inv(s'.engine)
            && r.guid in s'.engine.services && s'.engine.services[r.guid].(reported := false) == r
            && (!s'.engine.services[r.guid].reported && s'.lastPoll != s.lastPoll ==>
                  s'.lastPoll == t.tickAt / 1000 <= Expiry(env.cfg, r))
  {
    hide Engine.Inv, Engine.Apply, Expiry;
    if PollDue(s, TickSecond(t)) {
      var poll := Engine.Poll(t.pollAt, t.pollOrder);
      Services.StepKeeps(env.cfg, s.engine, poll, r.guid);
      Engine.ApplyInv(env.cfg, s.engine, poll);
    }
  }

  lemma ReceiveInv(env: Env, s: Sensor, t: Turn)
    requires Engine.Inv(s.engine)
    ensures Engine.Inv(Received(env, s, t).engine)
  {
    hide Engine.Inv, QueryIds, EngineOp;
    Engine.RunInv(env.cfg, s.engine, EngineOp(env, s, t.input, t.at, t.order));
  }

  function Later(a: int, b: int): int { if a <= b then b else a }

  /** A record that is unreported when a turn has taken its input is, after the
      turn, either reported or still there with a last poll no later than its
      expiry or the turn's input. */
  lemma StoredThisTurn(env: Env, s: Sensor, t: Turn, r: Service)
    requires Engine.Inv(s.engine) && Unreported(Received(env, s, t), r) && PollWalked(env, s, t)
    requires t.tickAt <= t.pollAt && s.lastPoll <= t.at / 1000
    ensures var s' := Step(env, s, t);
            && Engine.Inv(s'.engine) && r.guid in s'.engine.services
            && (s'.engine.services[r.guid].reported
                || (Unreported(s', r) && s'.lastPoll <= Later(Expiry(env.cfg, r), t.at / 1000)))
  {
    hide Engine.Inv, Expiry, QueryIds, EngineOp;
    ReceiveInv(env, s, t);
    TickReports(env, Received(env, s, t), t, r);
  }

  /** Bounded response, per turn: as long as an undisturbed record is stored but
      not reported, no turn's clock is more than ten seconds past the later of
      its expiry and `since`, a second by which it was stored. */
  lemma {:induction false} UnreportedIsRecent(env: Env, s: Sensor, turns: seq<Turn>, r: Service, since: int,
                                              start: int)
    requires Engine.Inv(s.engine) && Unreported(s, r) && turns != []
    requires s.lastPoll <= Later(Expiry(env.cfg, r), since)
    requires ClockInOrder(turns, start) && Undisturbed(env, s, turns, r.guid)
    requires var s' := Run(env, s, turns);
             r.guid in s'.engine.services && !s'.engine.services[r.guid].reported
    ensures turns[|turns| - 1].tickAt / 1000 <= Later(Expiry(env.cfg, r), since) + 10
    decreases |turns|
  {
    hide Engine.Inv, Expiry, Receive, Tick, EngineOp, LoopRaised, Services.NeverEnds, Enumerates;
    var t := turns[0];
    var received, next := Received(env, s, t), Step(env, s, t);
    ReceiveKeeps(env, s, t, r.guid);
    TickReports(env, received, t, r);
    PollIsRecent(env, s, t);
    if next.engine.services[r.guid].reported {
      RecordKept(env, next, turns[1..], r.guid, t.pollAt);
    } else if |turns| > 1 {
      UnreportedIsRecent(env, next, turns[1..], r, since, t.pollAt);
    }
  }

  // From a turn that stores a record

  /** What the engine is asked to do from a turn's poll on. */
  function OpsFrom(env: Env, s: Sensor, t: Turn, later: seq<Turn>): seq<Engine.Op> {
    PollOps(s, t) + EngineTrace(env, Step(env, s, t), later)
  }

  /** The TTL alerts about `g` of a turn and those after it. */
  function TtlFrom(env: Env, s: Sensor, t: Turn, later: seq<Turn>, g: string): nat {
    Count(TurnAlerts(env, s, t), TtlExpired, g) + LoopRaised(env, Step(env, s, t), later, TtlExpired, g)
  }

  /** An input after which a service is stored raises no TTL alert about it. */
  lemma StoringRaisesNone(env: Env, s: Sensor, t: Turn, g: string)
    requires Engine.Inv(s.engine) && g in Received(env, s, t).engine.services
    ensures Count(ReceiveAlerts(env, s, t.input, t.at, t.order), TtlExpired, g) == 0
  {
    hide EngineOp, Engine.Apply, Engine.AlertsOf, Engine.Run, Engine.Inv, Count, ReceiveAlerts, Raised, QueryIds;
    var ops := EngineOp(env, s, t.input, t.at, t.order);
    ReceiveRaised(env, s, t.input, t.at, t.order, TtlExpired, g);
    EngineOpOnce(env, s, t.input, t.at, t.order);
    if ops == [] {
      RaisedNext(env.cfg, s.engine, ops, TtlExpired, g);
    } else {
      assert ops == [ops[0]];
      RaisedSingle(env.cfg, s.engine, ops[0], TtlExpired, g);
      Services.StoredRaisesNone(env.cfg, s.engine, ops[0], g);
    }
  }

  lemma OpsFromQuiet(env: Env, s: Sensor, t: Turn, later: seq<Turn>, g: string)
    requires PollWalked(env, s, t) && Undisturbed(env, Step(env, s, t), later, g)
    ensures var st, ops := Received(env, s, t).engine, OpsFrom(env, s, t, later);
            && Services.NeverEnds(env.cfg, st, ops, g) && Services.PollsComplete(env.cfg, st, ops)
            && Engine.Run(env.cfg, st, ops) == Run(env, Step(env, s, t), later).engine
  {
    hide Engine.Run, EngineTrace, Run, Undisturbed, PollOps, Received, Step, PollWalked;
    hide Services.NeverEnds, Services.PollsComplete;
    var st, next := Received(env, s, t).engine, Step(env, s, t);
    PollQuiet(env, s, t, g);
    QuietTrace(env, next, later, g);
    QuietJoin(env.cfg, st, PollOps(s, t), EngineTrace(env, next, later), g);
    LoopIsEngineRun(env, next, later);
    Engine.RunJoin(env.cfg, st, PollOps(s, t), EngineTrace(env, next, later));
  }

  lemma OpsFromTimes(env: Env, s: Sensor, t: Turn, later: seq<Turn>, start: int)
    requires ClockInOrder([t] + later, start)
    ensures forall i :: 0 <= i < |OpsFrom(env, s, t, later)| ==>
              OpsFrom(env, s, t, later)[i].at <= LastClock([t] + later, start)
  {
    assert ([t] + later)[1..] == later;
    TraceMonotone(env, Step(env, s, t), later, t.pollAt);
    hide EngineTrace, Step;
  }

  lemma OpsFromTtl(env: Env, s: Sensor, t: Turn, later: seq<Turn>, g: string)
    requires Engine.Inv(s.engine) && g in Received(env, s, t).engine.services && PollWalked(env, s, t)
    ensures TtlFrom(env, s, t, later, g)
         == Raised(env.cfg, Received(env, s, t).engine, OpsFrom(env, s, t, later), TtlExpired, g)
  {
    hide Engine.Run, EngineTrace, LoopRaised, Raised, PollOps, Engine.Inv;
    hide Received, Step, TurnAlerts, Count, ReceiveAlerts, PollWalked, Services.NeverEnds, Services.PollsComplete;
    var st, next := Received(env, s, t).engine, Step(env, s, t);
    PollQuiet(env, s, t, g);
    TurnRaised(env, s, t, TtlExpired, g);
    StoringRaisesNone(env, s, t, g);
    TraceRaised(env, next, later, TtlExpired, g);
    RaisedJoin(env.cfg, st, PollOps(s, t), EngineTrace(env, next, later), TtlExpired, g);
  }

  /** A record that is unreported when a turn has taken its input, over that turn
      and undisturbed later ones, as a run of the engine. */
  lemma LifeFrom(env: Env, s: Sensor, t: Turn, later: seq<Turn>, r: Service, start: int)
    requires Engine.Inv(s.engine) && Unreported(Received(env, s, t), r)
    requires ClockInOrder([t] + later, start)
    requires PollWalked(env, s, t) && Undisturbed(env, Step(env, s, t), later, r.guid)
    ensures var st, ops := Received(env, s, t).engine, OpsFrom(env, s, t, later);
            && Engine.Inv(st)
            && Services.NeverEnds(env.cfg, st, ops, r.guid) && Services.PollsComplete(env.cfg, st, ops)
            && (forall i :: 0 <= i < |ops| ==> ops[i].at <= LastClock([t] + later, start))
            && Engine.Run(env.cfg, st, ops) == Run(env, Step(env, s, t), later).engine
            && TtlFrom(env, s, t, later, r.guid) == Raised(env.cfg, st, ops, TtlExpired, r.guid)
  {
    hide Engine.Inv, Engine.Run, Run, Undisturbed, ClockInOrder, LastClock, OpsFrom, TtlFrom, Raised;
    hide Services.NeverEnds, Services.PollsComplete, Received, Step, PollWalked;
    ReceiveInv(env, s, t);
    OpsFromQuiet(env, s, t, later, r.guid);
    OpsFromTimes(env, s, t, later, start);
    OpsFromTtl(env, s, t, later, r.guid);
  }

  /** Every state of the loop is a reachable state of the engine, and the last poll
      is in the past. */
  lemma {:induction false} LoopInv(env: Env, s: Sensor, turns: seq<Turn>, start: int)
    requires Engine.Inv(s.engine) && s.lastPoll <= start / 1000 && ClockInOrder(turns, start)
    ensures Engine.Inv(Run(env, s, turns).engine) && Run(env, s, turns).lastPoll <= LastClock(turns, start) / 1000
    decreases |turns|
  {
    hide Engine.Inv, Received, Engine.Apply;
    if turns == [] {
    } else {
      var t := turns[0];
      ReceiveInv(env, s, t);
      InputKeepsPoll(env, s, t);
      Engine.ApplyInv(env.cfg, Received(env, s, t).engine, Engine.Poll(t.pollAt, t.pollOrder));
      LoopInv(env, Step(env, s, t), turns[1..], t.pollAt);
    }
  }

  /** Exactly once, from the sensor's start and from raw bytes on: a record that
      turn `t` stores and that a later unregister message ends raises, over its
      whole life and whenever the loop polls, one TTL alert if the message comes
      at its expiry or later, and none if before. Without overflow the expiry is
      the due second. */
  lemma LoopTtlExactlyOnce(env: Env, start: int, before: seq<Turn>, t: Turn, later: seq<Turn>, r: Service,
                           topic: string, raw: Bytes, at: int, order: seq<string>)
    requires ClockInOrder(before + ([t] + later), start) && LastClock(before + ([t] + later), start) <= at
    requires var s := Run(env, Started(start), before);
             && Unreported(Received(env, s, t), r) && PollWalked(env, s, t)
             && Undisturbed(env, Step(env, s, t), later, r.guid)
    requires Dxl.Parse(raw).Done? && Services.Unregisters(EventOf(env, topic, Dxl.Parse(raw).value), r.guid)
    requires var end := Run(env, Step(env, Run(env, Started(start), before), t), later);
             DispatchOf(env, end, topic, Dxl.Parse(raw).value) == ForEngine
    ensures var s := Run(env, Started(start), before);
            var end := Run(env, Step(env, s, t), later);
            var second := if at >= 0 then at / 1000 else -(-at / 1000);
            var alerts := TtlFrom(env, s, t, later, r.guid)
                          + Count(ReceiveAlerts(env, end, Publish(topic, raw), at, order), TtlExpired, r.guid);
            && alerts == (if second >= Expiry(env.cfg, r) then 1 else 0)
            && (Services.DueSecond(env.cfg, r) < 0x8000_0000_0000_0000 ==>
                  alerts == if second >= Services.DueSecond(env.cfg, r) then 1 else 0)
            && r.guid !in Receive(env, end, Publish(topic, raw), at, order).engine.services
  {
    hide Run, Step, Received, Receive, ReceiveAlerts, ClockInOrder, LastClock, Undisturbed, PollWalked, TtlFrom;
    hide Dxl.Parse, DispatchOf, EventOf, Expiry, Services.Unregisters, OpsFrom, Count, Engine.Run, Engine.Inv;
    hide Services.NeverEnds, Services.PollsComplete, Raised, Engine.AlertsOf, Engine.Apply;
    hide Services.DueSecond;
    var s := Run(env, Started(start), before);
    var end, st, ops := Run(env, Step(env, s, t), later), Received(env, s, t).engine, OpsFrom(env, s, t, later);
    var e := EventOf(env, topic, Dxl.Parse(raw).value);
    ClockSplit(before, [t] + later, start);
    StartedInv(start);
    LoopInv(env, Started(start), before, start);
    LifeFrom(env, s, t, later, r, LastClock(before, start));
    ForEngineOp(env, end, topic, raw, at, order);
    Engine.RunSnoc(env.cfg, st, ops, Engine.Publish(at, e));
    Services.TtlExactlyOnce(env.cfg, st, ops, r.guid, at, e);
  }

  lemma StartedInv(start: int)
    ensures Engine.Inv(Started(start).engine)
  {
  }

  // Bounded response

  /** Consecutive turns are at most `d` seconds apart, the first at most `d`
      seconds after `since`. */
  predicate Paced(turns: seq<Turn>, since: int, d: nat)
    decreases |turns|
  {
    turns == [] || (turns[0].tickAt / 1000 - since <= d && Paced(turns[1..], turns[0].tickAt / 1000, d))
  }

  /** The second of the last turn, or of the sensor's start. */
  function LastTick(turns: seq<Turn>, start: int): int {
    if turns == [] then start / 1000 else turns[|turns| - 1].tickAt / 1000
  }

  lemma {:induction false} TickBeforeClock(turns: seq<Turn>, start: int)
    requires ClockInOrder(turns, start)
    ensures LastTick(turns, start) <= LastClock(turns, start) / 1000
    decreases |turns|
  {
    if turns == [] {
    } else {
      TickBeforeClock(turns[1..], turns[0].pollAt);
    }
  }

  lemma {:induction false} UndisturbedPrefix(env: Env, s: Sensor, turns: seq<Turn>, n: nat, g: string, start: int)
    requires ClockInOrder(turns, start) && Undisturbed(env, s, turns, g) && n <= |turns|
    ensures ClockInOrder(turns[..n], start) && Undisturbed(env, s, turns[..n], g)
    decreases n
  {
    hide Received, EngineOp, Step, PollWalked;
    if n == 0 {
    } else {
      assert turns[..n][1..] == turns[1..][..n - 1];
      UndisturbedPrefix(env, Step(env, s, turns[0]), turns[1..], n - 1, g, turns[0].pollAt);
    }
  }

  /** The first of some paced turns past `bound` is at most `d` past it. */
  lemma {:induction false} FirstPast(turns: seq<Turn>, since: int, d: nat, bound: int) returns (n: nat)
    requires turns != [] && Paced(turns, since, d) && since <= bound < turns[|turns| - 1].tickAt / 1000
    ensures n < |turns| && bound < turns[n].tickAt / 1000 <= bound + d
    decreases |turns|
  {
    if turns[0].tickAt / 1000 > bound {
      n := 0;
    } else {
      var m := FirstPast(turns[1..], turns[0].tickAt / 1000, d, bound);
      assert turns[1..][m] == turns[m + 1];
      n := m + 1;
    }
  }

  lemma TurnClock(t: Turn, later: seq<Turn>, start: int)
    requires ClockInOrder([t] + later, start)
    ensures start <= t.at <= t.tickAt <= t.pollAt && ClockInOrder(later, t.pollAt)
  {
    assert ([t] + later)[1..] == later;
  }

  lemma ClockOfPrefix(t: Turn, turns: seq<Turn>, start: int)
    requires start <= t.at <= t.tickAt <= t.pollAt && ClockInOrder(turns, t.pollAt)
    ensures ClockInOrder([t] + turns, start)
  {
    assert ([t] + turns)[1..] == turns;
  }

  lemma RunNothing(env: Env, s: Sensor)
    ensures Run(env, s, []) == s
  {
  }

  /** By any turn more than ten seconds past the later of its expiry and its
      storing, a record has raised its TTL alert. */
  lemma ReportedPast(env: Env, s: Sensor, t: Turn, later: seq<Turn>, r: Service, n: nat, start: int)
    requires Engine.Inv(s.engine) && s.lastPoll <= start / 1000 && ClockInOrder([t] + later, start)
    requires Unreported(Received(env, s, t), r) && PollWalked(env, s, t)
    requires Undisturbed(env, Step(env, s, t), later, r.guid)
    requires n <= |later|
    requires ([t] + later)[n].tickAt / 1000 > Later(Expiry(env.cfg, r), t.at / 1000) + 10
    ensures TtlFrom(env, s, t, later[..n], r.guid) == 1
  {
    hide Run, Received, ClockInOrder, LastClock, Undisturbed, PollWalked, TtlFrom, Expiry, Engine.Inv, Engine.Run;
    hide OpsFrom, Raised, Services.NeverEnds, Services.PollsComplete;
    var next, turns := Step(env, s, t), later[..n];
    TurnClock(t, later, start);
    UndisturbedPrefix(env, next, later, n, r.guid, t.pollAt);
    ClockOfPrefix(t, turns, start);
    LifeFrom(env, s, t, turns, r, start);
    Services.LifeOfRecord(env.cfg, Received(env, s, t).engine, OpsFrom(env, s, t, turns), r.guid,
                          LastClock([t] + turns, start));
    if !Run(env, next, turns).engine.services[r.guid].reported {
      StoredThisTurn(env, s, t, r);
      PollIsRecent(env, s, t);
      RunNothing(env, next);
      if next.engine.services[r.guid].reported {
        RecordKept(env, next, turns, r.guid, t.pollAt);
      } else if n > 0 {
        UnreportedIsRecent(env, next, turns, r, t.at / 1000, t.pollAt);
      }
      assert false;
    }
  }

  /** Bounded response, from the sensor's start: let a record be stored and
      unreported when turn `t` has taken its input, and let the turn before (or
      the start), `t` and the later turns be at most `d` seconds apart. If nothing
      ends the record and the turns get more than ten seconds past the later of
      its expiry and the second of that input, then exactly one TTL alert has been
      raised about it by a turn at most `10 + d` seconds past that. */
  lemma BoundedResponse(env: Env, start: int, before: seq<Turn>, t: Turn, later: seq<Turn>, r: Service, d: nat)
    requires ClockInOrder(before + ([t] + later), start) && Paced([t] + later, LastTick(before, start), d)
    requires var s := Run(env, Started(start), before);
             && Unreported(Received(env, s, t), r) && PollWalked(env, s, t)
             && Undisturbed(env, Step(env, s, t), later, r.guid)
    requires LastTick([t] + later, start) > Later(Expiry(env.cfg, r), t.at / 1000) + 10
    ensures exists n ::
              && 0 <= n <= |later|
              && ([t] + later)[n].tickAt / 1000 <= Later(Expiry(env.cfg, r), t.at / 1000) + 10 + d
              && TtlFrom(env, Run(env, Started(start), before), t, later[..n], r.guid) == 1
  {
    hide Run, Received, Step, ClockInOrder, LastClock, Undisturbed, PollWalked, TtlFrom, Expiry, Engine.Inv;
    var s, now := Run(env, Started(start), before), LastClock(before, start);
    var bound := Later(Expiry(env.cfg, r), t.at / 1000) + 10;
    ClockSplit(before, [t] + later, start);
    StartedInv(start);
    LoopInv(env, Started(start), before, start);
    TickBeforeClock(before, start);
    TurnClock(t, later, now);
    var n := FirstPast([t] + later, LastTick(before, start), d, bound);
    ReportedPast(env, s, t, later, r, n, now);
  }
}
