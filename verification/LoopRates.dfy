/** The rate checks in the main loop, from raw bytes and the sensor's start. */
module LoopRates {
  import opened Prelude
  import opened Registry
  import opened MainLoop
  import opened MainLoopRuns
  import opened AlertCount
  import opened RateRuns
  import Engine = EngineRuns
  import Rate = RateWindow
  import Dxl = DxlMessage

  // One message

  /** The rate alerts of the loop, from the start of the sensor and from raw
      bytes on: a message the loop gives the engine raises exactly one rate alert
      for its publisher (or its topic) if its table counts it and the plain log of
      that key then holds 101 messages of the last minute, and otherwise none. */
  lemma LoopRateAlert(env: Env, start: int, turns: seq<Turn>, topic: string, raw: Bytes, at: int,
                      order: seq<string>, table: Table)
    requires ClockInOrder(turns, start) && LastClock(turns, start) <= at
    requires Dxl.Parse(raw).Done?
    requires DispatchOf(env, Run(env, Started(start), turns), topic, Dxl.Parse(raw).value) == ForEngine
    ensures var s0 := Started(start);
            var e := EventOf(env, topic, Dxl.Parse(raw).value);
            var key := KeyOf(e, table);
            var ops := EngineTrace(env, s0, turns);
            var rates := RateOps(env.cfg, Initial(), ops + [Engine.Publish(at, e)], table);
            var n := |RateOps(env.cfg, Initial(), ops, table)|;
            && n < |rates| && rates[n] == Rate.Message(key, at)
            && var log := Rate.Log(Rate.Tracked(rates[..n]), key) + [at];
               Count(ReceiveAlerts(env, Run(env, s0, turns), Publish(topic, raw), at, order),
                                TitleOf(table), key)
               == if Rate.VerdictAt(rates, n).Counted? && |Rate.Within(log, at)| == 101 then 1 else 0
  {
    hide Run, EngineTrace, ClockInOrder, LastClock, DispatchOf, Dxl.Parse, EngineOp, ReceiveAlerts, EventOf;
    hide RateOps, KeyOf, Rate.Log, Rate.Tracked, Rate.Within, Rate.VerdictAt, Count;
    hide Engine.Refused, Engine.AlertsOf, Engine.Run;
    var s0, e := Started(start), EventOf(env, topic, Dxl.Parse(raw).value);
    LoopIsEngineRun(env, s0, turns);
    TraceMonotone(env, s0, turns, start);
    ForEngineOp(env, Run(env, s0, turns), topic, raw, at, order);
    EngineRateAlert(env.cfg, EngineTrace(env, s0, turns), at, e, table);
  }

  // Whole runs

  /** What a run of the loop is to a rate table. */
  function LoopRateOps(env: Env, start: int, turns: seq<Turn>, table: Table): seq<Rate.Op> {
    RateOps(env.cfg, Initial(), EngineTrace(env, Started(start), turns), table)
  }

  /** Debouncing in the loop, on any clock: 101 times the rate alerts about a key
      never exceed its messages that the table counted, let alone all of them. */
  lemma LoopDebounce(env: Env, start: int, turns: seq<Turn>, table: Table, k: string)
    ensures var rates := LoopRateOps(env, start, turns, table);
            101 * LoopRaised(env, Started(start), turns, TitleOf(table), k)
            <= Rate.CountTracked(rates, k) <= Rate.CountMessages(rates, k)
  {
    hide LoopRaised, Raised, EngineTrace, RateOps, Rate.CountTracked, Rate.CountMessages, Engine.Run;
    TraceRaised(env, Started(start), turns, TitleOf(table), k);
    EngineDebounce(env.cfg, EngineTrace(env, Started(start), turns), table, k);
  }

  lemma PollTracksNothing(rates: seq<Rate.Op>, at: int, k: string)
    ensures Rate.CountTracked(rates + [Rate.Poll(at)], k) == Rate.CountTracked(rates, k)
  {
    hide Rate.VerdictAt;
    assert (rates + [Rate.Poll(at)])[..|rates|] == rates;
  }

  lemma PollIsOne(cfg: Config, st: State, poll: Engine.Op, table: Table)
    requires poll.Poll?
    ensures RateOps(cfg, st, [poll], table) == [Rate.Poll(poll.at)]
  {
    hide Engine.Apply;
    assert [poll][1..] == [];
  }

  /** The poll at the end of a turn tracks nothing. */
  lemma TurnPollTracksNothing(env: Env, ops: seq<Engine.Op>, s: Sensor, t: Turn, table: Table, k: string)
    ensures Rate.CountTracked(RateOps(env.cfg, Initial(), ops + PollOps(s, t), table), k)
         == Rate.CountTracked(RateOps(env.cfg, Initial(), ops, table), k)
  {
    hide Rate.CountTracked, Engine.Run, Engine.Apply;
    var rates, poll := RateOps(env.cfg, Initial(), ops, table), Engine.Poll(t.pollAt, t.pollOrder);
    if PollDue(s, TickSecond(t)) {
      RateOpsJoin(env.cfg, Initial(), ops, [poll], table);
      PollIsOne(env.cfg, Engine.Run(env.cfg, Initial(), ops), poll, table);
      PollTracksNothing(rates, t.pollAt, k);
    } else {
      assert ops + [] == ops;
    }
  }

  lemma ClockFromFirst(turns: seq<Turn>, start: int)
    requires ClockInOrder(turns, start) && turns != []
    ensures ClockInOrder(turns, turns[0].at)
  {
  }

  /** What the engine is asked over some turns and then by the input of one more. */
  function OpsThrough(env: Env, s: Sensor, stretch: seq<Turn>, last: Turn): seq<Engine.Op> {
    EngineTrace(env, s, stretch) + EngineOp(env, Run(env, s, stretch), last.input, last.at, last.order)
  }

  /** The operations from the input of one turn to the input of a later one lie
      between the two inputs. */
  lemma StretchTimes(env: Env, s: Sensor, stretch: seq<Turn>, last: Turn, start: int)
    requires ClockInOrder(stretch + [last], start)
    ensures var ops := OpsThrough(env, s, stretch, last);
            forall n :: 0 <= n < |ops| ==> (stretch + [last])[0].at <= ops[n].at <= last.at
  {
    hide EngineTrace, EngineOp, Run;
    var first := (stretch + [last])[0].at;
    ClockFromFirst(stretch + [last], start);
    ClockSplit(stretch, [last], first);
    TraceMonotone(env, s, stretch, first);
    EngineOpTime(env, Run(env, s, stretch), last.input, last.at, last.order);
  }

  lemma OneTurnTrace(env: Env, s: Sensor, t: Turn)
    ensures EngineTrace(env, s, [t]) == TurnOps(env, s, t)
  {
    hide Step, TurnOps;
    assert [t][1..] == [];
  }

  lemma ClockOfStretch(turns: seq<Turn>, i: nat, j: nat, start: int)
    requires ClockInOrder(turns, start) && i <= j <= |turns|
    ensures ClockInOrder(turns[..j], start) && ClockInOrder(turns[i..j], LastClock(turns[..i], start))
  {
    hide ClockInOrder, LastClock;
    assert turns == turns[..j] + turns[j..] && turns[..j] == turns[..i] + turns[i..j];
    ClockSplit(turns[..j], turns[j..], start);
    ClockSplit(turns[..i], turns[i..j], start);
  }

  /** What the engine is asked from turn `i` up to the input of turn `j - 1`. */
  function StretchOps(env: Env, s: Sensor, turns: seq<Turn>, i: nat, j: nat): seq<Engine.Op>
    requires i < j <= |turns|
  {
    OpsThrough(env, Run(env, s, turns[..i]), turns[i..j - 1], turns[j - 1])
  }

  lemma StretchInTrace(env: Env, s: Sensor, turns: seq<Turn>, i: nat, j: nat)
    requires i < j <= |turns|
    ensures EngineTrace(env, s, turns[..j])
         == EngineTrace(env, s, turns[..i]) + StretchOps(env, s, turns, i, j)
            + PollOps(Run(env, s, turns[..j - 1]), turns[j - 1])
  {
    hide EngineTrace, EngineOp, Run, PollOps;
    var stretch, last, s1, s2 := turns[i..j - 1], turns[j - 1], Run(env, s, turns[..i]), Run(env, s, turns[..j - 1]);
    assert turns[..j - 1] == turns[..i] + stretch && turns[..j] == turns[..j - 1] + [last];
    TraceJoin(env, s, turns[..i], stretch);
    TraceJoin(env, s, turns[..j - 1], [last]);
    OneTurnTrace(env, s2, last);
    Regroup(EngineTrace(env, s, turns[..i]), EngineTrace(env, s1, stretch),
            EngineOp(env, s2, last.input, last.at, last.order), PollOps(s2, last));
  }

  lemma Regroup(a: seq<Engine.Op>, b: seq<Engine.Op>, c: seq<Engine.Op>, d: seq<Engine.Op>)
    ensures (a + b) + (c + d) == a + (b + c) + d
  {
  }

  lemma StretchBounds(env: Env, s: Sensor, turns: seq<Turn>, i: nat, j: nat, start: int)
    requires ClockInOrder(turns, start) && i < j <= |turns|
    ensures forall n :: 0 <= n < |StretchOps(env, s, turns, i, j)| ==>
              turns[i].at <= StretchOps(env, s, turns, i, j)[n].at <= turns[j - 1].at
  {
    hide OpsThrough, Run, ClockInOrder, LastClock;
    ClockOfStretch(turns, i, j, start);
    assert turns[i..j] == turns[i..j - 1] + [turns[j - 1]] && turns[i..j][0] == turns[i];
    StretchTimes(env, Run(env, s, turns[..i]), turns[i..j - 1], turns[j - 1], LastClock(turns[..i], start));
    assert (turns[i..j - 1] + [turns[j - 1]])[0].at == turns[i].at;
  }

  lemma PrefixMonotone(a: seq<Engine.Op>, b: seq<Engine.Op>)
    requires Engine.Monotone(a + b)
    ensures Engine.Monotone(a)
  {
    assert forall i :: 0 <= i < |a| ==> (a + b)[i] == a[i];
  }

  /** Burst completeness in the loop, on a clock that does not go back: if from the
      input of turn `i` to that of turn `j - 1` at most a minute passes and the
      table counts 101 messages of a key, these turns raise a rate alert about it. */
  lemma LoopBurst(env: Env, start: int, turns: seq<Turn>, i: nat, j: nat, table: Table, k: string)
    requires ClockInOrder(turns, start) && i < j <= |turns|
    requires turns[j - 1].at - turns[i].at <= 60_000
    requires Rate.CountTracked(LoopRateOps(env, start, turns[..j], table), k)
             - Rate.CountTracked(LoopRateOps(env, start, turns[..i], table), k) >= 101
    ensures LoopRaised(env, Started(start), turns[..i], TitleOf(table), k)
          < LoopRaised(env, Started(start), turns[..j], TitleOf(table), k)
  {
    hide LoopRaised, Raised, EngineTrace, RateOps, Rate.CountTracked, Engine.Run, Run, PollOps, ClockInOrder, Started;
    var s := Started(start);
    var end := Run(env, s, turns[..j - 1]);
    var before, stretch, polls := EngineTrace(env, s, turns[..i]), StretchOps(env, s, turns, i, j),
                                  PollOps(end, turns[j - 1]);
    var ops := before + stretch;
    ClockOfStretch(turns, i, j, start);
    StretchInTrace(env, s, turns, i, j);
    StretchBounds(env, s, turns, i, j, start);
    TraceMonotone(env, s, turns[..j], start);
    PrefixMonotone(ops, polls);
    TurnPollTracksNothing(env, ops, end, turns[j - 1], table, k);
    hide StretchOps;
    assert ops[..|before|] == before && ops[..|ops|] == ops;
    assert stretch == [] ==> before == ops;
    EngineBurst(env.cfg, ops, |before|, |ops|, table, k);
    RaisedJoin(env.cfg, Initial(), ops, polls, TitleOf(table), k);
    TraceRaised(env, s, turns[..i], TitleOf(table), k);
    TraceRaised(env, s, turns[..j], TitleOf(table), k);
    StartedEngine(start);
  }

  lemma StartedEngine(start: int)
    ensures Started(start).engine == Initial()
  {
  }
}
