/** The sliding-window rate check: bounded queues of message times per key,
    pruned, swept and cleared as messages and polls arrive, against the plain
    log of what was tracked. */
module RateWindow {

  const WINDOW := 60_000
  const THRESHOLD := 100
  const MAX_RATE_KEYS := 10_000

  type Queues = map<string, seq<int>>

  predicate Expired(t: int, now: int) { now - t > WINDOW }

  /** The queue without the expired times at its front. */
  function DropExpired(q: seq<int>, now: int): seq<int> {
    if q != [] && Expired(q[0], now) then DropExpired(q[1..], now) else q
  }

  /** Every queue pruned, and the keys with nothing left removed. */
  function Sweep(m: Queues, now: int): Queues {
    map k | k in m && DropExpired(m[k], now) != [] :: DropExpired(m[k], now)
  }

  datatype Verdict = Uncounted | Counted(alert: bool)

  function Queue(m: Queues, k: string): seq<int> {
    if k in m then m[k] else []
  }

  /** `track_rate`: the new queues, and whether the message was counted and
      raised an alert. */
  function TrackRate(m: Queues, key: string, now: int): (Queues, Verdict) {
    var m1 := if key !in m && |m| >= MAX_RATE_KEYS then Sweep(m, now) else m;
    if key !in m && |m1| >= MAX_RATE_KEYS then (m1, Uncounted)
    else
      var q := DropExpired(Queue(m1, key) + [now], now);
      if |q| > THRESHOLD then (m1[key := []], Counted(true)) else (m1[key := q], Counted(false))
  }

  class RateTable {
    var queues: Queues

    constructor ()
      ensures queues == map[]
    {
      queues := map[];
    }

    static method PruneFront(queue: seq<int>, now: int) returns (q: seq<int>)
      ensures q == DropExpired(queue, now)
    {
      q := queue;
      while q != [] && now - q[0] > WINDOW
        invariant DropExpired(q, now) == DropExpired(queue, now)
        decreases |q|
      {
        q := q[1..];
      }
    }

    /** Prunes every queue and keeps those that are not empty. */
    method Retain(now: int)
      modifies this
      ensures queues == Sweep(old(queues), now)
    {
      var todo, kept := queues.Keys, map[];
      while todo != {}
        invariant todo <= queues.Keys && queues == old(queues)
        invariant kept == map k | k in Sweep(queues, now) && k !in todo :: Sweep(queues, now)[k]
        decreases todo
      {
        var k :| k in todo;
        var q := PruneFront(queues[k], now);
        if q != [] {
          kept := kept[k := q];
        }
        todo := todo - {k};
      }
      queues := kept;
    }

    method Track(key: string, now: int) returns (verdict: Verdict)
      modifies this
      ensures (queues, verdict) == TrackRate(old(queues), key, now)
    {
      if key !in queues && |queues| >= MAX_RATE_KEYS {
        Retain(now);
        if |queues| >= MAX_RATE_KEYS {
          return Uncounted;
        }
      }
      var entry := if key in queues then queues[key] else [];
      entry := PruneFront(entry + [now], now);
      if |entry| > THRESHOLD {
        verdict := Counted(true);
        entry := [];
      } else {
        verdict := Counted(false);
      }
      queues := queues[key := entry];
    }
  }

  // Runs

  /** What happens to one table: a message with a key, or a poll. `at` is the
      clock in milliseconds; a poll prunes at its whole second. */
  datatype Op = Message(key: string, at: int) | Poll(at: int)

  function PollTime(at: int): int { at / 1000 * 1000 }

  function Step(m: Queues, op: Op): Queues {
    match op
    case Message(key, at) => TrackRate(m, key, at).0
    case Poll(at) => Sweep(m, PollTime(at))
  }

  function Run(ops: seq<Op>): Queues {
    if ops == [] then map[] else Step(Run(ops[..|ops| - 1]), ops[|ops| - 1])
  }

  /** A run that goes on from given queues. */
  function RunOn(m: Queues, ops: seq<Op>): Queues
    decreases |ops|
  {
    if ops == [] then m else RunOn(Step(m, ops[0]), ops[1..])
  }

  lemma {:induction false} RunOnContinues(ops: seq<Op>, more: seq<Op>)
    ensures RunOn(Run(ops), more) == Run(ops + more)
    decreases |more|
  {
    if more == [] {
      assert ops + more == ops;
    } else {
      assert (ops + [more[0]])[..|ops|] == ops;
      assert (ops + [more[0]]) + more[1..] == ops + more;
      RunOnContinues(ops + [more[0]], more[1..]);
    }
  }

  /** What became of message `i` of the run. */
  function VerdictAt(ops: seq<Op>, i: nat): Verdict
    requires i < |ops| && ops[i].Message?
  {
    TrackRate(Run(ops[..i]), ops[i].key, ops[i].at).1
  }

  predicate Monotone(ops: seq<Op>) {
    forall i, j :: 0 <= i < j < |ops| ==> ops[i].at <= ops[j].at
  }

  predicate CountedAt(ops: seq<Op>, i: nat, k: string)
    requires i < |ops|
  {
    ops[i].Message? && ops[i].key == k && VerdictAt(ops, i).Counted?
  }

  predicate AlertAt(ops: seq<Op>, i: nat, k: string)
    requires i < |ops|
  {
    CountedAt(ops, i, k) && VerdictAt(ops, i).alert
  }

  // The plain log: no pruning, no sweeps, no polls, no bound on keys.

  datatype Entry = Entry(key: string, at: int)

  /** The tracked messages of a run, in order. */
  function Tracked(ops: seq<Op>): seq<Entry> {
    if ops == [] then []
    else
      var i := |ops| - 1;
      Tracked(ops[..i])
      + (if ops[i].Message? && VerdictAt(ops, i).Counted? then [Entry(ops[i].key, ops[i].at)] else [])
  }

  /** The times of the last minute. */
  function Within(xs: seq<int>, now: int): seq<int> {
    if xs == [] then []
    else Within(xs[..|xs| - 1], now) + (if now - xs[|xs| - 1] > 60_000 then [] else [xs[|xs| - 1]])
  }

  /** The rule the sensor states: more than 100 messages within a minute. */
  predicate TooMany(log: seq<int>, now: int) { |Within(log, now)| > 100 }

  /** The times of `k`'s messages since its last alert under that rule. */
  function Log(entries: seq<Entry>, k: string): seq<int> {
    if entries == [] then []
    else
      var log, e := Log(entries[..|entries| - 1], k), entries[|entries| - 1];
      if e.key != k then log
      else if TooMany(log + [e.at], e.at) then []
      else log + [e.at]
  }

  // Pruning against filtering

  predicate SortedUpTo(xs: seq<int>, now: int) {
    (forall i, j :: 0 <= i < j < |xs| ==> xs[i] <= xs[j]) && (forall i :: 0 <= i < |xs| ==> xs[i] <= now)
  }

  /** `q` is what is left of `log` after dropping expired times at its front. */
  predicate Pruned(q: seq<int>, log: seq<int>, now: int) {
    && |q| <= |log|
    && log[|log| - |q|..] == q
    && forall i :: 0 <= i < |log| - |q| ==> Expired(log[i], now)
  }

  lemma {:induction false} DropExpiredPrunes(q: seq<int>, log: seq<int>, now: int)
    requires Pruned(q, log, now)
    ensures Pruned(DropExpired(q, now), log, now)
    ensures DropExpired(q, now) != [] ==> !Expired(DropExpired(q, now)[0], now)
    decreases |q|
  {
    if q == [] || !Expired(q[0], now) {
    } else {
      assert log[|log| - |q|] == q[0];
      assert log[|log| - |q| + 1..] == q[1..];
      DropExpiredPrunes(q[1..], log, now);
    }
  }

  lemma {:induction false} WithinSplit(xs: seq<int>, ys: seq<int>, now: int)
    ensures Within(xs + ys, now) == Within(xs, now) + Within(ys, now)
    decreases |ys|
  {
    if ys == [] {
      assert xs + ys == xs;
    } else {
      assert (xs + ys)[..|xs + ys| - 1] == xs + ys[..|ys| - 1];
      WithinSplit(xs, ys[..|ys| - 1], now);
    }
  }

  lemma {:induction false} WithinNone(xs: seq<int>, now: int)
    requires forall i :: 0 <= i < |xs| ==> Expired(xs[i], now)
    ensures Within(xs, now) == []
  {
    if xs == [] {
    } else {
      WithinNone(xs[..|xs| - 1], now);
    }
  }

  lemma {:induction false} WithinAll(xs: seq<int>, now: int)
    requires forall i :: 0 <= i < |xs| ==> !Expired(xs[i], now)
    ensures Within(xs, now) == xs
  {
    if xs == [] {
    } else {
      WithinAll(xs[..|xs| - 1], now);
      assert xs == xs[..|xs| - 1] + [xs[|xs| - 1]];
    }
  }

  lemma FilterKeepsSuffix(log: seq<int>, n: nat, now: int)
    requires n <= |log|
    requires forall i :: 0 <= i < |log| ==> (Expired(log[i], now) <==> i < n)
    ensures Within(log, now) == log[n..]
  {
    hide Within;
    WithinNone(log[..n], now);
    WithinAll(log[n..], now);
    WithinSplit(log[..n], log[n..], now);
    assert log == log[..n] + log[n..];
  }

  /** On an ordered log, dropping from the front is filtering. */
  lemma DropIsFilter(q: seq<int>, log: seq<int>, now: int)
    requires Pruned(q, log, now) && SortedUpTo(log, now)
    ensures DropExpired(q, now) == Within(log, now)
  {
    DropExpiredPrunes(q, log, now);
    hide DropExpired, Within;
    var r := DropExpired(q, now);
    var n := |log| - |r|;
    if r != [] {
      assert log[n] == r[0];
      assert forall i :: n <= i < |log| ==> log[n] <= log[i];
    }
    FilterKeepsSuffix(log, n, now);
  }

  // The refinement

  /** The queues `m` at time `now` stand for the plain log of `entries`. */
  ghost predicate Refines(m: Queues, entries: seq<Entry>, now: int) {
    forall k: string :: SortedUpTo(Log(entries, k), now) && Pruned(Queue(m, k), Log(entries, k), now)
  }

  lemma RefinesLater(m: Queues, entries: seq<Entry>, t: int, now: int)
    requires Refines(m, entries, t) && t <= now
    ensures Refines(m, entries, now)
  {
    forall k: string
      ensures SortedUpTo(Log(entries, k), now) && Pruned(Queue(m, k), Log(entries, k), now)
    {
      assert SortedUpTo(Log(entries, k), t) && Pruned(Queue(m, k), Log(entries, k), t);
    }
  }

  /** A sweep or a poll at `at <= now` loses nothing the log still needs. */
  lemma SweepRefines(m: Queues, entries: seq<Entry>, at: int, now: int)
    requires Refines(m, entries, now) && at <= now
    ensures Refines(Sweep(m, at), entries, now)
  {
    forall k: string
      ensures SortedUpTo(Log(entries, k), now) && Pruned(Queue(Sweep(m, at), k), Log(entries, k), now)
    {
      assert SortedUpTo(Log(entries, k), now) && Pruned(Queue(m, k), Log(entries, k), now);
      if k in m {
        EarlierDropPrunes(m[k], Log(entries, k), at, now);
      }
    }
  }

  lemma {:induction false} EarlierDropPrunes(q: seq<int>, log: seq<int>, at: int, now: int)
    requires Pruned(q, log, now) && at <= now
    ensures Pruned(DropExpired(q, at), log, now)
    decreases |q|
  {
    if q == [] || !Expired(q[0], at) {
    } else {
      assert log[|log| - |q|] == q[0];
      assert log[|log| - |q| + 1..] == q[1..];
      EarlierDropPrunes(q[1..], log, at, now);
    }
  }

  lemma PushPrunes(q: seq<int>, log: seq<int>, now: int)
    requires Pruned(q, log, now) && SortedUpTo(log, now)
    ensures Pruned(q + [now], log + [now], now) && SortedUpTo(log + [now], now)
    ensures DropExpired(q + [now], now) == Within(log + [now], now)
    ensures Pruned(Within(log + [now], now), log + [now], now)
  {
    hide DropExpired, Within;
    assert (log + [now])[|log| - |q|..] == log[|log| - |q|..] + [now];
    DropIsFilter(q + [now], log + [now], now);
    DropExpiredPrunes(q + [now], log + [now], now);
  }

  /** The queues once a counted message of `key` has been stored. */
  lemma StoreRefines(m: Queues, entries: seq<Entry>, key: string, now: int, m': Queues)
    requires Refines(m, entries, now)
    requires var log := Log(entries, key) + [now];
             m' == m[key := if TooMany(log, now) then [] else Within(log, now)]
    ensures Refines(m', entries + [Entry(key, now)], now)
  {
    hide DropExpired, Within, SortedUpTo, Pruned;
    var entries' := entries + [Entry(key, now)];
    assert entries'[..|entries|] == entries;
    forall k: string
      ensures SortedUpTo(Log(entries', k), now) && Pruned(Queue(m', k), Log(entries', k), now)
    {
      assert SortedUpTo(Log(entries, k), now) && Pruned(Queue(m, k), Log(entries, k), now);
      if k == key {
        PushPrunes(Queue(m, k), Log(entries, k), now);
        EmptyPruned(now);
      }
    }
  }

  lemma EmptyPruned(now: int)
    ensures SortedUpTo([], now) && Pruned([], [], now)
  {
  }

  /** One tracked message: the alert is the plain rule's, and the log goes on. */
  lemma TrackRefines(m: Queues, entries: seq<Entry>, key: string, now: int)
    requires Refines(m, entries, now)
    ensures var (m', verdict) := TrackRate(m, key, now);
            if verdict.Uncounted? then Refines(m', entries, now)
            else
              && (verdict.alert <==> TooMany(Log(entries, key) + [now], now))
              && (!verdict.alert ==> key in m' && m'[key] == Within(Log(entries, key) + [now], now))
              && Refines(m', entries + [Entry(key, now)], now)
  {
    hide DropExpired, Within, SortedUpTo, Pruned, Log, Sweep;
    var m1 := if key !in m && |m| >= MAX_RATE_KEYS then Sweep(m, now) else m;
    SweepRefines(m, entries, now, now);
    if TrackRate(m, key, now).1.Counted? {
      assert SortedUpTo(Log(entries, key), now) && Pruned(Queue(m1, key), Log(entries, key), now);
      PushPrunes(Queue(m1, key), Log(entries, key), now);
      StoreRefines(m1, entries, key, now, TrackRate(m, key, now).0);
    }
  }

  lemma {:induction false} RunRefines(ops: seq<Op>, now: int)
    requires Monotone(ops) && (ops != [] ==> ops[|ops| - 1].at <= now)
    ensures Refines(Run(ops), Tracked(ops), now)
    decreases |ops|
  {
    if ops == [] {
    } else {
      var i := |ops| - 1;
      RunRefines(ops[..i], ops[i].at);
      match ops[i] {
        case Message(key, at) => TrackRefines(Run(ops[..i]), Tracked(ops[..i]), key, at);
        case Poll(at) => SweepRefines(Run(ops[..i]), Tracked(ops[..i]), PollTime(at), at);
      }
      assert Tracked(ops[..i]) + [] == Tracked(ops[..i]);
      RefinesLater(Run(ops), Tracked(ops), ops[i].at, now);
    }
  }

  /** At any later time at most 100 of a key's logged messages are recent. */
  lemma RecentShort(ops: seq<Op>, k: string, now: int)
    requires Monotone(ops) && (ops != [] ==> ops[|ops| - 1].at <= now)
    ensures |Within(Log(Tracked(ops), k), now)| <= 100
  {
    hide Within, Log, Tracked;
    var log := Log(Tracked(ops), k);
    RunRefines(ops, now);
    assert SortedUpTo(log, now);
    if log != [] {
      LogEntriesShort(Tracked(ops), k);
      WithinShrinks(log, LastEntry(Tracked(ops), k), now);
    } else {
      WithinNone(log, now);
    }
  }

  /** Under a nondecreasing clock, whatever messages, sweeps and polls came
      before: a tracked message alerts exactly when the plain log of its key,
      which knows only the tracked messages, holds 101 of the last minute. When
      it does not alert, the key's queue is that filtered log. */
  lemma RateRefinement(ops: seq<Op>, i: nat)
    requires Monotone(ops) && i < |ops| && ops[i].Message?
    requires VerdictAt(ops, i).Counted?
    ensures var log := Log(Tracked(ops[..i]), ops[i].key) + [ops[i].at];
            && (VerdictAt(ops, i).alert <==> |Within(log, ops[i].at)| == 101)
            && (!VerdictAt(ops, i).alert ==>
                  && ops[i].key in Run(ops[..i + 1])
                  && Run(ops[..i + 1])[ops[i].key] == Within(log, ops[i].at))
            && Log(Tracked(ops[..i + 1]), ops[i].key) == if VerdictAt(ops, i).alert then [] else log
  {
    hide Run, TrackRate, Within, Log, Tracked, Refines;
    var before, key, at := ops[..i], ops[i].key, ops[i].at;
    RunRefines(before, at);
    TrackRefines(Run(before), Tracked(before), key, at);
    RecentShort(before, key, at);
    WithinOneMore(Log(Tracked(before), key), at);
    TrackedNext(ops, i);
    LogNext(Tracked(before), Entry(key, at));
  }

  lemma WithinOneMore(log: seq<int>, at: int)
    ensures |Within(log + [at], at)| == |Within(log, at)| + 1
  {
    assert (log + [at])[..|log|] == log;
  }

  /** A counted message joins the tracked ones; its table is the next state. */
  lemma TrackedNext(ops: seq<Op>, i: nat)
    requires i < |ops| && ops[i].Message? && VerdictAt(ops, i).Counted?
    ensures Tracked(ops[..i + 1]) == Tracked(ops[..i]) + [Entry(ops[i].key, ops[i].at)]
    ensures Run(ops[..i + 1]) == TrackRate(Run(ops[..i]), ops[i].key, ops[i].at).0
  {
    hide TrackRate;
    assert ops[..i + 1][..i] == ops[..i];
  }

  lemma LogNext(entries: seq<Entry>, e: Entry)
    ensures var log := Log(entries, e.key) + [e.at];
            Log(entries + [e], e.key) == if TooMany(log, e.at) then [] else log
  {
    assert (entries + [e])[..|entries|] == entries;
  }

  /** Which tracked messages alert depends on the tracked messages alone: two
      runs that tracked the same messages, with whatever polls and sweeps in
      between, give the next tracked message the same verdict. */
  lemma PollsAndSweepsIrrelevant(ops1: seq<Op>, i: nat, ops2: seq<Op>, j: nat)
    requires Monotone(ops1) && i < |ops1| && ops1[i].Message? && VerdictAt(ops1, i).Counted?
    requires Monotone(ops2) && j < |ops2| && ops2[j].Message? && VerdictAt(ops2, j).Counted?
    requires ops1[i] == ops2[j] && Tracked(ops1[..i]) == Tracked(ops2[..j])
    ensures VerdictAt(ops1, i) == VerdictAt(ops2, j)
  {
    RateRefinement(ops1, i);
    RateRefinement(ops2, j);
  }

  /** The time of `k`'s last tracked message. */
  function LastEntry(entries: seq<Entry>, k: string): int {
    if entries == [] then 0
    else if entries[|entries| - 1].key == k then entries[|entries| - 1].at
    else LastEntry(entries[..|entries| - 1], k)
  }

  /** Between calls the recent part of a key's log has at most 100 entries. */
  lemma {:induction false} LogEntriesShort(entries: seq<Entry>, k: string)
    ensures Log(entries, k) != [] ==> !TooMany(Log(entries, k), LastEntry(entries, k))
    ensures Log(entries, k) != [] ==> Log(entries, k)[|Log(entries, k)| - 1] == LastEntry(entries, k)
  {
    if entries == [] {
    } else {
      LogEntriesShort(entries[..|entries| - 1], k);
    }
  }

  lemma {:induction false} WithinShrinks(xs: seq<int>, t: int, now: int)
    requires t <= now
    ensures |Within(xs, now)| <= |Within(xs, t)|
  {
    if xs == [] {
    } else {
      WithinShrinks(xs[..|xs| - 1], t, now);
    }
  }

  // Bounds in every reachable state

  lemma {:induction false} DropShrinks(q: seq<int>, now: int)
    ensures |DropExpired(q, now)| <= |q|
  {
    if q == [] || !Expired(q[0], now) {
    } else {
      DropShrinks(q[1..], now);
    }
  }

  lemma SweepShrinks(m: Queues, now: int)
    ensures |Sweep(m, now)| <= |m|
    ensures forall k :: |Queue(Sweep(m, now), k)| <= |Queue(m, k)|
  {
    assert Sweep(m, now).Keys <= m.Keys;
    Subset(Sweep(m, now).Keys, m.Keys);
    forall k ensures |Queue(Sweep(m, now), k)| <= |Queue(m, k)| {
      DropShrinks(Queue(m, k), now);
    }
  }

  lemma Subset<T>(a: set<T>, b: set<T>)
    requires a <= b
    ensures |a| <= |b|
  {
    assert b == a + (b - a);
  }

  ghost predicate Bounded(m: Queues) {
    |m| <= MAX_RATE_KEYS && forall k :: k in m ==> |m[k]| <= THRESHOLD
  }

  lemma StoreBounded(m: Queues, key: string, q: seq<int>)
    requires Bounded(m) && (key in m || |m| < MAX_RATE_KEYS) && |q| <= THRESHOLD
    ensures Bounded(m[key := q])
  {
    assert m[key := q].Keys == m.Keys + {key};
    assert |m[key := q].Keys| == |m.Keys + {key}|;
  }

  lemma SweepBounded(m: Queues, now: int)
    requires Bounded(m)
    ensures Bounded(Sweep(m, now))
  {
    SweepShrinks(m, now);
    forall k | k in Sweep(m, now) ensures |Sweep(m, now)[k]| <= THRESHOLD {
      assert |Queue(Sweep(m, now), k)| <= |Queue(m, k)|;
    }
  }

  /** Each table holds at most 10,000 keys and no queue more than 100 times,
      whatever the clock does. */
  lemma {:induction false} Capacity(ops: seq<Op>)
    ensures |Run(ops)| <= 10_000
    ensures forall k :: k in Run(ops) ==> |Run(ops)[k]| <= 100
  {
    if ops == [] {
    } else {
      var i := |ops| - 1;
      var m := Run(ops[..i]);
      Capacity(ops[..i]);
      hide Sweep, DropExpired;
      match ops[i] {
        case Poll(at) => SweepBounded(m, PollTime(at));
        case Message(key, at) =>
          SweepBounded(m, at);
          var m1 := if key !in m && |m| >= MAX_RATE_KEYS then Sweep(m, at) else m;
          if key in m1 || |m1| < MAX_RATE_KEYS {
            StoreBounded(m1, key, []);
            var q := DropExpired(Queue(m1, key) + [at], at);
            if |q| <= THRESHOLD {
              StoreBounded(m1, key, q);
            }
          }
      }
    }
  }

  /** The keys in `keys` each still hold a message of the last minute. */
  predicate AllLive(keys: set<string>, entries: seq<Entry>, now: int) {
    forall k :: k in keys ==> Within(Log(entries, k), now) != []
  }

  /** A message goes uncounted exactly when its key is not in the table and
      10,000 keys each hold a message of the last minute. */
  lemma UncountedExactly(ops: seq<Op>, i: nat)
    requires Monotone(ops) && i < |ops| && ops[i].Message?
    ensures var m, entries, at := Run(ops[..i]), Tracked(ops[..i]), ops[i].at;
            VerdictAt(ops, i).Uncounted? <==>
            ops[i].key !in m && exists keys :: |keys| == 10_000 && AllLive(keys, entries, at)
  {
    hide Run, Tracked, Log, Within, DropExpired;
    var m, entries, at := Run(ops[..i]), Tracked(ops[..i]), ops[i].at;
    RunRefines(ops[..i], at);
    Capacity(ops[..i]);
    SweepShrinks(m, at);
    SweepIsLive(m, entries, at);
    var live := Sweep(m, at).Keys;
    hide Sweep;
    if VerdictAt(ops, i).Uncounted? {
      assert AllLive(live, entries, at) && |live| == MAX_RATE_KEYS;
    }
    forall keys | |keys| == MAX_RATE_KEYS && AllLive(keys, entries, at)
      ensures |live| >= MAX_RATE_KEYS
    {
      Subset(keys, live);
    }
  }

  lemma SweepIsLive(m: Queues, entries: seq<Entry>, at: int)
    requires Refines(m, entries, at)
    ensures forall k: string :: k in Sweep(m, at) <==> Within(Log(entries, k), at) != []
  {
    hide DropExpired, Within, Log;
    forall k: string ensures k in Sweep(m, at) <==> Within(Log(entries, k), at) != [] {
      assert SortedUpTo(Log(entries, k), at) && Pruned(Queue(m, k), Log(entries, k), at);
      DropIsFilter(Queue(m, k), Log(entries, k), at);
      DropShrinks(Queue(m, k), at);
    }
  }

  // Counting over runs

  function CountTracked(ops: seq<Op>, k: string): nat {
    if ops == [] then 0
    else CountTracked(ops[..|ops| - 1], k) + if CountedAt(ops, |ops| - 1, k) then 1 else 0
  }

  function CountAlerts(ops: seq<Op>, k: string): nat {
    if ops == [] then 0
    else CountAlerts(ops[..|ops| - 1], k) + if AlertAt(ops, |ops| - 1, k) then 1 else 0
  }

  /** All messages of a key, counted by the table or not. */
  function CountMessages(ops: seq<Op>, k: string): nat {
    if ops == [] then 0
    else
      CountMessages(ops[..|ops| - 1], k)
      + if ops[|ops| - 1].Message? && ops[|ops| - 1].key == k then 1 else 0
  }

  lemma {:induction false} TrackedAreMessages(ops: seq<Op>, k: string)
    ensures CountTracked(ops, k) <= CountMessages(ops, k)
  {
    hide VerdictAt;
    if ops == [] {
    } else {
      TrackedAreMessages(ops[..|ops| - 1], k);
    }
  }

  /** Debouncing: every alert of a key uses up 101 of its tracked messages,
      whatever the clock does. */
  lemma {:induction false} DebounceAccounting(ops: seq<Op>, k: string)
    ensures 101 * CountAlerts(ops, k) + |Queue(Run(ops), k)| <= CountTracked(ops, k)
  {
    hide Sweep, DropExpired;
    if ops == [] {
    } else {
      var i := |ops| - 1;
      var m := Run(ops[..i]);
      DebounceAccounting(ops[..i], k);
      match ops[i] {
        case Poll(at) => SweepShrinks(m, PollTime(at));
        case Message(key, at) =>
          SweepShrinks(m, at);
          var m1 := if key !in m && |m| >= MAX_RATE_KEYS then Sweep(m, at) else m;
          DropShrinks(Queue(m1, key) + [at], at);
      }
    }
  }

  /** A counted message that raises no alert joins its key's log. */
  lemma QuietStep(ops: seq<Op>, k: string)
    requires Monotone(ops) && ops != [] && !AlertAt(ops, |ops| - 1, k)
    ensures var n := |ops| - 1;
            Log(Tracked(ops), k) == Log(Tracked(ops[..n]), k)
                                    + if CountedAt(ops, n, k) then [ops[n].at] else []
  {
    hide TooMany, TrackRate;
    var n := |ops| - 1;
    var before := Tracked(ops[..n]);
    assert before + [] == before;
    if ops[n].Message? {
      RunRefines(ops[..n], ops[n].at);
      TrackRefines(Run(ops[..n]), before, ops[n].key, ops[n].at);
      assert (before + [Entry(ops[n].key, ops[n].at)])[..|before|] == before;
    }
  }

  lemma AlertInPrefix(ops: seq<Op>, j: nat, n: nat, k: string)
    requires n < j <= |ops|
    ensures CountedAt(ops[..j], n, k) == CountedAt(ops, n, k)
    ensures AlertAt(ops[..j], n, k) == AlertAt(ops, n, k)
  {
    assert ops[..j][..n] == ops[..n];
  }

  /** An alert between two positions is counted between them. */
  lemma {:induction false} AlertsGrow(ops: seq<Op>, i: nat, j: nat, k: string)
    requires i <= j <= |ops|
    ensures CountAlerts(ops[..i], k) <= CountAlerts(ops[..j], k)
    ensures CountAlerts(ops[..i], k) == CountAlerts(ops[..j], k) ==> forall n :: i <= n < j ==> !AlertAt(ops, n, k)
    decreases j
  {
    hide AlertAt;
    if i == j {
    } else {
      assert ops[..j][..j - 1] == ops[..j - 1];
      AlertInPrefix(ops, j, j - 1, k);
      AlertsGrow(ops, i, j - 1, k);
    }
  }

  /** Without an alert, every tracked message since position `i` is in the log. */
  lemma {:induction false} QuietLogGrows(ops: seq<Op>, i: nat, j: nat, k: string, now: int)
    requires Monotone(ops) && i <= j <= |ops|
    requires forall n :: i <= n < j ==> !AlertAt(ops, n, k) && !Expired(ops[n].at, now)
    ensures |Within(Log(Tracked(ops[..j]), k), now)| + CountTracked(ops[..i], k)
         >= CountTracked(ops[..j], k)
    decreases j
  {
    hide AlertAt, CountedAt, Tracked, Log, Within;
    if i >= j {
    } else {
      var n := j - 1;
      assert ops[..j][..n] == ops[..n];
      QuietLogGrows(ops, i, n, k, now);
      AlertInPrefix(ops, j, n, k);
      QuietStep(ops[..j], k);
      WithinSplit(Log(Tracked(ops[..n]), k), if CountedAt(ops, n, k) then [ops[n].at] else [], now);
      WithinOne(ops[n].at, now);
    }
  }

  lemma WithinOne(t: int, now: int)
    requires !Expired(t, now)
    ensures Within([t], now) == [t]
  {
    assert [t][..0] == [];
  }

  /** Burst completeness: if a stretch of the run that spans at most a minute
      tracks 101 messages of a key, one of them raises an alert. */
  lemma BurstComplete(ops: seq<Op>, i: nat, j: nat, k: string)
    requires Monotone(ops) && i < j <= |ops| && ops[j - 1].at - ops[i].at <= 60_000
    requires CountTracked(ops[..j], k) - CountTracked(ops[..i], k) >= 101
    ensures exists n :: i <= n < j && AlertAt(ops, n, k)
  {
    hide AlertAt, Within, Log, Tracked, CountTracked;
    var now := ops[j - 1].at;
    if forall n :: i <= n < j ==> !AlertAt(ops, n, k) {
      QuietLogGrows(ops, i, j, k, now);
      RecentShort(ops[..j], k, now);
    }
  }
}
