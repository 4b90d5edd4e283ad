/**
 The load generator's workers, interleaved. With a rate, a worker first draws a
 turn from a count all workers share, and starts its query no earlier than that
 turn is due; a unique name carries its worker's own count. Times are in
 nanoseconds.
 */
module LoadGen {
  import opened Arithmetic
  import opened QueryNames

  const SECOND: nat := 1_000_000_000

  /** The whole nanoseconds between turns; 0 is no schedule at all. */
  function Interval(rate: nat): nat {
    if rate == 0 then 0 else SECOND / rate
  }

  datatype Config = Config(rate: nat, nonce: nat, paceFrom: int)

  /** One goroutine: the client it belongs to and its slot among that client's. */
  datatype Worker = Worker(id: nat, slot: nat)

  /** A query that was started: by whom, with which count, on which schedule slot, and when. */
  datatype Started = Started(worker: Worker, counter: nat, turn: nat, at: int)

  datatype World = World(
    now: int,
    turns: nat,
    waiting: map<Worker, nat>,
    counters: map<Worker, nat>,
    started: seq<Started>)

  datatype Action = Tick(now: int) | Take(worker: Worker) | Start(worker: Worker)

  function CounterOf(w: World, g: Worker): nat {
    if g in w.counters then w.counters[g] else 0
  }

  function DueAt(c: Config, turn: nat): int {
    c.paceFrom + turn * Interval(c.rate)
  }

  predicate Enabled(c: Config, w: World, a: Action) {
    match a
    case Tick(now) => now >= w.now
    case Take(g) => Interval(c.rate) > 0 && g !in w.waiting
    case Start(g) => if Interval(c.rate) > 0 then g in w.waiting && w.now >= DueAt(c, w.waiting[g]) else true
  }

  function Step(c: Config, w: World, a: Action): World
    requires Enabled(c, w, a)
  {
    match a
    case Tick(now) => w.(now := now)
    case Take(g) => w.(turns := w.turns + 1, waiting := w.waiting[g := w.turns])
    case Start(g) =>
      var turn := if Interval(c.rate) > 0 then w.waiting[g] else 0;
      w.(waiting := w.waiting - {g},
         counters := w.counters[g := CounterOf(w, g) + 1],
         started := w.started + [Started(g, CounterOf(w, g), turn, w.now)])
  }

  predicate AllEnabled(c: Config, w: World, actions: seq<Action>)
    decreases actions
  {
    actions == [] || (Enabled(c, w, actions[0]) && AllEnabled(c, Step(c, w, actions[0]), actions[1..]))
  }

  function Run(c: Config, w: World, actions: seq<Action>): World
    requires AllEnabled(c, w, actions)
    decreases actions
  {
    if actions == [] then w else Run(c, Step(c, w, actions[0]), actions[1..])
  }

  function Initial(now: int): World {
    World(now, 0, map[], map[], [])
  }

  // ---------------------------------------------------------- names

  /** Counts behind each worker's counter, and no worker counts twice. */
  ghost predicate Counted(w: World) {
    && (forall k :: 0 <= k < |w.started| ==> w.started[k].counter < CounterOf(w, w.started[k].worker))
    && (forall j, k :: 0 <= j < k < |w.started| ==>
          w.started[j].worker != w.started[k].worker || w.started[j].counter != w.started[k].counter)
  }

  // ---------------------------------------------------------- turns

  /** Every turn taken is below the shared count, held by one worker or one query, and no query is early. */
  ghost predicate Paced(c: Config, w: World) {
    && (forall g :: g in w.waiting ==> w.waiting[g] < w.turns)
    && (forall g, h :: g in w.waiting && h in w.waiting && g != h ==> w.waiting[g] != w.waiting[h])
    && (forall k :: 0 <= k < |w.started| ==> w.started[k].turn < w.turns)
    && (forall k, g :: 0 <= k < |w.started| && g in w.waiting ==> w.started[k].turn != w.waiting[g])
    && (forall j, k :: 0 <= j < k < |w.started| ==> w.started[j].turn != w.started[k].turn)
    && (forall k :: 0 <= k < |w.started| ==> DueAt(c, w.started[k].turn) <= w.started[k].at <= w.now)
  }

  lemma StepKeepsCounted(c: Config, w: World, a: Action)
    requires Counted(w) && Enabled(c, w, a)
    ensures Counted(Step(c, w, a))
  {
    hide Interval, DueAt;
  }

  lemma TakeKeepsPaced(c: Config, w: World, g: Worker)
    requires Paced(c, w) && Enabled(c, w, Take(g))
    ensures Paced(c, Step(c, w, Take(g)))
  {
    hide Interval, DueAt, CounterOf;
  }

  lemma StartKeepsPaced(c: Config, w: World, g: Worker)
    requires Interval(c.rate) > 0 && Paced(c, w) && Enabled(c, w, Start(g))
    ensures Paced(c, Step(c, w, Start(g)))
  {
    hide Interval, DueAt, CounterOf;
  }

  lemma StepKeepsPaced(c: Config, w: World, a: Action)
    requires Interval(c.rate) > 0 && Paced(c, w) && Enabled(c, w, a)
    ensures Paced(c, Step(c, w, a))
  {
    match a
    case Tick(_) =>
    case Take(g) => TakeKeepsPaced(c, w, g);
    case Start(g) => StartKeepsPaced(c, w, g);
  }

  lemma {:induction false} RunKeepsCounted(c: Config, w: World, actions: seq<Action>)
    requires Counted(w) && AllEnabled(c, w, actions)
    ensures Counted(Run(c, w, actions))
    decreases actions
  {
    hide Step, Enabled, Counted;
    if actions != [] {
      StepKeepsCounted(c, w, actions[0]);
      RunKeepsCounted(c, Step(c, w, actions[0]), actions[1..]);
    }
  }

  lemma {:induction false} RunKeepsPaced(c: Config, w: World, actions: seq<Action>)
    requires Interval(c.rate) > 0 && Paced(c, w) && AllEnabled(c, w, actions)
    ensures Paced(c, Run(c, w, actions))
    decreases actions
  {
    hide Step, Enabled, Paced, Interval;
    if actions != [] {
      StepKeepsPaced(c, w, actions[0]);
      RunKeepsPaced(c, Step(c, w, actions[0]), actions[1..]);
    }
  }

  function NameOf(c: Config, s: Started): string {
    LoadName(c.nonce, s.worker.id, s.worker.slot, s.counter)
  }

  /** Under every interleaving, paced or not, no two queries of a run ask the same unique name. */
  lemma NamesNeverRepeat(c: Config, now: int, actions: seq<Action>, j: nat, k: nat)
    requires AllEnabled(c, Initial(now), actions) && j < k < |Run(c, Initial(now), actions).started|
    ensures var started := Run(c, Initial(now), actions).started;
            NameOf(c, started[j]) != NameOf(c, started[k])
  {
    hide Run, LoadName;
    RunKeepsCounted(c, Initial(now), actions);
    var a, b := Run(c, Initial(now), actions).started[j], Run(c, Initial(now), actions).started[k];
    if NameOf(c, a) == NameOf(c, b) {
      LoadNameIsInjective(c.nonce, a.worker.id, a.worker.slot, a.counter, b.worker.id, b.worker.slot, b.counter);
    }
  }

  // ---------------------------------------------------------- the rate

  function StartedBy(w: World, t: int): set<nat> {
    set k | 0 <= k < |w.started| && w.started[k].at <= t
  }

  /** A set of numbers below `n` holds at most `n`. */
  lemma {:induction false} SmallSet(s: set<nat>, n: nat)
    requires forall x :: x in s ==> x < n
    ensures |s| <= n
  {
    if n > 0 {
      var rest := s - {n - 1};
      SmallSet(rest, n - 1);
      assert s <= rest + {n - 1};
      assert n - 1 in s ==> s == rest + {n - 1};
      assert n - 1 !in s ==> s == rest;
    }
  }

  /** Indices with distinct turns below a bound are no more than the bound. */
  lemma {:induction false} DistinctTurnsBound(w: World, indices: set<nat>, bound: nat)
    requires forall k :: k in indices ==> k < |w.started| && w.started[k].turn < bound
    requires forall j, k :: j in indices && k in indices && j != k ==> w.started[j].turn != w.started[k].turn
    ensures |indices| <= bound
    decreases indices
  {
    var turns := set k | k in indices :: w.started[k].turn;
    SameSize(w, indices, turns);
    SmallSet(turns, bound);
  }

  lemma {:induction false} SameSize(w: World, indices: set<nat>, turns: set<nat>)
    requires forall k :: k in indices ==> k < |w.started|
    requires forall j, k :: j in indices && k in indices && j != k ==> w.started[j].turn != w.started[k].turn
    requires turns == set k | k in indices :: w.started[k].turn
    ensures |turns| == |indices|
    decreases indices
  {
    if indices != {} {
      var k :| k in indices;
      var rest := indices - {k};
      SameSize(w, rest, turns - {w.started[k].turn});
    }
  }

  lemma TurnBound(turn: nat, interval: nat, elapsed: nat)
    requires interval > 0 && turn * interval <= elapsed
    ensures turn < elapsed / interval + 1
  {
    var q := elapsed / interval;
    assert elapsed < (q + 1) * interval;
    if turn > q { MulGrows(turn, q + 1, interval); }
  }

  /** A query started by `t` has a turn that was due by then. */
  lemma StartedTurn(c: Config, w: World, t: int, k: nat)
    requires Interval(c.rate) > 0 && Paced(c, w) && k in StartedBy(w, t) && t >= c.paceFrom
    ensures w.started[k].turn < (t - c.paceFrom) / Interval(c.rate) + 1
  {
    assert DueAt(c, w.started[k].turn) <= w.started[k].at;
    hide Interval, Paced;
    TurnBound(w.started[k].turn, Interval(c.rate), t - c.paceFrom);
  }

  lemma TurnsApart(c: Config, w: World)
    requires Paced(c, w)
    ensures forall j, k :: 0 <= j < |w.started| && 0 <= k < |w.started| && j != k ==>
              w.started[j].turn != w.started[k].turn
  {
    hide Interval, DueAt;
  }

  lemma StartedBound(c: Config, w: World, t: int)
    requires Interval(c.rate) > 0 && Paced(c, w) && t >= c.paceFrom
    ensures |StartedBy(w, t)| <= (t - c.paceFrom) / Interval(c.rate) + 1
  {
    hide Interval, DueAt, Paced;
    QuotientNotNegative(t - c.paceFrom, Interval(c.rate));
    var bound: nat := (t - c.paceFrom) / Interval(c.rate) + 1;
    forall k | k in StartedBy(w, t) ensures w.started[k].turn < bound { StartedTurn(c, w, t, k); }
    TurnsApart(c, w);
    DistinctTurnsBound(w, StartedBy(w, t), bound);
  }

  lemma QuotientNotNegative(elapsed: nat, interval: nat)
    requires interval > 0
    ensures elapsed / interval >= 0
  {
  }

  /**
   Pacing holds its rate: under every interleaving no slot of the schedule is
   shared, and by any time at most one query per interval since the start, and
   one more, has begun.
   */
  lemma PacingHolds(c: Config, now: int, actions: seq<Action>, t: int)
    requires 1 <= c.rate <= SECOND && AllEnabled(c, Initial(now), actions) && t >= c.paceFrom
    ensures var w := Run(c, Initial(now), actions);
            && (forall j, k :: 0 <= j < k < |w.started| ==> w.started[j].turn != w.started[k].turn)
            && |StartedBy(w, t)| <= (t - c.paceFrom) / Interval(c.rate) + 1
  {
    IntervalPositive(c.rate);
    assert Paced(c, Initial(now));
    hide Run, Interval, Paced, AllEnabled, StartedBy;
    RunKeepsPaced(c, Initial(now), actions);
    StartedBound(c, Run(c, Initial(now), actions), t);
    TurnsApart(c, Run(c, Initial(now), actions));
  }

  lemma IntervalPositive(rate: nat)
    requires 1 <= rate <= SECOND
    ensures Interval(rate) > 0 && rate * Interval(rate) <= SECOND
  {
  }

  /** How many turns beyond `rate` the truncated interval brings into the first second. */
  function Overrun(rate: nat): nat
    requires 1 <= rate <= SECOND
  {
    IntervalPositive(rate);
    (SECOND % rate + Interval(rate) - 1) / Interval(rate)
  }

  /** With `left` short of `n + 1` steps, the multiples of a step below `left` are those up to its ceiling. */
  lemma MultiplesBelow(turn: nat, step: nat, left: nat)
    requires step > 0
    ensures turn * step < left <==> turn < (left + step - 1) / step
  {
    var q := (left + step - 1) / step;
    assert q * step <= left + step - 1 < (q + 1) * step;
    assert (q + 1) * step == q * step + step;
    if turn < q {
      MulGrows(q, turn + 1, step);
      assert (turn + 1) * step == turn * step + step;
    } else {
      MulGrows(turn, q, step);
    }
  }

  /**
   Truncating the interval speeds the schedule up: the turns due within the
   first second are exactly `rate` and the overrun, which is none just when
   the rate divides the second.
   */
  lemma TurnsInFirstSecond(c: Config, turn: nat)
    requires 1 <= c.rate <= SECOND
    ensures DueAt(c, turn) < c.paceFrom + SECOND <==> turn < c.rate + Overrun(c.rate)
    ensures Overrun(c.rate) == 0 <==> SECOND % c.rate == 0
  {
    var step, over := Interval(c.rate), SECOND % c.rate;
    IntervalPositive(c.rate);
    assert c.rate * step + over == SECOND;
    if turn >= c.rate {
      MultiplesBelow(turn - c.rate, step, over);
      assert turn * step == c.rate * step + (turn - c.rate) * step;
    } else {
      MulGrows(c.rate, turn + 1, step);
      assert (turn + 1) * step == turn * step + step;
    }
    MultiplesBelow(0, step, over);
  }

  /** At 60000 a second three turns too many fall due; at 600 million, 400 million. */
  lemma RatesThatOverrun()
    ensures Overrun(60_000) == 3 && Overrun(600_000_000) == 400_000_000
  {
  }
}
