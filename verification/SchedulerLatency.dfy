/**
 * How long a task waits, in timer ticks of any one core: the slices bound the ticks between two selections, and the
 * selections are bounded by the number of tasks.
 */
module SchedulerLatency {
  import opened Arith
  import opened TaskSelection
  import opened SmpScheduler
  import opened SchedulerLedger
  import opened SchedulerFairness

  /** The action is the check of core c's timer handler, of which there is one for each timer interrupt it handles. */
  predicate Tick(s: Sys, a: Action, c: nat) {
    a == Advance(c) && c < |s.cores| && s.cores[c].pc.TimerCheck?
  }

  /** The timer ticks of core c in a run. */
  function TicksOf(s: Sys, run: seq<Action>, c: nat): nat
    requires Safe(s) && Fixed(run)
    decreases |run|
  {
    if run == [] then 0
    else
      StepKeeps(s, run[0]);
      (if Tick(s, run[0], c) then 1 else 0) + TicksOf(Next(s, run[0]), run[1..], c)
  }

  /** No priority is above p. */
  ghost predicate Capped(s: Sys, p: nat) {
    forall t: nat :: Occupied(s, t) ==> s.tasks[t].priority <= p
  }

  function CounterOf(s: Sys, t: nat): nat {
    if t < |s.tasks| && s.tasks[t].Task? then s.tasks[t].counter else 0
  }

  /** How many ticks at most core c still takes before it selects, the one under way included. */
  function TicksLeft(s: Sys, c: nat): nat
    requires c < |s.cores|
  {
    var core := s.cores[c];
    if core.pc.Select? || core.pc.Park? then 0
    else if core.pc.Publish? then CounterOf(s, core.pc.t) + 1
    else if core.cur.Task? then CounterOf(s, core.cur.t) + 1
    else 1
  }

  /** How many ticks of core c at most until task x is dispatched. */
  function Latency(s: Sys, c: nat, x: nat, p: nat): nat
    requires c < |s.cores|
  {
    Rank(s, x) * (p + 2) + TicksLeft(s, c)
  }

  lemma CounterCapped(s: Sys, t: nat, p: nat)
    requires Ledger(s) && Capped(s, p)
    ensures CounterOf(s, t) <= p
  {
    if t < |s.tasks| && s.tasks[t].Task? {
      assert SlotLedger(s.tasks[t], s.ticks[t], s.rounds[t]) && Occupied(s, t);
    }
  }

  lemma LeftCapped(s: Sys, c: nat, p: nat)
    requires Ledger(s) && Capped(s, p) && c < |s.cores|
    ensures TicksLeft(s, c) <= p + 1
  {
    hide Ledger, CounterOf;
    if s.cores[c].pc.Publish? {
      CounterCapped(s, s.cores[c].pc.t, p);
    } else if s.cores[c].cur.Task? {
      CounterCapped(s, s.cores[c].cur.t, p);
    }
  }

  /** The task that counts for core c runs, and no other core has it. */
  lemma CountedRuns(s: Sys, c: nat)
    requires Safe(s) && c < |s.cores| && !s.cores[c].pc.Select? && !s.cores[c].pc.Park?
    ensures s.cores[c].pc.Publish? ==> RunningTask(s, s.cores[c].pc.t)
    ensures !s.cores[c].pc.Publish? && s.cores[c].cur.Task? ==> RunningTask(s, s.cores[c].cur.t)
  {
    assert CoreOk(s, s.cores[c]);
  }

  /** What other cores do is nothing to the task of core c. */
  lemma OtherCounter(s: Sys, d: nat, c: nat, t: nat)
    requires Safe(s) && c < |s.cores| && d < |s.cores| && d != c && RunningTask(s, t) && Owns(s.cores[c], t)
    requires !s.cores[c].pc.Select? && !s.cores[c].pc.Park?
    ensures CounterOf(Step(s, d), t) == CounterOf(s, t)
  {
    assert CoreFormed(s, s.cores[d]) && CoreOk(s, s.cores[d]) && CoreOk(s, s.cores[c]);
    assert Apart(s.cores[c], s.cores[d]) && Apart(s.cores[d], s.cores[c]);
    if s.cores[d].pc.Select? {
      SelectedSlot(s.tasks, t);
      PickMeaning(s.tasks);
    }
  }

  lemma OtherCore(s: Sys, d: nat, c: nat)
    requires Safe(s) && c < |s.cores| && d < |s.cores| && d != c
    ensures |Step(s, d).cores| == |s.cores| && Step(s, d).cores[c] == s.cores[c]
  {
  }

  lemma OtherLeft(s: Sys, d: nat, c: nat)
    requires Safe(s) && c < |s.cores| && d < |s.cores| && d != c
    ensures |Step(s, d).cores| == |s.cores| && TicksLeft(Step(s, d), c) == TicksLeft(s, c)
  {
    hide Safe, Step, CounterOf;
    OtherCore(s, d, c);
    if !s.cores[c].pc.Select? && !s.cores[c].pc.Park? {
      CountedRuns(s, c);
      if s.cores[c].pc.Publish? {
        OtherCounter(s, d, c, s.cores[c].pc.t);
      } else if s.cores[c].cur.Task? {
        OtherCounter(s, d, c, s.cores[c].cur.t);
      }
    }
  }

  /** A step of core c itself, other than a selection, takes a tick off when it is one, and adds none. */
  lemma OwnLeft(s: Sys, c: nat)
    requires Ledger(s) && c < |s.cores| && !s.cores[c].pc.Select?
    ensures |Step(s, c).cores| == |s.cores|
    ensures TicksLeft(Step(s, c), c) + (if s.cores[c].pc.TimerCheck? then 1 else 0) <= TicksLeft(s, c)
  {
    assert CoreFormed(s, s.cores[c]) && CoreOk(s, s.cores[c]);
    if s.cores[c].pc.TimerCheck? && s.cores[c].cur.Task? {
      ChargeNeverWraps(s, c);
      assert SlotLedger(s.tasks[s.cores[c].cur.t], s.ticks[s.cores[c].cur.t], s.rounds[s.cores[c].cur.t]);
    }
  }

  lemma InterruptLeft(s: Sys, a: Action, c: nat)
    requires Safe(s) && c < |s.cores| && !a.Create? && !a.Advance?
    ensures |Next(s, a).cores| == |s.cores| && TicksLeft(Next(s, a), c) == TicksLeft(s, c)
  {
  }

  lemma CappedStays(s: Sys, a: Action, p: nat)
    requires Safe(s) && Capped(s, p) && !a.Create?
    ensures Capped(Next(s, a), p)
  {
    forall t: nat | Occupied(Next(s, a), t)
      ensures Next(s, a).tasks[t].priority <= p
    {
      SameTasks(s, a, t);
      PriorityStays(s, a, t);
    }
  }

  lemma SameTasks(s: Sys, a: Action, t: nat)
    requires Safe(s) && !a.Create? && Occupied(Next(s, a), t)
    ensures Occupied(s, t)
  {
    if a.Advance? && a.c < |s.cores| {
      assert CoreFormed(s, s.cores[a.c]) && CoreOk(s, s.cores[a.c]);
      if s.cores[a.c].pc.Select? && t < |s.tasks| {
        SelectedSlot(s.tasks, t);
      }
    }
  }

  lemma Product(r: nat, q: nat, n: nat)
    requires r + 1 <= q
    ensures r * n + n <= q * n
  {
    MulLess(r + 1, q, n);
    assert (r + 1) * n == r * n + n;
  }

  /** Until x is dispatched no action adds to its latency, and every tick of core c takes from it. */
  lemma LatencyStep(s: Sys, a: Action, c: nat, x: nat, p: nat)
    requires Ledger(s) && Capped(s, p) && Queued(s, x) && c < |s.cores| && !a.Create? && !Dispatches(s, a, x)
    ensures Ledger(Next(s, a)) && Capped(Next(s, a), p) && Queued(Next(s, a), x) && |Next(s, a).cores| == |s.cores|
    ensures Latency(Next(s, a), c, x, p) + (if Tick(s, a, c) then 1 else 0) <= Latency(s, c, x, p)
  {
    hide Safe, TicksLeft, Rank, SlotLedger, Capped, Queued, Step, Pick;
    LedgerSafe(s);
    LedgerKeeps(s, a);
    CappedStays(s, a, p);
    SameCores(s, a);
    if Selects(s, a) {
      SelectRank(s, a, x);
      Product(Rank(Next(s, a), x), Rank(s, x), p + 2);
      LeftCapped(Next(s, a), c, p);
    } else {
      QuietRank(s, a, x);
      if !a.Advance? {
        InterruptLeft(s, a, c);
      } else if a.c < |s.cores| {
        if a.c != c {
          OtherLeft(s, a.c, c);
        } else {
          NotSelecting(s, a, x);
          OwnLeft(s, c);
        }
      }
    }
  }

  lemma LedgerSafe(s: Sys)
    requires Ledger(s)
    ensures Safe(s) && WellFormed(s)
  {
  }

  /** A core that selects while x is queued finds a task. */
  lemma NotSelecting(s: Sys, a: Action, x: nat)
    requires Queued(s, x) && a.Advance? && a.c < |s.cores| && !Selects(s, a)
    ensures !s.cores[a.c].pc.Select?
  {
    PickMeaning(s.tasks);
  }

  lemma {:induction false} DispatchedInTime(s: Sys, run: seq<Action>, c: nat, x: nat, p: nat)
    requires Ledger(s) && Capped(s, p) && Queued(s, x) && Fixed(run) && c < |s.cores|
    requires TicksOf(s, run, c) > Latency(s, c, x, p)
    ensures DispatchedIn(s, run, x)
    decreases |run|
  {
    hide Ledger, Capped, Queued, Latency, Next, Dispatches, Tick;
    LedgerSafe(s);
    if !Dispatches(s, run[0], x) {
      StepKeeps(s, run[0]);
      LatencyStep(s, run[0], c, x, p);
      DispatchedInTime(Next(s, run[0]), run[1..], c, x, p);
    }
  }

  /** The ticks in which each of 2n - 1 selections can use up a slice of p. */
  function LongestWait(n: nat, p: nat): int {
    (2 * n - 1) * (p + 2) + p + 1
  }

  lemma LatencyBound(s: Sys, c: nat, x: nat, p: nat)
    requires Ledger(s) && Capped(s, p) && Queued(s, x) && c < |s.cores|
    ensures Latency(s, c, x, p) <= LongestWait(|TaskSet(s.tasks)|, p)
  {
    hide Ledger, Capped, Queued, Rank, TicksLeft, TaskSet;
    RankBound(s, x);
    LeftCapped(s, c, p);
    var n, r := 2 * |TaskSet(s.tasks)| - 1, Rank(s, x);
    assert r * (p + 2) <= n * (p + 2) by {
      MulLess(r, n, p + 2);
    }
  }

  /**
   * Nobody waits long: with N tasks of priorities from 1 to p and none created, whatever the cores do, a ready or
   * waiting task is dispatched before any one core has had more than (2N - 1) * (p + 2) + p + 1 timer ticks.
   */
  lemma TickBound(s: Sys, run: seq<Action>, c: nat, x: nat, p: nat)
    requires Ledger(s) && Capped(s, p) && Queued(s, x) && Fixed(run) && c < |s.cores|
    requires TicksOf(s, run, c) > LongestWait(|TaskSet(s.tasks)|, p)
    ensures DispatchedIn(s, run, x)
  {
    hide Ledger, Capped, Queued, TicksOf, DispatchedIn, Latency, LongestWait;
    LatencyBound(s, c, x, p);
    DispatchedInTime(s, run, c, x, p);
  }

  lemma RankBound(s: Sys, x: nat)
    requires Queued(s, x)
    ensures 1 <= Rank(s, x) <= 2 * |TaskSet(s.tasks)| - 1
  {
    assert x in TaskSet(s.tasks);
    if In(s.tasks, x, Waiting) {
      SubsetSize(ReadySet(s.tasks), TaskSet(s.tasks) - {x});
    } else {
      assert x in ReadySet(s.tasks);
      SubsetSize({x}, ReadySet(s.tasks));
      SubsetSize(ReadySet(s.tasks), TaskSet(s.tasks));
    }
  }
}
