/**
 * What strict priority with refill gives over whole runs: bounded waiting on any number of cores, and shares on one.
 */
module SchedulerFairness {
  import opened Arith
  import opened TaskSelection
  import opened SmpScheduler
  import opened SchedulerLedger

  predicate Fixed(run: seq<Action>) {
    forall i :: 0 <= i < |run| ==> !run[i].Create?
  }

  lemma {:induction false} FixedIsLegal(s: Sys, run: seq<Action>)
    requires Safe(s) && Fixed(run)
    ensures LegalRun(s, run)
    decreases |run|
  {
    if run != [] {
      StepKeeps(s, run[0]);
      FixedIsLegal(Next(s, run[0]), run[1..]);
    }
  }

  // ----- shares of the ticks on one core

  /** On one core every task has had its slice reset equally often. */
  ghost predicate EvenRounds(s: Sys) {
    && Ledger(s) && |s.cores| == 1
    && forall t: nat, u: nat :: Occupied(s, t) && Occupied(s, u) ==> s.rounds[t] == s.rounds[u]
  }

  /** When one core has to refill, every task is waiting. */
  lemma RefillTakesAll(s: Sys, t: nat)
    requires Ledger(s) && |s.cores| == 1 && s.cores[0].pc.Select? && Refills(s.tasks) && Occupied(s, t)
    ensures In(s.tasks, t, Waiting)
  {
    assert SlotLedger(s.tasks[t], s.ticks[t], s.rounds[t]);
    assert CoreOk(s, s.cores[0]);
    PickMeaning(s.tasks);
    assert !In(s.tasks, t, Ready);
    assert RunningTask(s, t) ==> Owned(s, t) && Owns(s.cores[0], t);
  }

  lemma EvenRoundsKept(s: Sys, a: Action)
    requires EvenRounds(s) && !a.Create?
    ensures EvenRounds(Next(s, a))
  {
    LedgerKeeps(s, a);
    var refill := a.Advance? && a.c < |s.cores| && s.cores[a.c].pc.Select? && Refills(s.tasks);
    forall t: nat | Occupied(Next(s, a), t)
      ensures Occupied(s, t) && Next(s, a).rounds[t] == if refill then s.rounds[t] + 1 else s.rounds[t]
    {
      RoundOfSlot(s, a, t);
    }
    SameCores(s, a);
  }

  lemma SameCores(s: Sys, a: Action)
    requires Safe(s) && !a.Create?
    ensures |Next(s, a).cores| == |s.cores|
  {
  }

  lemma RoundOfSlot(s: Sys, a: Action, t: nat)
    requires EvenRounds(s) && !a.Create? && Occupied(Next(s, a), t)
    ensures Occupied(s, t) && t < |Next(s, a).rounds|
    ensures Next(s, a).rounds[t] ==
      if a.Advance? && a.c < |s.cores| && s.cores[a.c].pc.Select? && Refills(s.tasks) then s.rounds[t] + 1
      else s.rounds[t]
  {
    hide SlotLedger, BestOf;
    if a.Advance? && a.c < |s.cores| && s.cores[a.c].pc.Select? {
      SelectedSlot(s.tasks, t);
      if Refills(s.tasks) {
        RefillTakesAll(s, t);
      }
    }
  }

  lemma {:induction false} EvenRoundsOverRun(s: Sys, run: seq<Action>)
    requires EvenRounds(s) && Fixed(run) && LegalRun(s, run)
    ensures EvenRounds(Exec(s, run))
    decreases |run|
  {
    if run != [] {
      EvenRoundsKept(s, run[0]);
      EvenRoundsOverRun(Next(s, run[0]), run[1..]);
    }
  }

  lemma ShareBound(r: nat, p: nat, q: nat, u: nat, v: nat)
    requires u <= p && v <= q
    ensures (r * p + u) * q <= (r * q + v) * p + p * q
    ensures (r * q + v) * p <= (r * p + u) * q + p * q
  {
    assert (r * p + u) * q - (r * q + v) * p == u * q - v * p;
    assert u * q <= p * q by { assert (p - u) * q >= 0; }
    assert v * p <= q * p by { assert (q - v) * p >= 0; }
  }

  /**
   * One core, a fixed set of fresh tasks with positive priorities: at every point of every run, the ticks
   * of any two tasks are in the proportion of their priorities, up to one slice of each.
   */
  lemma ProportionalShare(priorities: seq<nat>, slots: nat, run: seq<Action>, i: nat, j: nat)
    requires |priorities| <= slots && i < |priorities| && j < |priorities| && Fixed(run)
    requires forall t :: 0 <= t < |priorities| ==> 1 <= priorities[t] < U64
    ensures LegalRun(Boot(1, priorities, slots), run)
    ensures var s := Exec(Boot(1, priorities, slots), run);
      && i < |s.ticks| && j < |s.ticks|
      && s.ticks[i] * priorities[j] <= s.ticks[j] * priorities[i] + priorities[i] * priorities[j]
      && s.ticks[j] * priorities[i] <= s.ticks[i] * priorities[j] + priorities[i] * priorities[j]
  {
    var s0 := Boot(1, priorities, slots);
    BootLedger(1, priorities, slots);
    FixedIsLegal(s0, run);
    EvenRoundsOverRun(s0, run);
    var s := Exec(s0, run);
    PrioritiesStay(s0, run, i);
    PrioritiesStay(s0, run, j);
    assert s0.tasks[i].priority == priorities[i] && s0.tasks[j].priority == priorities[j];
    assert SlotLedger(s.tasks[i], s.ticks[i], s.rounds[i]) && SlotLedger(s.tasks[j], s.ticks[j], s.rounds[j]);
    assert Occupied(s, i) && Occupied(s, j) && s.rounds[i] == s.rounds[j];
    assert s.tasks[i].counter <= priorities[i] && s.tasks[j].counter <= priorities[j];
    ShareBound(s.rounds[i], priorities[i], priorities[j],
      priorities[i] - s.tasks[i].counter, priorities[j] - s.tasks[j].counter);
  }

  lemma PriorityStays(s: Sys, a: Action, t: nat)
    requires Safe(s) && Occupied(s, t) && Legal(s, a)
    ensures Occupied(Next(s, a), t) && Next(s, a).tasks[t].priority == s.tasks[t].priority
    ensures |Next(s, a).tasks| == |s.tasks|
  {
    if a.Advance? && a.c < |s.cores| && s.cores[a.c].pc.Select? {
      SelectedSlot(s.tasks, t);
    }
  }

  lemma {:induction false} PrioritiesStay(s: Sys, run: seq<Action>, t: nat)
    requires Safe(s) && Occupied(s, t) && LegalRun(s, run)
    ensures Occupied(Exec(s, run), t) && Exec(s, run).tasks[t].priority == s.tasks[t].priority
    decreases |run|
  {
    if run != [] {
      StepKeeps(s, run[0]);
      PriorityStays(s, run[0], t);
      PrioritiesStay(Next(s, run[0]), run[1..], t);
    }
  }

  // ----- bounded waiting on any number of cores

  function ReadySet(ts: seq<Slot>): set<nat> {
    set i: nat | i < |ts| && In(ts, i, Ready)
  }

  function TaskSet(ts: seq<Slot>): set<nat> {
    set i: nat | i < |ts| && ts[i].Task?
  }

  /** The action is a selection that finds a task. */
  predicate Selects(s: Sys, a: Action) {
    a.Advance? && a.c < |s.cores| && s.cores[a.c].pc.Select? && Pick(s.tasks) != NONE
  }

  predicate Dispatches(s: Sys, a: Action, x: nat) {
    Selects(s, a) && Pick(s.tasks) == x
  }

  /** How many selections at most until task x is dispatched. */
  function Rank(s: Sys, x: nat): nat {
    |ReadySet(s.tasks)| + if In(s.tasks, x, Waiting) then |TaskSet(s.tasks)| else 0
  }

  predicate Queued(s: Sys, x: nat) {
    In(s.tasks, x, Ready) || In(s.tasks, x, Waiting)
  }

  lemma SubsetSize(a: set<nat>, b: set<nat>)
    requires a <= b
    ensures |a| <= |b|
  {
    assert b == a + (b - a);
  }

  lemma SelectRank(s: Sys, a: Action, x: nat)
    requires Safe(s) && Queued(s, x) && Selects(s, a) && Pick(s.tasks) != x
    ensures Queued(Next(s, a), x) && Rank(Next(s, a), x) + 1 <= Rank(s, x)
    ensures TaskSet(Next(s, a).tasks) == TaskSet(s.tasks)
  {
    var s' := Next(s, a);
    var p := Pick(s.tasks);
    PickMeaning(s.tasks);
    forall i: nat | i < |s.tasks|
      ensures s'.tasks[i].Task? <==> s.tasks[i].Task?
      ensures In(s'.tasks, i, Ready) <==>
        i != p && (In(s.tasks, i, Ready) || (Refills(s.tasks) && In(s.tasks, i, Waiting)))
      ensures In(s'.tasks, i, Waiting) <==> In(s.tasks, i, Waiting) && !Refills(s.tasks)
    {
      SelectedSlot(s.tasks, i);
    }
    assert TaskSet(s'.tasks) == TaskSet(s.tasks);
    if Refills(s.tasks) {
      assert ReadySet(s.tasks) == {};
      assert ReadySet(s'.tasks) <= TaskSet(s.tasks) - {p};
      SubsetSize(ReadySet(s'.tasks), TaskSet(s.tasks) - {p});
      assert p in TaskSet(s.tasks);
    } else {
      assert ReadySet(s'.tasks) == ReadySet(s.tasks) - {p};
      assert p in ReadySet(s.tasks);
    }
  }

  lemma QuietRank(s: Sys, a: Action, x: nat)
    requires Safe(s) && Queued(s, x) && !a.Create? && !Selects(s, a)
    ensures Queued(Next(s, a), x) && Rank(Next(s, a), x) == Rank(s, x)
    ensures TaskSet(Next(s, a).tasks) == TaskSet(s.tasks)
  {
    var s' := Next(s, a);
    assert a.Advance? && a.c < |s.cores| ==> CoreFormed(s, s.cores[a.c]) && CoreOk(s, s.cores[a.c]);
    forall i: nat | i < |s.tasks|
      ensures |s'.tasks| == |s.tasks| && (s'.tasks[i].Task? <==> s.tasks[i].Task?)
      ensures In(s'.tasks, i, Ready) <==> In(s.tasks, i, Ready)
      ensures In(s.tasks, i, Waiting) ==> In(s'.tasks, i, Waiting)
    {
    }
    assert ReadySet(s'.tasks) == ReadySet(s.tasks) && TaskSet(s'.tasks) == TaskSet(s.tasks);
  }

  /** The number of selections in a run that found a task. */
  function Selections(s: Sys, run: seq<Action>): nat
    requires Safe(s) && Fixed(run)
    decreases |run|
  {
    if run == [] then 0
    else
      StepKeeps(s, run[0]);
      (if Selects(s, run[0]) then 1 else 0) + Selections(Next(s, run[0]), run[1..])
  }

  /** Task x is dispatched at some point of the run. */
  predicate DispatchedIn(s: Sys, run: seq<Action>, x: nat)
    requires Safe(s) && Fixed(run)
    decreases |run|
  {
    run != [] &&
    (StepKeeps(s, run[0]);
     Dispatches(s, run[0], x) || DispatchedIn(Next(s, run[0]), run[1..], x))
  }

  lemma {:induction false} DispatchedWithinRank(s: Sys, run: seq<Action>, x: nat)
    requires Safe(s) && Queued(s, x) && Fixed(run) && Selections(s, run) >= Rank(s, x)
    ensures DispatchedIn(s, run, x)
    decreases |run|
  {
    assert x in ReadySet(s.tasks) || x in TaskSet(s.tasks);
    if run != [] && !Dispatches(s, run[0], x) {
      StepKeeps(s, run[0]);
      if Selects(s, run[0]) {
        SelectRank(s, run[0], x);
      } else {
        QuietRank(s, run[0], x);
      }
      DispatchedWithinRank(Next(s, run[0]), run[1..], x);
    }
  }

  /**
   * Nobody starves, whatever the priorities and the number of cores: with N tasks and none created, a ready
   * or waiting task is dispatched within 2N - 1 successful selections.
   */
  lemma BoundedWaiting(s: Sys, run: seq<Action>, x: nat)
    requires Safe(s) && Queued(s, x) && Fixed(run)
    requires Selections(s, run) >= 2 * |TaskSet(s.tasks)| - 1
    ensures DispatchedIn(s, run, x)
  {
    if In(s.tasks, x, Waiting) {
      SubsetSize(ReadySet(s.tasks), TaskSet(s.tasks) - {x});
    } else {
      SubsetSize(ReadySet(s.tasks), TaskSet(s.tasks));
    }
    assert x in TaskSet(s.tasks);
    DispatchedWithinRank(s, run, x);
  }

  // ----- once per round

  predicate NoRefill(s: Sys, run: seq<Action>)
    requires Safe(s) && LegalRun(s, run)
    decreases |run|
  {
    run != [] ==>
      !(Selects(s, run[0]) && Refills(s.tasks)) &&
      (StepKeeps(s, run[0]); NoRefill(Next(s, run[0]), run[1..]))
  }

  function Dispatched(s: Sys, run: seq<Action>, x: nat): nat
    requires Safe(s) && LegalRun(s, run)
    decreases |run|
  {
    if run == [] then 0
    else
      StepKeeps(s, run[0]);
      (if Dispatches(s, run[0], x) then 1 else 0) + Dispatched(Next(s, run[0]), run[1..], x)
  }

  /** Without a refill a task that is not ready stays so. */
  lemma NotReadyStays(s: Sys, a: Action, x: nat)
    requires Safe(s) && Occupied(s, x) && Legal(s, a) && !(Selects(s, a) && Refills(s.tasks))
    ensures Occupied(Next(s, a), x)
    ensures !In(s.tasks, x, Ready) ==> !Dispatches(s, a, x) && !In(Next(s, a).tasks, x, Ready)
    ensures Dispatches(s, a, x) ==> !In(Next(s, a).tasks, x, Ready)
  {
    PriorityStays(s, a, x);
    PickMeaning(s.tasks);
    if a.Advance? && a.c < |s.cores| {
      assert CoreFormed(s, s.cores[a.c]) && CoreOk(s, s.cores[a.c]);
      SelectedSlot(s.tasks, x);
    }
  }

  /** Between two refills no task is dispatched twice, on however many cores. */
  lemma {:induction false} OncePerRound(s: Sys, run: seq<Action>, x: nat)
    requires Safe(s) && Occupied(s, x) && LegalRun(s, run) && NoRefill(s, run)
    ensures Dispatched(s, run, x) <= if In(s.tasks, x, Ready) then 1 else 0
    decreases |run|
  {
    if run != [] {
      StepKeeps(s, run[0]);
      NotReadyStays(s, run[0], x);
      OncePerRound(Next(s, run[0]), run[1..], x);
    }
  }

  // ----- the first charge of a dispatched task

  /** The action is a timer interrupt's charge to task t. */
  predicate Charges(s: Sys, a: Action, t: nat) {
    a.Advance? && a.c < |s.cores| && s.cores[a.c].pc.TimerCheck? && s.cores[a.c].cur == Current.Task(t)
  }

  /** No action of the run charges task t. */
  predicate Uncharged(s: Sys, run: seq<Action>, t: nat)
    requires Safe(s) && LegalRun(s, run)
    decreases |run|
  {
    run == [] || (!Charges(s, run[0], t) && (StepKeeps(s, run[0]); Uncharged(Next(s, run[0]), run[1..], t)))
  }

  /** Task t runs on core c, or is about to, with n ticks left. */
  ghost predicate InService(s: Sys, c: nat, t: nat, n: nat) {
    && Safe(s) && c < |s.cores| && RunningTask(s, t) && s.tasks[t].counter == n
    && Owns(s.cores[c], t) && !s.cores[c].pc.Park? && !s.cores[c].pc.Select?
  }

  /** The ticks with which the picked task is dispatched. */
  function Slice(ts: seq<Slot>): nat
    requires Pick(ts) != NONE
  {
    Selected(ts)[Pick(ts)].counter
  }

  /** Dispatching a task puts it in service. */
  lemma DispatchServes(s: Sys, c: nat)
    requires Safe(s) && c < |s.cores| && s.cores[c].pc.Select? && Pick(s.tasks) != NONE
    ensures InService(Next(s, Advance(c)), c, Pick(s.tasks), Slice(s.tasks))
  {
    StepKeeps(s, Advance(c));
    SelectedSlot(s.tasks, Pick(s.tasks));
  }

  /** Whatever any core does, short of the charge, the task stays there with its ticks. */
  lemma ServiceStays(s: Sys, a: Action, c: nat, t: nat, n: nat)
    requires InService(s, c, t, n) && Legal(s, a) && !Charges(s, a, t)
    ensures InService(Next(s, a), c, t, n)
  {
    StepKeeps(s, a);
    if a.Advance? && a.c < |s.cores| {
      if a.c == c {
        ServiceStep(s, c, t, n);
      } else {
        OtherStep(s, a.c, c, t, n);
      }
    }
  }

  lemma ServiceStep(s: Sys, c: nat, t: nat, n: nat)
    requires InService(s, c, t, n) && !s.cores[c].pc.TimerCheck?
    ensures var s' := Step(s, c);
      && c < |s'.cores| && RunningTask(s', t) && s'.tasks[t].counter == n
      && Owns(s'.cores[c], t) && !s'.cores[c].pc.Park? && !s'.cores[c].pc.Select?
  {
    assert CoreFormed(s, s.cores[c]) && CoreOk(s, s.cores[c]);
  }

  lemma OtherStep(s: Sys, d: nat, c: nat, t: nat, n: nat)
    requires InService(s, c, t, n) && d < |s.cores| && d != c
    ensures var s' := Step(s, d);
      c < |s'.cores| && s'.cores[c] == s.cores[c] && RunningTask(s', t) && s'.tasks[t].counter == n
  {
    assert CoreFormed(s, s.cores[d]) && CoreOk(s, s.cores[d]) && CoreOk(s, s.cores[c]);
    assert Apart(s.cores[c], s.cores[d]) && Apart(s.cores[d], s.cores[c]);
    if s.cores[d].pc.Select? {
      SelectedSlot(s.tasks, t);
      PickMeaning(s.tasks);
    }
  }

  lemma {:induction false} ServiceLasts(s: Sys, run: seq<Action>, c: nat, t: nat, n: nat)
    requires InService(s, c, t, n) && LegalRun(s, run) && Uncharged(s, run, t)
    ensures InService(Exec(s, run), c, t, n)
    decreases |run|
  {
    if run != [] {
      StepKeeps(s, run[0]);
      ServiceStays(s, run[0], c, t, n);
      ServiceLasts(Next(s, run[0]), run[1..], c, t, n);
    }
  }

  /** Core c dispatches task t, and a is the first charge to t after that, with any run of any cores in between. */
  ghost predicate FirstChargeOf(s: Sys, c: nat, run: seq<Action>, a: Action) {
    && Safe(s) && c < |s.cores| && s.cores[c].pc.Select? && Pick(s.tasks) != NONE
    && (StepKeeps(s, Advance(c)); var s1 := Next(s, Advance(c));
        LegalRun(s1, run) && Uncharged(s1, run, Pick(s.tasks)) && Charges(Exec(s1, run), a, Pick(s.tasks)))
  }

  ghost function AfterCharge(s: Sys, c: nat, run: seq<Action>, a: Action): Sys
    requires FirstChargeOf(s, c, run, a)
  {
    StepKeeps(s, Advance(c));
    Next(Exec(Next(s, Advance(c)), run), a)
  }

  /**
   * A task dispatched with n ticks left has n - 1 after its first charge, in 64-bit arithmetic, whatever happens in
   * between: the charge is by the core that dispatched it, and it is parked exactly when that leaves none.
   */
  lemma FirstCharge(s: Sys, c: nat, run: seq<Action>, a: Action)
    requires FirstChargeOf(s, c, run, a)
    ensures var t, s' := Pick(s.tasks), AfterCharge(s, c, run, a);
      && Occupied(s', t) && s'.tasks[t].counter == (Slice(s.tasks) - 1) % U64
      && a.c == c < |s'.cores| && s'.cores[c].pc == if s'.tasks[t].counter > 0 then Unlock else Park
  {
    hide InService, Uncharged, LegalRun, Selected, Slice, BestOf;
    var t, n := Pick(s.tasks), Slice(s.tasks);
    StepKeeps(s, Advance(c));
    DispatchServes(s, c);
    ServiceLasts(Next(s, Advance(c)), run, c, t, n);
    ChargeServed(Exec(Next(s, Advance(c)), run), a, c, t, n);
  }

  lemma OneOwner(s: Sys, c: nat, d: nat, t: nat)
    requires Safe(s) && c < |s.cores| && d < |s.cores| && Owns(s.cores[c], t) && s.cores[d].cur == Current.Task(t)
    ensures c == d
  {
    if c != d {
      AllApart(s, c, d);
    }
  }

  lemma AllApart(s: Sys, c: nat, d: nat)
    requires Safe(s) && c < |s.cores| && d < |s.cores| && c != d
    ensures Apart(s.cores[c], s.cores[d])
  {
  }

  lemma ChargeServed(s: Sys, a: Action, c: nat, t: nat, n: nat)
    requires InService(s, c, t, n) && Charges(s, a, t)
    ensures var s' := Next(s, a);
      && Occupied(s', t) && s'.tasks[t].counter == (n - 1) % U64
      && a.c == c < |s'.cores| && s'.cores[c].pc == if s'.tasks[t].counter > 0 then Unlock else Park
  {
    OneOwner(s, c, a.c, t);
  }

  lemma WrapIff(n: nat, m: int)
    requires n < U64 && m == (n - 1) % U64
    ensures m > n <==> n == 0
  {
  }

  /**
   * Of the tasks dispatched with a full slice, exactly those of priority zero then get a counter above their priority.
   */
  lemma ZeroPriorityWrapsIff(s: Sys, c: nat, run: seq<Action>, a: Action)
    requires FirstChargeOf(s, c, run, a)
    requires var t := Pick(s.tasks); Slice(s.tasks) == s.tasks[t].priority < U64
    ensures var t, s' := Pick(s.tasks), AfterCharge(s, c, run, a);
      Occupied(s', t) && (s'.tasks[t].counter > s.tasks[t].priority <==> s.tasks[t].priority == 0)
  {
    hide AfterCharge, Selected, Slice, BestOf;
    FirstCharge(s, c, run, a);
    WrapIff(s.tasks[Pick(s.tasks)].priority, (s.tasks[Pick(s.tasks)].priority - 1) % U64);
  }

  /** An action before the first charge, in front of the rest of the run. */
  lemma UnchargedStep(s: Sys, a: Action, rest: seq<Action>, t: nat)
    requires Safe(s) && !a.Create? && !Charges(s, a, t)
    requires (StepKeeps(s, a); LegalRun(Next(s, a), rest) && Uncharged(Next(s, a), rest, t))
    ensures LegalRun(s, [a] + rest) && Uncharged(s, [a] + rest, t)
    ensures Safe(Next(s, a)) && Exec(s, [a] + rest) == Exec(Next(s, a), rest)
  {
    StepKeeps(s, a);
    assert ([a] + rest)[1..] == rest;
  }

  /** One core and one task of priority zero, the core being at the given place. */
  function Alone(lock: bool, state: TaskState, cur: Current, pc: Pc): Sys {
    Sys(lock, [Slot.Task(state, 0, 0)], [Core(cur, pc)], [0], [0])
  }

  /** The core has picked the task, and goes on to its next timer interrupt up to the charge. */
  lemma AloneRuns() returns (run: seq<Action>)
    ensures var s := Alone(true, Running, Nobody, Publish(0));
      && Safe(s) && LegalRun(s, run) && Uncharged(s, run, 0)
      && Exec(s, run) == Alone(true, Running, Current.Task(0), TimerCheck)
  {
    var a := Advance(0);
    var s1, s2 := Alone(true, Running, Nobody, Publish(0)), Alone(true, Running, Current.Task(0), Mark(0));
    var s3, s4 := Alone(true, Running, Current.Task(0), Unlock), Alone(false, Running, Current.Task(0), Outside);
    var s5, s6 := Alone(false, Running, Current.Task(0), TimerLock), Alone(true, Running, Current.Task(0), TimerCheck);
    AloneSafe();
    AloneSteps();
    assert LegalRun(s6, []) && Uncharged(s6, [], 0) && Exec(s6, []) == s6;
    UnchargedStep(s5, a, [], 0);
    UnchargedStep(s4, TimerInterrupt(0), [a] + [], 0);
    UnchargedStep(s3, a, [TimerInterrupt(0)] + ([a] + []), 0);
    UnchargedStep(s2, a, [a] + ([TimerInterrupt(0)] + ([a] + [])), 0);
    UnchargedStep(s1, a, [a] + ([a] + ([TimerInterrupt(0)] + ([a] + []))), 0);
    run := [a] + ([a] + ([a] + ([TimerInterrupt(0)] + ([a] + []))));
  }

  lemma AloneSafe()
    ensures Safe(Alone(true, Ready, Nobody, Select)) && Safe(Alone(true, Running, Nobody, Publish(0)))
    ensures Safe(Alone(true, Running, Current.Task(0), Mark(0))) && Safe(Alone(true, Running, Current.Task(0), Unlock))
    ensures Safe(Alone(false, Running, Current.Task(0), Outside))
    ensures Safe(Alone(false, Running, Current.Task(0), TimerLock))
    ensures Safe(Alone(true, Running, Current.Task(0), TimerCheck))
  {
    hide Safe;
    OneSafe(Alone(true, Ready, Nobody, Select));
    OneSafe(Alone(true, Running, Nobody, Publish(0)));
    OneSafe(Alone(true, Running, Current.Task(0), Mark(0)));
    OneSafe(Alone(true, Running, Current.Task(0), Unlock));
    OneSafe(Alone(false, Running, Current.Task(0), Outside));
    OneSafe(Alone(false, Running, Current.Task(0), TimerLock));
    OneSafe(Alone(true, Running, Current.Task(0), TimerCheck));
  }

  lemma OneSafe(s: Sys)
    requires |s.cores| == 1 && |s.tasks| == |s.ticks| == |s.rounds| == 1 && CoreFormed(s, s.cores[0])
    requires CoreOk(s, s.cores[0])
    requires (s.lock <==> Holds(s.cores[0].pc)) && (RunningTask(s, 0) ==> Owns(s.cores[0], 0))
    ensures Safe(s)
  {
  }

  lemma AloneSteps()
    ensures Next(Alone(true, Running, Nobody, Publish(0)), Advance(0)) == Alone(true, Running, Current.Task(0), Mark(0))
    ensures Next(Alone(true, Running, Current.Task(0), Mark(0)), Advance(0)) ==
      Alone(true, Running, Current.Task(0), Unlock)
    ensures Next(Alone(true, Running, Current.Task(0), Unlock), Advance(0)) ==
      Alone(false, Running, Current.Task(0), Outside)
    ensures Next(Alone(false, Running, Current.Task(0), Outside), TimerInterrupt(0)) ==
      Alone(false, Running, Current.Task(0), TimerLock)
    ensures Next(Alone(false, Running, Current.Task(0), TimerLock), Advance(0)) ==
      Alone(true, Running, Current.Task(0), TimerCheck)
  {
  }

  /** An input that fails: the task of priority zero is dispatched, and its first charge wraps its counter. */
  lemma ZeroPriorityWraps() returns (run: seq<Action>)
    ensures var s := Alone(true, Ready, Nobody, Select);
      && FirstChargeOf(s, 0, run, Advance(0)) && Pick(s.tasks) == 0
      && var s' := AfterCharge(s, 0, run, Advance(0)); Occupied(s', 0) && s'.tasks[0].counter == U64 - 1
  {
    hide Safe;
    var s := Alone(true, Ready, Nobody, Select);
    AloneSafe();
    run := AloneRuns();
    AlonePicked();
    FirstCharge(s, 0, run, Advance(0));
  }

  lemma AlonePicked()
    ensures var s := Alone(true, Ready, Nobody, Select);
      && Pick(s.tasks) == 0 && Slice(s.tasks) == 0 && WellFormed(s)
      && Next(s, Advance(0)) == Alone(true, Running, Nobody, Publish(0))
  {
    var s := Alone(true, Ready, Nobody, Select);
    assert BestOf(s.tasks, Ready, 0) == NONE;
    assert Pick(s.tasks) == 0;
    assert RoundsAfter(s) == [0];
  }
}
