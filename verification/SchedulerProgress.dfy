/**
 * What the interrupt handlers of x64_kenerl/asm/apic_interrupts.asm come to over runs: in every interleaving with the
 * other cores and with creations, from the interrupt to the return, a core that is given its turns charges its task,
 * selects when it has none or the slice is used up, and goes on with the best task there is.
 */
module SchedulerProgress {
  import opened Arith
  import opened TaskSelection
  import opened SmpScheduler

  // ----- turns

  /** Core c is given its next step of a handler, and is not spinning on the lock. */
  predicate Turn(s: Sys, a: Action, c: nat) {
    && a == Advance(c) && c < |s.cores| && !s.cores[c].pc.Outside?
    && (s.cores[c].pc.TimerLock? || s.cores[c].pc.BroadcastLock? ==> !s.lock)
  }

  function Turns(s: Sys, run: seq<Action>, c: nat): nat
    requires Safe(s) && LegalRun(s, run)
    decreases |run|
  {
    if run == [] then 0
    else
      StepKeeps(s, run[0]);
      (if Turn(s, run[0], c) then 1 else 0) + Turns(Next(s, run[0]), run[1..], c)
  }

  /** The run is legal and leads from s to u. */
  ghost predicate Leads(s: Sys, run: seq<Action>, u: Sys) {
    Safe(s) && Safe(u) && LegalRun(s, run) && Exec(s, run) == u
  }

  lemma LeadsOne(s: Sys, a: Action)
    requires Safe(s) && Legal(s, a)
    ensures Leads(s, [a], Next(s, a)) && Leads(s, [], s)
  {
    StepKeeps(s, a);
    ExecOne(s, a);
  }

  lemma LeadsJoin(s: Sys, run: seq<Action>, u: Sys, more: seq<Action>, v: Sys)
    requires Leads(s, run, u) && Leads(u, more, v)
    ensures Leads(s, run + more, v)
  {
    ExecJoin(s, run, more);
  }

  // ----- between two turns of a core

  /** Nothing but tasks created in empty slots. */
  ghost predicate OnlyCreated(s: Sys, u: Sys) {
    && |u.tasks| == |s.tasks| && u.ticks == s.ticks && u.rounds == s.rounds
    && forall i :: 0 <= i < |s.tasks| && s.tasks[i].Task? ==> u.tasks[i] == s.tasks[i]
  }

  /** Core c stays where it is, and what it has locked changes by creations only. */
  ghost predicate Steady(s: Sys, u: Sys, c: nat) {
    && c < |s.cores| == |u.cores| && u.cores[c] == s.cores[c]
    && (Holds(s.cores[c].pc) ==> OnlyCreated(s, u))
  }

  lemma SteadyStep(s: Sys, a: Action, c: nat)
    requires Safe(s) && Legal(s, a) && c < |s.cores| && !s.cores[c].pc.Outside? && !Turn(s, a, c)
    ensures Steady(s, Next(s, a), c)
  {
    if a.Advance? && a.c < |s.cores| && a.c != c && Holds(s.cores[c].pc) {
      Others(s, c, a.c);
      assert s.lock;
    }
  }

  lemma SteadyOn(s: Sys, u: Sys, v: Sys, c: nat)
    requires Steady(s, u, c) && Steady(u, v, c)
    ensures Steady(s, v, c)
  {
  }

  /** Its next turn, taken: what comes before it leads to u, and with it to v. */
  lemma {:induction false} TakeTurn(s: Sys, run: seq<Action>, c: nat)
    returns (before: seq<Action>, u: Sys, part: seq<Action>, v: Sys, after: seq<Action>)
    requires Safe(s) && LegalRun(s, run) && c < |s.cores| && !s.cores[c].pc.Outside? && Turns(s, run, c) > 0
    ensures run == part + after && part == before + [Advance(c)]
    ensures Leads(s, before, u) && Leads(s, part, v) && v == Next(u, Advance(c))
    ensures Steady(s, u, c) && Turn(u, Advance(c), c)
    ensures LegalRun(v, after) && Turns(v, after, c) == Turns(s, run, c) - 1
    decreases |run|
  {
    hide Safe, Next, Turn, Steady;
    var a := run[0];
    SafeFormed(s);
    StepKeeps(s, a);
    LeadsOne(s, a);
    assert run == [a] + run[1..];
    if Turn(s, a, c) {
      TurnIs(s, a, c);
      before, u, part, v, after := [], s, [a], Next(s, a), run[1..];
      SteadyNow(s, c);
    } else {
      SteadyStep(s, a, c);
      SteadyCore(s, Next(s, a), c);
      var rest, more;
      rest, u, more, v, after := TakeTurn(Next(s, a), run[1..], c);
      before, part := [a] + rest, [a] + more;
      LeadsJoin(s, [a], Next(s, a), rest, u);
      LeadsJoin(s, [a], Next(s, a), more, v);
      SteadyOn(s, Next(s, a), u, c);
      assert part == before + [Advance(c)];
      assert run == [a] + (more + after) == part + after;
    }
  }

  lemma SafeFormed(s: Sys)
    requires Safe(s)
    ensures WellFormed(s) && |s.ticks| == |s.tasks| == |s.rounds|
  {
  }

  lemma TurnIs(s: Sys, a: Action, c: nat)
    requires Turn(s, a, c)
    ensures a == Advance(c)
  {
  }

  lemma SteadyNow(s: Sys, c: nat)
    requires c < |s.cores|
    ensures Steady(s, s, c)
  {
  }

  lemma SteadyCore(s: Sys, u: Sys, c: nat)
    requires Steady(s, u, c)
    ensures c < |s.cores| == |u.cores| && u.cores[c] == s.cores[c]
  {
  }

  // ----- one turn

  lemma UnlockTurn(s: Sys, c: nat)
    requires Safe(s) && c < |s.cores| && s.cores[c].pc.Unlock?
    ensures var v := Next(s, Advance(c));
      |v.cores| == |s.cores| && v.cores[c] == Core(s.cores[c].cur, Outside) && OnlyCreated(s, v)
  {
  }

  lemma MarkTurn(s: Sys, c: nat, t: nat)
    requires Safe(s) && c < |s.cores| && s.cores[c].pc == Mark(t)
    ensures var v := Next(s, Advance(c));
      |v.cores| == |s.cores| && v.cores[c] == Core(Current.Task(t), Unlock) && OnlyCreated(s, v)
  {
    assert CoreFormed(s, s.cores[c]) && CoreOk(s, s.cores[c]);
  }

  lemma PublishTurn(s: Sys, c: nat, t: nat)
    requires Safe(s) && c < |s.cores| && s.cores[c].pc == Publish(t)
    ensures var v := Next(s, Advance(c));
      |v.cores| == |s.cores| && v.cores[c] == Core(Current.Task(t), Mark(t)) && OnlyCreated(s, v)
  {
    assert CoreFormed(s, s.cores[c]) && CoreOk(s, s.cores[c]);
  }

  // ----- the selection

  /** Nobody is ready or waiting. */
  predicate NobodyLeft(ts: seq<Slot>) {
    forall i :: 0 <= i < |ts| ==> !In(ts, i, Ready) && !In(ts, i, Waiting)
  }

  predicate NoneReady(ts: seq<Slot>) {
    forall i :: 0 <= i < |ts| ==> !In(ts, i, Ready)
  }

  /** Task t is the first of the highest priority among the ready tasks, or without any among the waiting ones. */
  ghost predicate Chosen(ts: seq<Slot>, t: nat) {
    IsBest(ts, Ready, t, |ts|) || (NoneReady(ts) && IsBest(ts, Waiting, t, |ts|))
  }

  /**
   * Task t runs, and when there was no ready task every waiting one has got a full slice, task t included; the other
   * tasks are as they were.
   */
  ghost predicate Dispatched(ts: seq<Slot>, us: seq<Slot>, t: nat) {
    && |us| == |ts| && t < |ts|
    && forall i :: 0 <= i < |ts| && ts[i].Task? ==>
         var refilled := NoneReady(ts) && ts[i].state == Waiting;
         var counter := if refilled then ts[i].priority else ts[i].counter;
         var state := if i == t then Running else if refilled then Ready else ts[i].state;
         us[i] == Slot.Task(state, counter, ts[i].priority)
  }

  /** What a selection of core c in state d has come to in state b. */
  ghost predicate SelectionDone(d: Sys, b: Sys, c: nat) {
    && c < |d.cores| == |b.cores| && b.cores[c].pc.Outside? && b.ticks == d.ticks
    && if NobodyLeft(d.tasks) then b.cores[c].cur.Nobody? && d.cores[c].cur.Nobody? && OnlyCreated(d, b)
       else b.cores[c].cur.Task? && Chosen(d.tasks, b.cores[c].cur.t) && Dispatched(d.tasks, b.tasks, b.cores[c].cur.t)
  }

  lemma SelectTurn(s: Sys, c: nat)
    requires Safe(s) && c < |s.cores| && s.cores[c].pc.Select?
    ensures var v := Next(s, Advance(c));
      && |v.cores| == |s.cores| && v.cores[c].cur == s.cores[c].cur && v.ticks == s.ticks
      && (NobodyLeft(s.tasks) ==> v.cores[c].pc.Unlock? && s.cores[c].cur.Nobody? && OnlyCreated(s, v))
      && (!NobodyLeft(s.tasks) ==>
            && v.cores[c].pc.Publish? && Chosen(s.tasks, v.cores[c].pc.t)
            && Dispatched(s.tasks, v.tasks, v.cores[c].pc.t))
  {
    hide Safe, BestOf, Selected;
    SafeFormed(s);
    SelectKeeps(s, c);
    PickMeaning(s.tasks);
    if NobodyLeft(s.tasks) {
      NothingSelected(s);
    } else {
      assert Chosen(s.tasks, Pick(s.tasks));
      PickDispatched(s.tasks);
    }
  }

  lemma PickDispatched(ts: seq<Slot>)
    requires !NobodyLeft(ts)
    ensures Pick(ts) >= 0 && Dispatched(ts, Selected(ts), Pick(ts))
  {
    hide BestOf, Selected;
    PickMeaning(ts);
    forall i: nat | i < |ts| && ts[i].Task?
      ensures var refilled := NoneReady(ts) && ts[i].state == Waiting;
        var counter := if refilled then ts[i].priority else ts[i].counter;
        var state := if i == Pick(ts) then Running else if refilled then Ready else ts[i].state;
        Selected(ts)[i] == Slot.Task(state, counter, ts[i].priority)
    {
      SelectedSlot(ts, i);
    }
  }

  lemma NothingSelected(s: Sys)
    requires |s.rounds| == |s.tasks| && NobodyLeft(s.tasks)
    ensures Selected(s.tasks) == s.tasks && RoundsAfter(s) == s.rounds
  {
    PickMeaning(s.tasks);
  }

  lemma DispatchedThen(d: Sys, u: Sys, b: Sys, t: nat)
    requires Dispatched(d.tasks, u.tasks, t) && OnlyCreated(u, b)
    ensures Dispatched(d.tasks, b.tasks, t)
  {
  }

  lemma CreatedOn(s: Sys, d: Sys, b: Sys)
    requires OnlyCreated(s, d) && OnlyCreated(d, b)
    ensures OnlyCreated(s, b)
  {
  }

  // ----- from a point of the handler to the return

  lemma FromUnlock(s: Sys, run: seq<Action>, c: nat) returns (part: seq<Action>, b: Sys, after: seq<Action>)
    requires Safe(s) && LegalRun(s, run) && c < |s.cores| && s.cores[c].pc.Unlock? && Turns(s, run, c) >= 1
    ensures run == part + after && Leads(s, part, b) && OnlyCreated(s, b)
    ensures |b.cores| == |s.cores| && b.cores[c] == Core(s.cores[c].cur, Outside)
  {
    hide Safe, Next, Turns, OnlyCreated;
    var p, u, q, v, m := TakeTurn(s, run, c);
    UnlockTurn(u, c);
    CreatedOn(s, u, v);
    part, b, after := q, v, m;
  }

  lemma FromMark(s: Sys, run: seq<Action>, c: nat, t: nat) returns (part: seq<Action>, b: Sys, after: seq<Action>)
    requires Safe(s) && LegalRun(s, run) && c < |s.cores| && s.cores[c].pc == Mark(t) && Turns(s, run, c) >= 2
    ensures run == part + after && Leads(s, part, b) && OnlyCreated(s, b)
    ensures |b.cores| == |s.cores| && b.cores[c] == Core(Current.Task(t), Outside)
  {
    hide Safe, Next, Turns, OnlyCreated;
    var p, u, q, v, m := TakeTurn(s, run, c);
    MarkTurn(u, c, t);
    var rest;
    rest, b, after := FromUnlock(v, m, c);
    CreatedOn(s, u, v);
    CreatedOn(s, v, b);
    LeadsJoin(s, q, v, rest, b);
    part := q + rest;
  }

  lemma FromPublish(s: Sys, run: seq<Action>, c: nat, t: nat) returns (part: seq<Action>, b: Sys, after: seq<Action>)
    requires Safe(s) && LegalRun(s, run) && c < |s.cores| && s.cores[c].pc == Publish(t) && Turns(s, run, c) >= 3
    ensures run == part + after && Leads(s, part, b) && OnlyCreated(s, b)
    ensures |b.cores| == |s.cores| && b.cores[c] == Core(Current.Task(t), Outside)
  {
    hide Safe, Next, Turns, OnlyCreated;
    var p, u, q, v, m := TakeTurn(s, run, c);
    PublishTurn(u, c, t);
    var rest;
    rest, b, after := FromMark(v, m, c, t);
    CreatedOn(s, u, v);
    CreatedOn(s, v, b);
    LeadsJoin(s, q, v, rest, b);
    part := q + rest;
  }

  lemma CreatedTicks(s: Sys, u: Sys)
    requires OnlyCreated(s, u)
    ensures u.ticks == s.ticks
  {
  }

  /** From the selection on: d is the state in which core c selects, b the one in which it returns. */
  lemma FromSelect(s: Sys, run: seq<Action>, c: nat)
    returns (before: seq<Action>, d: Sys, part: seq<Action>, b: Sys, after: seq<Action>)
    requires Safe(s) && LegalRun(s, run) && c < |s.cores| && s.cores[c].pc.Select? && Turns(s, run, c) >= 4
    ensures run == before + part + after && Leads(s, before, d) && Leads(d, part, b)
    ensures OnlyCreated(s, d) && |d.cores| == |s.cores| && d.cores[c] == s.cores[c] && SelectionDone(d, b, c)
  {
    hide Safe, Next, Turns, OnlyCreated, Dispatched, Chosen;
    var q, v, m;
    before, d, q, v, m := TakeTurn(s, run, c);
    SelectTurn(d, c);
    LeadsOne(d, Advance(c));
    var rest;
    if NobodyLeft(d.tasks) {
      rest, b, after := FromUnlock(v, m, c);
      CreatedOn(d, v, b);
    } else {
      rest, b, after := FromPublish(v, m, c, v.cores[c].pc.t);
      DispatchedThen(d, v, b, v.cores[c].pc.t);
    }
    CreatedTicks(v, b);
    LeadsJoin(d, [Advance(c)], v, rest, b);
    part := [Advance(c)] + rest;
    assert run == before + [Advance(c)] + (rest + after) == before + part + after;
  }

  // ----- the charge

  /** Task t has been charged a tick and its slot is now as given; the other tasks are as they were. */
  ghost predicate Charged(a: Sys, b: Sys, t: nat, slot: Slot) {
    && |b.tasks| == |a.tasks| && t < |a.ticks| && b.ticks == a.ticks[t := a.ticks[t] + 1] && b.rounds == a.rounds
    && forall i :: 0 <= i < |a.tasks| && a.tasks[i].Task? ==> b.tasks[i] == if i == t then slot else a.tasks[i]
  }

  lemma ChargedOn(a: Sys, b: Sys, e: Sys, t: nat, slot: Slot)
    requires Charged(a, b, t, slot) && slot.Task? && OnlyCreated(b, e)
    ensures Charged(a, e, t, slot)
  {
  }

  lemma ChargedAfter(a: Sys, b: Sys, e: Sys, t: nat, slot: Slot)
    requires OnlyCreated(a, b) && Charged(b, e, t, slot)
    ensures Charged(a, e, t, slot)
  {
  }

  lemma CheckTurn(s: Sys, c: nat)
    requires Safe(s) && c < |s.cores| && s.cores[c].pc.TimerCheck?
    ensures var v := Next(s, Advance(c));
      && |v.cores| == |s.cores| && v.cores[c].cur == s.cores[c].cur
      && (s.cores[c].cur.Nobody? ==> v.cores[c].pc.Select? && OnlyCreated(s, v))
      && (s.cores[c].cur.Task? ==>
            var t := s.cores[c].cur.t;
            && In(s.tasks, t, Running)
            && var n := (s.tasks[t].counter - 1) % U64;
            && v.cores[c].pc == (if n > 0 then Unlock else Park)
            && Charged(s, v, t, Slot.Task(Running, n, s.tasks[t].priority)))
  {
    assert CoreFormed(s, s.cores[c]) && CoreOk(s, s.cores[c]);
  }

  lemma ParkTurn(s: Sys, c: nat)
    requires Safe(s) && c < |s.cores| && s.cores[c].pc.Park?
    ensures s.cores[c].cur.Task? && In(s.tasks, s.cores[c].cur.t, Running)
    ensures var v, t := Next(s, Advance(c)), s.cores[c].cur.t;
      && |v.cores| == |s.cores| && v.cores[c] == Core(Current.Task(t), Select)
      && v.tasks == s.tasks[t := Slot.Task(Waiting, s.tasks[t].counter, s.tasks[t].priority)]
      && v.ticks == s.ticks && v.rounds == s.rounds
  {
    assert CoreFormed(s, s.cores[c]) && CoreOk(s, s.cores[c]);
  }

  lemma ParkedCharge(a: Sys, v: Sys, w: Sys, t: nat, slot: Slot, parked: Slot)
    requires Charged(a, v, t, slot) && t < |v.tasks| && w.tasks == v.tasks[t := parked]
    requires w.ticks == v.ticks && w.rounds == v.rounds
    ensures Charged(a, w, t, parked)
  {
  }

  // ----- the handlers

  /**
   * The timer handler of core c, which had the lock in state a and returned in state b. Without a task it selects, in
   * state d. A task is charged one tick; with ticks left it goes on, else it is parked and the core selects.
   */
  ghost predicate TimerDone(a: Sys, d: Sys, b: Sys, c: nat) {
    && c < |a.cores| == |b.cores| && b.cores[c].pc.Outside?
    && match a.cores[c].cur
       case Nobody => OnlyCreated(a, d) && SelectionDone(d, b, c)
       case Task(t) =>
         && In(a.tasks, t, Running)
         && var n := (a.tasks[t].counter - 1) % U64;
         if n > 0 then
           b.cores[c].cur == Current.Task(t) && Charged(a, b, t, Slot.Task(Running, n, a.tasks[t].priority))
         else
           Charged(a, d, t, Slot.Task(Waiting, 0, a.tasks[t].priority)) && SelectionDone(d, b, c)
  }

  /** The slice that task t had in state a is used up: it is parked, and the core selects. */
  lemma FromPark(a: Sys, t: nat, s: Sys, run: seq<Action>, c: nat)
    returns (before: seq<Action>, d: Sys, part: seq<Action>, b: Sys, after: seq<Action>)
    requires Safe(s) && LegalRun(s, run) && c < |s.cores| && Turns(s, run, c) >= 5
    requires s.cores[c] == Core(Current.Task(t), Park) && In(a.tasks, t, Running)
    requires Charged(a, s, t, Slot.Task(Running, 0, a.tasks[t].priority))
    ensures run == before + part + after && Leads(s, before, d) && Leads(d, part, b)
    ensures |d.cores| == |s.cores|
    ensures Charged(a, d, t, Slot.Task(Waiting, 0, a.tasks[t].priority)) && SelectionDone(d, b, c)
  {
    hide Safe, Next, Turns, SelectionDone;
    var p, u, q, v, m := TakeTurn(s, run, c);
    ChargedOn(a, s, u, t, Slot.Task(Running, 0, a.tasks[t].priority));
    ParkTurn(u, c);
    ParkedCharge(a, u, v, t, Slot.Task(Running, 0, a.tasks[t].priority), Slot.Task(Waiting, 0, a.tasks[t].priority));
    var part1;
    part1, d, part, b, after := FromSelect(v, m, c);
    ChargedOn(a, v, d, t, Slot.Task(Waiting, 0, a.tasks[t].priority));
    LeadsJoin(s, q, v, part1, d);
    before := q + part1;
    assert run == q + (part1 + part + after) == before + part + after;
  }

  lemma IdleDone(a: Sys, d: Sys, b: Sys, c: nat)
    requires c < |a.cores| == |d.cores| && a.cores[c].cur.Nobody? && OnlyCreated(a, d) && SelectionDone(d, b, c)
    ensures TimerDone(a, d, b, c)
  {
    hide OnlyCreated, Dispatched, Chosen;
  }

  lemma GoesOnDone(a: Sys, b: Sys, c: nat, t: nat, n: nat)
    requires c < |a.cores| == |b.cores| && a.cores[c].cur == b.cores[c].cur == Current.Task(t)
    requires In(a.tasks, t, Running)
    requires b.cores[c].pc.Outside? && 0 < n == (a.tasks[t].counter - 1) % U64
    requires Charged(a, b, t, Slot.Task(Running, n, a.tasks[t].priority))
    ensures TimerDone(a, b, b, c)
  {
    hide Charged, SelectionDone;
  }

  lemma ParkedDone(a: Sys, d: Sys, b: Sys, c: nat, t: nat)
    requires c < |a.cores| == |d.cores| && a.cores[c].cur == Current.Task(t) && In(a.tasks, t, Running)
    requires (a.tasks[t].counter - 1) % U64 == 0
    requires Charged(a, d, t, Slot.Task(Waiting, 0, a.tasks[t].priority)) && SelectionDone(d, b, c)
    ensures TimerDone(a, d, b, c)
  {
    hide Charged, Dispatched, Chosen, OnlyCreated;
  }

  lemma Regroup(p: seq<Action>, q: seq<Action>, r: seq<Action>, s: seq<Action>)
    ensures p + (q + r + s) == (p + q) + r + s
  {
  }

  /** With the lock taken in state a. */
  lemma FromCheck(a: Sys, run: seq<Action>, c: nat)
    returns (before: seq<Action>, d: Sys, part: seq<Action>, b: Sys, after: seq<Action>)
    requires Safe(a) && LegalRun(a, run) && c < |a.cores| && a.cores[c].pc.TimerCheck? && Turns(a, run, c) >= 6
    ensures run == before + part + after && Leads(a, before, d) && Leads(d, part, b) && TimerDone(a, d, b, c)
  {
    hide Safe, Next, Turns, SelectionDone, Charged, OnlyCreated, TimerDone;
    var p, u, q, v, m := TakeTurn(a, run, c);
    CheckTurn(u, c);
    var part1;
    if a.cores[c].cur.Nobody? {
      part1, d, part, b, after := FromSelect(v, m, c);
      CreatedOn(a, u, v);
      CreatedOn(a, v, d);
      IdleDone(a, d, b, c);
    } else {
      var t := a.cores[c].cur.t;
      SafeRunning(a, c);
      CreatedSlot(a, u, t, Running);
      var n := (u.tasks[t].counter - 1) % U64;
      ChargedAfter(a, u, v, t, Slot.Task(Running, n, u.tasks[t].priority));
      if n > 0 {
        part1, d, after := FromUnlock(v, m, c);
        ChargedOn(a, v, d, t, Slot.Task(Running, n, u.tasks[t].priority));
        part, b := [], d;
        GoesOnDone(a, b, c, t, n);
      } else {
        part1, d, part, b, after := FromPark(a, t, v, m, c);
        ParkedDone(a, d, b, c, t);
      }
    }
    LeadsJoin(a, q, v, part1, d);
    before := q + part1;
    Regroup(q, part1, part, after);
  }

  lemma CreatedSlot(a: Sys, u: Sys, t: nat, st: TaskState)
    requires OnlyCreated(a, u) && In(a.tasks, t, st)
    ensures In(u.tasks, t, st) && u.tasks[t] == a.tasks[t]
  {
  }

  lemma SafeRunning(a: Sys, c: nat)
    requires Safe(a) && c < |a.cores| && a.cores[c].pc.TimerCheck? && a.cores[c].cur.Task?
    ensures In(a.tasks, a.cores[c].cur.t, Running)
  {
    assert CoreOk(a, a.cores[c]);
  }

  lemma Interrupted(s: Sys, c: nat)
    requires Safe(s) && c < |s.cores| && s.cores[c].pc.Outside?
    ensures Next(s, TimerInterrupt(c)).cores == s.cores[c := Core(s.cores[c].cur, TimerLock)]
    ensures Next(s, BroadcastInterrupt(c)).cores == s.cores[c := Core(s.cores[c].cur, BroadcastCheck)]
  {
  }

  lemma LockTurn(s: Sys, c: nat)
    requires Safe(s) && Turn(s, Advance(c), c)
    ensures var v := Next(s, Advance(c));
      && c < |v.cores| == |s.cores|
      && (s.cores[c].pc.TimerLock? ==> v.lock && v.cores[c] == Core(s.cores[c].cur, TimerCheck))
      && (s.cores[c].pc.BroadcastLock? ==> v.lock && v.cores[c] == Core(s.cores[c].cur, Select))
  {
  }

  /** A run cut at three states: a, d and b. */
  datatype Cut = Cut(
    r0: seq<Action>, a: Sys, r1: seq<Action>, d: Sys, r2: seq<Action>, b: Sys, r3: seq<Action>)

  ghost predicate Cuts(k: Cut, s: Sys, run: seq<Action>) {
    run == k.r0 + k.r1 + k.r2 + k.r3 && Leads(s, k.r0, k.a) && Leads(k.a, k.r1, k.d) && Leads(k.d, k.r2, k.b)
  }

  /**
   * In every interleaving a core that is interrupted by its timer, and is given seven turns, takes the lock (state a),
   * does what the timer handler is for (selecting in state d, if it does), and returns (state b).
   */
  lemma TimerHandler(s: Sys, run: seq<Action>, c: nat) returns (k: Cut)
    requires Safe(s) && LegalRun(s, run) && c < |s.cores| && s.cores[c].pc.Outside?
    requires run != [] && run[0] == TimerInterrupt(c) && Turns(s, run, c) >= 7
    ensures Cuts(k, s, run) && k.a.lock && c < |k.a.cores| && k.a.cores[c].cur == s.cores[c].cur
    ensures TimerDone(k.a, k.d, k.b, c)
  {
    hide Safe, Next, TimerDone, Turns;
    SafeFormed(s);
    LeadsOne(s, run[0]);
    Interrupted(s, c);
    InterruptTurns(s, run, c);
    var s1 := Next(s, run[0]);
    var p, u, q, v, m := TakeTurn(s1, run[1..], c);
    LockTurn(u, c);
    var r1, d, r2, b, r3 := FromCheck(v, m, c);
    LeadsJoin(s, [run[0]], s1, q, v);
    k := Cut([run[0]] + q, v, r1, d, r2, b, r3);
    assert run == [run[0]] + run[1..] == [run[0]] + (q + (r1 + r2 + r3)) == k.r0 + r1 + r2 + r3;
  }

  lemma BroadcastTurn(s: Sys, c: nat)
    requires Safe(s) && c < |s.cores| && s.cores[c].pc.BroadcastCheck?
    ensures var v := Next(s, Advance(c));
      && |v.cores| == |s.cores| && v.tasks == s.tasks && v.ticks == s.ticks && v.lock == s.lock
      && v.cores[c] == Core(s.cores[c].cur, if s.cores[c].cur.Nobody? then BroadcastLock else Outside)
  {
  }

  /**
   * A core that has a task ignores the broadcast: it looks in state a, and is back with the next step, in state b.
   */
  ghost predicate Ignored(a: Sys, b: Sys, c: nat) {
    && c < |b.cores| == |a.cores| && b.cores[c] == Core(a.cores[c].cur, Outside)
    && b.tasks == a.tasks && b.ticks == a.ticks && b.lock == a.lock
  }

  lemma IgnoredTurn(s: Sys, c: nat)
    requires Safe(s) && c < |s.cores| && s.cores[c].pc.BroadcastCheck? && s.cores[c].cur.Task?
    ensures Ignored(s, Next(s, Advance(c)), c)
  {
    hide Safe;
    SafeFormed(s);
    BroadcastTurn(s, c);
  }

  /** The interrupt itself is not a turn. */
  lemma InterruptTurns(s: Sys, run: seq<Action>, c: nat)
    requires Safe(s) && LegalRun(s, run) && run != [] && !run[0].Advance?
    ensures Safe(Next(s, run[0])) && LegalRun(Next(s, run[0]), run[1..])
    ensures Turns(s, run, c) == Turns(Next(s, run[0]), run[1..], c)
  {
    hide Safe, Next;
    SafeFormed(s);
    StepKeeps(s, run[0]);
  }

  lemma FromBroadcastLock(s: Sys, run: seq<Action>, c: nat)
    returns (before: seq<Action>, d: Sys, part: seq<Action>, b: Sys, after: seq<Action>)
    requires Safe(s) && LegalRun(s, run) && c < |s.cores| && Turns(s, run, c) >= 5
    requires s.cores[c] == Core(Nobody, BroadcastLock)
    ensures run == before + part + after && Leads(s, before, d) && Leads(d, part, b)
    ensures c < |d.cores| && d.cores[c].cur.Nobody? && d.lock && SelectionDone(d, b, c)
  {
    hide Safe, Next, SelectionDone, Turns;
    var p, u, q, v, m := TakeTurn(s, run, c);
    LockTurn(u, c);
    var rest;
    rest, d, part, b, after := FromSelect(v, m, c);
    HeldStays(d, c);
    LeadsJoin(s, q, v, rest, d);
    before := q + rest;
    Regroup(q, rest, part, after);
  }

  lemma BroadcastIgnored(s: Sys, run: seq<Action>, c: nat)
    returns (before: seq<Action>, d: Sys, part: seq<Action>, b: Sys, after: seq<Action>)
    requires Safe(s) && LegalRun(s, run) && c < |s.cores| && s.cores[c].pc.BroadcastCheck? && s.cores[c].cur.Task?
    requires Turns(s, run, c) >= 1
    ensures run == before + part + after && Leads(s, before, d) && Leads(d, part, b)
    ensures c < |d.cores| && d.cores[c].cur == s.cores[c].cur && Ignored(d, b, c)
  {
    hide Safe, Next, Turns, Ignored;
    var q;
    before, d, q, b, after := TakeTurn(s, run, c);
    LeadsOne(d, Advance(c));
    part := [Advance(c)];
    IgnoredTurn(d, c);
  }

  lemma BroadcastSelects(s: Sys, run: seq<Action>, c: nat)
    returns (before: seq<Action>, d: Sys, part: seq<Action>, b: Sys, after: seq<Action>)
    requires Safe(s) && LegalRun(s, run) && c < |s.cores| && s.cores[c] == Core(Nobody, BroadcastCheck)
    requires Turns(s, run, c) >= 6
    ensures run == before + part + after && Leads(s, before, d) && Leads(d, part, b)
    ensures c < |d.cores| && d.cores[c].cur.Nobody? && d.lock && SelectionDone(d, b, c)
  {
    hide Safe, Next, SelectionDone, Turns;
    var p, u, q, v, m := TakeTurn(s, run, c);
    BroadcastTurn(u, c);
    var rest;
    rest, d, part, b, after := FromBroadcastLock(v, m, c);
    LeadsJoin(s, q, v, rest, d);
    before := q + rest;
    Regroup(q, rest, part, after);
  }

  /**
   * In every interleaving a core that is interrupted by a broadcast, and is given six turns, returns (state b): with
   * its task, if it had one (found in state d), else having taken the lock and selected (in state d).
   */
  lemma BroadcastHandler(s: Sys, run: seq<Action>, c: nat)
    returns (r0: seq<Action>, d: Sys, r1: seq<Action>, b: Sys, r2: seq<Action>)
    requires Safe(s) && LegalRun(s, run) && c < |s.cores| && s.cores[c].pc.Outside?
    requires run != [] && run[0] == BroadcastInterrupt(c) && Turns(s, run, c) >= 6
    ensures run == r0 + r1 + r2 && Leads(s, r0, d) && Leads(d, r1, b)
    ensures c < |d.cores| && d.cores[c].cur == s.cores[c].cur
    ensures if s.cores[c].cur.Nobody? then d.lock && SelectionDone(d, b, c) else Ignored(d, b, c)
  {
    hide Safe, Next, SelectionDone, Turns, Ignored, Leads;
    SafeFormed(s);
    InterruptTurns(s, run, c);
    LeadsOne(s, run[0]);
    Interrupted(s, c);
    assert run == [run[0]] + run[1..];
    if s.cores[c].cur.Task? {
      var part;
      part, d, r1, b, r2 := BroadcastIgnored(Next(s, run[0]), run[1..], c);
      LeadsJoin(s, [run[0]], Next(s, run[0]), part, d);
      r0 := [run[0]] + part;
      Regroup([run[0]], part, r1, r2);
    } else {
      var part;
      part, d, r1, b, r2 := BroadcastSelects(Next(s, run[0]), run[1..], c);
      LeadsJoin(s, [run[0]], Next(s, run[0]), part, d);
      r0 := [run[0]] + part;
      Regroup([run[0]], part, r1, r2);
    }
  }

  lemma HeldStays(s: Sys, c: nat)
    requires Safe(s) && c < |s.cores| && Holds(s.cores[c].pc)
    ensures s.lock
  {
  }
}
