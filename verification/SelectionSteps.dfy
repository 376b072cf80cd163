/**
 * A selection slot by slot. The loops of get_next_ready_task of x64_kenerl/kernel/task64.c run under the lock of the
 * scheduler, but add_task takes another one, so tasks can be created between any two slots. Every such run is a run
 * in which selections are one step.
 */
module SelectionSteps {
  import opened Arith
  import opened TaskSelection
  import opened SmpScheduler
  import opened SchedulerLedger

  /** Where the selection of core c is: at slot i of the first loop, or of the second. */
  datatype Scan =
    | Idle
    | First(c: nat, i: nat, best: int, wait: bool)
    | Second(c: nat, i: nat, best: int)

  /** The system in the middle of whatever selection is under way. */
  datatype Fine = Fine(s: Sys, scan: Scan)

  // ----- the steps

  /** The task held after slot i has been compared with the one held so far. */
  function Better(ts: seq<Slot>, best: int, i: int): int
    requires 0 <= i < |ts| && ts[i].Task? && (best == NONE || (0 <= best < |ts| && ts[best].Task?))
  {
    if best == NONE || ts[i].priority > ts[best].priority then i else best
  }

  predicate Kept(ts: seq<Slot>, best: int) {
    best == NONE || (0 <= best < |ts| && ts[best].Task?)
  }

  /** Lines 77-79, and the store of the result. */
  function Finish(s: Sys, c: nat, t: int): Fine
    requires c < |s.cores| && Kept(s.tasks, t)
  {
    var ts := if t == NONE then s.tasks else SetState(s.tasks, t, Running);
    Fine(At(s, c, if t == NONE then Unlock else Publish(t)).(tasks := ts), Idle)
  }

  /** Lines 32-51, one slot. */
  function FirstStep(f: Fine): Scan
    requires f.scan.First? && f.scan.i < |f.s.tasks| && Kept(f.s.tasks, f.scan.best)
  {
    var i, ts := f.scan.i, f.s.tasks;
    if In(ts, i, Waiting) then First(f.scan.c, i + 1, f.scan.best, true)
    else if In(ts, i, Ready) then First(f.scan.c, i + 1, Better(ts, f.scan.best, i), f.scan.wait)
    else First(f.scan.c, i + 1, f.scan.best, f.scan.wait)
  }

  /** Lines 55-68, one slot. */
  function SecondStep(f: Fine): Fine
    requires f.scan.Second? && f.scan.i < |f.s.tasks| == |f.s.rounds| && Kept(f.s.tasks, f.scan.best)
  {
    var i, ts := f.scan.i, f.s.tasks;
    if In(ts, i, Waiting) then
      Fine(f.s.(tasks := ts[i := Refilled(ts[i])], rounds := f.s.rounds[i := f.s.rounds[i] + 1]),
        Second(f.scan.c, i + 1, Better(ts, f.scan.best, i)))
    else Fine(f.s, Second(f.scan.c, i + 1, f.scan.best))
  }

  /** Line 70: nobody is ready or waiting; slot 0 is looked at once more. */
  function LastResort(ts: seq<Slot>): int {
    if In(ts, 0, Ready) then 0 else NONE
  }

  function ScanStep(f: Fine): Fine
    requires !f.scan.Idle? && f.scan.c < |f.s.cores| && |f.s.tasks| == |f.s.rounds| && Kept(f.s.tasks, f.scan.best)
  {
    match f.scan
    case First(c, i, best, wait) =>
      if i < |f.s.tasks| then Fine(f.s, FirstStep(f))
      else if best != NONE then Finish(f.s, c, best)
      else if wait then Fine(f.s, Second(c, 0, NONE))
      else Finish(f.s, c, LastResort(f.s.tasks))
    case Second(c, i, best) => if i < |f.s.tasks| then SecondStep(f) else Finish(f.s, c, best)
  }

  /** Core c is at its selection. */
  predicate Selecting(s: Sys, a: Action) {
    a.Advance? && a.c < |s.cores| && s.cores[a.c].pc.Select?
  }

  predicate Scanning(f: Fine, a: Action) {
    !f.scan.Idle? && a == Advance(f.scan.c)
  }

  ghost predicate FineFormed(f: Fine) {
    && WellFormed(f.s)
    && (!f.scan.Idle? ==> f.scan.c < |f.s.cores| && Kept(f.s.tasks, f.scan.best))
  }

  ghost function FineNext(f: Fine, a: Action): Fine {
    if !FineFormed(f) || !Legal(f.s, a) then f
    else if Scanning(f, a) then ScanStep(f)
    else if f.scan.Idle? && Selecting(f.s, a) then Fine(f.s, First(a.c, 0, NONE, false))
    else Fine(Next(f.s, a), f.scan)
  }

  // ----- the relation to runs with selections in one step

  /** Slots in which a task has been created behind the scan: there in the table, not yet for the one-step selection. */
  predicate Late(ts: seq<Slot>, was: seq<Slot>, late: seq<nat>) {
    forall j :: j in late ==>
      j < |was| == |ts| && was[j].Empty? && ts[j].Task? && ts[j] == Slot.Task(Ready, ts[j].priority, ts[j].priority)
  }

  ghost predicate NoneTwice(late: seq<nat>) {
    forall i, j :: 0 <= i < j < |late| ==> late[i] != late[j]
  }

  /** A slot as the scan has left it. */
  function Seen(scan: Scan, j: nat, slot: Slot): Slot {
    if scan.Second? && j < scan.i then Refilled(slot) else slot
  }

  function SeenRound(scan: Scan, j: nat, slot: Slot, round: nat): nat {
    if scan.Second? && j < scan.i && slot.Task? && slot.state == Waiting then round + 1 else round
  }

  ghost predicate SameSlots(f: Fine, s: Sys, late: seq<nat>) {
    && |f.s.tasks| == |s.tasks| == |f.s.rounds| == |s.rounds|
    && (forall j: nat :: j < |s.tasks| && j !in late ==> f.s.tasks[j] == Seen(f.scan, j, s.tasks[j]))
    && (forall j: nat :: j < |s.tasks| ==> f.s.rounds[j] == SeenRound(f.scan, j, s.tasks[j], s.rounds[j]))
  }

  ghost predicate Progress(scan: Scan, s: Sys, late: seq<nat>) {
    match scan
    case Idle => late == []
    case First(c, i, best, wait) =>
      && i <= |s.tasks| && best == BestOf(s.tasks, Ready, i) && wait == HasWaiting(s.tasks, i)
      && forall j :: j in late ==> j < i
    case Second(c, i, best) =>
      && i <= |s.tasks| && BestOf(s.tasks, Ready, |s.tasks|) == NONE && HasWaiting(s.tasks, |s.tasks|)
      && best == BestOf(s.tasks, Waiting, i)
  }

  /** The state in the middle of a selection, and the state that runs of one-step selections have before it. */
  ghost predicate Related(f: Fine, s: Sys, late: seq<nat>) {
    && Safe(s) && f.s.(tasks := s.tasks, rounds := s.rounds) == s
    && (!f.scan.Idle? ==> f.scan.c < |s.cores| && s.cores[f.scan.c].pc.Select?)
    && SameSlots(f, s, late) && Late(f.s.tasks, s.tasks, late) && NoneTwice(late) && Progress(f.scan, s, late)
  }

  // ----- runs

  lemma ExecThen(s: Sys, a: Action, more: seq<Action>)
    requires Safe(s) && Legal(s, a) && (StepKeeps(s, a); LegalRun(Next(s, a), more))
    ensures LegalRun(s, [a] + more) && Safe(Next(s, a)) && Exec(s, [a] + more) == Exec(Next(s, a), more)
  {
    StepKeeps(s, a);
    ExecOne(s, a);
    ExecJoin(s, [a], more);
  }

  /** The tasks created behind the scan, created after it instead. */
  lemma {:induction false} CreateLate(s: Sys, ts: seq<Slot>, late: seq<nat>) returns (run: seq<Action>)
    requires Safe(s) && Late(ts, s.tasks, late) && NoneTwice(late) && |ts| == |s.tasks|
    requires forall j: nat :: j < |ts| && j !in late ==> ts[j] == s.tasks[j]
    ensures LegalRun(s, run) && Exec(s, run) == s.(tasks := ts)
    ensures forall k :: 0 <= k < |run| ==> run[k].Create? && exists j :: j in late && run[k].priority == ts[j].priority
    decreases |late|
  {
    if late == [] {
      assert s.tasks == ts;
      run := [];
    } else {
      var j := late[0];
      assert j in late;
      var a := Create(ts[j].priority, j);
      var s1 := Next(s, a);
      StepKeeps(s, a);
      var rest := late[1..];
      LateTail(ts, s.tasks, s1.tasks, late);
      var more := CreateLate(s1, ts, rest);
      ExecThen(s, a, more);
      run := [a] + more;
      assert s1.(tasks := ts) == s.(tasks := ts);
      forall k | 0 <= k < |run|
        ensures run[k].Create? && exists j :: j in late && run[k].priority == ts[j].priority
      {
        if k > 0 {
          assert run[k] == more[k - 1];
          var i :| i in rest && more[k - 1].priority == ts[i].priority;
          assert i in late;
        }
      }
    }
  }

  lemma LateTail(ts: seq<Slot>, was: seq<Slot>, now: seq<Slot>, late: seq<nat>)
    requires late != [] && Late(ts, was, late) && NoneTwice(late) && |ts| == |was|
    requires late[0] < |was| && now == was[late[0] := ts[late[0]]]
    requires forall j: nat :: j < |ts| && j !in late ==> ts[j] == was[j]
    ensures Late(ts, now, late[1..]) && NoneTwice(late[1..])
    ensures forall j: nat :: j < |ts| && j !in late[1..] ==> ts[j] == now[j]
  {
    var rest := late[1..];
    forall j | j in rest
      ensures j != late[0] && j in late
    {
      var k :| 0 <= k < |rest| && rest[k] == j;
      assert late[k + 1] == j;
    }
    assert late == [late[0]] + rest;
  }

  // ----- a step of anybody else

  /** While core c selects, no step of another core reads or writes the table. */
  lemma OtherMoves(s: Sys, c: nat, a: Action, ts: seq<Slot>, rounds: seq<nat>)
    requires Safe(s) && c < |s.cores| && s.cores[c].pc.Select? && !a.Create? && a != Advance(c)
    requires |ts| == |s.tasks| && |rounds| == |s.rounds| && WellFormed(s.(tasks := ts, rounds := rounds))
    ensures var s' := Next(s, a);
      && s'.tasks == s.tasks && s'.rounds == s.rounds && s'.ticks == s.ticks
      && c < |s'.cores| && s'.cores[c] == s.cores[c]
      && Next(s.(tasks := ts, rounds := rounds), a) == s'.(tasks := ts, rounds := rounds)
  {
    assert Holds(s.cores[c].pc);
    if a.Advance? && a.c < |s.cores| {
      Others(s, c, a.c);
      assert s.lock;
    }
  }

  // ----- prefixes of the table

  lemma {:induction false} BestPrefix(ts: seq<Slot>, us: seq<Slot>, st: TaskState, n: nat)
    requires n <= |ts| && n <= |us| && forall j :: 0 <= j < n ==> ts[j] == us[j]
    ensures BestOf(ts, st, n) == BestOf(us, st, n)
  {
    if n > 0 {
      BestPrefix(ts, us, st, n - 1);
    }
  }

  lemma WaitPrefix(ts: seq<Slot>, us: seq<Slot>, n: nat)
    requires n <= |ts| && n <= |us| && forall j :: 0 <= j < n ==> ts[j] == us[j]
    ensures HasWaiting(ts, n) <==> HasWaiting(us, n)
  {
    assert forall j :: 0 <= j < n ==> In(ts, j, Waiting) == In(us, j, Waiting);
  }

  lemma WaitNext(ts: seq<Slot>, n: nat)
    requires n < |ts|
    ensures HasWaiting(ts, n + 1) <==> HasWaiting(ts, n) || In(ts, n, Waiting)
  {
  }

  // ----- the simulation, step by step

  ghost predicate PositiveLate(ts: seq<Slot>, late: seq<nat>) {
    forall j :: j in late && j < |ts| && ts[j].Task? ==> 1 <= ts[j].priority < U64
  }

  ghost predicate PositiveRun(run: seq<Action>) {
    forall k :: 0 <= k < |run| ==> Positive(run[k])
  }

  lemma RelatedFormed(f: Fine, s: Sys, late: seq<nat>)
    requires Related(f, s, late)
    ensures FineFormed(f)
  {
    forall t: nat | Occupied(s, t)
      ensures Occupied(f.s, t)
    {
      assert t !in late;
    }
    forall c | 0 <= c < |f.s.cores|
      ensures CoreFormed(f.s, f.s.cores[c])
    {
      assert CoreFormed(s, s.cores[c]);
    }
    if !f.scan.Idle? && f.scan.best != NONE {
      assert Occupied(s, f.scan.best);
    }
  }

  lemma IdleSame(f: Fine, s: Sys)
    requires f.scan.Idle? && Related(f, s, [])
    ensures f.s == s
  {
    assert f.s.tasks == s.tasks && f.s.rounds == s.rounds;
  }

  lemma SameIdle(s: Sys)
    requires Safe(s)
    ensures Related(Fine(s, Idle), s, [])
  {
  }

  lemma BeginScan(s: Sys, c: nat)
    requires Safe(s) && c < |s.cores| && s.cores[c].pc.Select?
    ensures Related(Fine(s, First(c, 0, NONE, false)), s, [])
  {
    assert BestOf(s.tasks, Ready, 0) == NONE;
    assert !HasWaiting(s.tasks, 0);
  }

  /** A slot of the first loop. */
  lemma FirstKeeps(f: Fine, s: Sys, late: seq<nat>)
    requires Related(f, s, late) && f.scan.First? && f.scan.i < |f.s.tasks| && Kept(f.s.tasks, f.scan.best)
    ensures Related(Fine(f.s, FirstStep(f)), s, late)
  {
    hide BestOf, HasWaiting, Late, NoneTwice;
    var i := f.scan.i;
    assert i !in late;
    LateOrSame(f, s, late, i);
    if f.scan.best != NONE {
      LateOrSame(f, s, late, f.scan.best);
      assert f.scan.best !in late by {
        NotLate(f, s, late, f.scan.best);
      }
    }
    WaitNext(s.tasks, i);
    BestNext(s.tasks, Ready, i);
  }

  lemma NotLate(f: Fine, s: Sys, late: seq<nat>, j: nat)
    requires Related(f, s, late) && j < |s.tasks| && s.tasks[j].Task?
    ensures j !in late
  {
  }

  lemma BestNext(ts: seq<Slot>, st: TaskState, n: nat)
    requires n < |ts|
    ensures BestOf(ts, st, n + 1) == if In(ts, n, st) then Better(ts, BestOf(ts, st, n), n) else BestOf(ts, st, n)
  {
  }

  /** The first loop found nobody ready, and somebody waiting. */
  lemma FirstToSecond(f: Fine, s: Sys, late: seq<nat>)
    requires Related(f, s, late) && f.scan.First? && f.scan.i == |f.s.tasks| && f.scan.best == NONE && f.scan.wait
    ensures Related(Fine(f.s, Second(f.scan.c, 0, NONE)), s, late)
  {
    assert BestOf(s.tasks, Waiting, 0) == NONE;
  }

  /** A slot of the second loop. */
  lemma SecondKeeps(f: Fine, s: Sys, late: seq<nat>)
    requires Related(f, s, late) && f.scan.Second? && f.scan.i < |f.s.tasks| && Kept(f.s.tasks, f.scan.best)
    ensures Related(SecondStep(f), s, late)
    ensures forall j :: j in late ==> j < |f.s.tasks| && SecondStep(f).s.tasks[j] == f.s.tasks[j]
  {
    hide BestOf, HasWaiting, Late, NoneTwice;
    var i := f.scan.i;
    LateOrSame(f, s, late, i);
    if i in late {
      IsLate(f, s, late, i);
    }
    if f.scan.best != NONE {
      NotLate(f, s, late, f.scan.best);
      LateOrSame(f, s, late, f.scan.best);
    }
    BestNext(s.tasks, Waiting, i);
    SlotRefilled(f, s, late);
    LateUntouched(f, s, late);
  }

  lemma IsLate(f: Fine, s: Sys, late: seq<nat>, j: nat)
    requires Related(f, s, late) && j in late
    ensures j < |s.tasks| && s.tasks[j].Empty? && f.s.tasks[j].Task? && f.s.tasks[j].state == Ready
  {
  }

  lemma SlotRefilled(f: Fine, s: Sys, late: seq<nat>)
    requires Related(f, s, late) && f.scan.Second? && f.scan.i < |f.s.tasks| && Kept(f.s.tasks, f.scan.best)
    ensures SameSlots(SecondStep(f), s, late)
  {
    hide BestOf, HasWaiting, NoneTwice;
    var i, f' := f.scan.i, SecondStep(f);
    LateOrSame(f, s, late, i);
    forall j: nat | j < |s.tasks|
      ensures f'.s.rounds[j] == SeenRound(f'.scan, j, s.tasks[j], s.rounds[j])
      ensures j !in late ==> f'.s.tasks[j] == Seen(f'.scan, j, s.tasks[j])
    {
      assert f.s.rounds[j] == SeenRound(f.scan, j, s.tasks[j], s.rounds[j]);
      if j == i && i in late {
        IsLate(f, s, late, i);
      }
    }
  }

  lemma LateUntouched(f: Fine, s: Sys, late: seq<nat>)
    requires Related(f, s, late) && f.scan.Second? && f.scan.i < |f.s.tasks| && Kept(f.s.tasks, f.scan.best)
    ensures forall j :: j in late ==> j < |f.s.tasks| && SecondStep(f).s.tasks[j] == f.s.tasks[j]
    ensures Late(SecondStep(f).s.tasks, s.tasks, late)
  {
    hide BestOf, HasWaiting, NoneTwice;
    forall j | j in late
      ensures j < |f.s.tasks| && SecondStep(f).s.tasks[j] == f.s.tasks[j]
    {
      IsLate(f, s, late, j);
    }
  }

  /** A task created ahead of the first loop is created before the selection. */
  lemma CreateAhead(f: Fine, s: Sys, late: seq<nat>, a: Action)
    requires Related(f, s, late) && a.Create? && Legal(f.s, a) && f.scan.First? && a.slot >= f.scan.i && FineFormed(f)
    ensures Legal(s, a) && Related(Fine(Next(f.s, a), f.scan), Next(s, a), late)
  {
    var s', f' := Next(s, a), Fine(Next(f.s, a), f.scan);
    assert a.slot !in late;
    assert f.s.tasks[a.slot] == s.tasks[a.slot];
    StepKeeps(s, a);
    BestPrefix(s.tasks, s'.tasks, Ready, f.scan.i);
    WaitPrefix(s.tasks, s'.tasks, f.scan.i);
    assert Late(f'.s.tasks, s'.tasks, late);
  }

  /** One created behind it, or in the second loop, is created after the selection. */
  lemma CreateBehind(f: Fine, s: Sys, late: seq<nat>, a: Action)
    requires Related(f, s, late) && a.Create? && Legal(f.s, a) && FineFormed(f)
    requires f.scan.Second? || (f.scan.First? && a.slot < f.scan.i)
    ensures Related(Fine(Next(f.s, a), f.scan), s, late + [a.slot])
  {
    var f', late' := Fine(Next(f.s, a), f.scan), late + [a.slot];
    assert a.slot !in late;
    assert s.tasks[a.slot].Empty?;
    assert Late(f'.s.tasks, s.tasks, late');
    assert NoneTwice(late');
    forall j: nat | j < |s.tasks|
      ensures f'.s.rounds[j] == SeenRound(f'.scan, j, s.tasks[j], s.rounds[j])
      ensures j !in late' ==> f'.s.tasks[j] == Seen(f'.scan, j, s.tasks[j])
    {
      assert j !in late' ==> j !in late;
    }
  }

  /** A step of another core, or an interrupt, in the middle of a selection. */
  lemma OtherKeeps(f: Fine, s: Sys, late: seq<nat>, a: Action)
    requires Related(f, s, late) && !f.scan.Idle? && !a.Create? && a != Advance(f.scan.c) && FineFormed(f)
    ensures Related(Fine(Next(f.s, a), f.scan), Next(s, a), late) && Next(f.s, a).tasks == f.s.tasks
  {
    StepKeeps(s, a);
    assert f.s == s.(tasks := f.s.tasks, rounds := f.s.rounds);
    OtherMoves(s, f.scan.c, a, f.s.tasks, f.s.rounds);
  }

  // ----- the end of a selection

  /** The creations of a run are of tasks with the priorities of the late ones. */
  ghost predicate CreatesOf(run: seq<Action>, ts: seq<Slot>, late: seq<nat>) {
    forall k :: 0 <= k < |run| && run[k].Create? ==> PriorityOf(run[k], ts, late)
  }

  ghost predicate PriorityOf(a: Action, ts: seq<Slot>, late: seq<nat>)
    requires a.Create?
  {
    exists j :: j in late && j < |ts| && ts[j].Task? && a.priority == ts[j].priority
  }

  /** The selection in one step, and then the late creations. */
  lemma SelectThenCreate(f: Sys, s: Sys, late: seq<nat>, c: nat, t: int) returns (run: seq<Action>)
    requires Safe(s) && c < |s.cores| && s.cores[c].pc.Select? && f.(tasks := s.tasks, rounds := s.rounds) == s
    requires |f.tasks| == |s.tasks| && t == Pick(s.tasks) && Kept(f.tasks, t) && f.rounds == RoundsAfter(s)
    requires Late(f.tasks, s.tasks, late) && NoneTwice(late)
    requires forall j: nat :: j < |f.tasks| && j !in late ==>
      f.tasks[j] == if Refills(s.tasks) then Refilled(s.tasks[j]) else s.tasks[j]
    ensures LegalRun(s, run) && Exec(s, run) == Finish(f, c, t).s && CreatesOf(run, Finish(f, c, t).s.tasks, late)
  {
    var s1, f1 := Next(s, Advance(c)), Finish(f, c, t).s;
    StepKeeps(s, Advance(c));
    assert t != NONE ==> s.tasks[t].Task? && t !in late;
    forall j: nat | j < |f.tasks|
      ensures j in late ==> f1.tasks[j] == f.tasks[j] && s1.tasks[j].Empty?
      ensures j !in late ==> f1.tasks[j] == s1.tasks[j]
    {
      assert s1.tasks[j] == Selected(s.tasks)[j];
    }
    assert Late(f1.tasks, s1.tasks, late);
    var more := CreateLate(s1, f1.tasks, late);
    ExecThen(s, Advance(c), more);
    run := [Advance(c)] + more;
    forall k | 0 <= k < |run|
      ensures run[k].Create? ==> PriorityOf(run[k], f1.tasks, late)
    {
      if k > 0 {
        assert run[k] == more[k - 1];
      }
    }
  }

  lemma NoRefillRounds(s: Sys)
    requires |s.rounds| == |s.tasks| && !Refills(s.tasks)
    ensures RoundsAfter(s) == s.rounds
  {
  }

  /** The first loop ends with a ready task. */
  lemma FirstEnds(f: Fine, s: Sys, late: seq<nat>) returns (run: seq<Action>)
    requires Related(f, s, late) && f.scan.First? && f.scan.i == |f.s.tasks| && f.scan.best != NONE && FineFormed(f)
    ensures LegalRun(s, run) && Exec(s, run) == Finish(f.s, f.scan.c, f.scan.best).s
    ensures CreatesOf(run, Finish(f.s, f.scan.c, f.scan.best).s.tasks, late)
  {
    NoRefillRounds(s);
    assert f.s.rounds == s.rounds;
    run := SelectThenCreate(f.s, s, late, f.scan.c, f.scan.best);
  }

  /** The second loop ends. */
  lemma SecondEnds(f: Fine, s: Sys, late: seq<nat>) returns (run: seq<Action>)
    requires Related(f, s, late) && f.scan.Second? && f.scan.i == |f.s.tasks| && FineFormed(f)
    ensures LegalRun(s, run) && Exec(s, run) == Finish(f.s, f.scan.c, f.scan.best).s
    ensures CreatesOf(run, Finish(f.s, f.scan.c, f.scan.best).s.tasks, late)
  {
    WaitingIff(s.tasks);
    assert f.s.rounds == RoundsAfter(s);
    run := SelectThenCreate(f.s, s, late, f.scan.c, f.scan.best);
  }

  /** Nobody was ready or waiting, and nobody is in slot 0 now. */
  lemma NobodyEnds(f: Fine, s: Sys, late: seq<nat>) returns (run: seq<Action>)
    requires Related(f, s, late) && f.scan.First? && f.scan.i == |f.s.tasks| && FineFormed(f)
    requires f.scan.best == NONE && !f.scan.wait && LastResort(f.s.tasks) == NONE
    ensures LegalRun(s, run) && Exec(s, run) == Finish(f.s, f.scan.c, NONE).s
    ensures CreatesOf(run, Finish(f.s, f.scan.c, NONE).s.tasks, late)
  {
    WaitingIff(s.tasks);
    NoRefillRounds(s);
    assert f.s.rounds == s.rounds;
    run := SelectThenCreate(f.s, s, late, f.scan.c, NONE);
  }

  /** Nobody was ready or waiting when the loop came by, but a task has been created in slot 0 since: it is picked. */
  lemma SlotZeroEnds(f: Fine, s: Sys, late: seq<nat>) returns (run: seq<Action>)
    requires Related(f, s, late) && f.scan.First? && f.scan.i == |f.s.tasks| && FineFormed(f)
    requires f.scan.best == NONE && !f.scan.wait && LastResort(f.s.tasks) == 0
    ensures LegalRun(s, run) && Exec(s, run) == Finish(f.s, f.scan.c, 0).s
    ensures CreatesOf(run, Finish(f.s, f.scan.c, 0).s.tasks, late)
  {
    ZeroIsLate(f, s, late);
    var p := f.s.tasks[0].priority;
    var a, rest := Create(p, 0), Without(late, 0);
    WithoutZero(f.s.tasks, s.tasks, late);
    var s1 := Next(s, a);
    StepKeeps(s, a);
    ZeroPicked(s.tasks, s1.tasks);
    NoRefillRounds(s1);
    assert f.s.rounds == s.rounds;
    var more := SelectThenCreate(f.s, s1, rest, f.scan.c, 0);
    ExecThen(s, a, more);
    run := [a] + more;
    ZeroCreates(more, Finish(f.s, f.scan.c, 0).s.tasks, late, a);
  }

  lemma ZeroIsLate(f: Fine, s: Sys, late: seq<nat>)
    requires Related(f, s, late) && f.scan.First? && f.scan.i == |f.s.tasks| && f.scan.best == NONE
    requires LastResort(f.s.tasks) == 0
    ensures 0 in late && |s.tasks| > 0
  {
    NoneReady(s.tasks, 0);
    LateOrSame(f, s, late, 0);
  }

  lemma NoneReady(ts: seq<Slot>, i: nat)
    requires i < |ts| && BestOf(ts, Ready, |ts|) == NONE
    ensures !In(ts, i, Ready)
  {
    BestIsBest(ts, Ready, |ts|);
  }

  lemma LateOrSame(f: Fine, s: Sys, late: seq<nat>, j: nat)
    requires Related(f, s, late) && j < |s.tasks|
    ensures j in late || f.s.tasks[j] == Seen(f.scan, j, s.tasks[j])
  {
  }

  lemma ZeroCreates(more: seq<Action>, ts: seq<Slot>, late: seq<nat>, a: Action)
    requires CreatesOf(more, ts, Without(late, 0)) && 0 in late && 0 < |ts| && ts[0].Task?
    requires a == Create(ts[0].priority, 0)
    ensures CreatesOf([a] + more, ts, late)
  {
    var run := [a] + more;
    forall k | 0 <= k < |run| && run[k].Create?
      ensures PriorityOf(run[k], ts, late)
    {
      if k > 0 {
        assert run[k] == more[k - 1] && PriorityOf(more[k - 1], ts, Without(late, 0));
      } else {
        assert 0 in late;
      }
    }
  }

  function Without(late: seq<nat>, x: nat): (r: seq<nat>)
    ensures forall j :: j in r <==> j in late && j != x
  {
    if late == [] then [] else (if late[0] == x then [] else [late[0]]) + Without(late[1..], x)
  }

  lemma {:induction false} WithoutOnce(late: seq<nat>, x: nat)
    requires NoneTwice(late)
    ensures NoneTwice(Without(late, x))
  {
    if late != [] {
      var rest := late[1..];
      assert forall k :: 0 <= k < |rest| ==> rest[k] == late[k + 1];
      WithoutOnce(rest, x);
      var r := Without(rest, x);
      assert late[0] !in r;
    }
  }

  lemma WithoutZero(ts: seq<Slot>, was: seq<Slot>, late: seq<nat>)
    requires Late(ts, was, late) && NoneTwice(late) && 0 in late && |ts| == |was| > 0
    ensures Late(ts, was[0 := ts[0]], Without(late, 0)) && NoneTwice(Without(late, 0))
  {
    WithoutOnce(late, 0);
  }

  lemma ZeroPicked(ts: seq<Slot>, us: seq<Slot>)
    requires 0 < |ts| == |us| && BestOf(ts, Ready, |ts|) == NONE && !HasWaiting(ts, |ts|)
    requires us == ts[0 := us[0]] && In(us, 0, Ready)
    ensures Pick(us) == 0 && !Refills(us)
  {
    BestIsBest(ts, Ready, |ts|);
    BestIsBest(us, Ready, |us|);
    assert forall j :: 0 < j < |ts| ==> !In(ts, j, Ready) && us[j] == ts[j];
  }

  // ----- every step, and every run

  ghost predicate LatePositive(f: Fine, late: seq<nat>, positive: bool) {
    positive ==> PositiveLate(f.s.tasks, late)
  }

  lemma CreatesPositive(run: seq<Action>, ts: seq<Slot>, late: seq<nat>)
    requires CreatesOf(run, ts, late) && PositiveLate(ts, late)
    ensures PositiveRun(run)
  {
  }

  lemma StillLate(f: Sys, c: nat, t: int, late: seq<nat>)
    requires c < |f.cores| && Kept(f.tasks, t) && PositiveLate(f.tasks, late)
    ensures PositiveLate(Finish(f, c, t).s.tasks, late)
  {
  }

  /** A step of the scanning core: nothing yet, or the whole selection and the late creations. */
  lemma ScanSimulates(f: Fine, s: Sys, late: seq<nat>, positive: bool) returns (run: seq<Action>, late': seq<nat>)
    requires Related(f, s, late) && !f.scan.Idle? && FineFormed(f) && LatePositive(f, late, positive)
    ensures LegalRun(s, run) && Related(ScanStep(f), Exec(s, run), late')
    ensures LatePositive(ScanStep(f), late', positive) && (positive ==> PositiveRun(run))
  {
    hide Related, FineFormed, PositiveLate, CreatesOf;
    run, late' := [], late;
    AtEnd(f, s, late);
    var c, i, best := f.scan.c, f.scan.i, f.scan.best;
    if i < |f.s.tasks| {
      OneSlot(f, s, late, positive);
    } else if f.scan.First? && best == NONE && f.scan.wait {
      FirstToSecond(f, s, late);
    } else {
      var t := if f.scan.First? && best == NONE then LastResort(f.s.tasks) else best;
      if f.scan.Second? {
        run := SecondEnds(f, s, late);
      } else if best != NONE {
        run := FirstEnds(f, s, late);
      } else if t == NONE {
        run := NobodyEnds(f, s, late);
      } else {
        run := SlotZeroEnds(f, s, late);
      }
      late' := [];
      SameIdle(Exec(s, run));
      NoLate(Finish(f.s, c, t));
      if positive {
        StillLate(f.s, c, t, late);
        CreatesPositive(run, Finish(f.s, c, t).s.tasks, late);
      }
    }
  }

  lemma NoLate(f: Fine)
    ensures PositiveLate(f.s.tasks, [])
  {
  }

  lemma AtEnd(f: Fine, s: Sys, late: seq<nat>)
    requires Related(f, s, late) && !f.scan.Idle? && FineFormed(f)
    ensures f.scan.i <= |f.s.tasks| == |f.s.rounds| && f.scan.c < |f.s.cores| && Kept(f.s.tasks, f.scan.best) && Safe(s)
  {
  }

  lemma OneSlot(f: Fine, s: Sys, late: seq<nat>, positive: bool)
    requires Related(f, s, late) && !f.scan.Idle? && FineFormed(f) && LatePositive(f, late, positive)
    requires f.scan.i < |f.s.tasks| == |f.s.rounds| && f.scan.c < |f.s.cores| && Kept(f.s.tasks, f.scan.best)
    ensures Related(ScanStep(f), s, late) && LatePositive(ScanStep(f), late, positive)
  {
    hide Related, FineFormed;
    if f.scan.First? {
      FirstKeeps(f, s, late);
    } else {
      SecondKeeps(f, s, late);
    }
  }

  /** A step of the system in which selections go slot by slot, as steps of the one in which they do not. */
  lemma Simulates(f: Fine, a: Action, s: Sys, late: seq<nat>, positive: bool)
    returns (run: seq<Action>, late': seq<nat>)
    requires Related(f, s, late) && Legal(f.s, a) && LatePositive(f, late, positive) && (positive ==> Positive(a))
    ensures LegalRun(s, run) && Related(FineNext(f, a), Exec(s, run), late')
    ensures LatePositive(FineNext(f, a), late', positive) && (positive ==> PositiveRun(run))
  {
    hide Related, PositiveLate;
    RelatedFormed(f, s, late);
    RelatedSafe(f, s, late);
    run, late' := [], late;
    if Scanning(f, a) {
      run, late' := ScanSimulates(f, s, late, positive);
    } else if f.scan.Idle? {
      IdleLate(f, s, late);
      if Selecting(f.s, a) {
        BeginScan(s, a.c);
      } else {
        ExecOne(s, a);
        StepKeeps(s, a);
        SameIdle(Next(s, a));
        run := [a];
      }
      NoLate(FineNext(f, a));
    } else if a.Create? {
      run, late' := CreateSimulates(f, a, s, late, positive);
    } else {
      OtherKeeps(f, s, late, a);
      ExecOne(s, a);
      run := [a];
    }
  }

  lemma RelatedSafe(f: Fine, s: Sys, late: seq<nat>)
    requires Related(f, s, late)
    ensures Safe(s) && (!f.scan.Idle? ==> f.scan.c < |s.cores| && s.cores[f.scan.c].pc.Select?)
  {
  }

  lemma IdleLate(f: Fine, s: Sys, late: seq<nat>)
    requires Related(f, s, late) && f.scan.Idle?
    ensures late == [] && f.s == s
  {
    IdleSame(f, s);
  }

  lemma CreateSimulates(f: Fine, a: Action, s: Sys, late: seq<nat>, positive: bool)
    returns (run: seq<Action>, late': seq<nat>)
    requires Related(f, s, late) && Legal(f.s, a) && a.Create? && !f.scan.Idle? && FineFormed(f)
    requires LatePositive(f, late, positive) && (positive ==> Positive(a))
    ensures LegalRun(s, run) && Related(Fine(Next(f.s, a), f.scan), Exec(s, run), late')
    ensures LatePositive(Fine(Next(f.s, a), f.scan), late', positive) && (positive ==> PositiveRun(run))
  {
    RelatedSafe(f, s, late);
    if f.scan.First? && a.slot >= f.scan.i {
      CreateAhead(f, s, late, a);
      ExecOne(s, a);
      run, late' := [a], late;
    } else {
      CreateBehind(f, s, late, a);
      run, late' := [], late + [a.slot];
    }
  }

  ghost predicate FineLegal(f: Fine, run: seq<Action>)
    decreases |run|
  {
    run == [] || (Legal(f.s, run[0]) && FineLegal(FineNext(f, run[0]), run[1..]))
  }

  ghost function FineExec(f: Fine, run: seq<Action>): Fine
    decreases |run|
  {
    if run == [] then f else FineExec(FineNext(f, run[0]), run[1..])
  }

  /** Every run slot by slot is a run with selections in one step, up to the creations that are still late. */
  lemma {:induction false} RunSimulates(f: Fine, fine: seq<Action>, s: Sys, late: seq<nat>, positive: bool)
    returns (run: seq<Action>, late': seq<nat>)
    requires Related(f, s, late) && FineLegal(f, fine) && LatePositive(f, late, positive)
    requires (positive ==> PositiveRun(fine))
    ensures LegalRun(s, run) && Related(FineExec(f, fine), Exec(s, run), late') && (positive ==> PositiveRun(run))
    decreases |fine|
  {
    hide Related, LatePositive, FineNext;
    RelatedSafe(f, s, late);
    if fine == [] {
      run, late' := [], late;
    } else {
      var first, middle := Simulates(f, fine[0], s, late, positive);
      var rest;
      rest, late' := RunSimulates(FineNext(f, fine[0]), fine[1..], Exec(s, first), middle, positive);
      ExecJoin(s, first, rest);
      run := first + rest;
    }
  }

  // ----- what it means from power-up on

  function PowerUp(cores: nat, priorities: seq<nat>, slots: nat): Fine
    requires |priorities| <= slots
  {
    Fine(Boot(cores, priorities, slots), Idle)
  }

  /** Whenever no selection is under way, the state is one that a run of one-step selections reaches. */
  lemma SlotBySlotIsOneStep(cores: nat, priorities: seq<nat>, slots: nat, fine: seq<Action>) returns (run: seq<Action>)
    requires |priorities| <= slots && FineLegal(PowerUp(cores, priorities, slots), fine)
    ensures var s, f := Boot(cores, priorities, slots), FineExec(PowerUp(cores, priorities, slots), fine);
      && LegalRun(s, run) && (PositiveRun(fine) ==> PositiveRun(run))
      && (f.scan.Idle? ==> f.s == Exec(s, run)) && exists late :: Related(f, Exec(s, run), late)
  {
    hide Related;
    var s := Boot(cores, priorities, slots);
    SameIdle(s);
    var late;
    NoLate(Fine(s, Idle));
    if PositiveRun(fine) {
      run, late := RunSimulates(Fine(s, Idle), fine, s, [], true);
    } else {
      run, late := RunSimulates(Fine(s, Idle), fine, s, [], false);
    }
    var f := FineExec(Fine(s, Idle), fine);
    if f.scan.Idle? {
      IdleLate(f, Exec(s, run), late);
    }
  }

  /** In the middle of a selection too, the same tasks run on the same cores. */
  lemma SameRunning(f: Fine, s: Sys, late: seq<nat>)
    requires Related(f, s, late)
    ensures f.s.cores == s.cores && f.s.lock == s.lock && (!f.s.lock ==> f.scan.Idle?)
    ensures forall t: nat :: RunningTask(f.s, t) <==> RunningTask(s, t)
  {
    if !f.scan.Idle? {
      assert SmpScheduler.Holds(s.cores[f.scan.c].pc);
    }
    forall t: nat | t < |s.tasks|
      ensures RunningTask(f.s, t) <==> RunningTask(s, t)
    {
      LateOrSame(f, s, late, t);
      assert t in late ==> f.s.tasks[t].state == Ready && s.tasks[t].Empty?;
    }
  }

  /**
   * In every interleaving from power-up, selections going slot by slot and tasks being created between any two slots,
   * at every point: no task is the current task of two cores, at most one core is in the critical section, and while
   * the lock is free the running tasks are exactly the current tasks of the cores.
   */
  lemma NeverOnTwoCores(cores: nat, priorities: seq<nat>, slots: nat, fine: seq<Action>)
    requires |priorities| <= slots && FineLegal(PowerUp(cores, priorities, slots), fine)
    ensures var s := FineExec(PowerUp(cores, priorities, slots), fine).s;
      && (forall c, d :: 0 <= c < d < |s.cores| && s.cores[c].cur.Task? ==> s.cores[c].cur != s.cores[d].cur)
      && (forall c, d :: 0 <= c < d < |s.cores| ==> !(Holds(s.cores[c].pc) && Holds(s.cores[d].pc)))
      && (!s.lock ==> forall t: nat :: RunningTask(s, t) <==> IsCurrent(s, t))
  {
    hide Related;
    var run := SlotBySlotIsOneStep(cores, priorities, slots, fine);
    var f, s := FineExec(PowerUp(cores, priorities, slots), fine), Exec(Boot(cores, priorities, slots), run);
    var late :| Related(f, s, late);
    SameRunning(f, s, late);
    SafeMeaning(s);
    forall t: nat ensures IsCurrent(f.s, t) <==> IsCurrent(s, t) {
    }
  }

  /** And with positive priorities the ledger of time slices holds whenever the lock is free. */
  lemma LedgerSlotBySlot(cores: nat, priorities: seq<nat>, slots: nat, fine: seq<Action>)
    requires |priorities| <= slots && FineLegal(PowerUp(cores, priorities, slots), fine) && PositiveRun(fine)
    requires forall i :: 0 <= i < |priorities| ==> 1 <= priorities[i] < U64
    ensures var s := FineExec(PowerUp(cores, priorities, slots), fine).s; !s.lock ==> Ledger(s)
  {
    hide Related, Ledger;
    var run := SlotBySlotIsOneStep(cores, priorities, slots, fine);
    var f, s := FineExec(PowerUp(cores, priorities, slots), fine), Exec(Boot(cores, priorities, slots), run);
    var late :| Related(f, s, late);
    SameRunning(f, s, late);
    BootLedger(cores, priorities, slots);
    RunLedger(Boot(cores, priorities, slots), run);
  }

  // ----- a selection ends

  /** How many steps a selection among n slots has left at most. */
  function Left(scan: Scan, n: nat): nat {
    match scan
    case Idle => 0
    case First(c, i, best, wait) => n + 2 + if i < n then n - i else 0
    case Second(c, i, best) => 1 + if i < n then n - i else 0
  }

  /** How many steps core c takes in a run. */
  function StepsOf(run: seq<Action>, c: nat): nat {
    if run == [] then 0 else (if run[0] == Advance(c) then 1 else 0) + StepsOf(run[1..], c)
  }

  /** The selection under way comes to its end in the run, and its core has gone on. */
  ghost predicate EndsIn(f: Fine, run: seq<Action>)
    decreases |run|
  {
    && !f.scan.Idle? && run != []
    && var f' := FineNext(f, run[0]);
    if f'.scan.Idle? then f.scan.c < |f'.s.cores| && !f'.s.cores[f.scan.c].pc.Select? else EndsIn(f', run[1..])
  }

  /** Every step of its own takes a selection on; no other step does anything to it. */
  lemma LeftStep(f: Fine, s: Sys, late: seq<nat>, a: Action)
    requires Related(f, s, late) && Legal(f.s, a) && !f.scan.Idle?
    ensures |FineNext(f, a).s.tasks| == |f.s.tasks|
    ensures a == Advance(f.scan.c) ==> Left(FineNext(f, a).scan, |f.s.tasks|) < Left(f.scan, |f.s.tasks|)
    ensures a != Advance(f.scan.c) ==> FineNext(f, a).scan == f.scan
    ensures var f' := FineNext(f, a);
      if f'.scan.Idle? then f.scan.c < |f'.s.cores| && !f'.s.cores[f.scan.c].pc.Select? else f'.scan.c == f.scan.c
  {
    hide Related;
    RelatedFormed(f, s, late);
    RelatedSafe(f, s, late);
  }

  lemma {:induction false} EndsWithinLeft(f: Fine, s: Sys, late: seq<nat>, run: seq<Action>)
    requires Related(f, s, late) && FineLegal(f, run) && !f.scan.Idle?
    requires StepsOf(run, f.scan.c) >= Left(f.scan, |f.s.tasks|)
    ensures EndsIn(f, run)
    decreases |run|
  {
    hide Related, FineNext, Left;
    LeftPositive(f);
    RelatedSafe(f, s, late);
    LeftStep(f, s, late, run[0]);
    var more, late' := Simulates(f, run[0], s, late, false);
    if !FineNext(f, run[0]).scan.Idle? {
      EndsWithinLeft(FineNext(f, run[0]), Exec(s, more), late', run[1..]);
    }
  }

  lemma LeftPositive(f: Fine)
    requires !f.scan.Idle?
    ensures Left(f.scan, |f.s.tasks|) > 0
  {
  }

  /**
   * From power-up on, whatever the other cores do and whatever is created meanwhile: a selection under way ends within
   * two steps for each slot, and two more, of the core that selects.
   */
  lemma SelectionEnds(cores: nat, priorities: seq<nat>, slots: nat, fine: seq<Action>, more: seq<Action>)
    requires |priorities| <= slots && FineLegal(PowerUp(cores, priorities, slots), fine)
    requires var f := FineExec(PowerUp(cores, priorities, slots), fine);
      FineLegal(f, more) && !f.scan.Idle? && StepsOf(more, f.scan.c) >= 2 * |f.s.tasks| + 2
    ensures EndsIn(FineExec(PowerUp(cores, priorities, slots), fine), more)
  {
    hide Related;
    var run := SlotBySlotIsOneStep(cores, priorities, slots, fine);
    var f, s := FineExec(PowerUp(cores, priorities, slots), fine), Exec(Boot(cores, priorities, slots), run);
    var late :| Related(f, s, late);
    EndsWithinLeft(f, s, late, more);
  }
}
