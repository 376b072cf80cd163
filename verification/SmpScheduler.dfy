/**
 * The per-core interrupt handlers of x64_kenerl/asm/apic_interrupts.asm as a step relation: any number
 * of cores share the task table under the exchange spin lock of x64_kenerl/asm/spinlock.asm.
 */
module SmpScheduler {
  import opened Arith
  import opened TaskSelection

  /** Where a core is; interrupts are off inside a handler, so a core runs one handler at a time. */
  datatype Pc =
    | Outside            // running its task, or halted
    | TimerLock          // timer handler, at spin_lock
    | TimerCheck         // timer handler, lock held, at the test of gs:32
    | Park               // the charge used up the slice: about to set the task waiting
    | BroadcastCheck     // broadcast handler, at the test of gs:32
    | BroadcastLock      // broadcast handler, at spin_lock
    | Select             // lock held, at get_next_ready_task
    | Publish(t: nat)    // about to store the picked task in gs:32
    | Mark(t: nat)       // about to set the picked task running once more
    | Unlock             // about to release the lock

  datatype Current = Nobody | Task(t: nat)

  datatype Core = Core(cur: Current, pc: Pc)

  /** lock: the lock word; ticks and rounds: history, the charges and the slice resets of each slot. */
  datatype Sys = Sys(lock: bool, tasks: seq<Slot>, cores: seq<Core>, ticks: seq<nat>, rounds: seq<nat>)

  datatype Action =
    | TimerInterrupt(c: nat)
    | BroadcastInterrupt(c: nat)
    | Advance(c: nat)            // the next step of the handler that core c is in
    | Create(priority: nat, slot: int)   // ktask_create or utask_create stores a ready task in the slot it found

  predicate Holds(pc: Pc) {
    pc.TimerCheck? || pc.Park? || pc.Select? || pc.Publish? || pc.Mark? || pc.Unlock?
  }

  function At(s: Sys, c: nat, pc: Pc): Sys
    requires c < |s.cores|
  {
    s.(cores := s.cores[c := s.cores[c].(pc := pc)])
  }

  /** spin_lock: exchange the lock word with 1 and go on if it was 0; else try again. */
  function TryLock(s: Sys, c: nat, pc: Pc): Sys
    requires c < |s.cores|
  {
    if s.lock then s else At(s, c, pc).(lock := true)
  }

  /** decrease_task_couter, and the unsigned test that follows it. */
  function Charge(s: Sys, c: nat, t: nat): Sys
    requires c < |s.cores| && t < |s.tasks| && s.tasks[t].Task? && t < |s.ticks|
  {
    var n := (s.tasks[t].counter - 1) % U64;
    At(s, c, if n > 0 then Unlock else Park).(
      tasks := s.tasks[t := s.tasks[t].(counter := n)], ticks := s.ticks[t := s.ticks[t] + 1])
  }

  /** The rounds after a selection: one more for each task whose slice was reset. */
  function RoundsAfter(s: Sys): (r: seq<nat>)
    requires |s.rounds| == |s.tasks|
    ensures |r| == |s.rounds|
  {
    seq(|s.rounds|, i requires 0 <= i < |s.rounds| =>
      if Refills(s.tasks) && In(s.tasks, i, Waiting) then s.rounds[i] + 1 else s.rounds[i])
  }

  function DoSelect(s: Sys, c: nat): Sys
    requires c < |s.cores| && |s.rounds| == |s.tasks|
  {
    var t := Pick(s.tasks);
    At(s, c, if t == NONE then Unlock else Publish(t)).(tasks := Selected(s.tasks), rounds := RoundsAfter(s))
  }

  function SetState(ts: seq<Slot>, t: nat, st: TaskState): seq<Slot>
    requires t < |ts| && ts[t].Task?
  {
    ts[t := ts[t].(state := st)]
  }

  function Step(s: Sys, c: nat): Sys
    requires WellFormed(s) && c < |s.cores|
  {
    var core := s.cores[c];
    match core.pc
    case Outside => s
    case TimerLock => TryLock(s, c, TimerCheck)
    case TimerCheck => if core.cur.Nobody? then At(s, c, Select) else Charge(s, c, core.cur.t)
    case Park => if core.cur.Nobody? then s else At(s, c, Select).(tasks := SetState(s.tasks, core.cur.t, Waiting))
    case BroadcastCheck => At(s, c, if core.cur.Nobody? then BroadcastLock else Outside)
    case BroadcastLock => TryLock(s, c, Select)
    case Select => DoSelect(s, c)
    case Publish(t) => s.(cores := s.cores[c := Core(Current.Task(t), Mark(t))])
    case Mark(t) => At(s, c, Unlock).(tasks := SetState(s.tasks, t, Running))
    case Unlock => At(s, c, Outside).(lock := false)
  }

  predicate EmptySlot(ts: seq<Slot>, i: int) {
    0 <= i < |ts| && ts[i].Empty?
  }

  function AddTask(s: Sys, priority: nat, slot: int): Sys
    requires EmptySlot(s.tasks, slot)
  {
    s.(tasks := s.tasks[slot := Slot.Task(Ready, priority, priority)])
  }

  /** A task is stored in a slot that is empty: in a full table the source stores it at index -1. */
  predicate Legal(s: Sys, a: Action) {
    a.Create? ==> EmptySlot(s.tasks, a.slot)
  }

  function Next(s: Sys, a: Action): Sys
    requires WellFormed(s) && Legal(s, a)
  {
    match a
    case TimerInterrupt(c) => if c < |s.cores| && s.cores[c].pc.Outside? then At(s, c, TimerLock) else s
    case BroadcastInterrupt(c) => if c < |s.cores| && s.cores[c].pc.Outside? then At(s, c, BroadcastCheck) else s
    case Advance(c) => if c < |s.cores| then Step(s, c) else s
    case Create(p, i) => AddTask(s, p, i)
  }

  predicate Occupied(s: Sys, t: nat) {
    t < |s.tasks| && s.tasks[t].Task?
  }

  ghost predicate CoreFormed(s: Sys, core: Core) {
    && (core.cur.Task? ==> Occupied(s, core.cur.t))
    && (core.pc.Publish? || core.pc.Mark? ==> Occupied(s, core.pc.t))
  }

  ghost predicate WellFormed(s: Sys) {
    && |s.ticks| == |s.tasks| == |s.rounds|
    && forall c :: 0 <= c < |s.cores| ==> CoreFormed(s, s.cores[c])
  }

  // ----- safety

  predicate RunningTask(s: Sys, t: nat) {
    In(s.tasks, t, Running)
  }

  /** What is known of a core's task at each point of the handlers. */
  ghost predicate CoreOk(s: Sys, core: Core) {
    match core.pc
    case BroadcastLock => core.cur.Nobody?
    case Park => core.cur.Task? && RunningTask(s, core.cur.t)
    case Select => core.cur.Task? ==> In(s.tasks, core.cur.t, Waiting)
    case Publish(t) => RunningTask(s, t) && (core.cur.Task? && core.cur.t != t ==> !RunningTask(s, core.cur.t))
    case Mark(t) => core.cur == Current.Task(t) && RunningTask(s, t)
    case _ => core.cur.Task? ==> RunningTask(s, core.cur.t)
  }

  /** Core c owns task t: it is current there, or about to be. */
  predicate Owns(core: Core, t: nat) {
    if core.pc.Publish? then core.pc.t == t else core.cur == Current.Task(t)
  }

  ghost predicate Owned(s: Sys, t: nat) {
    exists c :: 0 <= c < |s.cores| && Owns(s.cores[c], t)
  }

  ghost predicate Held(s: Sys) {
    exists c :: 0 <= c < |s.cores| && Holds(s.cores[c].pc)
  }

  /** Two cores never hold the lock together, and never have, or are about to take, the same task. */
  ghost predicate Apart(c: Core, d: Core) {
    && !(Holds(c.pc) && Holds(d.pc))
    && (c.cur.Task? ==> d.cur != c.cur)
    && (c.pc.Publish? ==> d.cur != Current.Task(c.pc.t))
  }

  ghost predicate Safe(s: Sys) {
    && WellFormed(s)
    && (s.lock <==> Held(s))
    && (forall c :: 0 <= c < |s.cores| ==> CoreOk(s, s.cores[c]))
    && (forall c, d :: 0 <= c < |s.cores| && 0 <= d < |s.cores| && c != d ==> Apart(s.cores[c], s.cores[d]))
    && (forall t: nat :: RunningTask(s, t) ==> Owned(s, t))
  }

  /** Only core c moves; the others keep their program counters and tasks. */
  ghost predicate Moves(s: Sys, s': Sys, c: nat) {
    && c < |s.cores| == |s'.cores|
    && forall d :: 0 <= d < |s.cores| && d != c ==> s'.cores[d] == s.cores[d]
  }

  /**
   * The step of core c keeps Safe, provided that what it does to the task table leaves alone the running
   * tasks of the other cores, and that core c itself is as it should be afterwards.
   */
  lemma MoveKeeps(s: Sys, s': Sys, c: nat)
    requires Safe(s) && WellFormed(s') && Moves(s, s', c) && CoreOk(s', s'.cores[c])
    requires forall d :: 0 <= d < |s.cores| && d != c ==>
      CoreOk(s', s.cores[d]) && Apart(s'.cores[c], s.cores[d]) && Apart(s.cores[d], s'.cores[c])
    requires s'.lock <==> Holds(s'.cores[c].pc) || (s.lock && !Holds(s.cores[c].pc))
    requires forall t: nat :: RunningTask(s', t) ==>
      Owns(s'.cores[c], t) || (RunningTask(s, t) && !Owns(s.cores[c], t))
    ensures Safe(s')
  {
    forall t: nat | RunningTask(s', t)
      ensures Owned(s', t)
    {
      if !Owns(s'.cores[c], t) {
        var d :| 0 <= d < |s.cores| && Owns(s.cores[d], t);
        assert Owns(s'.cores[d], t);
      }
    }
    if s.lock && !Holds(s.cores[c].pc) {
      var d :| 0 <= d < |s.cores| && Holds(s.cores[d].pc);
      assert Holds(s'.cores[d].pc);
    }
    if Held(s') && !Holds(s'.cores[c].pc) {
      var d :| 0 <= d < |s'.cores| && Holds(s'.cores[d].pc);
      assert Holds(s.cores[d].pc) && d != c;
      assert Apart(s.cores[c], s.cores[d]);
    }
  }

  /** While core c holds the lock, the other cores are outside the critical section and their tasks run. */
  lemma Others(s: Sys, c: nat, d: nat)
    requires Safe(s) && c < |s.cores| && Holds(s.cores[c].pc) && d < |s.cores| && d != c
    ensures !Holds(s.cores[d].pc)
    ensures s.cores[d].cur.Task? ==> RunningTask(s, s.cores[d].cur.t)
    ensures s.cores[d].cur.Task? ==> s.cores[c].cur != s.cores[d].cur
  {
    assert Apart(s.cores[c], s.cores[d]) && CoreOk(s, s.cores[d]);
  }

  lemma MoveOnly(s: Sys, c: nat, pc: Pc)
    requires Safe(s) && c < |s.cores| && CoreFormed(s, Core(s.cores[c].cur, pc)) && CoreOk(s, Core(s.cores[c].cur, pc))
    requires Holds(pc) <==> Holds(s.cores[c].pc)
    requires !pc.Publish? && !s.cores[c].pc.Publish?
    ensures Safe(At(s, c, pc))
  {
    forall d | 0 <= d < |s.cores| && d != c
      ensures Apart(At(s, c, pc).cores[c], s.cores[d]) && Apart(s.cores[d], At(s, c, pc).cores[c])
    {
      assert Apart(s.cores[c], s.cores[d]) && Apart(s.cores[d], s.cores[c]);
    }
    MoveKeeps(s, At(s, c, pc), c);
  }

  lemma LockKeeps(s: Sys, c: nat, pc: Pc)
    requires Safe(s) && c < |s.cores| && !Holds(s.cores[c].pc) && !s.lock && (pc.TimerCheck? || pc.Select?)
    requires pc.Select? ==> s.cores[c].cur.Nobody?
    ensures Safe(TryLock(s, c, pc))
  {
    var s' := TryLock(s, c, pc);
    assert CoreOk(s, s.cores[c]) && CoreFormed(s, s.cores[c]);
    forall d | 0 <= d < |s.cores| && d != c
      ensures CoreOk(s', s.cores[d]) && Apart(s'.cores[c], s.cores[d]) && Apart(s.cores[d], s'.cores[c])
    {
      assert !Holds(s.cores[d].pc);
      assert CoreOk(s, s.cores[d]) && Apart(s.cores[c], s.cores[d]) && Apart(s.cores[d], s.cores[c]);
    }
    assert Moves(s, s', c);
    MoveKeeps(s, s', c);
  }

  lemma ChargeKeeps(s: Sys, c: nat)
    requires Safe(s) && c < |s.cores| && s.cores[c].pc.TimerCheck? && s.cores[c].cur.Task?
    ensures Occupied(s, s.cores[c].cur.t) && Safe(Charge(s, c, s.cores[c].cur.t))
  {
    assert CoreFormed(s, s.cores[c]) && CoreOk(s, s.cores[c]);
    var s' := Charge(s, c, s.cores[c].cur.t);
    assert forall t: nat :: RunningTask(s', t) == RunningTask(s, t) && Occupied(s', t) == Occupied(s, t);
    forall d | 0 <= d < |s.cores| && d != c
      ensures CoreFormed(s', s.cores[d]) && CoreOk(s', s.cores[d])
      ensures Apart(s'.cores[c], s.cores[d]) && Apart(s.cores[d], s'.cores[c])
    {
      Others(s, c, d);
      assert CoreFormed(s, s.cores[d]) && CoreOk(s, s.cores[d]);
      assert Apart(s.cores[c], s.cores[d]) && Apart(s.cores[d], s.cores[c]);
    }
    MoveKeeps(s, s', c);
  }

  lemma ParkKeeps(s: Sys, c: nat)
    requires Safe(s) && c < |s.cores| && s.cores[c].pc.Park?
    ensures s.cores[c].cur.Task? && Safe(Step(s, c))
  {
    assert CoreFormed(s, s.cores[c]) && CoreOk(s, s.cores[c]);
    var s' := Step(s, c);
    var u := s.cores[c].cur.t;
    assert forall t: nat :: Occupied(s', t) == Occupied(s, t) && (RunningTask(s', t) <==> RunningTask(s, t) && t != u);
    forall d | 0 <= d < |s.cores| && d != c
      ensures CoreFormed(s', s.cores[d]) && CoreOk(s', s.cores[d])
      ensures Apart(s'.cores[c], s.cores[d]) && Apart(s.cores[d], s'.cores[c])
    {
      Others(s, c, d);
      assert CoreFormed(s, s.cores[d]) && CoreOk(s, s.cores[d]);
      assert Apart(s.cores[c], s.cores[d]) && Apart(s.cores[d], s.cores[c]);
    }
    MoveKeeps(s, s', c);
  }

  /** A selection leaves running tasks alone and adds at most the one picked. */
  lemma SelectedRunning(ts: seq<Slot>, t: int)
    requires 0 <= t < |ts|
    ensures Selected(ts)[t].Task? <==> ts[t].Task?
    ensures In(Selected(ts), t, Running) <==> In(ts, t, Running) || t == Pick(ts)
    ensures t == Pick(ts) ==> !In(ts, t, Running)
  {
    SelectedSlot(ts, t);
    PickMeaning(ts);
  }

  lemma SelectKeeps(s: Sys, c: nat)
    requires Safe(s) && c < |s.cores| && s.cores[c].pc.Select?
    ensures Safe(DoSelect(s, c))
    ensures Pick(s.tasks) == NONE ==> s.cores[c].cur.Nobody?
  {
    assert CoreFormed(s, s.cores[c]) && CoreOk(s, s.cores[c]);
    var s' := DoSelect(s, c);
    if s.cores[c].cur.Task? {
      ParkedNeverNull(s.tasks, s.cores[c].cur.t);
    }
    forall t: nat
      ensures Occupied(s', t) == Occupied(s, t)
      ensures RunningTask(s', t) <==> RunningTask(s, t) || t == Pick(s.tasks)
      ensures t == Pick(s.tasks) ==> !RunningTask(s, t) && Occupied(s, t)
    {
      if t < |s.tasks| {
        SelectedRunning(s.tasks, t);
      }
    }
    forall d | 0 <= d < |s.cores| && d != c
      ensures CoreFormed(s', s.cores[d]) && CoreOk(s', s.cores[d])
      ensures Apart(s'.cores[c], s.cores[d]) && Apart(s.cores[d], s'.cores[c])
    {
      Others(s, c, d);
      assert CoreFormed(s, s.cores[d]) && CoreOk(s, s.cores[d]);
      assert Apart(s.cores[c], s.cores[d]) && Apart(s.cores[d], s.cores[c]);
    }
    MoveKeeps(s, s', c);
  }

  lemma PublishKeeps(s: Sys, c: nat)
    requires Safe(s) && c < |s.cores| && s.cores[c].pc.Publish?
    ensures Safe(Step(s, c))
  {
    assert CoreFormed(s, s.cores[c]) && CoreOk(s, s.cores[c]);
    var s' := Step(s, c);
    forall d | 0 <= d < |s.cores| && d != c
      ensures CoreFormed(s', s.cores[d]) && CoreOk(s', s.cores[d])
      ensures Apart(s'.cores[c], s.cores[d]) && Apart(s.cores[d], s'.cores[c])
    {
      Others(s, c, d);
      assert CoreFormed(s, s.cores[d]) && CoreOk(s, s.cores[d]);
      assert Apart(s.cores[c], s.cores[d]) && Apart(s.cores[d], s.cores[c]);
    }
    MoveKeeps(s, s', c);
  }

  lemma MarkKeeps(s: Sys, c: nat)
    requires Safe(s) && c < |s.cores| && s.cores[c].pc.Mark?
    ensures Safe(Step(s, c))
  {
    assert CoreFormed(s, s.cores[c]) && CoreOk(s, s.cores[c]);
    assert SetState(s.tasks, s.cores[c].pc.t, Running) == s.tasks;
    assert Step(s, c) == At(s, c, Unlock);
    MoveOnly(s, c, Unlock);
  }

  /** Releasing the lock: nobody holds it afterwards. */
  lemma ReleaseKeeps(s: Sys, s': Sys, c: nat)
    requires Safe(s) && c < |s.cores| && s.cores[c].pc.Unlock? && s' == Step(s, c) && WellFormed(s')
    requires CoreOk(s', s'.cores[c])
    requires forall d :: 0 <= d < |s.cores| && d != c ==>
      CoreOk(s', s.cores[d]) && Apart(s'.cores[c], s.cores[d]) && Apart(s.cores[d], s'.cores[c])
    ensures Safe(s')
  {
    forall d | 0 <= d < |s.cores| && d != c
      ensures !Holds(s'.cores[d].pc)
    {
      Others(s, c, d);
    }
    forall t: nat | RunningTask(s', t)
      ensures Owned(s', t)
    {
      assert RunningTask(s, t) && Owned(s, t);
      var d :| 0 <= d < |s.cores| && Owns(s.cores[d], t);
      assert Owns(s'.cores[d], t);
    }
  }

  lemma UnlockKeeps(s: Sys, c: nat)
    requires Safe(s) && c < |s.cores| && s.cores[c].pc.Unlock?
    ensures Safe(Step(s, c))
  {
    assert CoreFormed(s, s.cores[c]) && CoreOk(s, s.cores[c]);
    var s' := Step(s, c);
    forall d | 0 <= d < |s.cores| && d != c
      ensures CoreFormed(s', s.cores[d]) && CoreOk(s', s.cores[d])
      ensures Apart(s'.cores[c], s.cores[d]) && Apart(s.cores[d], s'.cores[c])
    {
      Others(s, c, d);
      assert CoreFormed(s, s.cores[d]) && CoreOk(s, s.cores[d]);
      assert Apart(s.cores[c], s.cores[d]) && Apart(s.cores[d], s.cores[c]);
    }
    ReleaseKeeps(s, s', c);
  }

  lemma CreateKeeps(s: Sys, p: nat, i: int)
    requires Safe(s) && EmptySlot(s.tasks, i)
    ensures Safe(AddTask(s, p, i))
  {
    var s' := AddTask(s, p, i);
    assert forall t: nat :: Occupied(s, t) ==> Occupied(s', t) && s'.tasks[t] == s.tasks[t];
    assert forall t: nat :: RunningTask(s', t) == RunningTask(s, t);
    forall c | 0 <= c < |s.cores|
      ensures CoreFormed(s', s.cores[c]) && CoreOk(s', s.cores[c])
    {
      assert CoreFormed(s, s.cores[c]) && CoreOk(s, s.cores[c]);
    }
    forall t: nat | RunningTask(s', t)
      ensures Owned(s', t)
    {
      assert RunningTask(s, t) && Owned(s, t);
      var c :| 0 <= c < |s.cores| && Owns(s.cores[c], t);
      assert Owns(s'.cores[c], t);
    }
    if Held(s) {
      var c :| 0 <= c < |s.cores| && Holds(s.cores[c].pc);
      assert Holds(s'.cores[c].pc);
    }
  }

  /** The slot that get_free_task_index finds can be used exactly while some slot is empty. */
  lemma CreateLegalIff(s: Sys, p: nat)
    ensures Legal(s, Create(p, FreeIndex(s.tasks, 0))) <==> exists t :: 0 <= t < |s.tasks| && s.tasks[t].Empty?
  {
    var i := FreeIndex(s.tasks, 0);
    assert i != NONE ==> s.tasks[i].Empty?;
  }

  /** An input that fails: a table with a task in every slot. */
  lemma FullTable(priorities: seq<nat>, p: nat)
    ensures var s := Boot(1, priorities, |priorities|);
      FreeIndex(s.tasks, 0) == NONE && !Legal(s, Create(p, FreeIndex(s.tasks, 0)))
  {
    var s := Boot(1, priorities, |priorities|);
    CreateLegalIff(s, p);
  }

  /** Every step of every core, every interrupt and every creation keeps Safe. */
  lemma StepKeeps(s: Sys, a: Action)
    requires Safe(s) && Legal(s, a)
    ensures Safe(Next(s, a))
  {
    match a
    case Create(p, i) => CreateKeeps(s, p, i);
    case TimerInterrupt(c) =>
      if c < |s.cores| && s.cores[c].pc.Outside? {
        assert CoreFormed(s, s.cores[c]) && CoreOk(s, s.cores[c]);
        MoveOnly(s, c, TimerLock);
      }
    case BroadcastInterrupt(c) =>
      if c < |s.cores| && s.cores[c].pc.Outside? {
        assert CoreFormed(s, s.cores[c]) && CoreOk(s, s.cores[c]);
        MoveOnly(s, c, BroadcastCheck);
      }
    case Advance(c) =>
      if c < |s.cores| {
        CoreStepKeeps(s, c);
      }
  }

  lemma CoreStepKeeps(s: Sys, c: nat)
    requires Safe(s) && c < |s.cores|
    ensures Safe(Step(s, c))
  {
    var core := s.cores[c];
    assert CoreFormed(s, core) && CoreOk(s, core);
    match core.pc
    case Outside =>
    case TimerLock => if !s.lock { LockKeeps(s, c, TimerCheck); }
    case TimerCheck => if core.cur.Nobody? { MoveOnly(s, c, Select); } else { ChargeKeeps(s, c); }
    case Park => ParkKeeps(s, c);
    case BroadcastCheck => MoveOnly(s, c, if core.cur.Nobody? then BroadcastLock else Outside);
    case BroadcastLock => if !s.lock { LockKeeps(s, c, Select); }
    case Select => SelectKeeps(s, c);
    case Publish(t) => PublishKeeps(s, c);
    case Mark(t) => MarkKeeps(s, c);
    case Unlock => UnlockKeeps(s, c);
  }

  // ----- runs

  predicate LegalRun(s: Sys, run: seq<Action>)
    requires Safe(s)
    decreases |run|
  {
    run == [] || (Legal(s, run[0]) && (StepKeeps(s, run[0]); LegalRun(Next(s, run[0]), run[1..])))
  }

  /** The state after a run of actions. */
  function Exec(s: Sys, run: seq<Action>): (r: Sys)
    requires Safe(s) && LegalRun(s, run)
    ensures Safe(r)
    decreases |run|
  {
    if run == [] then s
    else
      StepKeeps(s, run[0]);
      Exec(Next(s, run[0]), run[1..])
  }

  lemma ExecOne(s: Sys, a: Action)
    requires Safe(s) && Legal(s, a)
    ensures LegalRun(s, [a]) && Exec(s, [a]) == Next(s, a)
  {
    StepKeeps(s, a);
    assert [a][1..] == [];
    assert LegalRun(Next(s, a), []);
  }

  lemma {:induction false} ExecJoin(s: Sys, run: seq<Action>, more: seq<Action>)
    requires Safe(s) && LegalRun(s, run) && LegalRun(Exec(s, run), more)
    ensures LegalRun(s, run + more) && Exec(s, run + more) == Exec(Exec(s, run), more)
    decreases |run|
  {
    if run == [] {
      assert run + more == more;
    } else {
      StepKeeps(s, run[0]);
      assert (run + more)[1..] == run[1..] + more;
      ExecJoin(Next(s, run[0]), run[1..], more);
    }
  }

  /** Power-up: the lock is free, every core is halted, and the tasks are fresh. */
  function Boot(cores: nat, priorities: seq<nat>, slots: nat): (s: Sys)
    requires |priorities| <= slots
    ensures Safe(s)
  {
    Sys(false,
        seq(slots, i requires 0 <= i < slots =>
          if i < |priorities| then Slot.Task(Ready, priorities[i], priorities[i]) else Empty),
        seq(cores, _ => Core(Nobody, Outside)), seq(slots, _ => 0), seq(slots, _ => 0))
  }

  /**
   * In every interleaving from power-up, at every point: no task is the current task of two cores, at most
   * one core is in the critical section, and while the lock is free the running tasks are exactly the
   * current tasks of the cores.
   */
  lemma NoTaskOnTwoCores(cores: nat, priorities: seq<nat>, slots: nat, run: seq<Action>)
    requires |priorities| <= slots && LegalRun(Boot(cores, priorities, slots), run)
    ensures var s := Exec(Boot(cores, priorities, slots), run);
      && (forall c, d :: 0 <= c < d < |s.cores| && s.cores[c].cur.Task? ==> s.cores[c].cur != s.cores[d].cur)
      && (forall c, d :: 0 <= c < d < |s.cores| ==> !(Holds(s.cores[c].pc) && Holds(s.cores[d].pc)))
      && (!s.lock ==> forall t: nat :: RunningTask(s, t) <==> IsCurrent(s, t))
  {
    SafeMeaning(Exec(Boot(cores, priorities, slots), run));
  }

  ghost predicate IsCurrent(s: Sys, t: nat) {
    exists c :: 0 <= c < |s.cores| && s.cores[c].cur == Current.Task(t)
  }

  lemma SafeMeaning(s: Sys)
    requires Safe(s)
    ensures forall c, d :: 0 <= c < d < |s.cores| && s.cores[c].cur.Task? ==> s.cores[c].cur != s.cores[d].cur
    ensures forall c, d :: 0 <= c < d < |s.cores| ==> !(Holds(s.cores[c].pc) && Holds(s.cores[d].pc))
    ensures !s.lock ==> forall t: nat :: RunningTask(s, t) <==> IsCurrent(s, t)
  {
    forall c, d | 0 <= c < d < |s.cores|
      ensures Apart(s.cores[c], s.cores[d])
    {
    }
    if !s.lock {
      forall t: nat
        ensures RunningTask(s, t) <==> IsCurrent(s, t)
      {
        if RunningTask(s, t) {
          var c :| 0 <= c < |s.cores| && Owns(s.cores[c], t);
          assert !Holds(s.cores[c].pc);
          assert s.cores[c].cur == Current.Task(t);
        }
        if IsCurrent(s, t) {
          var c :| 0 <= c < |s.cores| && s.cores[c].cur == Current.Task(t);
          assert !Holds(s.cores[c].pc) && CoreOk(s, s.cores[c]);
        }
      }
    }
  }
}
