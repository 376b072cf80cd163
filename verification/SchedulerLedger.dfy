/** Time slices over runs of the scheduler: the ledger of every task, and its share of the ticks on one core. */
module SchedulerLedger {
  import opened Arith
  import opened TaskSelection
  import opened SmpScheduler

  // ----- the ledger

  ghost predicate Parked(s: Sys, t: nat) {
    exists c :: 0 <= c < |s.cores| && s.cores[c].pc.Park? && s.cores[c].cur == Current.Task(t)
  }

  /**
   * Slice and history of one slot: ready means a full slice, waiting an empty one, and ticks are rounds plus the slice
   * used.
   */
  ghost predicate SlotLedger(slot: Slot, tick: nat, round: nat) {
    match slot
    case Empty => tick == 0 && round == 0
    case Task(state, counter, priority) =>
      && 1 <= priority < U64 && counter <= priority
      && (state == Ready || state == Running || state == Waiting)
      && (state == Ready ==> counter == priority)
      && (state == Waiting ==> counter == 0)
      && tick == round * priority + (priority - counter)
  }

  ghost predicate Ledger(s: Sys) {
    && Safe(s)
    && (forall t :: 0 <= t < |s.tasks| ==> SlotLedger(s.tasks[t], s.ticks[t], s.rounds[t]))
    && (forall t: nat :: RunningTask(s, t) && s.tasks[t].counter == 0 ==> Parked(s, t))
    && (forall c :: 0 <= c < |s.cores| ==> ParkedEmpty(s, s.cores[c]))
  }

  ghost predicate ParkedEmpty(s: Sys, core: Core) {
    core.pc.Park? && core.cur.Task? && Occupied(s, core.cur.t) ==> s.tasks[core.cur.t].counter == 0
  }

  /** With the lock free, or held by a core that is not parking, nobody is parking. */
  lemma NoneParked(s: Sys, t: nat)
    requires Safe(s) && (!s.lock || exists c :: 0 <= c < |s.cores| && Holds(s.cores[c].pc) && !s.cores[c].pc.Park?)
    ensures !Parked(s, t)
  {
    if s.lock {
      var c :| 0 <= c < |s.cores| && Holds(s.cores[c].pc) && !s.cores[c].pc.Park?;
      forall d | 0 <= d < |s.cores|
        ensures !s.cores[d].pc.Park?
      {
        Others'(s, c, d);
      }
    } else {
      assert forall d :: 0 <= d < |s.cores| ==> !Holds(s.cores[d].pc);
    }
  }

  /** While the lock is free, a running task has between one tick and its whole slice left. */
  lemma LedgerMeaning(s: Sys, t: nat)
    requires Ledger(s) && !s.lock && Occupied(s, t)
    ensures var k := s.tasks[t];
      && (k.state == Ready ==> k.counter == k.priority)
      && (k.state == Running ==> 1 <= k.counter <= k.priority)
      && (k.state == Waiting ==> k.counter == 0)
      && (k.state == Ready || k.state == Running || k.state == Waiting)
  {
    assert SlotLedger(s.tasks[t], s.ticks[t], s.rounds[t]);
    NoneParked(s, t);
  }

  /** The task charged has a tick left, so the unsigned decrement never wraps. */
  lemma ChargeNeverWraps(s: Sys, c: nat)
    requires Ledger(s) && c < |s.cores| && s.cores[c].pc.TimerCheck? && s.cores[c].cur.Task?
    ensures Occupied(s, s.cores[c].cur.t) && s.tasks[s.cores[c].cur.t].counter >= 1
  {
    var t := s.cores[c].cur.t;
    assert CoreFormed(s, s.cores[c]) && CoreOk(s, s.cores[c]);
    NoneParked(s, t);
  }

  lemma ChargeLedger(s: Sys, c: nat)
    requires Ledger(s) && c < |s.cores| && s.cores[c].pc.TimerCheck? && s.cores[c].cur.Task?
    ensures Ledger(Step(s, c))
  {
    ChargeNeverWraps(s, c);
    ChargeKeeps(s, c);
    var t := s.cores[c].cur.t;
    var s' := Step(s, c);
    assert SlotLedger(s.tasks[t], s.ticks[t], s.rounds[t]);
    assert CoreOk(s, s.cores[c]);
    forall u: nat | RunningTask(s', u) && s'.tasks[u].counter == 0
      ensures Parked(s', u)
    {
      NoneParked(s, u);
      assert u == t && s'.cores[c].pc.Park?;
    }
    forall d | 0 <= d < |s.cores|
      ensures ParkedEmpty(s', s'.cores[d])
    {
      assert ParkedEmpty(s, s.cores[d]);
    }
  }

  lemma ParkLedger(s: Sys, c: nat)
    requires Ledger(s) && c < |s.cores| && s.cores[c].pc.Park?
    ensures Ledger(Step(s, c))
  {
    ParkKeeps(s, c);
    var s' := Step(s, c);
    var t := s.cores[c].cur.t;
    assert CoreFormed(s, s.cores[c]) && ParkedEmpty(s, s.cores[c]);
    assert SlotLedger(s.tasks[t], s.ticks[t], s.rounds[t]);
    forall u: nat | RunningTask(s', u)
      ensures s'.tasks[u].counter > 0
    {
      OnlyOneParked(s, c, u);
    }
    forall d | 0 <= d < |s.cores|
      ensures ParkedEmpty(s', s'.cores[d])
    {
      Others'(s, c, d);
    }
  }

  /** While core c parks its task, every other running task has ticks left. */
  lemma OnlyOneParked(s: Sys, c: nat, u: nat)
    requires Ledger(s) && c < |s.cores| && s.cores[c].pc.Park? && RunningTask(s, u) && s.cores[c].cur != Current.Task(u)
    ensures s.tasks[u].counter > 0
  {
    forall d | 0 <= d < |s.cores| && d != c
      ensures !s.cores[d].pc.Park?
    {
      Others'(s, c, d);
    }
    assert !Parked(s, u);
  }

  /** Core c holds the lock, so no other core is parking. */
  lemma Others'(s: Sys, c: nat, d: nat)
    requires Safe(s) && c < |s.cores| && Holds(s.cores[c].pc) && d < |s.cores|
    ensures d != c ==> !s.cores[d].pc.Park?
  {
    if d != c {
      Others(s, c, d);
    }
  }

  lemma RefillRound(round: nat, priority: nat)
    ensures (round + 1) * priority == round * priority + priority
  {
  }

  lemma SelectLedger(s: Sys, c: nat)
    requires Ledger(s) && c < |s.cores| && s.cores[c].pc.Select?
    ensures Ledger(Step(s, c))
  {
    SelectKeeps(s, c);
    var s' := Step(s, c);
    forall t: nat | t < |s.tasks|
      ensures SlotLedger(s'.tasks[t], s'.ticks[t], s'.rounds[t])
      ensures In(s'.tasks, t, Running) ==> s'.tasks[t].counter > 0
    {
      SlotAfterSelect(s, c, t);
      NoneParked(s, t);
    }
    forall d | 0 <= d < |s.cores|
      ensures ParkedEmpty(s', s'.cores[d])
    {
      Others'(s, c, d);
    }
  }

  lemma SlotAfterSelect(s: Sys, c: nat, t: nat)
    requires Ledger(s) && c < |s.cores| && s.cores[c].pc.Select? && t < |s.tasks|
    ensures SlotLedger(Step(s, c).tasks[t], s.ticks[t], RoundsAfter(s)[t])
    ensures In(Step(s, c).tasks, t, Running) ==> Step(s, c).tasks[t].counter > 0 || Parked(s, t)
  {
    assert SlotLedger(s.tasks[t], s.ticks[t], s.rounds[t]);
    SelectedSlot(s.tasks, t);
    PickMeaning(s.tasks);
    if s.tasks[t].Task? {
      RefillRound(s.rounds[t], s.tasks[t].priority);
    }
  }

  /** Steps that leave tasks and history alone. */
  lemma QuietLedger(s: Sys, s': Sys)
    requires Ledger(s) && Safe(s') && s'.tasks == s.tasks && s'.ticks == s.ticks && s'.rounds == s.rounds
    requires |s'.cores| == |s.cores| && forall d :: 0 <= d < |s.cores| ==>
      (s.cores[d].pc.Park? <==> s'.cores[d].pc.Park?) && (s.cores[d].pc.Park? ==> s'.cores[d] == s.cores[d])
    ensures Ledger(s')
  {
    forall t: nat | RunningTask(s', t) && s'.tasks[t].counter == 0
      ensures Parked(s', t)
    {
      assert RunningTask(s, t) && Parked(s, t);
      var d :| 0 <= d < |s.cores| && s.cores[d].pc.Park? && s.cores[d].cur == Current.Task(t);
      assert s'.cores[d] == s.cores[d];
    }
    forall d | 0 <= d < |s.cores|
      ensures ParkedEmpty(s', s'.cores[d])
    {
      assert ParkedEmpty(s, s.cores[d]);
    }
  }

  lemma CreateLedger(s: Sys, p: nat, i: int)
    requires Ledger(s) && 1 <= p < U64 && EmptySlot(s.tasks, i)
    ensures Ledger(AddTask(s, p, i))
  {
    CreateKeeps(s, p, i);
    var s' := AddTask(s, p, i);
    forall t | 0 <= t < |s'.tasks|
      ensures SlotLedger(s'.tasks[t], s'.ticks[t], s'.rounds[t])
    {
      assert SlotLedger(s.tasks[t], s.ticks[t], s.rounds[t]);
    }
    forall t: nat | RunningTask(s', t) && s'.tasks[t].counter == 0
      ensures Parked(s', t)
    {
      assert RunningTask(s, t) && Parked(s, t);
      var d :| 0 <= d < |s.cores| && s.cores[d].pc.Park? && s.cores[d].cur == Current.Task(t);
      assert s'.cores[d] == s.cores[d];
    }
    forall d | 0 <= d < |s.cores|
      ensures ParkedEmpty(s', s'.cores[d])
    {
      assert ParkedEmpty(s, s.cores[d]) && CoreFormed(s, s.cores[d]);
    }
  }

  /** New tasks come with a slice that a 64-bit counter holds, and that is not zero. */
  predicate Positive(a: Action) {
    a.Create? ==> 1 <= a.priority < U64
  }

  lemma LedgerKeeps(s: Sys, a: Action)
    requires Ledger(s) && Positive(a) && Legal(s, a)
    ensures Ledger(Next(s, a))
  {
    StepKeeps(s, a);
    match a
    case Create(p, i) => CreateLedger(s, p, i);
    case TimerInterrupt(c) => QuietLedger(s, Next(s, a));
    case BroadcastInterrupt(c) => QuietLedger(s, Next(s, a));
    case Advance(c) =>
      if c < |s.cores| {
        CoreLedger(s, c);
      }
  }

  lemma CoreLedger(s: Sys, c: nat)
    requires Ledger(s) && c < |s.cores| && Safe(Step(s, c))
    ensures Ledger(Step(s, c))
  {
    assert CoreFormed(s, s.cores[c]) && CoreOk(s, s.cores[c]);
    match s.cores[c].pc
    case TimerCheck => if s.cores[c].cur.Task? { ChargeLedger(s, c); } else { QuietLedger(s, Step(s, c)); }
    case Park => ParkLedger(s, c);
    case Select => SelectLedger(s, c);
    case Mark(t) =>
      assert SetState(s.tasks, t, Running) == s.tasks;
      QuietLedger(s, Step(s, c));
    case _ => QuietLedger(s, Step(s, c));
  }

  lemma {:induction false} RunLedger(s: Sys, run: seq<Action>)
    requires Ledger(s) && LegalRun(s, run) && forall i :: 0 <= i < |run| ==> Positive(run[i])
    ensures Ledger(Exec(s, run))
    decreases |run|
  {
    if run != [] {
      LedgerKeeps(s, run[0]);
      RunLedger(Next(s, run[0]), run[1..]);
    }
  }

  lemma BootLedger(cores: nat, priorities: seq<nat>, slots: nat)
    requires |priorities| <= slots && forall i :: 0 <= i < |priorities| ==> 1 <= priorities[i] < U64
    ensures Ledger(Boot(cores, priorities, slots))
  {
  }
}
