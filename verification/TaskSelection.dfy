/** Task selection over values: what get_next_ready_task of x64_kenerl/kernel/task64.c picks, and what it changes. */
module TaskSelection {

  datatype TaskState = Init | Running | Ready | Blocked | Sleeping | Waiting | Died

  /** One entry of g_task.tasks. */
  datatype Slot = Empty | Task(state: TaskState, counter: nat, priority: nat)

  const NONE := -1

  predicate In(ts: seq<Slot>, i: int, st: TaskState) {
    0 <= i < |ts| && ts[i].Task? && ts[i].state == st
  }

  /**
   * Among the first n slots, the task in state st that the scanning loops hold: a later one must be strictly higher.
   */
  function BestOf(ts: seq<Slot>, st: TaskState, n: nat): (b: int)
    requires n <= |ts|
    ensures b == NONE || (b < n && In(ts, b, st))
  {
    if n == 0 then NONE
    else
      var b := BestOf(ts, st, n - 1);
      if In(ts, n - 1, st) && (b == NONE || ts[n - 1].priority > ts[b].priority) then n - 1 else b
  }

  function Refilled(s: Slot): Slot {
    if s.Task? && s.state == Waiting then s.(state := Ready, counter := s.priority) else s
  }

  /** The first n slots with every waiting task ready again and its time slice reset. */
  function Refill(ts: seq<Slot>, n: nat): (r: seq<Slot>)
    requires n <= |ts|
    ensures |r| == |ts|
    ensures forall i :: 0 <= i < |ts| ==> r[i] == if i < n then Refilled(ts[i]) else ts[i]
  {
    seq(|ts|, i requires 0 <= i < |ts| => if i < n then Refilled(ts[i]) else ts[i])
  }

  predicate HasWaiting(ts: seq<Slot>, n: nat)
    requires n <= |ts|
  {
    exists i :: 0 <= i < n && In(ts, i, Waiting)
  }

  function Pick(ts: seq<Slot>): (t: int)
    ensures t == NONE || In(ts, t, Ready) || In(ts, t, Waiting)
  {
    var b := BestOf(ts, Ready, |ts|);
    if b != NONE then b else BestOf(ts, Waiting, |ts|)
  }

  /** Whether the selection has to reset the time slices first. */
  predicate Refills(ts: seq<Slot>) {
    BestOf(ts, Ready, |ts|) == NONE && BestOf(ts, Waiting, |ts|) != NONE
  }

  function Dispatch(ts: seq<Slot>, t: int): (r: seq<Slot>)
    requires t == NONE || (0 <= t < |ts| && ts[t].Task?)
    ensures |r| == |ts|
  {
    if t == NONE then ts else ts[t := ts[t].(state := Running)]
  }

  /** The table after a selection. */
  function Selected(ts: seq<Slot>): (r: seq<Slot>)
    ensures |r| == |ts|
  {
    Dispatch(if Refills(ts) then Refill(ts, |ts|) else ts, Pick(ts))
  }

  /** Task t has the highest priority of those in state st, and no lower slot ties with it. */
  ghost predicate IsBest(ts: seq<Slot>, st: TaskState, t: int, n: nat) {
    && n <= |ts| && 0 <= t < n && In(ts, t, st)
    && forall i :: 0 <= i < n && In(ts, i, st) ==>
         ts[i].priority <= ts[t].priority && (i < t ==> ts[i].priority < ts[t].priority)
  }

  lemma {:induction false} BestIsBest(ts: seq<Slot>, st: TaskState, n: nat)
    requires n <= |ts|
    ensures var b := BestOf(ts, st, n);
      if b == NONE then forall i :: 0 <= i < n ==> !In(ts, i, st) else IsBest(ts, st, b, n)
  {
    if n > 0 {
      BestIsBest(ts, st, n - 1);
    }
  }

  lemma WaitingIff(ts: seq<Slot>)
    ensures HasWaiting(ts, |ts|) <==> BestOf(ts, Waiting, |ts|) != NONE
  {
    BestIsBest(ts, Waiting, |ts|);
  }

  /** A selection is null exactly when no task is ready or waiting; else it picks by priority, ready tasks first. */
  lemma PickMeaning(ts: seq<Slot>)
    ensures Pick(ts) == NONE <==> forall i :: 0 <= i < |ts| ==> !In(ts, i, Ready) && !In(ts, i, Waiting)
    ensures Pick(ts) != NONE ==> IsBest(ts, if In(ts, Pick(ts), Ready) then Ready else Waiting, Pick(ts), |ts|)
    ensures Refills(ts) <==> Pick(ts) != NONE && In(ts, Pick(ts), Waiting)
    ensures In(ts, Pick(ts), Waiting) ==> forall i :: 0 <= i < |ts| ==> !In(ts, i, Ready)
  {
    BestIsBest(ts, Ready, |ts|);
    BestIsBest(ts, Waiting, |ts|);
  }

  /**
   * What a selection does to each slot: the pick runs; with a refill, waiting tasks get a full slice; the rest stays.
   */
  lemma SelectedSlot(ts: seq<Slot>, i: nat)
    requires i < |ts|
    ensures var s, s' := ts[i], Selected(ts)[i];
      && (s'.Task? <==> s.Task?)
      && (s.Task? ==> s'.priority == s.priority)
      && (i == Pick(ts) ==> s'.state == Running && s'.counter == if Refills(ts) then s.priority else s.counter)
      && (i != Pick(ts) && Refills(ts) && In(ts, i, Waiting) ==> s'.state == Ready && s'.counter == s.priority)
      && (i != Pick(ts) && !(Refills(ts) && In(ts, i, Waiting)) ==> s' == s)
  {
    PickMeaning(ts);
  }

  /** A parked task guarantees that the next selection finds somebody. */
  lemma ParkedNeverNull(ts: seq<Slot>, t: nat)
    requires In(ts, t, Waiting)
    ensures Pick(ts) != NONE
  {
    PickMeaning(ts);
  }

  /** The first empty slot, as get_free_task_index finds it; NONE when the table is full. */
  function FreeIndex(ts: seq<Slot>, from: nat): (i: int)
    requires from <= |ts|
    ensures i == NONE ==> forall j :: from <= j < |ts| ==> ts[j].Task?
    ensures i != NONE ==> from <= i < |ts| && ts[i].Empty? && forall j :: from <= j < i ==> ts[j].Task?
    decreases |ts| - from
  {
    if from == |ts| then NONE else if ts[from].Empty? then from else FreeIndex(ts, from + 1)
  }
}
