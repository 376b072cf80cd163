/** The task table of x64_kenerl/kernel/task64.c and the functions that change it in place. */
module TaskTable {
  import opened Arith
  import opened TaskSelection
  import SmpScheduler

  const TASK_MAX_NUMS := 100

  /** The scheduling fields of task_t. */
  class TaskObj {
    var state: TaskState
    var counter: nat
    var priority: nat

    constructor (priority: nat)
      ensures state == Ready && counter == priority && this.priority == priority
    {
      state, counter, this.priority := Ready, priority, priority;
    }

    // set_task_waiting
    method SetWaiting()
      modifies this
      ensures state == Waiting && counter == old(counter) && priority == old(priority)
    {
      state := Waiting;
    }

    // set_task_running
    method SetRunning()
      modifies this
      ensures state == Running && counter == old(counter) && priority == old(priority)
    {
      state := Running;
    }

    // decrease_task_couter: the counter is unsigned, so a decrement of zero wraps
    method Decrease() returns (c: nat)
      requires counter < U64
      modifies this
      ensures c == counter && (old(counter) > 0 ==> counter == old(counter) - 1)
      ensures (old(counter) == 0 ==> counter == U64 - 1)
      ensures state == old(state) && priority == old(priority)
    {
      counter := (counter - 1) % U64;
      c := counter;
    }
  }

  ghost function SlotOf(t: TaskObj?): Slot
    reads t
  {
    if t == null then Empty else Task(t.state, t.counter, t.priority)
  }

  ghost function View(s: seq<TaskObj?>): (v: seq<Slot>)
    reads s
    ensures |v| == |s| && forall i :: 0 <= i < |s| ==> v[i] == SlotOf(s[i])
  {
    seq(|s|, i requires 0 <= i < |s| reads s => SlotOf(s[i]))
  }

  /** No task sits in two slots. */
  ghost predicate NoAlias(s: seq<TaskObj?>) {
    forall i, j :: 0 <= i < j < |s| && s[i] != null ==> s[i] != s[j]
  }

  class Table {
    const tasks: array<TaskObj?>

    ghost predicate Valid()
      reads tasks
    {
      tasks.Length == TASK_MAX_NUMS && NoAlias(tasks[..])
    }

    constructor ()
      ensures Valid() && fresh(tasks) && forall i :: 0 <= i < TASK_MAX_NUMS ==> View(tasks[..])[i] == Empty
    {
      tasks := new TaskObj?[TASK_MAX_NUMS](_ => null);
    }

    method GetFreeTaskIndex() returns (i: int)
      requires Valid()
      ensures i == FreeIndex(View(tasks[..]), 0)
    {
      i := 0;
      while i < TASK_MAX_NUMS
        invariant 0 <= i <= TASK_MAX_NUMS
        invariant FreeIndex(View(tasks[..]), 0) == FreeIndex(View(tasks[..]), i)
      {
        if tasks[i] == null {
          return;
        }
        i := i + 1;
      }
      i := NONE;
    }

    /** add_task of a task in no slot; at index -1, where a full table leads, the store goes outside the table. */
    method AddTask(pid: int, task: TaskObj) returns (inside: bool)
      requires Valid() && NONE <= pid < TASK_MAX_NUMS && task !in tasks[..]
      modifies tasks
      ensures Valid() && (inside <==> pid != NONE)
      ensures View(tasks[..]) == if inside then old(View(tasks[..]))[pid := old(SlotOf(task))] else old(View(tasks[..]))
    {
      if pid == NONE {
        return false;
      }
      tasks[pid] := task;
      assert forall i :: 0 <= i < TASK_MAX_NUMS && i != pid ==> tasks[..][i] == old(tasks[..])[i];
      return true;
    }

    /** ktask_create as far as the table goes: the store is inside it exactly while some slot is empty. */
    method CreateTask(task: TaskObj) returns (pid: int, inside: bool)
      requires Valid() && task !in tasks[..]
      modifies tasks
      ensures Valid() && pid == FreeIndex(old(View(tasks[..])), 0)
      ensures inside <==> exists i :: 0 <= i < TASK_MAX_NUMS && old(View(tasks[..]))[i].Empty?
      ensures inside ==> View(tasks[..]) == old(View(tasks[..]))[pid := old(SlotOf(task))]
    {
      ghost var v := View(tasks[..]);
      pid := GetFreeTaskIndex();
      assert pid != NONE ==> v[pid].Empty?;
      inside := AddTask(pid, task);
    }

    // Lines 32-51: the highest-priority ready task so far, and whether anyone waits.
    method ScanReady() returns (best: TaskObj?, ghost b: int, hasWait: bool)
      requires Valid()
      ensures b == BestOf(View(tasks[..]), Ready, TASK_MAX_NUMS)
      ensures if b == NONE then best == null else best == tasks[b]
      ensures hasWait == HasWaiting(View(tasks[..]), TASK_MAX_NUMS)
    {
      ghost var v := View(tasks[..]);
      best, b, hasWait := null, NONE, false;
      var i := 0;
      while i < TASK_MAX_NUMS
        invariant 0 <= i <= TASK_MAX_NUMS
        invariant b == BestOf(v, Ready, i) && (if b == NONE then best == null else best == tasks[b])
        invariant hasWait == HasWaiting(v, i)
      {
        assert v[i] == SlotOf(tasks[i]);
        if tasks[i] != null {
          if tasks[i].state == Waiting {
            hasWait := true;
            assert In(v, i, Waiting);
          } else if tasks[i].state == Ready {
            if best == null {
              best, b := tasks[i], i;
            } else if tasks[i].priority > best.priority {
              best, b := tasks[i], i;
            }
          }
        }
        i := i + 1;
      }
    }

    // Lines 55-68: every waiting task gets its slice back; the best of them is chosen.
    method RefillWaiting() returns (best: TaskObj?, ghost b: int)
      requires Valid()
      modifies set t | t in tasks[..]
      ensures View(tasks[..]) == Refill(old(View(tasks[..])), TASK_MAX_NUMS)
      ensures b == BestOf(old(View(tasks[..])), Waiting, TASK_MAX_NUMS)
      ensures if b == NONE then best == null else best == tasks[b]
    {
      ghost var v := View(tasks[..]);
      best, b := null, NONE;
      var i := 0;
      while i < TASK_MAX_NUMS
        invariant 0 <= i <= TASK_MAX_NUMS
        invariant tasks[..] == old(tasks[..])
        invariant View(tasks[..]) == Refill(v, i)
        invariant b == BestOf(v, Waiting, i) && (if b == NONE then best == null else best == tasks[b])
      {
        ghost var before := View(tasks[..]);
        assert before[i] == v[i] == SlotOf(tasks[i]);
        if tasks[i] != null && tasks[i].state == Waiting {
          RefillOne(i);
          if best == null {
            best, b := tasks[i], i;
          } else {
            assert SlotOf(tasks[b]) == View(tasks[..])[b] == before[b];
            if tasks[i].priority > best.priority {
              best, b := tasks[i], i;
            }
          }
        }
        i := i + 1;
      }
    }

    // Only the object in slot i has changed.
    twostate lemma SlotChanged(i: nat)
      requires old(Valid()) && i < TASK_MAX_NUMS && tasks[..] == old(tasks[..])
      requires forall j :: 0 <= j < TASK_MAX_NUMS && j != i && tasks[j] != null ==> unchanged(tasks[j])
      ensures View(tasks[..]) == old(View(tasks[..]))[i := SlotOf(tasks[i])]
    {
      forall j | 0 <= j < TASK_MAX_NUMS && j != i
        ensures SlotOf(tasks[j]) == old(SlotOf(tasks[j]))
      {
        assert tasks[j] == old(tasks[j]);
      }
    }

    lemma NotElsewhere(i: nat)
      requires Valid() && i < TASK_MAX_NUMS && tasks[i] != null
      ensures forall j :: 0 <= j < TASK_MAX_NUMS && j != i ==> tasks[j] != tasks[i]
    {
      assert forall j :: 0 <= j < TASK_MAX_NUMS ==> tasks[..][j] == tasks[j];
    }

    // Lines 58-59.
    method RefillOne(i: nat)
      requires Valid() && i < TASK_MAX_NUMS && tasks[i] != null
      modifies tasks[i]
      ensures View(tasks[..]) == old(View(tasks[..]))[i := Task(Ready, old(tasks[i].priority), old(tasks[i].priority))]
    {
      NotElsewhere(i);
      tasks[i].counter := tasks[i].priority;
      tasks[i].state := Ready;
      SlotChanged(i);
    }

    // Line 79.
    method Run(task: TaskObj, ghost i: nat)
      requires Valid() && i < TASK_MAX_NUMS && tasks[i] == task
      modifies task
      ensures View(tasks[..]) == Dispatch(old(View(tasks[..])), i)
    {
      NotElsewhere(i);
      task.state := Running;
      SlotChanged(i);
    }

    /** What the timer handler charges and parks, and the handlers mark running, as steps of the table. */
    method Charge(task: TaskObj, ghost i: nat) returns (c: nat)
      requires Valid() && i < TASK_MAX_NUMS && tasks[i] == task && task.counter < U64
      modifies task
      ensures c == (old(task.counter) - 1) % U64
      ensures View(tasks[..]) == old(View(tasks[..]))[i := old(SlotOf(task)).(counter := c)]
    {
      NotElsewhere(i);
      c := task.Decrease();
      SlotChanged(i);
    }

    method Park(task: TaskObj, ghost i: nat)
      requires Valid() && i < TASK_MAX_NUMS && tasks[i] == task
      modifies task
      ensures View(tasks[..]) == SmpScheduler.SetState(old(View(tasks[..])), i, Waiting)
    {
      NotElsewhere(i);
      task.SetWaiting();
      SlotChanged(i);
    }

    method Mark(task: TaskObj, ghost i: nat)
      requires Valid() && i < TASK_MAX_NUMS && tasks[i] == task
      modifies task
      ensures View(tasks[..]) == SmpScheduler.SetState(old(View(tasks[..])), i, Running)
    {
      NotElsewhere(i);
      task.SetRunning();
      SlotChanged(i);
    }

    /**
     * get_next_ready_task: the table changes exactly as Selected says, and the task picked is returned.
     * With no task ready or waiting the source looks at slot 0, which must then be occupied.
     */
    method GetNextReadyTask() returns (task: TaskObj?)
      requires Valid() && (tasks[0] != null || Pick(View(tasks[..])) != NONE)
      modifies set t | t in tasks[..]
      ensures Valid() && View(tasks[..]) == Selected(old(View(tasks[..])))
      ensures Pick(old(View(tasks[..]))) == NONE ==> task == null
      ensures Pick(old(View(tasks[..]))) != NONE ==> task != null && task == tasks[Pick(old(View(tasks[..])))]
    {
      ghost var v := View(tasks[..]);
      ghost var b;
      var hasWait;
      task, b, hasWait := ScanReady();
      assert View(tasks[..]) == v;
      assert b != NONE ==> v[b] == SlotOf(tasks[b]);
      assert v[0] == SlotOf(tasks[0]);
      BestIsBest(v, Ready, TASK_MAX_NUMS);
      WaitingIff(v);
      if task == null {
        assert b == NONE && BestOf(v, Ready, |v|) == NONE;
        if hasWait {
          assert Refills(v);
          task, b := RefillWaiting();
          assert View(tasks[..])[b] == SlotOf(tasks[b]) && b == Pick(v);
        } else {
          var first := tasks[0];
          assert !Refills(v) && b == Pick(v) && !In(v, 0, Ready);
          if first.state == Ready {
            task, b := first, 0;
          }
        }
      } else {
        assert !Refills(v) && b == Pick(v);
      }
      if task != null {
        Run(task, b);
      }
    }
  }
}
