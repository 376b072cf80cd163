/**
 * Named wake-ups between threads: nst_wait_by_name and nst_post_by_name of netstack/thread/thread.cpp as
 * steps over any number of threads. A thread is known by its number, which stands for its unique name.
 */
module WaitPost {

  /** Where a thread is; w is the thread it waits for, x the one it posts to. */
  datatype Pc =
    | Idle
    | WClear(w: nat)       // be_posted = false
    | WLock(w: nat)        // at pthread_mutex_lock
    | WInsert(w: nat)      // mutex of w held, at wait_this.insert
    | WTest(w: nat)        // mutex held, at the loop test
    | WCond(w: nat)        // mutex held, at pthread_cond_wait
    | WSleep(w: nat)       // asleep on the condition, mutex released
    | WWake(w: nat)        // woken, taking the mutex again
    | WUnlock(w: nat)      // out of the loop, at pthread_mutex_unlock
    | WDone                // the last be_posted = false
    | PLock(x: nat)        // at pthread_mutex_lock of its own mutex
    | PFind(x: nat)        // mutex held, at the look-up
    | PSet(x: nat)         // x taken out of wait_this, at be_posted = true
    | PBroadcast(x: nat)   // at pthread_cond_broadcast
    | PUnlock              // at pthread_mutex_unlock

  datatype Owner = Free | By(t: nat)

  /** One entry per thread; posts and finished are history: how often it was posted, and its completed waits. */
  datatype Sys = Sys(
    pc: seq<Pc>, posted: seq<bool>, waits: seq<set<nat>>, mutex: seq<Owner>, posts: seq<nat>, finished: seq<nat>)

  datatype Action =
    | StartWait(t: nat, w: nat)
    | StartPost(t: nat, x: nat)
    | Advance(t: nat)
    | Spurious(t: nat)     // a wake-up without a broadcast

  function Go(s: Sys, t: nat, pc: Pc): Sys
    requires t < |s.pc|
  {
    s.(pc := s.pc[t := pc])
  }

  function Acquire(s: Sys, t: nat, m: nat, pc: Pc): Sys
    requires t < |s.pc|
  {
    if m < |s.mutex| && s.mutex[m].Free? then Go(s, t, pc).(mutex := s.mutex[m := By(t)]) else s
  }

  function Release(s: Sys, t: nat, m: nat, pc: Pc): Sys
    requires t < |s.pc|
  {
    if m < |s.mutex| then Go(s, t, pc).(mutex := s.mutex[m := Free]) else s
  }

  /** Every thread asleep on the condition of p wakes up. */
  function WakeAll(pcs: seq<Pc>, p: nat): (r: seq<Pc>)
    ensures |r| == |pcs| && forall i :: 0 <= i < |pcs| ==> r[i] == if pcs[i] == WSleep(p) then WWake(p) else pcs[i]
  {
    seq(|pcs|, i requires 0 <= i < |pcs| => if pcs[i] == WSleep(p) then WWake(p) else pcs[i])
  }

  ghost predicate Sized(s: Sys) {
    && |s.posted| == |s.waits| == |s.mutex| == |s.posts| == |s.finished| == |s.pc|
    && forall t :: 0 <= t < |s.pc| ==> Named(s.pc[t], |s.pc|)
  }

  /** The thread named at this point exists. */
  predicate Named(pc: Pc, n: nat) {
    match pc
    case Idle => true
    case WDone => true
    case PUnlock => true
    case PLock(x) => true
    case PFind(x) => true
    case PSet(x) => x < n
    case PBroadcast(x) => x < n
    case _ => pc.w < n
  }

  function Step(s: Sys, t: nat): Sys
    requires Sized(s) && t < |s.pc|
  {
    match s.pc[t]
    case Idle => s
    case WClear(w) => Go(s, t, WLock(w)).(posted := s.posted[t := false])
    case WLock(w) => Acquire(s, t, w, WInsert(w))
    case WInsert(w) => Go(s, t, WTest(w)).(waits := s.waits[w := s.waits[w] + {t}])
    case WTest(w) => Go(s, t, if s.posted[t] then WUnlock(w) else WCond(w))
    case WCond(w) => Release(s, t, w, WSleep(w))
    case WSleep(w) => s
    case WWake(w) => Acquire(s, t, w, WTest(w))
    case WUnlock(w) => Release(s, t, w, WDone)
    case WDone => Go(s, t, Idle).(posted := s.posted[t := false], finished := s.finished[t := s.finished[t] + 1])
    case PLock(x) => Acquire(s, t, t, PFind(x))
    case PFind(x) =>
      if x in s.waits[t] && x < |s.pc| then Go(s, t, PSet(x)).(waits := s.waits[t := s.waits[t] - {x}])
      else Go(s, t, PUnlock)
    case PSet(x) => Go(s, t, PBroadcast(x)).(posted := s.posted[x := true], posts := s.posts[x := s.posts[x] + 1])
    case PBroadcast(x) => s.(pc := WakeAll(s.pc, t)[t := PUnlock])
    case PUnlock => Release(s, t, t, Idle)
  }

  function Next(s: Sys, a: Action): Sys
    requires Sized(s)
  {
    match a
    case StartWait(t, w) => if t < |s.pc| && s.pc[t].Idle? && w < |s.pc| then Go(s, t, WClear(w)) else s
    case StartPost(t, x) => if t < |s.pc| && s.pc[t].Idle? then Go(s, t, PLock(x)) else s
    case Advance(t) => if t < |s.pc| then Step(s, t) else s
    case Spurious(t) => if t < |s.pc| && s.pc[t].WSleep? then Go(s, t, WWake(s.pc[t].w)) else s
  }

  // ----- invariant

  /** The thread is in the loop of a wait for w. */
  predicate InLoop(pc: Pc, w: nat) {
    pc == WTest(w) || pc == WCond(w) || pc == WSleep(w) || pc == WWake(w)
  }

  predicate Looping(pc: Pc) {
    pc.WTest? || pc.WCond? || pc.WSleep? || pc.WWake?
  }

  /** The mutex that thread t holds at this point. */
  function Holding(pc: Pc, t: nat): int {
    match pc
    case WInsert(w) => w
    case WTest(w) => w
    case WCond(w) => w
    case WUnlock(w) => w
    case PFind(x) => t
    case PSet(x) => t
    case PBroadcast(x) => t
    case PUnlock => t
    case _ => -1
  }

  /** Thread t is waiting for w, registered there or about to be marked posted, but not posted yet. */
  predicate Pending(s: Sys, t: nat)
    requires |s.waits| == |s.pc| && t < |s.pc| && Looping(s.pc[t]) && s.pc[t].w < |s.pc|
  {
    t in s.waits[s.pc[t].w] || s.pc[s.pc[t].w] == PSet(t)
  }

  ghost predicate ThreadOk(s: Sys, t: nat)
    requires Sized(s) && t < |s.pc|
  {
    var pc := s.pc[t];
    && (s.posted[t] <==> pc.WUnlock? || pc.WDone? || (Looping(pc) && !Pending(s, t)))
    && (pc.WCond? ==> !s.posted[t])
    && (pc.WSleep? && s.posted[t] ==> s.pc[pc.w] == PBroadcast(t))
    && (pc.PSet? ==> InLoop(s.pc[pc.x], t) && pc.x !in s.waits[t])
    && HolderOk(s.pc, s.mutex, t)
    && s.posts[t] == s.finished[t] + (if s.posted[t] then 1 else 0)
  }

  /** The mutex that thread t holds has t as its owner. */
  predicate HolderOk(pc: seq<Pc>, mutex: seq<Owner>, t: nat)
    requires |mutex| == |pc| && t < |pc|
  {
    var m := Holding(pc[t], t);
    0 <= m < |pc| ==> mutex[m] == By(t)
  }

  /** The owner of mutex m is at a point where it holds m. */
  predicate OwnerOk(pc: seq<Pc>, mutex: seq<Owner>, m: nat)
    requires |mutex| == |pc| && m < |pc|
  {
    mutex[m].By? ==> mutex[m].t < |pc| && Holding(pc[mutex[m].t], mutex[m].t) == m
  }

  /** A name is registered with p only while its thread is in the loop of a wait for p. */
  ghost predicate WaitsOk(s: Sys, p: nat)
    requires Sized(s) && p < |s.pc|
  {
    forall x :: x in s.waits[p] ==> x < |s.pc| && InLoop(s.pc[x], p)
  }

  ghost predicate Inv(s: Sys) {
    && Sized(s)
    && (forall t :: 0 <= t < |s.pc| ==> ThreadOk(s, t))
    && (forall m :: 0 <= m < |s.pc| ==> OwnerOk(s.pc, s.mutex, m))
    && (forall p :: 0 <= p < |s.pc| ==> WaitsOk(s, p))
  }

  // ----- preservation

  lemma Members(s: Sys, t: nat)
    requires Inv(s) && t < |s.pc|
    ensures ThreadOk(s, t) && OwnerOk(s.pc, s.mutex, t) && WaitsOk(s, t) && Named(s.pc[t], |s.pc|)
  {
  }

  /** Two threads never hold the same mutex. */
  lemma MutexExclusive(s: Sys, t: nat, u: nat)
    requires Inv(s) && t < |s.pc| && u < |s.pc| && t != u && Holding(s.pc[t], t) >= 0
    ensures Holding(s.pc[u], u) != Holding(s.pc[t], t)
  {
    Members(s, t);
    Members(s, u);
  }

  ghost predicate MutexesOk(pc: seq<Pc>, mutex: seq<Owner>)
    requires |mutex| == |pc|
  {
    forall u :: 0 <= u < |pc| ==> HolderOk(pc, mutex, u) && OwnerOk(pc, mutex, u)
  }

  /**
   * A step that changes nothing but the place of thread t, between two places that the invariant does not tell apart.
   */
  ghost predicate Plain(a: Pc, b: Pc) {
    && (Looping(a) <==> Looping(b)) && (Looping(a) ==> a.w == b.w)
    && !a.PSet? && !b.PSet? && !a.PBroadcast? && !b.PBroadcast?
    && (a.WUnlock? || a.WDone? <==> b.WUnlock? || b.WDone?)
  }

  lemma PlainMove(s: Sys, t: nat, pc: Pc, mutex: seq<Owner>)
    requires Inv(s) && t < |s.pc| && Named(pc, |s.pc|) && Plain(s.pc[t], pc) && |mutex| == |s.pc|
    requires pc.WCond? || pc.WSleep? ==> !s.posted[t]
    requires MutexesOk(s.pc[t := pc], mutex)
    ensures Inv(Go(s, t, pc).(mutex := mutex))
  {
    var s' := Go(s, t, pc).(mutex := mutex);
    forall u | 0 <= u < |s.pc|
      ensures ThreadOk(s', u) && OwnerOk(s'.pc, s'.mutex, u) && WaitsOk(s', u)
    {
      Members(s, u);
    }
  }

  lemma AcquireKeeps(s: Sys, t: nat, m: nat, pc: Pc)
    requires Inv(s) && t < |s.pc| && Named(pc, |s.pc|) && Plain(s.pc[t], pc) && !pc.WCond? && !pc.WSleep?
    requires Holding(s.pc[t], t) == -1 && Holding(pc, t) == m
    ensures Inv(Acquire(s, t, m, pc))
  {
    if m < |s.mutex| && s.mutex[m].Free? {
      var pcs, mutex := s.pc[t := pc], s.mutex[m := By(t)];
      forall u | 0 <= u < |s.pc|
        ensures HolderOk(pcs, mutex, u) && OwnerOk(pcs, mutex, u)
      {
        Members(s, u);
        Members(s, t);
      }
      PlainMove(s, t, pc, s.mutex[m := By(t)]);
    }
  }

  lemma ReleaseKeeps(s: Sys, t: nat, m: nat, pc: Pc)
    requires Inv(s) && t < |s.pc| && Named(pc, |s.pc|) && Plain(s.pc[t], pc)
    requires pc.WCond? || pc.WSleep? ==> !s.posted[t]
    requires m < |s.pc| && Holding(s.pc[t], t) == m && Holding(pc, t) == -1
    ensures Inv(Release(s, t, m, pc))
  {
    var pcs, mutex := s.pc[t := pc], s.mutex[m := Free];
    forall u | 0 <= u < |s.pc|
      ensures HolderOk(pcs, mutex, u) && OwnerOk(pcs, mutex, u)
    {
      Members(s, u);
      Members(s, t);
    }
    PlainMove(s, t, pc, s.mutex[m := Free]);
  }

  lemma PlainKeeps(s: Sys, t: nat, pc: Pc)
    requires Inv(s) && t < |s.pc| && Named(pc, |s.pc|) && Plain(s.pc[t], pc)
    requires pc.WCond? || pc.WSleep? ==> !s.posted[t]
    requires Holding(pc, t) == Holding(s.pc[t], t)
    ensures Inv(Go(s, t, pc))
  {
    var pcs, mutex := s.pc[t := pc], s.mutex;
    forall u | 0 <= u < |s.pc|
      ensures HolderOk(pcs, mutex, u) && OwnerOk(pcs, mutex, u)
    {
      Members(s, u);
      Members(s, t);
    }
    PlainMove(s, t, pc, s.mutex);
    assert Go(s, t, pc).(mutex := s.mutex) == Go(s, t, pc);
  }

  lemma InsertKeeps(s: Sys, t: nat, w: nat)
    requires Inv(s) && t < |s.pc| && s.pc[t] == WInsert(w)
    ensures w < |s.pc| && Inv(Step(s, t))
  {
    Members(s, t);
    var s' := Step(s, t);
    forall u | 0 <= u < |s.pc|
      ensures ThreadOk(s', u) && OwnerOk(s'.pc, s'.mutex, u) && WaitsOk(s', u)
    {
      Members(s, u);
    }
  }

  lemma LeaveKeeps(s: Sys, t: nat, w: nat)
    requires Inv(s) && t < |s.pc| && s.pc[t] == WTest(w) && s.posted[t]
    ensures Inv(Step(s, t))
  {
    Members(s, t);
    var s' := Step(s, t);
    forall u | 0 <= u < |s.pc|
      ensures ThreadOk(s', u) && OwnerOk(s'.pc, s'.mutex, u) && WaitsOk(s', u)
    {
      Members(s, u);
      Members(s, w);
    }
  }

  lemma DoneKeeps(s: Sys, t: nat)
    requires Inv(s) && t < |s.pc| && s.pc[t].WDone?
    ensures Inv(Step(s, t))
  {
    Members(s, t);
    var s' := Step(s, t);
    forall u | 0 <= u < |s.pc|
      ensures ThreadOk(s', u) && OwnerOk(s'.pc, s'.mutex, u) && WaitsOk(s', u)
    {
      Members(s, u);
    }
  }

  lemma FindKeeps(s: Sys, t: nat, x: nat)
    requires Inv(s) && t < |s.pc| && s.pc[t] == PFind(x) && x in s.waits[t] && x < |s.pc|
    ensures Inv(Step(s, t))
  {
    Members(s, t);
    var s' := Step(s, t);
    forall u | 0 <= u < |s.pc|
      ensures ThreadOk(s', u) && OwnerOk(s'.pc, s'.mutex, u) && WaitsOk(s', u)
    {
      Members(s, u);
    }
  }

  lemma SetKeeps(s: Sys, t: nat, x: nat)
    requires Inv(s) && t < |s.pc| && s.pc[t] == PSet(x)
    ensures x < |s.pc| && Inv(Step(s, t))
  {
    Members(s, t);
    Members(s, x);
    var s' := Step(s, t);
    assert Pending(s, x) && !s.posted[x];
    MutexExclusive(s, t, x);
    forall u | 0 <= u < |s.pc|
      ensures ThreadOk(s', u) && OwnerOk(s'.pc, s'.mutex, u) && WaitsOk(s', u)
    {
      Members(s, u);
    }
  }

  lemma BroadcastKeeps(s: Sys, t: nat, x: nat)
    requires Inv(s) && t < |s.pc| && s.pc[t] == PBroadcast(x)
    ensures Inv(Step(s, t))
  {
    Members(s, t);
    var s' := Step(s, t);
    forall u | 0 <= u < |s.pc|
      ensures s'.pc[u] == if u == t then PUnlock else if s.pc[u] == WSleep(t) then WWake(t) else s.pc[u]
    {
    }
    forall u | 0 <= u < |s.pc|
      ensures ThreadOk(s', u) && OwnerOk(s'.pc, s'.mutex, u) && WaitsOk(s', u)
    {
      Members(s, u);
    }
  }

  /** Every step, in whatever order the threads take them, keeps the invariant. */
  lemma NextKeeps(s: Sys, a: Action)
    requires Inv(s)
    ensures Inv(Next(s, a))
  {
    match a
    case StartWait(t, w) =>
      if t < |s.pc| && s.pc[t].Idle? && w < |s.pc| { PlainKeeps(s, t, WClear(w)); }
    case StartPost(t, x) =>
      if t < |s.pc| && s.pc[t].Idle? { PlainKeeps(s, t, PLock(x)); }
    case Spurious(t) =>
      if t < |s.pc| && s.pc[t].WSleep? { Members(s, t); PlainKeeps(s, t, WWake(s.pc[t].w)); }
    case Advance(t) =>
      if t < |s.pc| { StepKeeps(s, t); }
  }

  lemma StepKeeps(s: Sys, t: nat)
    requires Inv(s) && t < |s.pc|
    ensures Inv(Step(s, t))
  {
    Members(s, t);
    match s.pc[t]
    case Idle =>
    case WSleep(w) =>
    case WClear(w) =>
      assert s.posted[t := false] == s.posted;
      PlainKeeps(s, t, WLock(w));
    case WLock(w) => AcquireKeeps(s, t, w, WInsert(w));
    case WInsert(w) => InsertKeeps(s, t, w);
    case WTest(w) => if s.posted[t] { LeaveKeeps(s, t, w); } else { PlainKeeps(s, t, WCond(w)); }
    case WCond(w) => ReleaseKeeps(s, t, w, WSleep(w));
    case WWake(w) => AcquireKeeps(s, t, w, WTest(w));
    case WUnlock(w) => ReleaseKeeps(s, t, w, WDone);
    case WDone => DoneKeeps(s, t);
    case PLock(x) => AcquireKeeps(s, t, t, PFind(x));
    case PFind(x) => if x in s.waits[t] && x < |s.pc| { FindKeeps(s, t, x); } else { PlainKeeps(s, t, PUnlock); }
    case PSet(x) => SetKeeps(s, t, x);
    case PBroadcast(x) => BroadcastKeeps(s, t, x);
    case PUnlock => ReleaseKeeps(s, t, t, Idle);
  }

  // ----- runs

  function Exec(s: Sys, run: seq<Action>): (r: Sys)
    requires Inv(s)
    ensures Inv(r)
    decreases |run|
  {
    if run == [] then s
    else
      NextKeeps(s, run[0]);
      Exec(Next(s, run[0]), run[1..])
  }

  /** n threads created and not yet in any wait or post. */
  function Start(n: nat): Sys {
    Sys(seq(n, _ => Idle), seq(n, _ => false), seq(n, _ => {}), seq(n, _ => Free), seq(n, _ => 0), seq(n, _ => 0))
  }

  lemma StartOk(n: nat)
    ensures Inv(Start(n))
  {
  }

  /** Thread t is registered with p. */
  predicate Registered(s: Sys, t: nat, p: nat) {
    p < |s.waits| && t in s.waits[p]
  }

  predicate AsleepPosted(s: Sys, t: nat) {
    t < |s.pc| && t < |s.posted| && s.pc[t].WSleep? && s.posted[t]
  }

  /** Thread w holds its mutex and is at the broadcast that wakes t. */
  predicate AboutToWake(s: Sys, t: nat, w: nat) {
    w < |s.pc| && w < |s.mutex| && s.pc[w] == PBroadcast(t) && s.mutex[w] == By(w)
  }

  /** Thread t was posted once for each wait it has completed, and once more while it is marked posted. */
  predicate PostsMatch(s: Sys, t: nat) {
    && t < |s.posts| && t < |s.finished| && t < |s.posted|
    && s.posts[t] == s.finished[t] + (if s.posted[t] then 1 else 0)
  }

  /**
   * Over any number of threads and in every interleaving, spurious wake-ups included: a thread is registered
   * with at most one other, and never while it is marked posted; a thread asleep and marked posted is just about
   * to be woken, its poster holding the mutex at the broadcast; and a thread has been posted once for each wait that it
   * has completed, and once more while it is marked posted.
   */
  lemma NoLostWakeUp(n: nat, run: seq<Action>)
    ensures Inv(Start(n))
    ensures var s := Exec(Start(n), run);
      && (forall t: nat, p: nat, q: nat :: Registered(s, t, p) && Registered(s, t, q) ==> p == q)
      && (forall t: nat, p: nat :: Registered(s, t, p) ==> t < |s.posted| && !s.posted[t])
      && (forall t: nat :: AsleepPosted(s, t) ==> AboutToWake(s, t, s.pc[t].w))
      && (forall t: nat :: t < n ==> PostsMatch(s, t))
  {
    StartOk(n);
    ThreadsStay(Start(n), run);
    Meaning(Exec(Start(n), run));
  }

  lemma {:induction false} ThreadsStay(s: Sys, run: seq<Action>)
    requires Inv(s)
    ensures |Exec(s, run).pc| == |s.pc|
    decreases |run|
  {
    hide Inv, Next;
    if run != [] {
      NextKeeps(s, run[0]);
      InvSized(s);
      SameThreads(s, run[0]);
      ThreadsStay(Next(s, run[0]), run[1..]);
    }
  }

  lemma InvSized(s: Sys)
    requires Inv(s)
    ensures Sized(s)
  {
  }

  lemma Meaning(s: Sys)
    requires Inv(s)
    ensures forall t: nat, p: nat, q: nat :: Registered(s, t, p) && Registered(s, t, q) ==> p == q
    ensures forall t: nat, p: nat :: Registered(s, t, p) ==> t < |s.posted| && !s.posted[t]
    ensures forall t: nat :: AsleepPosted(s, t) ==> AboutToWake(s, t, s.pc[t].w)
    ensures forall t: nat :: t < |s.pc| ==> PostsMatch(s, t)
  {
    forall t: nat, p: nat | Registered(s, t, p)
      ensures t < |s.pc| && InLoop(s.pc[t], p) && !s.posted[t]
    {
      Members(s, p);
      Members(s, t);
    }
    forall t: nat | AsleepPosted(s, t)
      ensures AboutToWake(s, t, s.pc[t].w)
    {
      Members(s, t);
      Members(s, s.pc[t].w);
    }
    forall t: nat | t < |s.pc|
      ensures PostsMatch(s, t)
    {
      Members(s, t);
    }
  }

  /** A thread in the loop is registered, about to be marked posted, or posted: exactly one of the three. */
  lemma WaiterIsOneOfThree(s: Sys, t: nat)
    requires Inv(s) && t < |s.pc| && Looping(s.pc[t])
    ensures var w := s.pc[t].w;
      && w < |s.pc|
      && (t in s.waits[w] ==> s.pc[w] != PSet(t) && !s.posted[t])
      && (s.pc[w] == PSet(t) ==> t !in s.waits[w] && !s.posted[t])
      && (s.posted[t] <==> t !in s.waits[w] && s.pc[w] != PSet(t))
  {
    Members(s, t);
    Members(s, s.pc[t].w);
  }

  // ----- a posted thread returns

  /** How many moves of its own a posted thread is away from its return. */
  function Left(pc: Pc): nat {
    match pc
    case WSleep(w) => 5
    case WWake(w) => 4
    case WTest(w) => 3
    case WUnlock(w) => 2
    case WDone => 1
    case _ => 0
  }

  /** The action takes thread t to another point. */
  predicate Moves(s: Sys, a: Action, t: nat)
    requires Inv(s) && t < |s.pc|
  {
    Next(s, a).pc[t] != s.pc[t]
  }

  /** The action ends the wait of thread t. */
  predicate Returns(s: Sys, a: Action, t: nat) {
    t < |s.pc| && s.pc[t].WDone? && a == Advance(t)
  }

  /** Until it returns a posted thread stays marked, and whatever anybody does, it only gets closer to its return. */
  lemma PostedStep(s: Sys, a: Action, t: nat)
    requires Inv(s) && t < |s.pc| && s.posted[t]
    ensures var s' := Next(s, a);
      && |s'.pc| == |s'.posted| == |s.pc|
      && (Returns(s, a, t) ==> s'.pc[t].Idle? && !s'.posted[t] && s'.finished == s.finished[t := s.finished[t] + 1])
      && (!Returns(s, a, t) ==>
            s'.posted[t] && Left(s'.pc[t]) <= Left(s.pc[t]) - (if Moves(s, a, t) then 1 else 0))
  {
    hide ThreadOk, Step, Left;
    PostedLeft(s, t);
    if a.Advance? && a.t < |s.pc| {
      if a.t == t {
        PostedOwnStep(s, t);
      } else {
        PostedOtherStep(s, a.t, t);
      }
    } else {
      PostedWaits(s, t);
    }
  }

  lemma PostedWaits(s: Sys, t: nat)
    requires Inv(s) && t < |s.pc| && s.posted[t]
    ensures !s.pc[t].Idle? && (s.pc[t].WSleep? ==> s.pc[t].w < |s.pc| && Left(WWake(s.pc[t].w)) < Left(s.pc[t]))
  {
    Members(s, t);
  }

  lemma PostedOwnStep(s: Sys, t: nat)
    requires Inv(s) && t < |s.pc| && s.posted[t]
    ensures var s' := Step(s, t);
      && |s'.pc| == |s'.posted| == |s.pc|
      && (s.pc[t].WDone? ==> s'.pc[t].Idle? && !s'.posted[t] && s'.finished == s.finished[t := s.finished[t] + 1])
      && (!s.pc[t].WDone? ==> s'.posted[t] && (s' == s || Left(s'.pc[t]) < Left(s.pc[t])))
  {
    Members(s, t);
  }

  lemma PostedOtherStep(s: Sys, d: nat, t: nat)
    requires Inv(s) && t < |s.pc| && s.posted[t] && d < |s.pc| && d != t
    ensures var s' := Step(s, d);
      && |s'.pc| == |s'.posted| == |s.pc| && s'.posted[t]
      && (s'.pc[t] == s.pc[t] || Left(s'.pc[t]) < Left(s.pc[t]))
  {
    Members(s, d);
  }

  function MovesIn(s: Sys, run: seq<Action>, t: nat): nat
    requires Inv(s) && t < |s.pc|
    decreases |run|
  {
    if run == [] then 0
    else
      NextKeeps(s, run[0]);
      SameThreads(s, run[0]);
      (if Moves(s, run[0], t) then 1 else 0) + MovesIn(Next(s, run[0]), run[1..], t)
  }

  predicate ReturnsIn(s: Sys, run: seq<Action>, t: nat)
    requires Inv(s)
    decreases |run|
  {
    run != [] && (Returns(s, run[0], t) || (NextKeeps(s, run[0]); ReturnsIn(Next(s, run[0]), run[1..], t)))
  }

  lemma SameThreads(s: Sys, a: Action)
    requires Sized(s)
    ensures |Next(s, a).pc| == |s.pc|
  {
  }

  /**
   * In every interleaving, spurious wake-ups and other posts included: a posted thread returns within five moves
   * of its own, and is never put to sleep again before.
   */
  lemma {:induction false} PostedReturns(s: Sys, run: seq<Action>, t: nat)
    requires Inv(s) && t < |s.pc| && s.posted[t] && MovesIn(s, run, t) >= Left(s.pc[t])
    ensures Left(s.pc[t]) <= 5 && ReturnsIn(s, run, t)
    decreases |run|
  {
    PostedLeft(s, t);
    if run != [] && !Returns(s, run[0], t) {
      NextKeeps(s, run[0]);
      SameThreads(s, run[0]);
      PostedStep(s, run[0], t);
      PostedReturns(Next(s, run[0]), run[1..], t);
    }
  }

  lemma PostedLeft(s: Sys, t: nat)
    requires Inv(s) && t < |s.pc| && s.posted[t]
    ensures 1 <= Left(s.pc[t]) <= 5
  {
    Members(s, t);
  }
}
