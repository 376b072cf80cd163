/**
 * What a wait and a post of netstack/thread/thread.cpp come to over runs: a wait registers, a post to a registered
 * thread marks it and wakes it, and a thread woken returns, whatever the other threads do in between.
 */
module PostDelivers {
  import opened WaitPost

  /** Thread t cannot take its next step: it has none, it is asleep, or somebody holds the mutex it asks for. */
  predicate Blocked(s: Sys, t: nat)
    requires Sized(s) && t < |s.pc|
  {
    match s.pc[t]
    case Idle => true
    case WSleep(w) => true
    case WLock(w) => s.mutex[w].By?
    case WWake(w) => s.mutex[w].By?
    case PLock(x) => s.mutex[t].By?
    case _ => false
  }

  /** Thread t is given the processor, and is not blocked. */
  predicate Turn(s: Sys, a: Action, t: nat)
    requires Sized(s) && t < |s.pc|
  {
    a == Advance(t) && !Blocked(s, t)
  }

  /** How many turns thread t has in a run. */
  function Turns(s: Sys, run: seq<Action>, t: nat): nat
    requires Inv(s) && t < |s.pc|
    decreases |run|
  {
    if run == [] then 0
    else
      NextKeeps(s, run[0]);
      SameThreads(s, run[0]);
      (if Turn(s, run[0], t) then 1 else 0) + Turns(Next(s, run[0]), run[1..], t)
  }

  /** The run leads from s to u. */
  ghost predicate Leads(s: Sys, run: seq<Action>, u: Sys) {
    Inv(s) && Inv(u) && |u.pc| == |s.pc| && Exec(s, run) == u
  }

  lemma {:induction false} LeadsJoin(s: Sys, run: seq<Action>, u: Sys, more: seq<Action>, v: Sys)
    requires Leads(s, run, u) && Leads(u, more, v)
    ensures Leads(s, run + more, v)
    decreases |run|
  {
    hide Inv, Next;
    if run == [] {
      assert run + more == more;
    } else {
      assert (run + more)[1..] == run[1..] + more;
      LeadsFirst(s, run[0]);
      LeadsJoin(Next(s, run[0]), run[1..], u, more, v);
    }
  }

  lemma LeadsFirst(s: Sys, a: Action)
    requires Inv(s)
    ensures Sized(s) && Leads(s, [a], Next(s, a)) && Leads(s, [], s)
  {
    NextKeeps(s, a);
    SameThreads(s, a);
    assert [a][1..] == [];
  }

  // ----- between two turns of a thread

  /** Thread t itself changes no registration, no mark and no count in the run. */
  ghost predicate Silent(s: Sys, run: seq<Action>, t: nat)
    requires Inv(s)
    decreases |run|
  {
    run == [] ||
    (LeadsFirst(s, run[0]);
     var u := Next(s, run[0]);
     (run[0] == Advance(t) ==> u.waits == s.waits && u.posted == s.posted && u.posts == s.posts) &&
     Silent(u, run[1..], t))
  }

  lemma {:induction false} SilentJoin(s: Sys, run: seq<Action>, u: Sys, more: seq<Action>, t: nat)
    requires Leads(s, run, u) && Silent(s, run, t) && Silent(u, more, t)
    ensures Silent(s, run + more, t)
    decreases |run|
  {
    hide Inv, Next;
    if run == [] {
      assert run + more == more;
    } else {
      assert (run + more)[1..] == run[1..] + more;
      LeadsFirst(s, run[0]);
      SilentJoin(Next(s, run[0]), run[1..], u, more, t);
    }
  }

  lemma SilentOne(s: Sys, a: Action, t: nat)
    requires Inv(s)
    requires a == Advance(t) ==> var u := Next(s, a); u.waits == s.waits && u.posted == s.posted && u.posts == s.posts
    ensures Silent(s, [a], t)
  {
    LeadsFirst(s, a);
    assert [a][1..] == [];
  }

  /** What stays as it is from one turn of thread t to the next. */
  ghost predicate Steady(s: Sys, u: Sys, t: nat)
    requires Inv(s) && Inv(u) && t < |s.pc| == |u.pc|
  {
    && u.pc[t] == s.pc[t]
    && (Holding(s.pc[t], t) == t ==> u.waits[t] == s.waits[t])
    && (s.pc[t].PSet? ==> u.posts[s.pc[t].x] == s.posts[s.pc[t].x])
  }

  lemma SteadyStep(s: Sys, a: Action, t: nat)
    requires Inv(s) && t < |s.pc| && !s.pc[t].Idle? && !s.pc[t].WSleep? && !Turn(s, a, t)
    ensures Inv(Next(s, a)) && |Next(s, a).pc| == |s.pc| && Steady(s, Next(s, a), t)
  {
    NextKeeps(s, a);
    SameThreads(s, a);
    Members(s, t);
    if a.Advance? && a.t < |s.pc| {
      if a.t == t {
        BlockedStays(s, t);
      } else {
        OtherStep(s, a.t, t);
      }
    }
  }

  lemma BlockedStays(s: Sys, t: nat)
    requires Inv(s) && t < |s.pc| && Blocked(s, t)
    ensures Step(s, t) == s
  {
    Members(s, t);
  }

  lemma BlockedSilent(s: Sys, a: Action, t: nat)
    requires Inv(s) && t < |s.pc| && !Turn(s, a, t)
    ensures Silent(s, [a], t)
  {
    hide Inv, Step;
    if a == Advance(t) {
      BlockedStays(s, t);
    }
    SilentOne(s, a, t);
  }

  lemma OtherStep(s: Sys, d: nat, t: nat)
    requires Inv(s) && t < |s.pc| && d < |s.pc| && d != t && !s.pc[t].WSleep?
    ensures var u := Step(s, d);
      && |u.pc| == |s.pc| == |u.waits| == |u.posts| && u.pc[t] == s.pc[t]
      && (Holding(s.pc[t], t) == t ==> u.waits[t] == s.waits[t])
      && (s.pc[t].PSet? ==> u.posts[s.pc[t].x] == s.posts[s.pc[t].x])
  {
    Members(s, t);
    Members(s, d);
    if Holding(s.pc[t], t) == t {
      MutexExclusive(s, t, d);
    }
  }

  lemma SteadyOn(s: Sys, u: Sys, v: Sys, t: nat)
    requires Inv(s) && Inv(u) && Inv(v) && t < |s.pc| == |u.pc| == |v.pc| && Steady(s, u, t) && Steady(u, v, t)
    ensures Steady(s, v, t)
  {
  }

  /** Up to its next turn a thread stays where it is. */
  lemma {:induction false} NextTurn(s: Sys, run: seq<Action>, t: nat)
    returns (before: seq<Action>, u: Sys, after: seq<Action>)
    requires Inv(s) && t < |s.pc| && !s.pc[t].Idle? && !s.pc[t].WSleep? && Turns(s, run, t) > 0
    ensures run == before + [Advance(t)] + after && Leads(s, before, u)
    ensures Steady(s, u, t) && !Blocked(u, t) && Silent(s, before, t)
    ensures Leads(u, [Advance(t)], Next(u, Advance(t)))
    ensures Turns(Next(u, Advance(t)), after, t) == Turns(s, run, t) - 1
    decreases |run|
  {
    hide Inv, Next, Blocked, Steady, Holding;
    var a := run[0];
    LeadsFirst(s, a);
    if Turn(s, a, t) {
      before, u, after := [], s, run[1..];
      assert run == [] + [a] + run[1..];
      SteadyNow(s, t);
    } else {
      SteadyStep(s, a, t);
      var s' := Next(s, a);
      SteadyPlace(s, s', t);
      var rest;
      rest, u, after := NextTurn(s', run[1..], t);
      before := [a] + rest;
      assert run == [a] + run[1..];
      assert before + [Advance(t)] + after == [a] + (rest + [Advance(t)] + after);
      LeadsJoin(s, [a], s', rest, u);
      SteadyOn(s, s', u, t);
      BlockedSilent(s, a, t);
      SilentJoin(s, [a], s', rest, t);
    }
  }

  lemma SteadyNow(s: Sys, t: nat)
    requires Inv(s) && t < |s.pc|
    ensures Steady(s, s, t)
  {
  }

  lemma SteadyPlace(s: Sys, u: Sys, t: nat)
    requires Inv(s) && Inv(u) && t < |s.pc| == |u.pc| && Steady(s, u, t)
    ensures u.pc[t] == s.pc[t]
  {
  }

  /** The next turn, taken: what comes before it leads to u, and with it to v. */
  lemma TakeTurn(s: Sys, run: seq<Action>, t: nat)
    returns (before: seq<Action>, u: Sys, part: seq<Action>, v: Sys, after: seq<Action>)
    requires Inv(s) && t < |s.pc| && !s.pc[t].Idle? && !s.pc[t].WSleep? && Turns(s, run, t) > 0
    ensures run == part + after && part == before + [Advance(t)]
    ensures Leads(s, before, u) && Leads(s, part, v) && Leads(u, [Advance(t)], v) && v == Next(u, Advance(t))
    ensures Steady(s, u, t) && u.pc[t] == s.pc[t] && !Blocked(u, t) && Silent(s, before, t)
    ensures Turns(v, after, t) == Turns(s, run, t) - 1
  {
    hide Inv, Next, Blocked, Steady;
    before, u, after := NextTurn(s, run, t);
    LeadsFirst(u, Advance(t));
    SteadyPlace(s, u, t);
    v, part := Next(u, Advance(t)), before + [Advance(t)];
    LeadsJoin(s, before, u, [Advance(t)], v);
  }

  // ----- a thread marked posted

  /** The wait of thread x is for t, from its loop on. */
  predicate WaitsFor(pc: Pc, t: nat) {
    InLoop(pc, t) || pc == WUnlock(t) || pc.WDone?
  }

  /** Thread x is marked posted in its wait for t. */
  predicate Marked(s: Sys, x: nat, t: nat) {
    x < |s.pc| == |s.posted| && s.posted[x] && WaitsFor(s.pc[x], t)
  }

  /** Thread x is marked posted and will not sleep any more. */
  predicate Woken(s: Sys, x: nat) {
    x < |s.pc| == |s.posted| && s.posted[x] && !s.pc[x].WSleep?
  }

  lemma MarkedStep(s: Sys, a: Action, x: nat, t: nat)
    requires Inv(s) && Marked(s, x, t)
    ensures Returns(s, a, x) || Marked(Next(s, a), x, t)
  {
    hide ThreadOk, Left;
    PostedStep(s, a, x);
    if a.Advance? && a.t < |s.pc| && a.t != x {
      PostedOther(s, a.t, x);
    }
  }

  lemma PostedOther(s: Sys, d: nat, x: nat)
    requires Inv(s) && x < |s.pc| && s.posted[x] && d < |s.pc| && d != x
    ensures |Step(s, d).pc| == |s.pc|
    ensures Step(s, d).pc[x] == s.pc[x] || (s.pc[x].WSleep? && Step(s, d).pc[x] == WWake(s.pc[x].w))
  {
    Members(s, d);
  }

  lemma WokenStep(s: Sys, a: Action, x: nat)
    requires Inv(s) && Woken(s, x)
    ensures Returns(s, a, x) || Woken(Next(s, a), x)
  {
    hide ThreadOk, Step;
    PostedStep(s, a, x);
    PostedLeft(s, x);
  }

  /** Until it returns it stays marked in the same wait. */
  lemma {:induction false} StaysMarked(s: Sys, run: seq<Action>, u: Sys, x: nat, t: nat)
    requires Leads(s, run, u) && Marked(s, x, t)
    ensures ReturnsIn(s, run, x) || Marked(u, x, t)
    decreases |run|
  {
    hide Inv, Next, Marked, Returns;
    if run != [] && !Returns(s, run[0], x) {
      LeadsFirst(s, run[0]);
      MarkedStep(s, run[0], x, t);
      StaysMarked(Next(s, run[0]), run[1..], u, x, t);
    }
  }

  lemma {:induction false} StaysWoken(s: Sys, run: seq<Action>, u: Sys, x: nat)
    requires Leads(s, run, u) && Woken(s, x)
    ensures ReturnsIn(s, run, x) || Woken(u, x)
    decreases |run|
  {
    hide Inv, Next, Woken, Returns;
    if run != [] && !Returns(s, run[0], x) {
      LeadsFirst(s, run[0]);
      WokenStep(s, run[0], x);
      StaysWoken(Next(s, run[0]), run[1..], u, x);
    }
  }

  lemma {:induction false} ReturnsLater(s: Sys, run: seq<Action>, u: Sys, more: seq<Action>, x: nat)
    requires Leads(s, run, u) && (ReturnsIn(s, run, x) || ReturnsIn(u, more, x))
    ensures ReturnsIn(s, run + more, x)
    decreases |run|
  {
    hide Inv, Next, Returns;
    if run == [] {
      assert run + more == more;
    } else {
      assert (run + more)[1..] == run[1..] + more;
      LeadsFirst(s, run[0]);
      if !Returns(s, run[0], x) {
        ReturnsLater(Next(s, run[0]), run[1..], u, more, x);
      }
    }
  }

  /** A turn takes the thread to another point. */
  lemma TurnMoves(s: Sys, a: Action, t: nat)
    requires Inv(s) && t < |s.pc| && Turn(s, a, t)
    ensures Moves(s, a, t)
  {
    Members(s, t);
  }

  lemma {:induction false} TurnsMove(s: Sys, run: seq<Action>, t: nat)
    requires Inv(s) && t < |s.pc|
    ensures Turns(s, run, t) <= MovesIn(s, run, t)
    decreases |run|
  {
    hide Inv, Next, Turn, Moves;
    if run != [] {
      LeadsFirst(s, run[0]);
      if Turn(s, run[0], t) {
        TurnMoves(s, run[0], t);
      }
      TurnsMove(Next(s, run[0]), run[1..], t);
    }
  }

  /** A woken thread returns after at most four turns. */
  lemma WokenReturns(s: Sys, run: seq<Action>, x: nat)
    requires Inv(s) && Woken(s, x) && Turns(s, run, x) >= 4
    ensures ReturnsIn(s, run, x)
  {
    hide Inv;
    TurnsMove(s, run, x);
    PostedLeft(s, x);
    PostedReturns(s, run, x);
  }

  // ----- a post

  lemma PostStarts(s: Sys, t: nat, x: nat)
    requires Inv(s) && t < |s.pc| && s.pc[t].Idle?
    ensures var u := Next(s, StartPost(t, x)); |u.pc| == |s.pc| && u.pc[t] == PLock(x)
  {
  }

  lemma Locked(s: Sys, t: nat, x: nat)
    requires Inv(s) && t < |s.pc| && s.pc[t] == PLock(x) && !Blocked(s, t)
    ensures var u := Next(s, Advance(t)); |u.pc| == |s.pc| == |u.waits| && u.pc[t] == PFind(x)
  {
  }

  lemma LookedUp(s: Sys, t: nat, x: nat)
    requires Inv(s) && t < |s.pc| && s.pc[t] == PFind(x)
    ensures t < |s.waits| && t < |s.mutex| && s.mutex[t] == By(t)
    ensures var u := Next(s, Advance(t));
      && |u.pc| == |s.pc| == |u.waits| == |u.posts| == |s.posts|
      && (x in s.waits[t] ==> x < |s.pc| && u.pc[t] == PSet(x) && x !in u.waits[t] && u.posts == s.posts)
      && (x !in s.waits[t] ==>
            u.pc[t] == PUnlock && u.waits == s.waits && u.posted == s.posted && u.posts == s.posts)
  {
    Members(s, t);
  }

  lemma Set(s: Sys, t: nat, x: nat)
    requires Inv(s) && t < |s.pc| && s.pc[t] == PSet(x)
    ensures x < |s.pc|
    ensures var u := Next(s, Advance(t));
      && |u.pc| == |s.pc| == |u.waits| == |u.posts| == |s.posts| == |s.waits| && u.pc[t] == PBroadcast(x)
      && Marked(u, x, t) && u.waits == s.waits && u.posts[x] == s.posts[x] + 1
  {
    Members(s, t);
  }

  lemma Broadcasts(s: Sys, t: nat, x: nat)
    requires Inv(s) && t < |s.pc| && s.pc[t] == PBroadcast(x)
    ensures var u := Next(s, Advance(t)); |u.pc| == |s.pc| && u.pc[t] == PUnlock && (Marked(s, x, t) ==> Woken(u, x))
  {
    Members(s, t);
  }

  lemma Unlocks(s: Sys, t: nat)
    requires Inv(s) && t < |s.pc| && s.pc[t].PUnlock?
    ensures var u := Next(s, Advance(t));
      |u.pc| == |s.pc| && u.pc[t].Idle? && u.waits == s.waits && u.posted == s.posted && u.posts == s.posts
  {
    Members(s, t);
  }

  lemma SetSteady(s: Sys, u: Sys, t: nat)
    requires Inv(s) && Inv(u) && t < |s.pc| == |u.pc| && Steady(s, u, t) && s.pc[t].PSet?
    ensures var x := s.pc[t].x;
      && x < |s.posts| == |u.posts| && u.posts[x] == s.posts[x]
      && |s.waits| == |u.waits| == |s.pc| && u.waits[t] == s.waits[t]
  {
    Members(s, t);
  }

  /** From the mark on: the thread is woken before its poster is back, unless it has returned by then. */
  lemma Wakes(s: Sys, run: seq<Action>, t: nat, x: nat)
    returns (part: seq<Action>, b: Sys, after: seq<Action>)
    requires Inv(s) && t < |s.pc| && s.pc[t] == PBroadcast(x) && Marked(s, x, t) && Turns(s, run, t) >= 2
    ensures run == part + after && Leads(s, part, b)
    ensures b.pc[t].Idle? && (ReturnsIn(s, part, x) || Woken(b, x))
  {
    hide Inv, Next, Turns, Blocked, Steady, ReturnsIn, Marked, Woken;
    var p1, u1, q1, v1, m1 := TakeTurn(s, run, t);
    Broadcasts(u1, t, x);
    StaysMarked(s, p1, u1, x, t);
    var p2, u2, q2, v2, m2 := TakeTurn(v1, m1, t);
    Unlocks(u2, t);
    part, b, after := q1 + q2, v2, m2;
    LeadsJoin(s, q1, v1, q2, v2);
    assert run == q1 + (q2 + m2) == part + after;
    if ReturnsIn(s, p1, x) {
      ReturnsLater(s, p1, u1, [Advance(t)], x);
      ReturnsLater(s, q1, v1, q2, x);
    } else {
      StaysWoken(v1, q2, v2, x);
      if ReturnsIn(v1, q2, x) {
        ReturnsLater(s, q1, v1, q2, x);
      }
    }
  }

  lemma MarksIt(s: Sys, run: seq<Action>, t: nat, x: nat)
    returns (part: seq<Action>, d: Sys, after: seq<Action>)
    requires Inv(s) && t < |s.pc| && s.pc[t] == PSet(x) && Turns(s, run, t) > 0
    ensures run == part + after && Leads(s, part, d) && Turns(d, after, t) == Turns(s, run, t) - 1
    ensures d.pc[t] == PBroadcast(x) && Marked(d, x, t) && t < |s.waits| == |d.waits| && d.waits[t] == s.waits[t]
    ensures x < |s.posts| == |d.posts| && d.posts[x] == s.posts[x] + 1
  {
    hide Inv, Next, Turns, Blocked, Steady, Marked;
    var p, u, q, v, m := TakeTurn(s, run, t);
    SetSteady(s, u, t);
    Set(u, t, x);
    part, d, after := q, v, m;
  }

  /** Nothing was found: the thread goes back to where it came from, and has changed nothing. */
  lemma GivesUp(s: Sys, run: seq<Action>, t: nat)
    returns (part: seq<Action>, b: Sys, after: seq<Action>)
    requires Inv(s) && t < |s.pc| && s.pc[t].PUnlock? && Turns(s, run, t) > 0
    ensures run == part + after && Leads(s, part, b) && b.pc[t].Idle? && Silent(s, part, t)
  {
    hide Inv, Next, Turns, Blocked, Steady, Silent;
    var p, u, q, v, m := TakeTurn(s, run, t);
    Unlocks(u, t);
    SilentOne(u, Advance(t), t);
    SilentJoin(s, p, u, [Advance(t)], t);
    part, b, after := q, v, m;
  }

  /** The call itself is not a turn. */
  lemma StartTurns(s: Sys, run: seq<Action>, t: nat)
    requires Inv(s) && t < |s.pc| && run != [] && !run[0].Advance?
    ensures Inv(Next(s, run[0])) && |Next(s, run[0]).pc| == |s.pc|
    ensures Turns(s, run, t) == Turns(Next(s, run[0]), run[1..], t)
  {
    hide Inv, Next;
    LeadsFirst(s, run[0]);
  }

  /** A post up to its look-up, for which it holds its own mutex. */
  lemma LooksUp(s: Sys, run: seq<Action>, t: nat, x: nat)
    returns (part: seq<Action>, a: Sys, after: seq<Action>)
    requires Inv(s) && t < |s.pc| && s.pc[t].Idle? && run != [] && run[0] == StartPost(t, x)
    requires Turns(s, run, t) >= 2
    ensures run == part + [Advance(t)] + after && Leads(s, part, a)
    ensures a.pc[t] == PFind(x) && t < |a.mutex| && a.mutex[t] == By(t)
    ensures (LeadsFirst(a, Advance(t)); Turns(Next(a, Advance(t)), after, t) == Turns(s, run, t) - 2)
  {
    hide Inv, Next, Turns, Blocked, Steady, Silent;
    LeadsFirst(s, run[0]);
    StartTurns(s, run, t);
    PostStarts(s, t, x);
    var p1, u1, q1, v1, m1 := TakeTurn(Next(s, run[0]), run[1..], t);
    Locked(u1, t, x);
    var p2, u2, q2, v2, m2 := TakeTurn(v1, m1, t);
    LookedUp(u2, t, x);
    part, a, after := [run[0]] + (q1 + p2), u2, m2;
    LeadsJoin(Next(s, run[0]), q1, v1, p2, u2);
    LeadsJoin(s, [run[0]], Next(s, run[0]), q1 + p2, u2);
    assert run == [run[0]] + run[1..];
    assert run[1..] == q1 + m1 && m1 == p2 + [Advance(t)] + m2;
    assert [run[0]] + (q1 + (p2 + [Advance(t)] + m2)) == [run[0]] + (q1 + p2) + [Advance(t)] + m2;
  }

  /** A run cut at three states: a, d and b. */
  datatype Cut = Cut(
    r0: seq<Action>, a: Sys, r1: seq<Action>, d: Sys, r2: seq<Action>, b: Sys, r3: seq<Action>)

  ghost predicate Cuts(k: Cut, s: Sys, run: seq<Action>) {
    run == k.r0 + k.r1 + k.r2 + k.r3 && Leads(s, k.r0, k.a) && Leads(k.a, k.r1, k.d) && Leads(k.d, k.r2, k.b)
  }

  /** Thread x, found registered in state a, is taken out and marked in state d, and awake or back in state b. */
  ghost predicate Delivered(k: Cut, t: nat, x: nat) {
    && Inv(k.d) && Inv(k.b) && x < |k.d.pc| == |k.b.pc| && t < |k.d.waits| && x < |k.d.posted|
    && x < |k.a.posts| && x < |k.d.posts|
    && x !in k.d.waits[t] && k.d.posted[x] && k.d.posts[x] == k.a.posts[x] + 1
    && (ReturnsIn(k.d, k.r2, x) || Woken(k.b, x))
    && (Turns(k.b, k.r3, x) >= 4 ==> ReturnsIn(k.d, k.r2 + k.r3, x))
  }

  /**
   * A post in any interleaving, from its call to its return, is at its look-up (state a) with its own mutex held. A
   * thread found registered then is taken out and marked, its count one higher (state d), and by the return (state b)
   * it is not asleep, or has returned already; given four turns it does. If it was not registered, the post has changed
   * nothing.
   */
  lemma PostDelivers(s: Sys, run: seq<Action>, t: nat, x: nat) returns (k: Cut)
    requires Inv(s) && t < |s.pc| && s.pc[t].Idle? && run != [] && run[0] == StartPost(t, x)
    requires Turns(s, run, t) >= 5
    ensures Cuts(k, s, run) && t < |k.a.mutex| && t < |k.a.waits| && t < |k.b.pc|
    ensures k.a.pc[t] == PFind(x) && k.a.mutex[t] == By(t) && k.b.pc[t].Idle?
    ensures if x in k.a.waits[t] then Delivered(k, t, x) else Silent(k.a, k.r1 + k.r2, t)
  {
    hide Inv, Next, Turns, Blocked, Steady, Silent, ReturnsIn, Woken;
    var r0, u, after := LooksUp(s, run, t, x);
    LookedUp(u, t, x);
    LeadsFirst(u, Advance(t));
    AllSized(u);
    var v := Next(u, Advance(t));
    if x in u.waits[t] {
      var p1, d, m1 := MarksIt(v, after, t, x);
      var r2, b, r3 := Wakes(d, m1, t, x);
      var r1 := [Advance(t)] + p1;
      LeadsJoin(u, [Advance(t)], v, p1, d);
      AllSized(d);
      Regroup(r0, [Advance(t)], p1, r2, r3);
      ThenReturns(d, r2, b, r3, x);
      k := Cut(r0, u, r1, d, r2, b, r3);
    } else {
      var r2, b, r3 := GivesUp(v, after, t);
      SilentOne(u, Advance(t), t);
      SilentJoin(u, [Advance(t)], v, r2, t);
      Regroup(r0, [Advance(t)], [], r2, r3);
      k := Cut(r0, u, [Advance(t)], v, r2, b, r3);
    }
  }

  lemma Regroup(p: seq<Action>, a: seq<Action>, q: seq<Action>, r: seq<Action>, m: seq<Action>)
    ensures p + a + (q + (r + m)) == p + (a + q) + r + m
    ensures q == [] ==> a + q == a && q + (r + m) == r + m
  {
  }

  lemma ThenReturns(d: Sys, part: seq<Action>, b: Sys, after: seq<Action>, x: nat)
    requires Leads(d, part, b) && x < |d.pc| && (ReturnsIn(d, part, x) || Woken(b, x))
    ensures Turns(b, after, x) >= 4 ==> ReturnsIn(d, part + after, x)
  {
    hide Inv, Turns, ReturnsIn, Woken;
    if Turns(b, after, x) >= 4 {
      if !ReturnsIn(d, part, x) {
        WokenReturns(b, after, x);
      }
      ReturnsLater(d, part, b, after, x);
    }
  }

  lemma AllSized(s: Sys)
    requires Inv(s)
    ensures |s.posted| == |s.waits| == |s.mutex| == |s.posts| == |s.finished| == |s.pc|
  {
  }

  // ----- a wait

  lemma WaitStarts(s: Sys, t: nat, w: nat)
    requires Inv(s) && t < |s.pc| && s.pc[t].Idle? && w < |s.pc|
    ensures var u := Next(s, StartWait(t, w)); |u.pc| == |s.pc| && u.pc[t] == WClear(w)
  {
  }

  lemma WaitGoesOn(s: Sys, t: nat)
    requires Inv(s) && t < |s.pc| && !Blocked(s, t)
    ensures var u := Next(s, Advance(t));
      && |u.pc| == |s.pc| == |u.posted| == |u.waits| == |u.mutex|
      && (s.pc[t].WClear? ==> u.pc[t] == WLock(s.pc[t].w))
      && (s.pc[t].WLock? ==> u.pc[t] == WInsert(s.pc[t].w))
      && (s.pc[t].WInsert? ==>
            var w := s.pc[t].w;
            w < |s.pc| && u.pc[t] == WTest(w) && t in u.waits[w] && !u.posted[t] && u.mutex[w] == By(t))
  {
    Members(s, t);
  }

  /** In any interleaving a wait comes to its loop, registered with w, not marked, and holding the mutex of w. */
  lemma WaitRegisters(s: Sys, run: seq<Action>, t: nat, w: nat)
    returns (part: seq<Action>, a: Sys, after: seq<Action>)
    requires Inv(s) && t < |s.pc| && s.pc[t].Idle? && w < |s.pc| && run != [] && run[0] == StartWait(t, w)
    requires Turns(s, run, t) >= 3
    ensures run == part + after && Leads(s, part, a)
    ensures |a.posted| == |a.waits| == |a.mutex| == |a.pc|
    ensures InLoop(a.pc[t], w) && t in a.waits[w] && !a.posted[t] && a.mutex[w] == By(t)
  {
    hide Inv, Next, Turns, Blocked, Steady, Silent;
    LeadsFirst(s, run[0]);
    StartTurns(s, run, t);
    WaitStarts(s, t, w);
    var p1, u1, q1, v1, m1 := TakeTurn(Next(s, run[0]), run[1..], t);
    WaitGoesOn(u1, t);
    var p2, u2, q2, v2, m2 := TakeTurn(v1, m1, t);
    WaitGoesOn(u2, t);
    var p3, u3, q3, v3, m3 := TakeTurn(v2, m2, t);
    WaitGoesOn(u3, t);
    part, a, after := [run[0]] + (q1 + (q2 + q3)), v3, m3;
    LeadsJoin(v1, q2, v2, q3, v3);
    LeadsJoin(Next(s, run[0]), q1, v1, q2 + q3, v3);
    LeadsJoin(s, [run[0]], Next(s, run[0]), q1 + (q2 + q3), v3);
    assert run == [run[0]] + run[1..];
    assert run[1..] == q1 + m1 && m1 == q2 + m2 && m2 == q3 + m3;
    assert [run[0]] + (q1 + (q2 + (q3 + m3))) == [run[0]] + (q1 + (q2 + q3)) + m3;
  }
}
