/**
 * The same steps as the kernel runs them: paging is on, so every load and store of the loop of
 * x64_kenerl/kernel/ioremap.c goes through the translation that the loop is changing.
 */
module MapperCode {
  import opened PageBits
  import opened PageTables
  import opened PageMapper

  datatype Outcome = Fault | Done(s: State)

  // ----- the code

  function EntryAt(m: Memory, p: bv64, i: bv64): Option<bv64> {
    var q := Walk(m, p);
    if q.None? then None else Some(Entry(m, q.value, i))
  }

  /** Lines 28-32 and 35-39: a clear entry gets the next page, zeroed, whatever get_free_page answers. */
  function Link(s: State, p: bv64, i: bv64): Outcome {
    var e := EntryAt(s.t.mem, p, i);
    if e.None? then Fault
    else if e.value != 0 then Done(s)
    else
      var r := Walk(s.t.mem, Next(s.pool));
      if r.None? then Fault else LinkZeroed(s, s.t.mem[Key(r.value) := map[]], p, i)
  }

  function LinkZeroed(s: State, m: Memory, p: bv64, i: bv64): Outcome {
    var q := Walk(m, p);
    if q.None? then Fault
    else Done(State(Tables(Store(m, q.value, i, TableWord(Next(s.pool))), Roles(s.t, p, i, s.pool)), Rest(s.pool)))
  }

  /** Line 41. */
  function PutLeaf(s: State, pd: bv64, a: bv64): Outcome {
    var q := Walk(s.t.mem, pd);
    if q.None? then Fault else Done(State(SetLeaf(s.t, q.value, a), s.pool))
  }

  /** One turn of the loop. */
  function OnePage(s: State, a: bv64): Outcome {
    var o := Link(s, ROOT, Pml4Index(a));
    if o.Fault? then Fault
    else
      var e := EntryAt(o.s.t.mem, ROOT, Pml4Index(a));
      if e.None? then Fault else LowerHalf(o.s, EntryAddr(e.value), a)
  }

  function LowerHalf(s: State, pdpt: bv64, a: bv64): Outcome {
    var o := Link(s, pdpt, PdptIndex(a));
    if o.Fault? then Fault
    else
      var e := EntryAt(o.s.t.mem, pdpt, PdptIndex(a));
      if e.None? then Fault else PutLeaf(o.s, EntryAddr(e.value), a)
  }

  function Pages(s: State, a: bv64, n: nat): Outcome
    decreases n
  {
    if n == 0 then Done(s)
    else
      var o := OnePage(s, a);
      if o.Fault? then Fault else Pages(o.s, a + PAGE_2M, n - 1)
  }

  /** A page made a table is clear whatever it held before, but for the link itself where that is stored in it. */
  lemma LinkClears(s: State, p: bv64, i: bv64, j: bv64)
    requires Link(s, p, i).Done? && EntryAt(s.t.mem, p, i) == Some(0)
    ensures var page, now := Walk(s.t.mem, Next(s.pool)), Link(s, p, i).s.t.mem;
      page.Some? && (Entry(now, page.value, j) == 0 || Entry(now, page.value, j) == TableWord(Next(s.pool)))
  {
    hide Walk, TableWord;
    var page := Walk(s.t.mem, Next(s.pool)).value;
    var m := s.t.mem[Key(page) := map[]];
    StoreEntry(m, Walk(m, p).value, i, TableWord(Next(s.pool)), page, j);
  }

  // ----- tables and pages at their own addresses

  /** What is stored at the address reaches the page that has it. */
  predicate AtItself(m: Memory, p: bv64) {
    Low(p) && Walk(m, p) == Some(p)
  }

  ghost predicate TablesAt(s: State) {
    forall p: bv64 :: IsTable(s.t, p) ==> AtItself(s.t.mem, p)
  }

  ghost predicate PoolAt(s: State) {
    forall k :: 0 <= k < |s.pool| ==> AtItself(s.t.mem, s.pool[k])
  }

  /** The mapper can write all it has to: the tables, the pages to come, and page 0. */
  ghost predicate Reachable(s: State) {
    TablesAt(s) && PoolAt(s) && AtItself(s.t.mem, NULL)
  }

  /** With more answers of get_free_page after those in the pool. */
  function With(s: State, rest: seq<bv64>): State {
    State(s.t, s.pool + rest)
  }

  lemma FreshWalk(m: Memory, page: bv64, v: bv64)
    requires Key(page) !in m
    ensures Walk(m[Key(page) := map[]], v) == Walk(m, v)
  {
    hide Entry, Leaf;
    var m' := m[Key(page) := map[]];
    forall q: bv64, j: bv64
      ensures Entry(m', q, j) == Entry(m, q, j)
    {
      FreshEntry(m, page, q, j);
    }
  }

  lemma FreshEntry(m: Memory, page: bv64, q: bv64, j: bv64)
    requires Key(page) !in m
    ensures Entry(m[Key(page) := map[]], q, j) == Entry(m, q, j)
  {
  }

  lemma NotInMemory(t: Tables, p: bv64)
    requires Tree(t) && !IsTable(t, p)
    ensures Key(p) !in t.mem
  {
  }

  /** On tables at their own addresses the code does what the step on tables does. */
  lemma LinkIs(s: State, rest: seq<bv64>, p: bv64, i: bv64)
    requires Good(s) && TablesAt(s) && IsTable(s.t, p) && !RoleOf(s.t, p).Pd?
    requires Enough(s, {ChildRole(RoleOf(s.t, p), i)})
    requires Entry(s.t.mem, p, i) == 0 ==> s.pool != [] && AtItself(s.t.mem, s.pool[0])
    ensures Link(With(s, rest), p, i) == Done(With(Ensure(s, p, i), rest))
  {
    hide Tree, PageAligned, Entry, Walk, Low, Store, Enough;
    assert AtItself(s.t.mem, p);
    if Entry(s.t.mem, p, i) == 0 {
      var page := s.pool[0];
      assert Spare(s.t, page);
      NotInMemory(s.t, page);
      FreshWalk(s.t.mem, page, p);
      assert (s.pool + rest)[0] == page && (s.pool + rest)[1..] == s.pool[1..] + rest;
    }
  }

  /** What has not been written is still where it was. */
  lemma EnsureAt(s: State, p: bv64, i: bv64)
    requires Good(s) && TablesAt(s) && IsTable(s.t, p) && !RoleOf(s.t, p).Pd?
    requires Enough(s, {ChildRole(RoleOf(s.t, p), i)})
    requires Entry(s.t.mem, p, i) == 0 ==> s.pool != [] && AtItself(s.t.mem, s.pool[0])
    ensures TablesAt(Ensure(s, p, i))
    ensures forall v: bv64 :: Walk(Ensure(s, p, i).t.mem, v) == Walk(s.t.mem, v)
  {
    hide Tree, PageAligned, Entry, Walk, Low;
    var s' := Ensure(s, p, i);
    forall v: bv64
      ensures Walk(s'.t.mem, v) == Walk(s.t.mem, v)
    {
      EnsureWalk(s, p, i, v);
    }
    if Entry(s.t.mem, p, i) == 0 {
      NewTables(s, p, i);
    }
  }

  lemma NewTables(s: State, p: bv64, i: bv64)
    requires Good(s) && IsTable(s.t, p) && !RoleOf(s.t, p).Pd? && Entry(s.t.mem, p, i) == 0 && s.pool != []
    ensures forall q: bv64 :: IsTable(Ensure(s, p, i).t, q) <==> IsTable(s.t, q) || q == s.pool[0]
  {
    hide Tree, PageAligned, Entry;
    assert Spare(s.t, s.pool[0]);
    AddTablePlaces(s.t, p, i, s.pool[0]);
    FreshTable(s, p, i);
  }

  // ----- one page

  /** The pages that mapping a takes out of the pool. */
  ghost function Lacks(s: State, a: bv64): nat {
    |PagePlaces(a) - Places(s.t)|
  }

  ghost predicate TakenAt(s: State, n: nat) {
    n <= |s.pool| && forall k :: 0 <= k < n ==> AtItself(s.t.mem, s.pool[k])
  }

  /** How the pages taken divide between the two tables on the way. */
  lemma LacksSplit(s: State, a: bv64)
    requires Good(s)
    ensures var (i4, i3) := (Pml4Index(a), PdptIndex(a));
      && IsTable(s.t, ROOT) && RoleOf(s.t, ROOT) == Root
      && |{Pdpt(i4)} - Places(s.t)| == (if Entry(s.t.mem, ROOT, i4) == 0 then 1 else 0)
      && Lacks(s, a) == |{Pdpt(i4)} - Places(s.t)| + |{Pd(i4, i3)} - (Places(s.t) + {Pdpt(i4)})|
      && (Enough(s, PagePlaces(a)) ==> Enough(s, {Pdpt(i4)}))
  {
    hide Tree, PoolOk, Entry;
    var i4, i3 := Pml4Index(a), PdptIndex(a);
    RootOk(s.t);
    PlaceIff(s.t, ROOT, i4);
    OneLacks(Pdpt(i4), Places(s.t));
    assert PagePlaces(a) == {Pdpt(i4)} + {Pd(i4, i3)};
    LackSplit({Pdpt(i4)}, {Pd(i4, i3)}, Places(s.t));
  }

  /** The upper table: the state after it, and the lower one's address. */
  lemma UpperRuns(s: State, rest: seq<bv64>, a: bv64) returns (s1: State, pdpt: bv64)
    requires Good(s) && TablesAt(s) && Enough(s, {Pdpt(Pml4Index(a))})
    requires Entry(s.t.mem, ROOT, Pml4Index(a)) == 0 ==> s.pool != [] && AtItself(s.t.mem, s.pool[0])
    ensures OnePage(With(s, rest), a) == LowerHalf(With(s1, rest), pdpt, a) && s1 == Ensure(s, ROOT, Pml4Index(a))
    ensures pdpt == EntryAddr(Entry(s1.t.mem, ROOT, Pml4Index(a)))
    ensures Good(s1) && TablesAt(s1) && IsTable(s1.t, pdpt) && RoleOf(s1.t, pdpt) == Pdpt(Pml4Index(a))
    ensures s1.pool == s.pool[|{Pdpt(Pml4Index(a))} - Places(s.t)|..]
    ensures Enough(s1, {Pd(Pml4Index(a), PdptIndex(a))}) <==> Enough(s, PagePlaces(a))
    ensures |{Pd(Pml4Index(a), PdptIndex(a))} - Places(s1.t)| == Lacks(s, a) - |{Pdpt(Pml4Index(a))} - Places(s.t)|
    ensures forall v: bv64 :: Walk(s1.t.mem, v) == Walk(s.t.mem, v)
  {
    hide Tree, PoolOk, Entry, Walk, Low, LowerHalf, Link, Ensure;
    LacksSplit(s, a);
    var i4, i3 := Pml4Index(a), PdptIndex(a);
    EnsureKeeps(s, ROOT, i4);
    LinkIs(s, rest, ROOT, i4);
    EnsureAt(s, ROOT, i4);
    s1 := Ensure(s, ROOT, i4);
    pdpt := EntryAddr(Entry(s1.t.mem, ROOT, i4));
    EnsurePool(s, ROOT, i4);
    assert AtItself(s1.t.mem, ROOT);
  }

  lemma EnsurePool(s: State, p: bv64, i: bv64)
    ensures Ensure(s, p, i).pool == if Entry(s.t.mem, p, i) != 0 then s.pool else Rest(s.pool)
  {
  }

  /**
   * With the tables and the pages it takes at their own addresses, a turn of the loop does what the steps on tables do.
   */
  lemma PageRuns(s: State, rest: seq<bv64>, a: bv64)
    requires Good(s) && TablesAt(s) && Enough(s, PagePlaces(a)) && TakenAt(s, Lacks(s, a))
    ensures OnePage(With(s, rest), a) == Done(With(MapPage(s, a), rest))
  {
    hide Tree, PoolOk, Entry, Walk, Low, Ensure, SetLeaf, Link, OnePage, LowerHalf;
    LacksSplit(s, a);
    var s1, pdpt := UpperRuns(s, rest, a);
    SecondTaken(s, s1, a, pdpt);
    LowerRuns(s1, rest, pdpt, a);
  }

  lemma LowerRuns(s: State, rest: seq<bv64>, pdpt: bv64, a: bv64)
    requires Good(s) && TablesAt(s) && IsTable(s.t, pdpt) && RoleOf(s.t, pdpt) == Pdpt(Pml4Index(a))
    requires Enough(s, {Pd(Pml4Index(a), PdptIndex(a))})
    requires Entry(s.t.mem, pdpt, PdptIndex(a)) == 0 ==> s.pool != [] && AtItself(s.t.mem, s.pool[0])
    ensures var s2 := Ensure(s, pdpt, PdptIndex(a));
      LowerHalf(With(s, rest), pdpt, a) ==
        Done(With(State(SetLeaf(s2.t, EntryAddr(Entry(s2.t.mem, pdpt, PdptIndex(a))), a), s2.pool), rest))
  {
    hide Tree, PoolOk, Entry, Walk, Low, Ensure, SetLeaf, Link, Enough;
    var i3 := PdptIndex(a);
    LinkIs(s, rest, pdpt, i3);
    EnsureAt(s, pdpt, i3);
    EnsureKeeps(s, pdpt, i3);
    var s2 := Ensure(s, pdpt, i3);
    assert AtItself(s2.t.mem, pdpt) && AtItself(s2.t.mem, EntryAddr(Entry(s2.t.mem, pdpt, i3)));
  }

  lemma SecondTaken(s: State, s1: State, a: bv64, pdpt: bv64)
    requires Good(s) && TakenAt(s, Lacks(s, a)) && Good(s1)
    requires IsTable(s1.t, pdpt) && RoleOf(s1.t, pdpt) == Pdpt(Pml4Index(a))
    requires var (p, d) := ({Pdpt(Pml4Index(a))}, {Pd(Pml4Index(a), PdptIndex(a))});
      && |p - Places(s.t)| <= |s.pool| && s1.pool == s.pool[|p - Places(s.t)|..]
      && |d - Places(s1.t)| == Lacks(s, a) - |p - Places(s.t)|
    requires forall v: bv64 :: Walk(s1.t.mem, v) == Walk(s.t.mem, v)
    ensures Entry(s1.t.mem, pdpt, PdptIndex(a)) == 0 ==> s1.pool != [] && AtItself(s1.t.mem, s1.pool[0])
  {
    hide Tree, PoolOk, Entry, Walk, Low;
    PlaceIff(s1.t, pdpt, PdptIndex(a));
    OneLacks(Pd(Pml4Index(a), PdptIndex(a)), Places(s1.t));
  }

  /**
   * Where every translated address is its own, a turn of the loop faults exactly when a page it takes is not
   * translated.
   */
  lemma PageFaultIff(s: State, rest: seq<bv64>, a: bv64)
    requires Good(s) && TablesAt(s) && Identity(s.t.mem) && Enough(s, PagePlaces(a))
    requires forall k :: 0 <= k < |s.pool| ==> Low(s.pool[k])
    ensures OnePage(With(s, rest), a).Fault? <==> exists k :: 0 <= k < Lacks(s, a) && Walk(s.t.mem, s.pool[k]) == None
  {
    hide Tree, PoolOk, Entry, Walk, Low, Ensure, SetLeaf;
    LacksSplit(s, a);
    if forall k :: 0 <= k < Lacks(s, a) ==> Walk(s.t.mem, s.pool[k]) != None {
      assert forall k :: 0 <= k < Lacks(s, a) ==> AtItself(s.t.mem, s.pool[k]);
      PageRuns(s, rest, a);
    } else if Entry(s.t.mem, ROOT, Pml4Index(a)) == 0 && Walk(s.t.mem, s.pool[0]) == None {
      assert AtItself(s.t.mem, ROOT) && Next(s.pool + rest) == s.pool[0];
    } else {
      LowerFaults(s, rest, a);
    }
  }

  lemma LowerFaults(s: State, rest: seq<bv64>, a: bv64)
    requires Good(s) && TablesAt(s) && Identity(s.t.mem) && Enough(s, PagePlaces(a))
    requires forall k :: 0 <= k < |s.pool| ==> Low(s.pool[k])
    requires Entry(s.t.mem, ROOT, Pml4Index(a)) == 0 ==> s.pool != [] && Walk(s.t.mem, s.pool[0]) != None
    requires exists k :: 0 <= k < Lacks(s, a) && Walk(s.t.mem, s.pool[k]) == None
    ensures OnePage(With(s, rest), a).Fault?
  {
    hide Tree, PoolOk, Entry, Walk, Low, Ensure, SetLeaf, OnePage, LowerHalf;
    LacksSplit(s, a);
    var s1, pdpt := UpperRuns(s, rest, a);
    PlaceIff(s1.t, pdpt, PdptIndex(a));
    OneLacks(Pd(Pml4Index(a), PdptIndex(a)), Places(s1.t));
    var k :| 0 <= k < Lacks(s, a) && Walk(s.t.mem, s.pool[k]) == None;
    assert k == |{Pdpt(Pml4Index(a))} - Places(s.t)| && s1.pool[0] == s.pool[k];
    NextFaults(s1, rest, pdpt, a);
  }

  lemma NextFaults(s: State, rest: seq<bv64>, pdpt: bv64, a: bv64)
    requires TablesAt(s) && IsTable(s.t, pdpt) && s.pool != [] && Walk(s.t.mem, s.pool[0]) == None
    requires Entry(s.t.mem, pdpt, PdptIndex(a)) == 0
    ensures LowerHalf(With(s, rest), pdpt, a).Fault?
  {
    hide Entry, Walk, Low;
    assert AtItself(s.t.mem, pdpt) && Next(s.pool + rest) == s.pool[0];
  }

  // ----- what mapping a page leaves reachable

  /** The mapper goes on to write there. */
  predicate Needed(s: State, p: bv64) {
    IsTable(s.t, p) || p in s.pool || p == NULL
  }

  lemma EnsureRoles(s: State, p: bv64, i: bv64, q: bv64)
    ensures Key(q) in Ensure(s, p, i).t.role ==> Key(q) in s.t.role || q in s.pool
    ensures q in Ensure(s, p, i).pool ==> q in s.pool
  {
    hide Store, Entry;
  }

  lemma StillNeeded(s: State, a: bv64, q: bv64)
    requires Tree(s.t) && Needed(MapPage(s, a), q)
    ensures Needed(s, q)
  {
    hide Ensure, Entry, EntryOk, HasParent;
    var s1 := Ensure(s, ROOT, Pml4Index(a));
    EnsureRoles(s, ROOT, Pml4Index(a), q);
    EnsureRoles(s1, EntryAddr(Entry(s1.t.mem, ROOT, Pml4Index(a))), PdptIndex(a), q);
  }

  lemma ReachableMeans(s: State)
    ensures Reachable(s) <==> forall p: bv64 :: Needed(s, p) ==> AtItself(s.t.mem, p)
  {
    hide Walk, Low;
    if Reachable(s) {
      forall p: bv64 | Needed(s, p)
        ensures AtItself(s.t.mem, p)
      {
        if p in s.pool {
          var k :| 0 <= k < |s.pool| && s.pool[k] == p;
        }
      }
    }
    if forall p: bv64 :: Needed(s, p) ==> AtItself(s.t.mem, p) {
      assert forall k :: 0 <= k < |s.pool| ==> Needed(s, s.pool[k]);
      assert Needed(s, NULL);
    }
  }

  /**
   * Mapping a page keeps the rest in place exactly when its bits 48 to 51 are clear, or nothing of the mapper lies in
   * it.
   */
  lemma ReachableIff(s: State, a: bv64)
    requires Good(s) && Reachable(s) && a & OFFSET_2M == 0 && Enough(s, PagePlaces(a))
    ensures Reachable(MapPage(s, a)) <==>
      a & ABOVE_VIRTUAL == 0 || forall p: bv64 :: Needed(MapPage(s, a), p) ==> !SamePage(a, p)
  {
    hide Tree, PoolOk, Walk, MapPage, InFrame, SamePage, Enough, Reachable;
    var s' := MapPage(s, a);
    ReachableMeans(s);
    ReachableMeans(s');
    forall p: bv64 | Needed(s', p)
      ensures AtItself(s'.t.mem, p) <==> a & ABOVE_VIRTUAL == 0 || !SamePage(a, p)
    {
      StillNeeded(s, a, p);
      MapPageWalk(s, a, p);
      if SamePage(a, p) {
        IdentityIff(a, p);
      }
    }
  }

  /** A low page keeps everything reachable. */
  lemma LowPageReaches(s: State, a: bv64)
    requires Good(s) && Reachable(s) && a & OFFSET_2M == 0 && a & ABOVE_VIRTUAL == 0 && Enough(s, PagePlaces(a))
    ensures Reachable(MapPage(s, a))
  {
    hide Good, Reachable, MapPage, Enough, Needed;
    ReachableIff(s, a);
  }

  // ----- ranges

  /** Below 2^48 and with enough reachable pages, the code does what the steps on tables do, for the whole range. */
  lemma {:induction false} RangeRuns(s: State, rest: seq<bv64>, a: bv64, n: nat)
    requires Good(s) && Reachable(s) && a & OFFSET_2M == 0 && LowRange(a, n) && Enough(s, RangePlaces(a, n))
    ensures Pages(With(s, rest), a, n) == Done(With(MapRange(s, a, n), rest)) && Reachable(MapRange(s, a, n))
    decreases n
  {
    hide MapPage, OnePage, Good, PagePlaces, Enough, Reachable;
    if n > 0 {
      var s', places := MapPage(s, a), RangePlaces(a + PAGE_2M, n - 1);
      NotEnough(s, PagePlaces(a), places);
      PageKeeps(s, a);
      EnoughSplit(s, s', PagePlaces(a), places);
      AllTaken(s, a);
      PageRuns(s, rest, a);
      LowPageReaches(s, a);
      NextPageAligned(a);
      RangeRuns(s', rest, a + PAGE_2M, n - 1);
    }
  }

  lemma AllTaken(s: State, a: bv64)
    requires Reachable(s) && Enough(s, PagePlaces(a))
    ensures TablesAt(s) && TakenAt(s, Lacks(s, a))
  {
    hide Walk, Low;
  }

  // ----- page 0

  /** No step takes memory back. */
  lemma LinkStays(s: State, p: bv64, i: bv64)
    ensures var o := Link(s, p, i); o.Done? ==> s.t.mem.Keys <= o.s.t.mem.Keys
  {
    hide Walk, Entry;
  }

  lemma PageStays(s: State, a: bv64)
    ensures var o := OnePage(s, a); o.Done? ==> s.t.mem.Keys <= o.s.t.mem.Keys
  {
    hide Walk, Entry, Link;
    LinkStays(s, ROOT, Pml4Index(a));
    var o := Link(s, ROOT, Pml4Index(a));
    if o.Done? {
      var e := EntryAt(o.s.t.mem, ROOT, Pml4Index(a));
      if e.Some? {
        LowerStays(o.s, EntryAddr(e.value), a);
      }
    }
  }

  lemma LowerStays(s: State, pdpt: bv64, a: bv64)
    ensures var o := LowerHalf(s, pdpt, a); o.Done? ==> s.t.mem.Keys <= o.s.t.mem.Keys
  {
    hide Walk, Entry, Link;
    LinkStays(s, pdpt, PdptIndex(a));
  }

  lemma {:induction false} PagesStay(s: State, a: bv64, n: nat)
    ensures var o := Pages(s, a, n); o.Done? ==> s.t.mem.Keys <= o.s.t.mem.Keys
    decreases n
  {
    hide OnePage;
    if n > 0 {
      PageStays(s, a);
      if OnePage(s, a).Done? {
        PagesStay(OnePage(s, a).s, a + PAGE_2M, n - 1);
      }
    }
  }

  /** With the pages used up, the next clear entry takes page 0. */
  lemma LinkShort(s: State, rest: seq<bv64>, p: bv64, i: bv64)
    requires Good(s) && TablesAt(s) && AtItself(s.t.mem, NULL) && IsTable(s.t, p) && !RoleOf(s.t, p).Pd?
    requires !Enough(s, {ChildRole(RoleOf(s.t, p), i)})
    ensures var o := Link(With(s, [NULL] + rest), p, i); o.Done? ==> Key(NULL) in o.s.t.mem
  {
    hide Tree, PoolOk, Entry, Walk, Low;
    PlaceIff(s.t, p, i);
    OneLacks(ChildRole(RoleOf(s.t, p), i), Places(s.t));
    assert AtItself(s.t.mem, p);
    assert s.pool + ([NULL] + rest) == [NULL] + rest;
  }

  lemma PageShort(s: State, rest: seq<bv64>, a: bv64)
    requires Good(s) && Reachable(s) && !Enough(s, PagePlaces(a))
    ensures var o := OnePage(With(s, [NULL] + rest), a); o.Done? ==> Key(NULL) in o.s.t.mem
  {
    hide Tree, PoolOk, Entry, Walk, Low, Link;
    var i4, i3 := Pml4Index(a), PdptIndex(a);
    RootOk(s.t);
    if Enough(s, {Pdpt(i4)}) {
      LowerShort(s, rest, a);
    } else {
      LinkShort(s, rest, ROOT, i4);
      var o := Link(With(s, [NULL] + rest), ROOT, i4);
      if o.Done? && EntryAt(o.s.t.mem, ROOT, i4).Some? {
        LowerStays(o.s, EntryAddr(EntryAt(o.s.t.mem, ROOT, i4).value), a);
      }
    }
  }

  lemma LowerShort(s: State, rest: seq<bv64>, a: bv64)
    requires Good(s) && Reachable(s) && Enough(s, {Pdpt(Pml4Index(a))}) && !Enough(s, PagePlaces(a))
    ensures var o := OnePage(With(s, [NULL] + rest), a); o.Done? ==> Key(NULL) in o.s.t.mem
  {
    hide Tree, PoolOk, Entry, Walk, Low, Link, Ensure, OnePage;
    LacksSplit(s, a);
    FirstTaken(s, a);
    var s1, pdpt := UpperRuns(s, [NULL] + rest, a);
    assert AtItself(s1.t.mem, NULL);
    LinkShort(s1, rest, pdpt, PdptIndex(a));
  }

  lemma FirstTaken(s: State, a: bv64)
    requires Good(s) && Reachable(s) && Enough(s, {Pdpt(Pml4Index(a))})
    ensures Entry(s.t.mem, ROOT, Pml4Index(a)) == 0 ==> s.pool != [] && AtItself(s.t.mem, s.pool[0])
  {
    hide Tree, PoolOk, Entry, Walk, Low;
    LacksSplit(s, a);
  }

  /**
   * Exactly when the code stays within the pages it is given, whatever get_free_page answers once it has answered
   * NULL: it runs to its end and never takes page 0 for a table if and only if there is a free page for every place
   * of the range that has no table yet.
   */
  lemma {:induction false} RangeIff(s: State, rest: seq<bv64>, a: bv64, n: nat)
    requires Good(s) && Reachable(s) && a & OFFSET_2M == 0 && LowRange(a, n)
    ensures var o := Pages(With(s, [NULL] + rest), a, n);
      o.Done? && Key(NULL) !in o.s.t.mem <==> Enough(s, RangePlaces(a, n))
    decreases n
  {
    hide MapPage, OnePage, PagePlaces, Enough, Reachable, Tree, PoolOk;
    if n > 0 {
      var s', places := MapPage(s, a), RangePlaces(a + PAGE_2M, n - 1);
      NextPageAligned(a);
      if Enough(s, PagePlaces(a)) {
        PageKeeps(s, a);
        EnoughSplit(s, s', PagePlaces(a), places);
        AllTaken(s, a);
        PageRuns(s, [NULL] + rest, a);
        LowPageReaches(s, a);
        RangeIff(s', rest, a + PAGE_2M, n - 1);
      } else {
        NotEnough(s, PagePlaces(a), places);
        PageShort(s, rest, a);
        var o := OnePage(With(s, [NULL] + rest), a);
        if o.Done? {
          PagesStay(o.s, a + PAGE_2M, n - 1);
        }
      }
    } else {
      NothingLacks(s);
    }
  }

  /**
   * A range of reachable pages below 2^48 with enough pages for its tables: the code runs to its end, all n pages
   * translate to themselves and every other address as before, and the tables stay a tree that can be reached.
   */
  lemma RangeIsIdentity(s: State, rest: seq<bv64>, a: bv64, n: nat)
    requires Good(s) && Reachable(s) && a & OFFSET_2M == 0 && LowRange(a, n) && Enough(s, RangePlaces(a, n))
    ensures var o, r := Pages(With(s, rest), a, n), MapRange(s, a, n);
      && o == Done(With(r, rest)) && Good(r) && Reachable(r)
      && (forall v: bv64 :: Low(v) ==> Walk(r.t.mem, v) == if Covered(a, n, v) then Some(v) else Walk(s.t.mem, v))
  {
    hide Good, Enough, Walk, Low, Reachable, Pages, MapRange;
    RangeRuns(s, rest, a, n);
    RangeKeeps(s, a, n);
    RangeToItself(s, a, n);
  }
}
