/**
 * The tables from boot on: prepare_4level_page_table of x86_kernel/init/main.c, and any run of requests to
 * _arch_ioremap_nocache of x64_kenerl/kernel/ioremap.c.
 */
module Ioremap {
  import opened PageBits
  import opened PageTables
  import opened PageMapper
  import opened MapperCode

  // ----- boot

  /** The first k of the sixteen boot leaves. */
  function BootLeaves(k: bv64): Page
    decreases k
  {
    if k == 0 then map[] else BootLeaves(k - 1)[Key(k - 1) := ((k - 1) * PAGE_2M) | 0x87]
  }

  /** The tables that prepare_4level_page_table leaves behind. */
  function BootTables(): Tables {
    Tables(map[Key(ROOT) := map[Key(0) := FIRST_PDPT | 7], Key(FIRST_PDPT) := map[Key(0) := FIRST_PDT | 7],
               Key(FIRST_PDT) := BootLeaves(16)],
           map[Key(ROOT) := Root, Key(FIRST_PDPT) := Pdpt(0), Key(FIRST_PDT) := Pd(0, 0)])
  }

  lemma {:induction false} BootLeaf(k: bv64, i: bv64)
    requires k <= 16
    ensures Key(i) in BootLeaves(k) <==> i < k
    ensures i < k ==> BootLeaves(k)[Key(i)] == (i * PAGE_2M) | 0x87
    decreases k
  {
    if k > 0 {
      BootLeaf(k - 1, i);
    }
  }

  lemma BootEntry(p: bv64, i: bv64)
    ensures Entry(BootTables().mem, p, i) ==
      if p == ROOT then (if i == 0 then FIRST_PDPT | 7 else 0)
      else if p == FIRST_PDPT then (if i == 0 then FIRST_PDT | 7 else 0)
      else if p == FIRST_PDT && i < 16 then (i * PAGE_2M) | 0x87 else 0
  {
    hide BootLeaves;
    BootLeaf(16, i);
  }

  lemma BootBits(i: bv64)
    ensures (FIRST_PDPT | 7) & PRESENT != 0 && (FIRST_PDPT | 7) & LARGE == 0 && EntryAddr(FIRST_PDPT | 7) == FIRST_PDPT
    ensures (FIRST_PDT | 7) & PRESENT != 0 && (FIRST_PDT | 7) & LARGE == 0 && EntryAddr(FIRST_PDT | 7) == FIRST_PDT
    ensures FIRST_PDPT | 7 != 0 && FIRST_PDT | 7 != 0
    ensures i < 16 ==> ((i * PAGE_2M) | 0x87) & PRESENT != 0 && ((i * PAGE_2M) | 0x87) & LARGE != 0
  {
  }

  lemma BootMembers(p: bv64)
    ensures var t := BootTables();
      && t.role.Keys == t.mem.Keys && Key(NULL) !in t.mem
      && (IsTable(t, p) <==> p == ROOT || p == FIRST_PDPT || p == FIRST_PDT)
      && IsTable(t, ROOT) && RoleOf(t, ROOT) == Root
      && IsTable(t, FIRST_PDPT) && RoleOf(t, FIRST_PDPT) == Pdpt(0)
      && IsTable(t, FIRST_PDT) && RoleOf(t, FIRST_PDT) == Pd(0, 0)
  {
    hide BootLeaves;
  }

  lemma BootOk(p: bv64, i: bv64)
    requires IsTable(BootTables(), p)
    ensures EntryOk(BootTables(), p, i)
  {
    hide BootTables, Entry;
    BootMembers(p);
    BootEntry(p, i);
    BootBits(i);
  }

  lemma BootParent(p: bv64)
    requires IsTable(BootTables(), p)
    ensures HasParent(BootTables(), p)
  {
    hide BootTables, Entry;
    BootMembers(p);
    BootEntry(ROOT, 0);
    BootEntry(FIRST_PDPT, 0);
    BootBits(0);
    if p == FIRST_PDT {
      assert Leads(BootTables(), FIRST_PDPT, 0, p);
    }
  }

  lemma BootIsTree()
    ensures Tree(BootTables()) && Key(NULL) !in BootTables().mem
  {
    hide BootTables, EntryOk, HasParent;
    BootMembers(ROOT);
    forall p: bv64, i: bv64 | IsTable(BootTables(), p)
      ensures EntryOk(BootTables(), p, i)
    {
      BootOk(p, i);
    }
    forall p: bv64 | IsTable(BootTables(), p)
      ensures HasParent(BootTables(), p)
    {
      BootParent(p);
    }
  }

  lemma BootFrame(v: bv64)
    requires Low(v)
    ensures Pml4Index(v) == 0 && PdptIndex(v) == 0 && PdIndex(v) < 16 <==> v < 0x200_0000
    ensures v < 0x200_0000 ==> InFrame((PdIndex(v) * PAGE_2M) | 0x87, v) == v
  {
  }

  /** After boot exactly the first 32 MB are translated, each address to itself. */
  lemma BootWalk(v: bv64)
    requires Low(v)
    ensures Walk(BootTables().mem, v) == if v < 0x200_0000 then Some(v) else None
  {
    BootEntry(ROOT, Pml4Index(v));
    BootEntry(FIRST_PDPT, PdptIndex(v));
    BootEntry(FIRST_PDT, PdIndex(v));
    BootBits(PdIndex(v));
    BootFrame(v);
  }

  /** All tables of boot, and page 0, are at their own addresses. */
  lemma BootReachable(pool: seq<bv64>)
    requires forall k :: 0 <= k < |pool| ==> Low(pool[k]) && pool[k] < 0x200_0000
    ensures Reachable(State(BootTables(), pool))
  {
    hide BootTables, Walk, Low;
    forall p: bv64 | IsTable(BootTables(), p)
      ensures AtItself(BootTables().mem, p)
    {
      BootMembers(p);
      BootAddresses();
      BootWalk(p);
    }
    forall k | 0 <= k < |pool|
      ensures AtItself(BootTables().mem, pool[k])
    {
      BootWalk(pool[k]);
    }
    BootAddresses();
    BootWalk(NULL);
  }

  lemma BootAddresses()
    ensures Low(ROOT) && Low(FIRST_PDPT) && Low(FIRST_PDT) && Low(NULL)
    ensures ROOT < 0x200_0000 && FIRST_PDPT < 0x200_0000 && FIRST_PDT < 0x200_0000
  {
  }

  // ----- runs

  datatype Request = Request(a: bv64, n: nat)

  /** The code serves requests one after the other. */
  function Serve(s: State, requests: seq<Request>): Outcome
    decreases |requests|
  {
    if requests == [] then Done(s)
    else
      var o := Pages(s, requests[0].a, requests[0].n);
      if o.Fault? then Fault else Serve(o.s, requests[1..])
  }

  /** What the steps on tables make of them. */
  function Served(s: State, requests: seq<Request>): State
    decreases |requests|
  {
    if requests == [] then s else Served(MapRange(s, requests[0].a, requests[0].n), requests[1..])
  }

  function RunPlaces(requests: seq<Request>): set<Role>
    decreases |requests|
  {
    if requests == [] then {} else RangePlaces(requests[0].a, requests[0].n) + RunPlaces(requests[1..])
  }

  /** The address is in a page of one of the requests. */
  predicate CoveredBy(requests: seq<Request>, v: bv64)
    decreases |requests|
  {
    requests != [] && (Covered(requests[0].a, requests[0].n, v) || CoveredBy(requests[1..], v))
  }

  predicate Aligned(requests: seq<Request>) {
    forall k :: 0 <= k < |requests| ==> requests[k].a & OFFSET_2M == 0
  }

  predicate AllLow(requests: seq<Request>) {
    forall k :: 0 <= k < |requests| ==> LowRange(requests[k].a, requests[k].n)
  }

  lemma TailOk(requests: seq<Request>)
    requires requests != [] && Aligned(requests) && AllLow(requests)
    ensures Aligned(requests[1..]) && requests[0].a & OFFSET_2M == 0
    ensures AllLow(requests[1..]) && LowRange(requests[0].a, requests[0].n)
  {
  }

  /** With reachable pages for all the tables a run lacks, its pages translate to themselves and all else as before. */
  lemma {:induction false} ServeRuns(s: State, rest: seq<bv64>, requests: seq<Request>, v: bv64)
    requires Good(s) && Reachable(s) && Aligned(requests) && AllLow(requests) && Low(v)
    requires Enough(s, RunPlaces(requests))
    ensures var r := Served(s, requests);
      && Serve(With(s, rest), requests) == Done(With(r, rest)) && Good(r) && Reachable(r)
      && Walk(r.t.mem, v) == if CoveredBy(requests, v) then Some(v) else Walk(s.t.mem, v)
    decreases |requests|
  {
    hide Good, Reachable, Pages, MapRange, RangePlaces, Covered, Walk, Low, Enough;
    if requests != [] {
      var a, n, places := requests[0].a, requests[0].n, RunPlaces(requests[1..]);
      TailOk(requests);
      NotEnough(s, RangePlaces(a, n), places);
      RangeKeeps(s, a, n);
      EnoughSplit(s, MapRange(s, a, n), RangePlaces(a, n), places);
      RangeIsIdentity(s, rest, a, n);
      ServeRuns(MapRange(s, a, n), rest, requests[1..], v);
    }
  }

  lemma {:induction false} ServeStays(s: State, requests: seq<Request>)
    ensures var o := Serve(s, requests); o.Done? ==> s.t.mem.Keys <= o.s.t.mem.Keys
    decreases |requests|
  {
    hide Pages;
    if requests != [] {
      var o := Pages(s, requests[0].a, requests[0].n);
      PagesStay(s, requests[0].a, requests[0].n);
      if o.Done? {
        ServeStays(o.s, requests[1..]);
      }
    }
  }

  lemma {:induction false} ServeIff(s: State, rest: seq<bv64>, requests: seq<Request>)
    requires Good(s) && Reachable(s) && Aligned(requests) && AllLow(requests)
    ensures var o := Serve(With(s, [NULL] + rest), requests);
      o.Done? && Key(NULL) !in o.s.t.mem <==> Enough(s, RunPlaces(requests))
    decreases |requests|
  {
    hide MapRange, RangePlaces, Tree, PoolOk, Enough, Reachable, Pages;
    if requests != [] {
      var a, n, places := requests[0].a, requests[0].n, RunPlaces(requests[1..]);
      var s' := MapRange(s, a, n);
      TailOk(requests);
      RangeIff(s, rest, a, n);
      if Enough(s, RangePlaces(a, n)) {
        RangeKeeps(s, a, n);
        RangeRuns(s, [NULL] + rest, a, n);
        EnoughSplit(s, s', RangePlaces(a, n), places);
        ServeIff(s', rest, requests[1..]);
      } else {
        NotEnough(s, RangePlaces(a, n), places);
        var o := Pages(With(s, [NULL] + rest), a, n);
        if o.Done? {
          ServeStays(o.s, requests[1..]);
        }
      }
    } else {
      NothingLacks(s);
    }
  }

  lemma BootGood(pool: seq<bv64>)
    requires PoolOk(BootTables(), pool) && forall k :: 0 <= k < |pool| ==> Low(pool[k]) && pool[k] < 0x200_0000
    ensures Good(State(BootTables(), pool)) && Reachable(State(BootTables(), pool))
  {
    hide BootTables, Tree, PoolOk, Reachable;
    BootIsTree();
    BootReachable(pool);
  }

  /** Exactly the first 32 MB and the pages requested are translated, each address to itself. */
  ghost predicate MapsExactly(m: Memory, requests: seq<Request>) {
    forall v: bv64 :: Low(v) ==> Walk(m, v) == if v < 0x200_0000 || CoveredBy(requests, v) then Some(v) else None
  }

  lemma FromBoot(requests: seq<Request>, pool: seq<bv64>, rest: seq<bv64>)
    requires PoolOk(BootTables(), pool) && forall k :: 0 <= k < |pool| ==> Low(pool[k]) && pool[k] < 0x200_0000
    requires Aligned(requests) && AllLow(requests) && Enough(State(BootTables(), pool), RunPlaces(requests))
    ensures var s := State(BootTables(), pool); var r := Served(s, requests);
      Serve(With(s, rest), requests) == Done(With(r, rest)) && Tree(r.t) && MapsExactly(r.t.mem, requests)
  {
    hide Tree, PoolOk, Walk, BootTables, Serve, Served, CoveredBy, Enough, Reachable, Low;
    var s := State(BootTables(), pool);
    BootGood(pool);
    ZeroLow();
    ServeRuns(s, rest, requests, 0);
    forall v: bv64 | Low(v)
      ensures Walk(Served(s, requests).t.mem, v) == if v < 0x200_0000 || CoveredBy(requests, v) then Some(v) else None
    {
      BootWalk(v);
      ServeRuns(s, rest, requests, v);
    }
  }

  lemma ZeroLow()
    ensures Low(0)
  {
  }

  /**
   * From boot over any run of requests below 2^48, with get_free_page answering pages below 32 MB and then NULL, and
   * after that whatever it may. The run ends without a fault and without page 0 as a table if and only if there is a
   * page for every table that the boot tables lack. Then the tables are a tree, and exactly the first 32 MB and the
   * pages requested are translated, each address to itself.
   */
  lemma IdentityFromBoot(requests: seq<Request>, pool: seq<bv64>, rest: seq<bv64>)
    requires PoolOk(BootTables(), pool) && forall k :: 0 <= k < |pool| ==> Low(pool[k]) && pool[k] < 0x200_0000
    requires Aligned(requests) && AllLow(requests)
    ensures var s := State(BootTables(), pool); var o := Serve(With(s, [NULL] + rest), requests);
      && (o.Done? && Key(NULL) !in o.s.t.mem <==> Enough(s, RunPlaces(requests)))
      && (Enough(s, RunPlaces(requests)) ==> Tree(o.s.t) && MapsExactly(o.s.t.mem, requests))
  {
    hide Tree, PoolOk, Walk, BootTables, Serve, Served, Enough, Reachable, MapsExactly;
    var s := State(BootTables(), pool);
    BootGood(pool);
    ServeIff(s, rest, requests);
    if Enough(s, RunPlaces(requests)) {
      FromBoot(requests, pool, [NULL] + rest);
    }
  }

  // ----- inputs that fail

  /** A page that is not translated faults when it is to become a table. */
  lemma UnreachableFaults(s: State, p: bv64, a: bv64)
    requires AtItself(s.t.mem, ROOT) && Entry(s.t.mem, ROOT, Pml4Index(a)) == 0
    requires Next(s.pool) == p && Walk(s.t.mem, p) == None
    ensures OnePage(s, a).Fault?
  {
    hide Walk, Entry, Low;
  }

  /** After the page at 2^48 has been mapped, the tables are no longer where the code writes them. */
  lemma HighPageMovesTables()
    ensures var o := OnePage(State(BootTables(), []), 0x1_0000_0000_0000);
      o.Done? && Walk(o.s.t.mem, ROOT) == Some(0x1_0000_0009_0000)
  {
    hide Walk, BootTables, OnePage, MapPage, Tree;
    var s, a: bv64 := State(BootTables(), []), 0x1_0000_0000_0000;
    BootGood([]);
    BootPlaces(a);
    AllTaken(s, a);
    PageRuns(s, [], a);
    assert With(s, []) == s;
    MapPageWalk(s, a, ROOT);
    HighFrame();
  }

  lemma HighFrame()
    ensures var a: bv64 := 0x1_0000_0000_0000;
      a & OFFSET_2M == 0 && SamePage(a, ROOT) && InFrame(a, ROOT) == 0x1_0000_0009_0000
      && Pml4Index(a) == 0 && PdptIndex(a) == 0
  {
  }

  /** The first GB needs no new table. */
  lemma BootPlaces(a: bv64)
    requires Pml4Index(a) == 0 && PdptIndex(a) == 0
    ensures PagePlaces(a) - Places(BootTables()) == {}
  {
    hide BootLeaves;
    var role := BootTables().role;
    assert role[Key(FIRST_PDPT)] == Pdpt(0) && role[Key(FIRST_PDT)] == Pd(0, 0);
  }

  // ----- a page handed out twice

  /** The tables that the walks below one root entry read. */
  predicate Below(r: Role, i: bv64) {
    !r.Root? && r.i == i
  }

  lemma SafeWalk(t: Tables, m: Memory, v: bv64)
    requires Tree(t) && Entry(m, ROOT, Pml4Index(v)) == Entry(t.mem, ROOT, Pml4Index(v))
    requires forall q: bv64, x: bv64 :: IsTable(t, q) && Below(RoleOf(t, q), Pml4Index(v)) ==>
      Entry(m, q, x) == Entry(t.mem, q, x)
    ensures Walk(m, v) == Walk(t.mem, v)
  {
    hide Tree, Entry, Leaf;
    WalkOnlyThrough(t, v);
  }

  lemma NullTable(a: bv64)
    ensures PageAligned(NULL) && NULL | TABLE_FLAGS == 0xb && EntryAddr(0xb) == NULL && (a | LEAF_FLAGS) & LARGE != 0
    ensures Pml4Index(NULL) == 0 && Pml4Index(ROOT) == 0
  {
  }

  /** Page 0 as the upper table: it is hung below the root like any page. */
  lemma NullLinks(s: State, rest: seq<bv64>, a: bv64) returns (t1: Tables)
    requires Good(s) && TablesAt(s) && AtItself(s.t.mem, NULL) && Entry(s.t.mem, ROOT, Pml4Index(a)) == 0
    ensures OnePage(State(s.t, [NULL] + rest), a) == LowerHalf(State(t1, rest), NULL, a)
    ensures Tree(t1) && IsTable(t1, NULL) && RoleOf(t1, NULL) == Pdpt(Pml4Index(a))
    ensures Entry(t1.mem, NULL, PdptIndex(a)) == 0
    ensures forall v: bv64 :: Walk(t1.mem, v) == Walk(s.t.mem, v)
    ensures forall q: bv64 :: IsTable(s.t, q) ==> IsTable(t1, q) && RoleOf(t1, q) == RoleOf(s.t, q)
    ensures forall x: bv64 :: x != Pml4Index(a) ==> Entry(t1.mem, ROOT, x) == Entry(s.t.mem, ROOT, x)
  {
    hide Tree, Entry, Walk, Low, LowerHalf, Store;
    var i4 := Pml4Index(a);
    NullTable(a);
    RootOk(s.t);
    NotTable(s.t, NULL);
    t1 := AddTable(s.t, ROOT, i4, NULL);
    AddTableTree(s.t, ROOT, i4, NULL);
    AddTablePlaces(s.t, ROOT, i4, NULL);
    FreshWalk(s.t.mem, NULL, ROOT);
    forall v: bv64 ensures Walk(t1.mem, v) == Walk(s.t.mem, v) {
      AddTableWalk(s.t, ROOT, i4, NULL, v);
    }
    forall q: bv64, x: bv64
      ensures Entry(t1.mem, q, x) == if q == ROOT && x == i4 then 0xb else Entry(s.t.mem, q, x)
    {
      AddTableEntry(s.t, ROOT, i4, NULL, q, x);
    }
    NoEntry(s.t, NULL, PdptIndex(a));
    assert AtItself(s.t.mem, ROOT);
    assert ([NULL] + rest)[1..] == rest;
  }

  lemma NotTable(t: Tables, p: bv64)
    requires Key(p) !in t.mem
    ensures !IsTable(t, p)
  {
  }

  /** And then a table in use as the lower one, zeroed and written with the leaf. */
  lemma ReusedLower(t: Tables, rest: seq<bv64>, p: bv64, a: bv64) returns (m: Memory)
    requires Tree(t) && IsTable(t, NULL) && RoleOf(t, NULL) == Pdpt(Pml4Index(a))
    requires Entry(t.mem, NULL, PdptIndex(a)) == 0
    requires AtItself(t.mem, NULL) && AtItself(t.mem, p) && Pml4Index(p) == 0 && PageAligned(p) && p != NULL
    requires IsTable(t, p) && RoleOf(t, p).Pdpt? && RoleOf(t, p).i != 0 && Pml4Index(a) != 0
    ensures var o := LowerHalf(State(t, [p] + rest), NULL, a); o.Done? && o.s.t.mem == m
    ensures forall x: bv64 :: Entry(m, ROOT, x) == Entry(t.mem, ROOT, x)
    ensures forall x: bv64 :: Entry(m, p, x) == if x == PdIndex(a) then a | LEAF_FLAGS else 0
  {
    hide Tree, Entry, Walk, Low, Store, HasParent, EntryOk;
    NullTable(a);
    TableEntry(p);
    RootOk(t);
    var m2 := t.mem[Key(p) := map[]];
    var m3 := Store(m2, NULL, PdptIndex(a), TableWord(p));
    m := Store(m3, p, PdIndex(a), a | LEAF_FLAGS);
    forall q: bv64, x: bv64
      ensures Entry(m2, q, x) == if q == p then 0 else Entry(t.mem, q, x)
      ensures Entry(m3, q, x) == if q == NULL && x == PdptIndex(a) then p | TABLE_FLAGS else Entry(m2, q, x)
      ensures Entry(m, q, x) == if q == p && x == PdIndex(a) then a | LEAF_FLAGS else Entry(m3, q, x)
    {
      ZeroedEntry(t.mem, p, q, x);
      StoreEntry(m2, NULL, PdptIndex(a), TableWord(p), q, x);
      StoreEntry(m3, p, PdIndex(a), a | LEAF_FLAGS, q, x);
    }
    assert p != ROOT && ROOT != NULL;
    SafeWalk(t, m2, NULL);
    SafeWalk(t, m3, NULL);
    SafeWalk(t, m3, p);
    LowerHalfIs(State(t, [p] + rest), p, a, m2, m3);
  }

  // The code on a lower table that get_free_page has answered a second time.
  lemma LowerHalfIs(s: State, p: bv64, a: bv64, m2: Memory, m3: Memory)
    requires Walk(s.t.mem, NULL) == Some(NULL) && Entry(s.t.mem, NULL, PdptIndex(a)) == 0
    requires Next(s.pool) == p && Walk(s.t.mem, p) == Some(p)
    requires m2 == s.t.mem[Key(p) := map[]] && Walk(m2, NULL) == Some(NULL)
    requires m3 == Store(m2, NULL, PdptIndex(a), TableWord(p)) && Walk(m3, NULL) == Some(NULL)
    requires Entry(m3, NULL, PdptIndex(a)) == TableWord(p) && EntryAddr(TableWord(p)) == p && Walk(m3, p) == Some(p)
    ensures var o := LowerHalf(s, NULL, a); o.Done? && o.s.t.mem == Store(m3, p, PdIndex(a), a | LEAF_FLAGS)
  {
    hide Walk, Entry, Store, EntryAddr, PdptIndex, PdIndex, Roles, Link, TableWord;
    LinkTakes(s, NULL, PdptIndex(a), p, m2);
    var o := Link(s, NULL, PdptIndex(a));
    assert EntryAt(o.s.t.mem, NULL, PdptIndex(a)) == Some(TableWord(p));
    LeafGoes(o.s, p, a);
  }

  lemma LinkTakes(s: State, p: bv64, i: bv64, page: bv64, m: Memory)
    requires Walk(s.t.mem, p) == Some(p) && Entry(s.t.mem, p, i) == 0
    requires Next(s.pool) == page && Walk(s.t.mem, page) == Some(page)
    requires m == s.t.mem[Key(page) := map[]] && Walk(m, p) == Some(p)
    ensures var o := Link(s, p, i); o.Done? && o.s.t.mem == Store(m, p, i, TableWord(page))
  {
    hide Walk, Entry, Store, Roles, EntryAt, LinkZeroed, TableWord;
    ReadsClear(s.t.mem, p, i);
    ZeroedTakes(s, m, p, i);
  }

  lemma ReadsClear(m: Memory, p: bv64, i: bv64)
    requires Walk(m, p) == Some(p) && Entry(m, p, i) == 0
    ensures EntryAt(m, p, i) == Some(0)
  {
    hide Walk, Entry;
  }

  lemma ZeroedTakes(s: State, m: Memory, p: bv64, i: bv64)
    requires Walk(m, p) == Some(p)
    ensures var o := LinkZeroed(s, m, p, i); o.Done? && o.s.t.mem == Store(m, p, i, TableWord(Next(s.pool)))
  {
    hide Walk, Store, Roles, Next, TableWord;
  }

  lemma LeafGoes(s: State, p: bv64, a: bv64)
    requires Walk(s.t.mem, p) == Some(p)
    ensures var o := PutLeaf(s, p, a); o.Done? && o.s.t.mem == Store(s.t.mem, p, PdIndex(a), a | LEAF_FLAGS)
  {
    hide Walk, Store, PdIndex;
  }

  lemma ZeroedEntry(m: Memory, p: bv64, q: bv64, x: bv64)
    ensures Entry(m[Key(p) := map[]], q, x) == if q == p then 0 else Entry(m, q, x)
  {
  }

  /**
   * No page is left and both tables are missing. Page 0 becomes the upper one; if get_free_page then answers a table
   * in use, every translation through that table is lost.
   */
  lemma ReuseLoses(s: State, rest: seq<bv64>, p: bv64, a: bv64, v: bv64)
    requires Good(s) && TablesAt(s) && AtItself(s.t.mem, NULL) && PageAligned(p) && Pml4Index(p) == 0
    requires IsTable(s.t, p) && RoleOf(s.t, p) == Pdpt(Pml4Index(v)) && Pml4Index(v) != 0
    requires Entry(s.t.mem, ROOT, Pml4Index(a)) == 0 && Pml4Index(a) != 0
    ensures var o := OnePage(State(s.t, [NULL, p] + rest), a); o.Done? && Walk(o.s.t.mem, v) == None
  {
    hide Tree, Entry, Walk, Low, LowerHalf, OnePage, Store;
    var t1 := NullLinks(s, [p] + rest, a);
    assert [NULL] + ([p] + rest) == [NULL, p] + rest;
    assert AtItself(s.t.mem, p);
    assert p != NULL;
    var m := ReusedLower(t1, rest, p, a);
    LostThrough(s.t, m, p, a, v);
  }

  lemma LostThrough(t: Tables, m: Memory, p: bv64, a: bv64, v: bv64)
    requires Tree(t) && IsTable(t, p) && RoleOf(t, p) == Pdpt(Pml4Index(v)) && Entry(t.mem, ROOT, Pml4Index(a)) == 0
    requires forall x: bv64 :: x != Pml4Index(a) ==> Entry(m, ROOT, x) == Entry(t.mem, ROOT, x)
    requires forall x: bv64 :: Entry(m, p, x) == if x == PdIndex(a) then a | LEAF_FLAGS else 0
    ensures Walk(m, v) == None
  {
    hide Entry, Leaf, EntryOk;
    NullTable(a);
    assert HasParent(t, p);
  }

  // ----- the code

  class Mapper {
    var mem: Memory
    ghost var role: map<Key, Role>

    ghost function T(): Tables
      reads this
    {
      Tables(mem, role)
    }

    // prepare_4level_page_table
    constructor ()
      ensures T() == BootTables()
    {
      var leaves: Page := map[];
      var i: bv64 := 0;
      while i < 16
        invariant i <= 16 && leaves == BootLeaves(i)
        decreases 16 - i
      {
        leaves := leaves[Key(i) := (i * PAGE_2M) | 0x87];
        i := i + 1;
      }
      mem := map[Key(ROOT) := map[Key(0) := FIRST_PDPT | 7], Key(FIRST_PDPT) := map[Key(0) := FIRST_PDT | 7],
                 Key(FIRST_PDT) := leaves];
      role := BootTables().role;
    }

    // Lines 28-32 and 35-39; pool holds the answers of get_free_page.
    method LinkTable(p: bv64, i: bv64, pool: seq<bv64>) returns (fault: bool, left: seq<bv64>)
      modifies this
      ensures fault == Link(State(old(T()), pool), p, i).Fault?
      ensures !fault ==> Link(State(old(T()), pool), p, i) == Done(State(T(), left))
    {
      hide Walk, Entry, Store, Roles, TableWord;
      fault, left := true, pool;
      var q := Walk(mem, p);
      if q.None? {
        return;
      }
      if Entry(mem, q.value, i) == 0 {
        ghost var roles := Roles(T(), p, i, pool);
        var page := NULL;
        if pool != [] {
          page, left := pool[0], pool[1..];
        }
        var r := Walk(mem, page);
        if r.None? {
          return;
        }
        mem := mem[Key(r.value) := map[]];
        q := Walk(mem, p);
        if q.None? {
          return;
        }
        mem := Store(mem, q.value, i, TableWord(page));
        role := roles;
      }
      fault := false;
    }

    // Lines 34 and 40: the address in the entry that was just checked.
    method Follow(p: bv64, i: bv64) returns (fault: bool, table: bv64)
      ensures fault == EntryAt(mem, p, i).None?
      ensures !fault ==> table == EntryAddr(EntryAt(mem, p, i).value)
    {
      var q := Walk(mem, p);
      if q.None? {
        return true, NULL;
      }
      return false, EntryAddr(Entry(mem, q.value, i));
    }

    // Lines 25-41.
    method MapOne(addr: bv64, pool: seq<bv64>) returns (fault: bool, left: seq<bv64>)
      modifies this
      ensures fault == OnePage(State(old(T()), pool), addr).Fault?
      ensures !fault ==> OnePage(State(old(T()), pool), addr) == Done(State(T(), left))
    {
      hide Link, Walk;
      var table;
      fault, left := LinkTable(ROOT, Pml4Index(addr), pool);
      if fault {
        return;
      }
      fault, table := Follow(ROOT, Pml4Index(addr));
      if fault {
        return;
      }
      fault, left := MapLower(addr, table, left);
    }

    method MapLower(addr: bv64, pdpt: bv64, pool: seq<bv64>) returns (fault: bool, left: seq<bv64>)
      modifies this
      ensures fault == LowerHalf(State(old(T()), pool), pdpt, addr).Fault?
      ensures !fault ==> LowerHalf(State(old(T()), pool), pdpt, addr) == Done(State(T(), left))
    {
      hide Link, Walk;
      var table;
      fault, left := LinkTable(pdpt, PdptIndex(addr), pool);
      if fault {
        return;
      }
      fault, table := Follow(pdpt, PdptIndex(addr));
      if fault {
        return;
      }
      var q := Walk(mem, table);
      if q.None? {
        fault := true;
        return;
      }
      mem := Store(mem, q.value, PdIndex(addr), addr | LEAF_FLAGS);
    }

    /** _arch_ioremap_nocache, on any memory, whatever get_free_page answers; a count below zero maps nothing. */
    method IoremapNocache(alignAddr: bv64, count: int, pool: seq<bv64>)
      returns (fault: bool, vrt: bv64, left: seq<bv64>)
      modifies this
      ensures var o := Pages(State(old(T()), pool), alignAddr, if count < 0 then 0 else count);
        fault == o.Fault? && (!fault ==> o == Done(State(T(), left)) && vrt == alignAddr)
    {
      hide OnePage;
      ghost var n: nat := if count < 0 then 0 else count;
      fault, vrt, left := false, alignAddr, pool;
      var addr, i := alignAddr, 0;
      while i < count
        invariant 0 <= i <= n && vrt == alignAddr && !fault
        invariant Pages(State(old(T()), pool), alignAddr, n) == Pages(State(T(), left), addr, n - i)
      {
        fault, left := MapOne(addr, left);
        if fault {
          return;
        }
        addr := addr + PAGE_2M;
        i := i + 1;
      }
    }
  }
}
