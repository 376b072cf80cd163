/**
 * Who may do what with the pages that are translated: the flag bits that x64_kenerl/kernel/ioremap.c and
 * x86_kernel/init/main.c put into the entries, as 4-level paging reads them (section 4.6 of the Intel SDM, Volume 3A).
 */
module PageRights {
  import opened PageBits
  import opened PageTables
  import opened PageMapper
  import opened MapperCode
  import opened Ioremap

  predicate WriteBit(e: bv64) {
    e & 0x2 != 0
  }

  predicate UserBit(e: bv64) {
    e & 0x4 != 0
  }

  predicate ThroughBit(e: bv64) {
    e & 0x8 != 0
  }

  /** The entries that the walk of an address reads. */
  datatype Way = Way(e4: bv64, e3: bv64, e2: bv64)

  function WayOf(m: Memory, v: bv64): Way {
    var e4 := Entry(m, ROOT, Pml4Index(v));
    var e3 := Entry(m, EntryAddr(e4), PdptIndex(v));
    Way(e4, e3, Entry(m, EntryAddr(e3), PdIndex(v)))
  }

  /** A page can be written, or used by user code, only if every entry on the way allows it. */
  predicate CanWrite(m: Memory, v: bv64) {
    var w := WayOf(m, v);
    WriteBit(w.e4) && WriteBit(w.e3) && WriteBit(w.e2)
  }

  predicate UserCan(m: Memory, v: bv64) {
    var w := WayOf(m, v);
    UserBit(w.e4) && UserBit(w.e3) && UserBit(w.e2)
  }

  /** Writes to the page go through the cache to memory. */
  predicate WritesThrough(m: Memory, v: bv64) {
    ThroughBit(WayOf(m, v).e2)
  }

  lemma OnTheWay(m: Memory, v: bv64)
    requires Walk(m, v).Some?
    ensures var w := WayOf(m, v); w.e4 != 0 && w.e3 != 0 && w.e2 != 0
  {
  }

  // ----- one entry written

  /** A new table is hung where nothing was translated. */
  lemma AddTableWay(t: Tables, p: bv64, i: bv64, page: bv64, v: bv64)
    requires CanAdd(t, p, i, page) && Walk(t.mem, v).Some?
    ensures WayOf(AddTable(t, p, i, page).mem, v) == WayOf(t.mem, v)
  {
    hide AddTable, Entry, EntryOk, HasParent, Walk, PageAligned;
    OnTheWay(t.mem, v);
    var w := WayOf(t.mem, v);
    AddTableEntry(t, p, i, page, ROOT, Pml4Index(v));
    AddTableEntry(t, p, i, page, EntryAddr(w.e4), PdptIndex(v));
    AddTableEntry(t, p, i, page, EntryAddr(w.e3), PdIndex(v));
  }

  /** A leaf written is on the way of the addresses of its page only. */
  lemma SetLeafWay(t: Tables, p: bv64, a: bv64, v: bv64)
    requires Tree(t) && Directory(t, Pml4Index(a), PdptIndex(a), p) && a & OFFSET_2M == 0
    requires SamePage(a, v) || Walk(t.mem, v).Some?
    ensures WayOf(SetLeaf(t, p, a).mem, v) == WayOf(t.mem, v).(
      e2 := if SamePage(a, v) then a | LEAF_FLAGS else WayOf(t.mem, v).e2)
  {
    hide SetLeaf, EntryOk, HasParent, Entry, SamePage;
    assert HasParent(t, ROOT);
    var w := WayOf(t.mem, v);
    IndicesNamePage(a, v);
    WalkOnlyThrough(t, v);
    SetLeafEntry(t, p, a, ROOT, Pml4Index(v));
    SetLeafEntry(t, p, a, EntryAddr(w.e4), PdptIndex(v));
    SetLeafEntry(t, p, a, EntryAddr(w.e3), PdIndex(v));
    if SamePage(a, v) {
      WalkThrough(t, p, v);
    }
  }

  // ----- every table allows writing

  ghost predicate AllWritable(t: Tables) {
    forall p: bv64, i: bv64 :: IsTable(t, p) && Entry(t.mem, p, i) != 0 ==> WriteBit(Entry(t.mem, p, i))
  }

  lemma FlagBits(x: bv64)
    ensures WriteBit(x | TABLE_FLAGS) && WriteBit(x | LEAF_FLAGS) && ThroughBit(x | LEAF_FLAGS)
    ensures x & OFFSET_2M == 0 ==> !UserBit(x | LEAF_FLAGS)
  {
  }

  /** What is translated can be written. */
  lemma WritableWay(t: Tables, v: bv64)
    requires Tree(t) && AllWritable(t) && Walk(t.mem, v).Some?
    ensures CanWrite(t.mem, v)
  {
    hide EntryOk, HasParent, Entry, WriteBit;
    OnTheWay(t.mem, v);
    WalkOnlyThrough(t, v);
    PresentWay(t.mem, v);
  }

  lemma PresentWay(m: Memory, v: bv64)
    requires Walk(m, v).Some?
    ensures var w := WayOf(m, v); w.e4 & PRESENT != 0 && w.e3 & PRESENT != 0
  {
  }

  lemma AddTableWritable(t: Tables, p: bv64, i: bv64, page: bv64)
    requires CanAdd(t, p, i, page) && AllWritable(t)
    ensures AllWritable(AddTable(t, p, i, page))
  {
    hide AddTable, Entry, EntryOk, HasParent, PageAligned, WriteBit;
    var t' := AddTable(t, p, i, page);
    AddTablePlaces(t, p, i, page);
    FlagBits(page);
    forall q: bv64, j: bv64 | IsTable(t', q) && Entry(t'.mem, q, j) != 0
      ensures WriteBit(Entry(t'.mem, q, j))
    {
      AddTableEntry(t, p, i, page, q, j);
      if q == page && Entry(t.mem, q, j) != 0 {
        NoEntry(t, page, j);
      }
    }
  }

  lemma SetLeafWritable(t: Tables, p: bv64, a: bv64)
    requires Tree(t) && IsTable(t, p) && AllWritable(t)
    ensures AllWritable(SetLeaf(t, p, a))
  {
    hide SetLeaf, Entry, EntryOk, HasParent, WriteBit;
    var t' := SetLeaf(t, p, a);
    SetLeafTables(t, p, a);
    FlagBits(a);
    forall q: bv64, j: bv64 | IsTable(t', q) && Entry(t'.mem, q, j) != 0
      ensures WriteBit(Entry(t'.mem, q, j))
    {
      SetLeafEntry(t, p, a, q, j);
    }
  }

  // ----- one page

  /** Everything that was translated is on its old way still. */
  ghost predicate SameWays(m: Memory, m': Memory) {
    forall v: bv64 :: Walk(m, v).Some? ==> WayOf(m', v) == WayOf(m, v)
  }

  lemma EnsureWays(s: State, p: bv64, i: bv64)
    requires Good(s) && IsTable(s.t, p) && !RoleOf(s.t, p).Pd? && AllWritable(s.t)
    requires Enough(s, {ChildRole(RoleOf(s.t, p), i)})
    ensures SameWays(s.t.mem, Ensure(s, p, i).t.mem) && AllWritable(Ensure(s, p, i).t)
  {
    hide Tree, EntryOk, HasParent, Entry, PageAligned, Walk, WayOf, AllWritable;
    var place := ChildRole(RoleOf(s.t, p), i);
    PlaceIff(s.t, p, i);
    if Entry(s.t.mem, p, i) == 0 {
      assert {place} - Places(s.t) == {place};
      assert Spare(s.t, s.pool[0]);
      FreshTable(s, p, i);
      AddTableWritable(s.t, p, i, s.pool[0]);
      forall v: bv64 | Walk(s.t.mem, v).Some?
        ensures WayOf(Ensure(s, p, i).t.mem, v) == WayOf(s.t.mem, v)
      {
        AddTableWay(s.t, p, i, s.pool[0], v);
      }
    }
  }

  lemma SameWaysOn(m: Memory, m1: Memory, m2: Memory)
    requires SameWays(m, m1) && SameWays(m1, m2) && forall v: bv64 :: Walk(m1, v) == Walk(m, v)
    ensures SameWays(m, m2)
  {
    hide Walk, WayOf;
  }

  /** Both tables on the way, as BothTables has them. */
  lemma BothWays(s: State, a: bv64) returns (s2: State, pd: bv64)
    requires Good(s) && Enough(s, PagePlaces(a)) && AllWritable(s.t)
    ensures Good(s2) && Directory(s2.t, Pml4Index(a), PdptIndex(a), pd)
    ensures MapPage(s, a) == State(SetLeaf(s2.t, pd, a), s2.pool)
    ensures SameWays(s.t.mem, s2.t.mem) && AllWritable(s2.t)
    ensures forall v: bv64 :: Walk(s2.t.mem, v) == Walk(s.t.mem, v)
  {
    hide Tree, PoolOk, Ensure, Entry, EntryOk, HasParent, Walk, SetLeaf, SameWays, AllWritable;
    RootOk(s.t);
    var i4, i3 := Pml4Index(a), PdptIndex(a);
    LackSplit({Pdpt(i4)}, {Pd(i4, i3)}, Places(s.t));
    assert PagePlaces(a) == {Pdpt(i4)} + {Pd(i4, i3)};
    EnsureKeeps(s, ROOT, i4);
    EnsureWays(s, ROOT, i4);
    var s1 := Ensure(s, ROOT, i4);
    var pdpt := EntryAddr(Entry(s1.t.mem, ROOT, i4));
    EnsureKeeps(s1, pdpt, i3);
    EnsureWays(s1, pdpt, i3);
    s2 := Ensure(s1, pdpt, i3);
    pd := EntryAddr(Entry(s2.t.mem, pdpt, i3));
    forall v: bv64
      ensures Walk(s1.t.mem, v) == Walk(s.t.mem, v) == Walk(s2.t.mem, v)
    {
      EnsureWalk(s, ROOT, i4, v);
      EnsureWalk(s1, pdpt, i3, v);
    }
    SameWaysOn(s.t.mem, s1.t.mem, s2.t.mem);
  }

  /** A page mapped is for the kernel alone and written through; all other pages keep their rights. */
  lemma PageRightsKept(s: State, a: bv64, v: bv64)
    requires Good(s) && a & OFFSET_2M == 0 && Enough(s, PagePlaces(a)) && AllWritable(s.t)
    requires SamePage(a, v) || Walk(s.t.mem, v).Some?
    ensures var m, m' := s.t.mem, MapPage(s, a).t.mem;
      if SamePage(a, v) then !UserCan(m', v) && WritesThrough(m', v) else WayOf(m', v) == WayOf(m, v)
  {
    hide Tree, PoolOk, Walk, WayOf, SetLeaf, MapPage, SamePage, Enough, AllWritable, UserBit, ThroughBit, WriteBit;
    var s2, pd := BothWays(s, a);
    SetLeafWay(s2.t, pd, a, v);
    FlagBits(a);
  }

  lemma PageWritable(s: State, a: bv64)
    requires Good(s) && Enough(s, PagePlaces(a)) && AllWritable(s.t)
    ensures AllWritable(MapPage(s, a).t)
  {
    hide Tree, PoolOk, Walk, SetLeaf, MapPage, Enough, AllWritable, SameWays;
    var s2, pd := BothWays(s, a);
    SetLeafWritable(s2.t, pd, a);
  }

  // ----- a range, and a run

  /** For the kernel alone and written through where it counts as mapped, and as before elsewhere. */
  ghost predicate RightsAfter(m: Memory, m': Memory, v: bv64, mapped: bool) {
    if mapped then !UserCan(m', v) && WritesThrough(m', v)
    else UserCan(m', v) == UserCan(m, v) && WritesThrough(m', v) == WritesThrough(m, v)
  }

  lemma RightsOn(m: Memory, m1: Memory, m2: Memory, v: bv64, now: bool, later: bool)
    requires RightsAfter(m, m1, v, now) && RightsAfter(m1, m2, v, later)
    ensures RightsAfter(m, m2, v, now || later)
  {
    hide UserCan, WritesThrough;
  }

  lemma PageRightsAfter(s: State, a: bv64, v: bv64)
    requires Good(s) && a & OFFSET_2M == 0 && Enough(s, PagePlaces(a)) && AllWritable(s.t)
    requires SamePage(a, v) || Walk(s.t.mem, v).Some?
    ensures RightsAfter(s.t.mem, MapPage(s, a).t.mem, v, SamePage(a, v))
  {
    hide Good, Enough, AllWritable, Walk, MapPage, SamePage, WayOf;
    PageRightsKept(s, a, v);
  }

  lemma {:induction false} RangeRights(s: State, a: bv64, n: nat, v: bv64)
    requires Good(s) && a & OFFSET_2M == 0 && Enough(s, RangePlaces(a, n)) && AllWritable(s.t)
    ensures AllWritable(MapRange(s, a, n).t)
    ensures Covered(a, n, v) || Walk(s.t.mem, v).Some? ==>
      RightsAfter(s.t.mem, MapRange(s, a, n).t.mem, v, Covered(a, n, v))
    decreases n
  {
    hide MapPage, Good, PagePlaces, Enough, Walk, SamePage, AllWritable, UserCan, WritesThrough;
    if n > 0 {
      var s', rest := MapPage(s, a), RangePlaces(a + PAGE_2M, n - 1);
      NotEnough(s, PagePlaces(a), rest);
      PageKeeps(s, a);
      PageWritable(s, a);
      EnoughSplit(s, s', PagePlaces(a), rest);
      NextPageAligned(a);
      RangeRights(s', a + PAGE_2M, n - 1, v);
      MapPageWalk(s, a, v);
      if SamePage(a, v) || Walk(s.t.mem, v).Some? {
        PageRightsAfter(s, a, v);
        RightsOn(s.t.mem, s'.t.mem, MapRange(s, a, n).t.mem, v, SamePage(a, v), Covered(a + PAGE_2M, n - 1, v));
      }
    }
  }

  lemma {:induction false} ServedRights(s: State, requests: seq<Request>, v: bv64)
    requires Good(s) && Reachable(s) && Aligned(requests) && AllLow(requests) && Low(v)
    requires Enough(s, RunPlaces(requests)) && AllWritable(s.t)
    ensures AllWritable(Served(s, requests).t)
    ensures CoveredBy(requests, v) || Walk(s.t.mem, v).Some? ==>
      RightsAfter(s.t.mem, Served(s, requests).t.mem, v, CoveredBy(requests, v))
    decreases |requests|
  {
    hide Good, Reachable, MapRange, RangePlaces, Covered, Walk, Low, Enough, AllWritable, UserCan, WritesThrough;
    if requests != [] {
      var a, n, places := requests[0].a, requests[0].n, RunPlaces(requests[1..]);
      var s' := MapRange(s, a, n);
      TailOk(requests);
      NotEnough(s, RangePlaces(a, n), places);
      RangeKeeps(s, a, n);
      RangeRights(s, a, n, v);
      EnoughSplit(s, s', RangePlaces(a, n), places);
      RangeIsIdentity(s, [], a, n);
      ServedRights(s', requests[1..], v);
      if Covered(a, n, v) || Walk(s.t.mem, v).Some? {
        RightsOn(s.t.mem, s'.t.mem, Served(s, requests).t.mem, v, Covered(a, n, v), CoveredBy(requests[1..], v));
      }
    }
  }

  lemma BootRights(v: bv64)
    requires Low(v) && v < 0x200_0000
    ensures UserCan(BootTables().mem, v) && !WritesThrough(BootTables().mem, v)
  {
    hide BootLeaves;
    BootEntry(ROOT, Pml4Index(v));
    BootEntry(FIRST_PDPT, PdptIndex(v));
    BootEntry(FIRST_PDT, PdIndex(v));
    BootBits(PdIndex(v));
    BootFrame(v);
    BootFlags(PdIndex(v));
  }

  lemma BootFlags(i: bv64)
    ensures UserBit(FIRST_PDPT | 7) && UserBit(FIRST_PDT | 7) && WriteBit(FIRST_PDPT | 7) && WriteBit(FIRST_PDT | 7)
    ensures i < 16 ==>
      var e := (i * PAGE_2M) | 0x87; UserBit(e) && WriteBit(e) && !ThroughBit(e)
  {
  }

  lemma BootWritable()
    ensures AllWritable(BootTables())
  {
    hide BootTables, Entry, WriteBit;
    forall p: bv64, i: bv64 | IsTable(BootTables(), p) && Entry(BootTables().mem, p, i) != 0
      ensures WriteBit(Entry(BootTables().mem, p, i))
    {
      BootEntry(p, i);
      BootFlags(i);
    }
  }

  /**
   * What is translated can be written; the pages requested are for the kernel alone and written through, and the rest
   * of the first 32 MB can be used by user code and is cached.
   */
  ghost predicate RightsExactly(m: Memory, requests: seq<Request>) {
    forall v: bv64 :: Low(v) && Walk(m, v).Some? ==>
      CanWrite(m, v) && UserCan(m, v) == !CoveredBy(requests, v) && WritesThrough(m, v) == CoveredBy(requests, v)
  }

  /** From boot over any run of requests below 2^48 with a page for every table it lacks. */
  lemma RightsFromBoot(requests: seq<Request>, pool: seq<bv64>, rest: seq<bv64>)
    requires PoolOk(BootTables(), pool) && forall k :: 0 <= k < |pool| ==> Low(pool[k]) && pool[k] < 0x200_0000
    requires Aligned(requests) && AllLow(requests) && Enough(State(BootTables(), pool), RunPlaces(requests))
    ensures var o := Serve(With(State(BootTables(), pool), rest), requests);
      o.Done? && MapsExactly(o.s.t.mem, requests) && RightsExactly(o.s.t.mem, requests)
  {
    hide Tree, PoolOk, Walk, BootTables, Serve, Served, CoveredBy, Enough, Reachable, Low, AllWritable;
    hide CanWrite, UserCan, WritesThrough;
    var s := State(BootTables(), pool);
    var r := Served(s, requests);
    FromBoot(requests, pool, rest);
    BootGood(pool);
    BootWritable();
    forall v: bv64 | Low(v) && Walk(r.t.mem, v).Some?
      ensures CanWrite(r.t.mem, v)
      ensures UserCan(r.t.mem, v) == !CoveredBy(requests, v) && WritesThrough(r.t.mem, v) == CoveredBy(requests, v)
    {
      BootWalk(v);
      ServedRights(s, requests, v);
      WritableWay(r.t, v);
      if v < 0x200_0000 {
        BootRights(v);
      }
    }
  }
}
