/**
 * The steps of _arch_ioremap_nocache of x64_kenerl/kernel/ioremap.c on tables that lie at their own addresses, and
 * what they do to translations.
 */
module PageMapper {
  import opened PageBits
  import opened PageTables

  /** What get_free_page answers when it has no page; the source uses it as an address. */
  const NULL: bv64 := 0

  // ----- the leaf entry

  function SetLeaf(t: Tables, p: bv64, a: bv64): Tables {
    t.(mem := Store(t.mem, p, PdIndex(a), a | LEAF_FLAGS))
  }

  lemma SetLeafEntry(t: Tables, p: bv64, a: bv64, q: bv64, j: bv64)
    ensures Entry(SetLeaf(t, p, a).mem, q, j) ==
      if q == p && j == PdIndex(a) then a | LEAF_FLAGS else Entry(t.mem, q, j)
  {
    StoreEntry(t.mem, p, PdIndex(a), a | LEAF_FLAGS, q, j);
  }

  lemma SetLeafTables(t: Tables, p: bv64, a: bv64)
    requires IsTable(t, p)
    ensures var t' := SetLeaf(t, p, a);
      && t'.mem.Keys == t.mem.Keys && Places(t') == Places(t)
      && forall q: bv64 :: (IsTable(t', q) <==> IsTable(t, q)) && (IsTable(t, q) ==> RoleOf(t', q) == RoleOf(t, q))
  {
  }

  lemma SetLeafTree(t: Tables, p: bv64, a: bv64)
    requires Tree(t) && IsTable(t, p) && RoleOf(t, p).Pd? && a & OFFSET_2M == 0
    ensures Tree(SetLeaf(t, p, a))
  {
    hide SetLeaf, EntryOk, HasParent, Entry;
    var t' := SetLeaf(t, p, a);
    SetLeafTables(t, p, a);
    SetLeafRoles(t, p, a);
    forall q: bv64, j: bv64 | IsTable(t', q)
      ensures EntryOk(t', q, j)
    {
      SetLeafOk(t, p, a, q, j);
    }
    forall q: bv64 | IsTable(t', q)
      ensures HasParent(t', q)
    {
      SetLeafParent(t, p, a, q);
    }
  }

  lemma SetLeafRoles(t: Tables, p: bv64, a: bv64)
    ensures SetLeaf(t, p, a).role == t.role
  {
  }

  lemma SetLeafOk(t: Tables, p: bv64, a: bv64, q: bv64, j: bv64)
    requires Tree(t) && IsTable(t, p) && RoleOf(t, p).Pd? && a & OFFSET_2M == 0 && IsTable(t, q)
    ensures IsTable(SetLeaf(t, p, a), q) && EntryOk(SetLeaf(t, p, a), q, j)
  {
    hide SetLeaf, HasParent, Entry;
    SetLeafTables(t, p, a);
    LeafEntry(a);
    SetLeafEntry(t, p, a, q, j);
    assert EntryOk(t, q, j);
  }

  lemma SetLeafParent(t: Tables, p: bv64, a: bv64, q: bv64)
    requires Tree(t) && IsTable(t, p) && RoleOf(t, p).Pd? && IsTable(t, q)
    ensures IsTable(SetLeaf(t, p, a), q) && HasParent(SetLeaf(t, p, a), q)
  {
    hide SetLeaf, EntryOk, Entry;
    var t' := SetLeaf(t, p, a);
    SetLeafTables(t, p, a);
    assert HasParent(t, p) && HasParent(t, q);
    match RoleOf(t, q)
    case Root =>
    case Pdpt(i) => SetLeafEntry(t, p, a, ROOT, i);
    case Pd(i, j) =>
      var b: bv64 :| IsTable(t, b) && RoleOf(t, b) == Pdpt(i) && Leads(t, b, j, q);
      SetLeafEntry(t, p, a, b, j);
      assert RoleOf(t', b) == Pdpt(i) && Leads(t', b, j, q);
  }

  /** The directory that translates the addresses with root index i and second index j. */
  ghost predicate Directory(t: Tables, i: bv64, j: bv64, p: bv64) {
    IsTable(t, p) && RoleOf(t, p) == Pd(i, j)
  }

  /** The walk of an address in the reach of a directory reads that directory. */
  lemma WalkThrough(t: Tables, p: bv64, v: bv64)
    requires Tree(t) && Directory(t, Pml4Index(v), PdptIndex(v), p)
    ensures var e4 := Entry(t.mem, ROOT, Pml4Index(v)); var e3 := Entry(t.mem, EntryAddr(e4), PdptIndex(v));
      e4 & PRESENT != 0 && e3 & PRESENT != 0 && e3 & LARGE == 0 && EntryAddr(e3) == p
  {
    assert HasParent(t, p);
    var b: bv64 :| IsTable(t, b) && RoleOf(t, b) == Pdpt(Pml4Index(v)) && Leads(t, b, PdptIndex(v), p);
    assert HasParent(t, b);
    assert EntryOk(t, ROOT, Pml4Index(v)) && EntryOk(t, b, PdptIndex(v));
  }

  /** Conversely a walk that reads a directory is of an address in its reach. */
  lemma WalkOnlyThrough(t: Tables, v: bv64)
    requires Tree(t)
    ensures var e4 := Entry(t.mem, ROOT, Pml4Index(v)); var e3 := Entry(t.mem, EntryAddr(e4), PdptIndex(v));
      && (e4 & PRESENT != 0 ==> IsTable(t, EntryAddr(e4)) && RoleOf(t, EntryAddr(e4)) == Pdpt(Pml4Index(v)))
      && (e4 & PRESENT != 0 && e3 & PRESENT != 0 ==> Directory(t, Pml4Index(v), PdptIndex(v), EntryAddr(e3)))
  {
    hide HasParent, Entry;
    var e4 := Entry(t.mem, ROOT, Pml4Index(v));
    if e4 & PRESENT != 0 {
      UnderRoot(t, Pml4Index(v));
      assert EntryOk(t, EntryAddr(e4), PdptIndex(v));
    }
  }

  /** Writing the leaf for the page of a sends that page to the frame of a, and changes no other translation. */
  lemma SetLeafWalk(t: Tables, p: bv64, a: bv64, v: bv64)
    requires Tree(t) && Directory(t, Pml4Index(a), PdptIndex(a), p) && a & OFFSET_2M == 0
    ensures Walk(SetLeaf(t, p, a).mem, v) == if SamePage(a, v) then Some(InFrame(a, v)) else Walk(t.mem, v)
  {
    hide SetLeaf, EntryOk, HasParent, Entry, SamePage, InFrame, Leaf;
    assert HasParent(t, ROOT);
    var e4 := Entry(t.mem, ROOT, Pml4Index(v));
    var e3 := Entry(t.mem, EntryAddr(e4), PdptIndex(v));
    IndicesNamePage(a, v);
    WalkOnlyThrough(t, v);
    SetLeafEntry(t, p, a, ROOT, Pml4Index(v));
    SetLeafEntry(t, p, a, EntryAddr(e4), PdptIndex(v));
    SetLeafEntry(t, p, a, EntryAddr(e3), PdIndex(v));
    LeafIs(a, v);
    if Pml4Index(a) == Pml4Index(v) && PdptIndex(a) == PdptIndex(v) {
      WalkThrough(t, p, v);
    }
  }

  lemma LeafIs(a: bv64, v: bv64)
    requires a & OFFSET_2M == 0
    ensures Leaf(a | LEAF_FLAGS, v) == Some(InFrame(a, v))
  {
    hide InFrame;
    LeafEntry(a);
    LeafInFrame(a, v);
  }

  // ----- the steps

  /** Tables, and the pages that get_free_page will hand out, in order. */
  datatype State = State(t: Tables, pool: seq<bv64>)

  /**
   * The tables are a tree, page 0 is not among them, and the pages to come are aligned, distinct and not tables yet.
   */
  ghost predicate Good(s: State) {
    Tree(s.t) && Key(NULL) !in s.t.mem && PoolOk(s.t, s.pool)
  }

  ghost predicate PoolOk(t: Tables, pool: seq<bv64>) {
    && (forall k :: 0 <= k < |pool| ==> Spare(t, pool[k]))
    && (forall k, l :: 0 <= k < l < |pool| ==> pool[k] != pool[l])
  }

  predicate Spare(t: Tables, p: bv64) {
    !IsTable(t, p) && PageAligned(p) && p != NULL
  }

  /** The next answer of get_free_page, and the answers after it; NULL once they are used up. */
  function Next(pool: seq<bv64>): bv64 {
    if pool == [] then NULL else pool[0]
  }

  function Rest(pool: seq<bv64>): seq<bv64> {
    if pool == [] then [] else pool[1..]
  }

  function Roles(t: Tables, p: bv64, i: bv64, pool: seq<bv64>): map<Key, Role> {
    if pool != [] && IsTable(t, p) && !RoleOf(t, p).Pd? then t.role[Key(pool[0]) := ChildRole(RoleOf(t, p), i)]
    else t.role
  }

  /** A clear entry gets the next page as a fresh table. */
  function Ensure(s: State, p: bv64, i: bv64): State {
    if Entry(s.t.mem, p, i) != 0 then s
    else
      State(Tables(Linked(s.t.mem, p, i, Next(s.pool)), Roles(s.t, p, i, s.pool)), Rest(s.pool))
  }

  /** One turn of the loop: both tables on the way, then the leaf. */
  function MapPage(s: State, a: bv64): State {
    var s1 := Ensure(s, ROOT, Pml4Index(a));
    var pdpt := EntryAddr(Entry(s1.t.mem, ROOT, Pml4Index(a)));
    var s2 := Ensure(s1, pdpt, PdptIndex(a));
    State(SetLeaf(s2.t, EntryAddr(Entry(s2.t.mem, pdpt, PdptIndex(a))), a), s2.pool)
  }

  function MapRange(s: State, a: bv64, n: nat): State
    decreases n
  {
    if n == 0 then s else MapRange(MapPage(s, a), a + PAGE_2M, n - 1)
  }

  // ----- how many pages it takes

  /** The places below the root that the walk of a passes. */
  function PagePlaces(a: bv64): set<Role> {
    {Pdpt(Pml4Index(a)), Pd(Pml4Index(a), PdptIndex(a))}
  }

  function RangePlaces(a: bv64, n: nat): set<Role>
    decreases n
  {
    if n == 0 then {} else PagePlaces(a) + RangePlaces(a + PAGE_2M, n - 1)
  }

  /** There is a free page for each of these places that has no table yet. */
  ghost predicate Enough(s: State, places: set<Role>) {
    |places - Places(s.t)| <= |s.pool|
  }

  /** Two pages for each 2 MB mapped are always enough. */
  lemma {:induction false} TwoPerPage(a: bv64, n: nat)
    ensures |RangePlaces(a, n)| <= 2 * n
    decreases n
  {
    if n > 0 {
      TwoPerPage(a + PAGE_2M, n - 1);
      UnionSize(PagePlaces(a), RangePlaces(a + PAGE_2M, n - 1));
    }
  }

  lemma UnionSize<T>(a: set<T>, b: set<T>)
    ensures |a + b| == |a| + |b - a| && |b - a| <= |b|
  {
    assert a + b == a + (b - a);
    assert b == (b - a) + (b * a);
  }

  lemma TwoPerPageSuffice(s: State, a: bv64, n: nat)
    requires |s.pool| >= 2 * n
    ensures Enough(s, RangePlaces(a, n))
  {
    TwoPerPage(a, n);
    UnionSize(Places(s.t), RangePlaces(a, n));
  }

  /** Places to be filled together: those of the first part, then what the second still lacks. */
  lemma LackSplit(a: set<Role>, b: set<Role>, have: set<Role>)
    ensures |(a + b) - have| == |a - have| + |b - (have + a)|
  {
    UnionSize(a - have, b - have);
    assert (a + b) - have == (a - have) + (b - have);
    assert (b - have) - (a - have) == b - (have + a);
  }

  /** Once the first places have their tables, what is enough for the rest is what was enough for all. */
  lemma EnoughSplit(s: State, s': State, a: set<Role>, b: set<Role>)
    requires Enough(s, a) && Places(s'.t) == Places(s.t) + a && |s'.pool| == |s.pool| - |a - Places(s.t)|
    ensures Enough(s, a + b) <==> Enough(s', b)
  {
    LackSplit(a, b, Places(s.t));
  }

  lemma NotEnough(s: State, a: set<Role>, b: set<Role>)
    ensures Enough(s, a + b) ==> Enough(s, a)
  {
    LackSplit(a, b, Places(s.t));
  }

  // ----- one table

  lemma EnsureKeeps(s: State, p: bv64, i: bv64)
    requires Good(s) && IsTable(s.t, p) && !RoleOf(s.t, p).Pd?
    requires Enough(s, {ChildRole(RoleOf(s.t, p), i)})
    ensures var s', place := Ensure(s, p, i), ChildRole(RoleOf(s.t, p), i);
      && Good(s') && IsTable(s'.t, p) && RoleOf(s'.t, p) == RoleOf(s.t, p)
      && PointsTo(s'.t, Entry(s'.t.mem, p, i), place)
      && Places(s'.t) == Places(s.t) + {place} && |s'.pool| == |s.pool| - |{place} - Places(s.t)|
  {
    hide Tree, EntryOk, HasParent, Entry, PageAligned;
    var place := ChildRole(RoleOf(s.t, p), i);
    PlaceIff(s.t, p, i);
    if Entry(s.t.mem, p, i) != 0 {
      EntryLeads(s.t, p, i);
      assert {place} - Places(s.t) == {} && Places(s.t) + {place} == Places(s.t);
    } else {
      assert {place} - Places(s.t) == {place};
      assert Spare(s.t, s.pool[0]);
      FreshTable(s, p, i);
    }
  }

  lemma EntryLeads(t: Tables, p: bv64, i: bv64)
    requires Tree(t) && IsTable(t, p) && !RoleOf(t, p).Pd? && Entry(t.mem, p, i) != 0
    ensures PointsTo(t, Entry(t.mem, p, i), ChildRole(RoleOf(t, p), i))
  {
    assert EntryOk(t, p, i);
  }

  lemma FreshTable(s: State, p: bv64, i: bv64)
    requires Good(s) && s.pool != [] && CanAdd(s.t, p, i, s.pool[0])
    ensures var s', place := Ensure(s, p, i), ChildRole(RoleOf(s.t, p), i);
      && s'.t == AddTable(s.t, p, i, s.pool[0]) && s'.pool == s.pool[1..]
      && Good(s') && IsTable(s'.t, p) && RoleOf(s'.t, p) == RoleOf(s.t, p)
      && PointsTo(s'.t, Entry(s'.t.mem, p, i), place) && Places(s'.t) == Places(s.t) + {place}
  {
    hide EntryOk, HasParent, Entry;
    var t', page := AddTable(s.t, p, i, s.pool[0]), s.pool[0];
    assert Spare(s.t, page);
    AddTablePlaces(s.t, p, i, page);
    AddTableTree(s.t, p, i, page);
    AddTableEntry(s.t, p, i, page, p, i);
    TableEntry(page);
    forall k | 0 <= k < |s.pool| - 1
      ensures Spare(t', s.pool[1..][k])
    {
      assert Spare(s.t, s.pool[k + 1]);
    }
  }

  lemma EnsureWalk(s: State, p: bv64, i: bv64, v: bv64)
    requires Good(s) && IsTable(s.t, p) && !RoleOf(s.t, p).Pd?
    requires Enough(s, {ChildRole(RoleOf(s.t, p), i)})
    ensures Walk(Ensure(s, p, i).t.mem, v) == Walk(s.t.mem, v)
  {
    hide Tree, EntryOk, HasParent, Entry, PageAligned, Walk;
    var place := ChildRole(RoleOf(s.t, p), i);
    PlaceIff(s.t, p, i);
    if Entry(s.t.mem, p, i) == 0 {
      assert {place} - Places(s.t) == {place};
      assert Spare(s.t, s.pool[0]);
      AddTableWalk(s.t, p, i, s.pool[0], v);
      FreshTable(s, p, i);
    }
  }

  // ----- one page

  lemma RootOk(t: Tables)
    requires Tree(t)
    ensures IsTable(t, ROOT) && RoleOf(t, ROOT) == Root
  {
  }

  /** With a page for each missing table, mapping keeps the tree and takes exactly those pages. */
  lemma PageKeeps(s: State, a: bv64)
    requires Good(s) && a & OFFSET_2M == 0 && Enough(s, PagePlaces(a))
    ensures var s' := MapPage(s, a);
      && Good(s') && Places(s'.t) == Places(s.t) + PagePlaces(a)
      && |s'.pool| == |s.pool| - |PagePlaces(a) - Places(s.t)|
  {
    hide Good, Tree, Ensure, Entry, EntryOk, HasParent, PointsTo;
    var s2, pd := BothTables(s, a);
    LeafKeeps(s2, pd, a);
  }

  lemma LeafKeeps(s: State, p: bv64, a: bv64)
    requires Good(s) && IsTable(s.t, p) && RoleOf(s.t, p).Pd? && a & OFFSET_2M == 0
    ensures var s' := State(SetLeaf(s.t, p, a), s.pool); Good(s') && Places(s'.t) == Places(s.t)
  {
    hide SetLeaf, Tree, PageAligned;
    SetLeafTree(s.t, p, a);
    SetLeafTables(s.t, p, a);
    forall k | 0 <= k < |s.pool|
      ensures Spare(SetLeaf(s.t, p, a), s.pool[k])
    {
      assert Spare(s.t, s.pool[k]);
    }
  }

  /** Both tables are there: the state and the directory in which the leaf is then written. */
  lemma BothTables(s: State, a: bv64) returns (s2: State, pd: bv64)
    requires Good(s) && Enough(s, PagePlaces(a))
    ensures Good(s2) && Directory(s2.t, Pml4Index(a), PdptIndex(a), pd)
    ensures MapPage(s, a) == State(SetLeaf(s2.t, pd, a), s2.pool)
    ensures Places(s2.t) == Places(s.t) + PagePlaces(a) && |s2.pool| == |s.pool| - |PagePlaces(a) - Places(s.t)|
    ensures forall v: bv64 :: Walk(s2.t.mem, v) == Walk(s.t.mem, v)
  {
    hide Tree, PoolOk, Ensure, Entry, EntryOk, HasParent, Walk, SetLeaf;
    RootOk(s.t);
    var i4, i3 := Pml4Index(a), PdptIndex(a);
    LackSplit({Pdpt(i4)}, {Pd(i4, i3)}, Places(s.t));
    assert PagePlaces(a) == {Pdpt(i4)} + {Pd(i4, i3)};
    EnsureKeeps(s, ROOT, i4);
    var s1 := Ensure(s, ROOT, i4);
    var pdpt := EntryAddr(Entry(s1.t.mem, ROOT, i4));
    EnsureKeeps(s1, pdpt, i3);
    s2 := Ensure(s1, pdpt, i3);
    pd := EntryAddr(Entry(s2.t.mem, pdpt, i3));
    forall v: bv64
      ensures Walk(s2.t.mem, v) == Walk(s.t.mem, v)
    {
      EnsureWalk(s, ROOT, i4, v);
      EnsureWalk(s1, pdpt, i3, v);
    }
  }

  /** The upper table of a page mapped where the root has none is the first page of the pool. */
  lemma FirstTable(s: State, a: bv64)
    requires Good(s) && Enough(s, PagePlaces(a)) && Entry(s.t.mem, ROOT, Pml4Index(a)) == 0
    ensures s.pool != [] && IsTable(MapPage(s, a).t, s.pool[0])
    ensures RoleOf(MapPage(s, a).t, s.pool[0]) == Pdpt(Pml4Index(a))
  {
    hide Tree, PoolOk, Entry, EntryOk, HasParent, SetLeaf, Ensure, MapPage;
    RootOk(s.t);
    var i4, i3 := Pml4Index(a), PdptIndex(a);
    LackSplit({Pdpt(i4)}, {Pd(i4, i3)}, Places(s.t));
    assert PagePlaces(a) == {Pdpt(i4)} + {Pd(i4, i3)};
    PlaceIff(s.t, ROOT, i4);
    OneLacks(Pdpt(i4), Places(s.t));
    EnsureKeeps(s, ROOT, i4);
    FirstEntry(s, i4);
    var s1 := Ensure(s, ROOT, i4);
    EnsureKeeps(s1, s.pool[0], i3);
    var s2 := Ensure(s1, s.pool[0], i3);
    var pd := EntryAddr(Entry(s2.t.mem, s.pool[0], i3));
    SetLeafTables(s2.t, pd, a);
    MapPageIs(s, a, s1, s.pool[0], s2, pd);
  }

  lemma FirstEntry(s: State, i: bv64)
    requires Good(s) && s.pool != [] && Entry(s.t.mem, ROOT, i) == 0
    ensures var s1 := Ensure(s, ROOT, i); EntryAddr(Entry(s1.t.mem, ROOT, i)) == s.pool[0]
  {
    hide Tree, Entry, EntryOk, HasParent, PageAligned;
    RootOk(s.t);
    assert Spare(s.t, s.pool[0]);
    FreshTable(s, ROOT, i);
    AddTableEntry(s.t, ROOT, i, s.pool[0], ROOT, i);
    TableEntry(s.pool[0]);
  }

  lemma MapPageIs(s: State, a: bv64, s1: State, pdpt: bv64, s2: State, pd: bv64)
    requires s1 == Ensure(s, ROOT, Pml4Index(a)) && pdpt == EntryAddr(Entry(s1.t.mem, ROOT, Pml4Index(a)))
    requires s2 == Ensure(s1, pdpt, PdptIndex(a)) && pd == EntryAddr(Entry(s2.t.mem, pdpt, PdptIndex(a)))
    ensures MapPage(s, a) == State(SetLeaf(s2.t, pd, a), s2.pool)
  {
  }

  /** Mapping a page sends exactly the addresses of that page to its frame. */
  lemma MapPageWalk(s: State, a: bv64, v: bv64)
    requires Good(s) && a & OFFSET_2M == 0 && Enough(s, PagePlaces(a))
    ensures Walk(MapPage(s, a).t.mem, v) == if SamePage(a, v) then Some(InFrame(a, v)) else Walk(s.t.mem, v)
  {
    hide Tree, PoolOk, Walk, SetLeaf, MapPage, InFrame, SamePage, Enough;
    var s2, pd := BothTables(s, a);
    SetLeafWalk(s2.t, pd, a, v);
  }

  lemma OneLacks(r: Role, have: set<Role>)
    ensures |{r} - have| == if r in have then 0 else 1
  {
    assert {r} - have == if r in have then {} else {r};
  }

  // ----- a range of pages

  /** A translation that new mappings replace where they have one. */
  function Over(now: Option<bv64>, was: Option<bv64>): Option<bv64> {
    if now.Some? then now else was
  }

  /** Where the pages a, a + 2 MB, ... (n of them) send an address; the last page to cover it counts. */
  function MapsTo(a: bv64, n: nat, v: bv64): Option<bv64>
    decreases n
  {
    if n == 0 then None
    else
      var later := MapsTo(a + PAGE_2M, n - 1, v);
      if later.Some? then later else if SamePage(a, v) then Some(InFrame(a, v)) else None
  }

  lemma OverStep(a: bv64, n: nat, v: bv64, w: Option<bv64>)
    ensures Over(MapsTo(a + PAGE_2M, n, v), Over(if SamePage(a, v) then Some(InFrame(a, v)) else None, w)) ==
      Over(MapsTo(a, n + 1, v), w)
  {
  }

  /** With a page for each missing table, a range is mapped whole: every page of it, and nothing else. */
  lemma {:induction false} RangeKeeps(s: State, a: bv64, n: nat)
    requires Good(s) && a & OFFSET_2M == 0 && Enough(s, RangePlaces(a, n))
    ensures var r := MapRange(s, a, n);
      && Good(r) && Places(r.t) == Places(s.t) + RangePlaces(a, n)
      && |r.pool| == |s.pool| - |RangePlaces(a, n) - Places(s.t)|
    decreases n
  {
    hide MapPage, Good, PagePlaces, Enough;
    if n > 0 {
      var s', rest := MapPage(s, a), RangePlaces(a + PAGE_2M, n - 1);
      NotEnough(s, PagePlaces(a), rest);
      PageKeeps(s, a);
      EnoughSplit(s, s', PagePlaces(a), rest);
      LackSplit(PagePlaces(a), rest, Places(s.t));
      NextPageAligned(a);
      RangeKeeps(s', a + PAGE_2M, n - 1);
    }
  }

  lemma {:induction false} MapRangeWalk(s: State, a: bv64, n: nat, v: bv64)
    requires Good(s) && a & OFFSET_2M == 0 && Enough(s, RangePlaces(a, n))
    ensures Walk(MapRange(s, a, n).t.mem, v) == Over(MapsTo(a, n, v), Walk(s.t.mem, v))
    decreases n
  {
    hide MapPage, Good, PagePlaces, Enough, Walk, InFrame, SamePage;
    if n > 0 {
      var s', rest := MapPage(s, a), RangePlaces(a + PAGE_2M, n - 1);
      NotEnough(s, PagePlaces(a), rest);
      PageKeeps(s, a);
      EnoughSplit(s, s', PagePlaces(a), rest);
      MapPageWalk(s, a, v);
      NextPageAligned(a);
      MapRangeWalk(s', a + PAGE_2M, n - 1, v);
      OverStep(a, n - 1, v, Walk(s.t.mem, v));
    }
  }

  lemma NothingLacks(s: State)
    ensures Enough(s, {})
  {
    assert {} - Places(s.t) == {};
  }

  // ----- identity

  predicate Low(v: bv64) {
    v & VIRTUAL == v
  }

  /** Every address that is translated is translated to itself. */
  ghost predicate Identity(m: Memory) {
    forall v: bv64 :: Low(v) && Walk(m, v).Some? ==> Walk(m, v).value == v
  }

  /** The pages of a range all have bits 48 to 51 clear. */
  predicate LowRange(a: bv64, n: nat)
    decreases n
  {
    n > 0 ==> a & ABOVE_VIRTUAL == 0 && LowRange(a + PAGE_2M, n - 1)
  }

  predicate Covered(a: bv64, n: nat, v: bv64)
    decreases n
  {
    n > 0 && (SamePage(a, v) || Covered(a + PAGE_2M, n - 1, v))
  }

  lemma {:induction false} MapsToSelf(a: bv64, n: nat, v: bv64)
    requires a & OFFSET_2M == 0 && LowRange(a, n) && Low(v)
    ensures MapsTo(a, n, v) == if Covered(a, n, v) then Some(v) else None
    decreases n
  {
    if n > 0 {
      NextPageAligned(a);
      MapsToSelf(a + PAGE_2M, n - 1, v);
      if SamePage(a, v) {
        IdentityIff(a, v);
      }
    }
  }

  /**
   * A range of pages below 2^48 translates to itself, all n pages of it, every other address as before; so the
   * identity is kept.
   */
  lemma RangeToItself(s: State, a: bv64, n: nat)
    requires Good(s) && a & OFFSET_2M == 0 && LowRange(a, n) && Enough(s, RangePlaces(a, n))
    ensures var r := MapRange(s, a, n);
      && (forall v: bv64 :: Low(v) ==> Walk(r.t.mem, v) == if Covered(a, n, v) then Some(v) else Walk(s.t.mem, v))
      && (Identity(s.t.mem) ==> Identity(r.t.mem))
  {
    hide Good, Enough, MapRange, Walk, Low;
    var r := MapRange(s, a, n);
    forall v: bv64 | Low(v)
      ensures Walk(r.t.mem, v) == if Covered(a, n, v) then Some(v) else Walk(s.t.mem, v)
    {
      MapRangeWalk(s, a, n, v);
      MapsToSelf(a, n, v);
    }
  }

  /** Mapping one page keeps the identity exactly when bits 48 to 51 of its address are clear. */
  lemma PageIdentityIff(s: State, a: bv64)
    requires Good(s) && a & OFFSET_2M == 0 && Enough(s, PagePlaces(a)) && Identity(s.t.mem)
    ensures Identity(MapPage(s, a).t.mem) <==> a & ABOVE_VIRTUAL == 0
  {
    hide Good, Enough, MapPage, Walk;
    var m := MapPage(s, a).t.mem;
    forall v: bv64
      ensures Walk(m, v) == if SamePage(a, v) then Some(InFrame(a, v)) else Walk(s.t.mem, v)
    {
      MapPageWalk(s, a, v);
    }
    forall v: bv64 | Low(v) && SamePage(a, v)
      ensures InFrame(a, v) == v <==> a & ABOVE_VIRTUAL == 0
    {
      IdentityIff(a, v);
    }
    InItsPage(a);
    assert Low(a & VIRTUAL) && SamePage(a, a & VIRTUAL) && Walk(m, a & VIRTUAL).Some?;
  }
}
