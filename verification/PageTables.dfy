/**
 * The page tables that the mapper of x64_kenerl/kernel/ioremap.c edits, as a tree of 512-entry pages, and their walk.
 */
module PageTables {
  import opened PageBits

  const ROOT: bv64 := 0x9_0000
  const FIRST_PDPT: bv64 := 0x9_1000
  const FIRST_PDT: bv64 := 0x9_2000

  /** A word used as a key: a table address, or an index into a table. */
  datatype Key = Key(bits: bv64)

  /** A table page; an entry never written is zero. */
  type Page = map<Key, bv64>

  /** Where a table stands: the root, the table under root entry i, or the directory under entry j of that one. */
  datatype Role = Root | Pdpt(i: bv64) | Pd(i: bv64, j: bv64)

  /** Physical memory as far as it is read or written as tables, by page address. */
  type Memory = map<Key, Page>

  /** The memory, and for the tables in it where they stand. */
  datatype Tables = Tables(mem: Memory, role: map<Key, Role>)

  datatype Option<T> = None | Some(value: T)

  predicate IsTable(t: Tables, p: bv64) {
    Key(p) in t.mem && Key(p) in t.role
  }

  function RoleOf(t: Tables, p: bv64): Role
    requires IsTable(t, p)
  {
    t.role[Key(p)]
  }

  function Entry(m: Memory, p: bv64, i: bv64): bv64 {
    if Key(p) in m && Key(i) in m[Key(p)] then m[Key(p)][Key(i)] else 0
  }

  function PageAt(m: Memory, p: bv64): Page {
    if Key(p) in m then m[Key(p)] else map[]
  }

  /** Entry i of the page at p is stored. */
  function Store(m: Memory, p: bv64, i: bv64, e: bv64): Memory {
    m[Key(p) := PageAt(m, p)[Key(i) := e]]
  }

  lemma StoreEntry(m: Memory, p: bv64, i: bv64, e: bv64, q: bv64, j: bv64)
    ensures Entry(Store(m, p, i, e), q, j) == if q == p && j == i then e else Entry(m, q, j)
  {
  }

  /** 4-level paging on a 48-bit address, down to 2 MB pages (section 4.5 of the Intel SDM, Volume 3A). */
  function Walk(m: Memory, v: bv64): Option<bv64> {
    WalkFrom(m, Entry(m, ROOT, Pml4Index(v)), v)
  }

  function WalkFrom(m: Memory, e4: bv64, v: bv64): Option<bv64> {
    if e4 & PRESENT == 0 then None else WalkLow(m, Entry(m, EntryAddr(e4), PdptIndex(v)), v)
  }

  function WalkLow(m: Memory, e3: bv64, v: bv64): Option<bv64> {
    if e3 & PRESENT == 0 || e3 & LARGE != 0 then None else Leaf(Entry(m, EntryAddr(e3), PdIndex(v)), v)
  }

  function Leaf(e2: bv64, v: bv64): Option<bv64> {
    if e2 & PRESENT == 0 || e2 & LARGE == 0 then None else Some(InFrame(e2, v))
  }

  // ----- the tree

  function ChildRole(r: Role, i: bv64): Role
    requires !r.Pd?
  {
    if r.Root? then Pdpt(i) else Pd(r.i, i)
  }

  ghost predicate PointsTo(t: Tables, e: bv64, r: Role) {
    e & PRESENT != 0 && e & LARGE == 0 && IsTable(t, EntryAddr(e)) && RoleOf(t, EntryAddr(e)) == r
  }

  ghost predicate IsLeaf(e: bv64) {
    e & PRESENT != 0 && e & LARGE != 0
  }

  /** Entry i of table p is clear, or leads where the place of p says. */
  ghost predicate EntryOk(t: Tables, p: bv64, i: bv64)
    requires IsTable(t, p)
  {
    var e := Entry(t.mem, p, i);
    e == 0 || (if RoleOf(t, p).Pd? then IsLeaf(e) else PointsTo(t, e, ChildRole(RoleOf(t, p), i)))
  }

  /** Entry i of table q leads to p. */
  ghost predicate Leads(t: Tables, q: bv64, i: bv64, p: bv64) {
    Entry(t.mem, q, i) != 0 && EntryAddr(Entry(t.mem, q, i)) == p
  }

  ghost predicate HasParent(t: Tables, p: bv64)
    requires IsTable(t, p)
  {
    match RoleOf(t, p)
    case Root => p == ROOT
    case Pdpt(i) => Leads(t, ROOT, i, p)
    case Pd(i, j) => exists q: bv64 :: IsTable(t, q) && RoleOf(t, q) == Pdpt(i) && Leads(t, q, j, p)
  }

  /**
   * Every table has one place, every entry leads to the table of its place, and every table but the root has its parent
   * entry.
   */
  ghost predicate Tree(t: Tables) {
    && t.role.Keys == t.mem.Keys && IsTable(t, ROOT) && RoleOf(t, ROOT) == Root
    && (forall p: bv64, i: bv64 :: IsTable(t, p) ==> EntryOk(t, p, i))
    && (forall p: bv64 :: IsTable(t, p) ==> HasParent(t, p))
  }

  /** The places that have a table. */
  function Places(t: Tables): set<Role> {
    t.role.Values
  }

  /** Two tables never have the same place. */
  lemma OnePlace(t: Tables, p: bv64, q: bv64)
    requires Tree(t) && IsTable(t, p) && IsTable(t, q) && RoleOf(t, p) == RoleOf(t, q)
    ensures p == q
  {
    assert HasParent(t, p) && HasParent(t, q);
    if RoleOf(t, p).Pd? {
      var i, j := RoleOf(t, p).i, RoleOf(t, p).j;
      var a: bv64 :| IsTable(t, a) && RoleOf(t, a) == Pdpt(i) && Leads(t, a, j, p);
      var b: bv64 :| IsTable(t, b) && RoleOf(t, b) == Pdpt(i) && Leads(t, b, j, q);
      assert HasParent(t, a) && HasParent(t, b);
    }
  }

  /** No table page is shared: two entries that lead to the same table are the same entry. */
  lemma NoSharing(t: Tables, p: bv64, i: bv64, q: bv64, j: bv64)
    requires Tree(t) && IsTable(t, p) && IsTable(t, q) && !RoleOf(t, p).Pd? && !RoleOf(t, q).Pd?
    requires Entry(t.mem, p, i) != 0 && Entry(t.mem, q, j) != 0
    requires EntryAddr(Entry(t.mem, p, i)) == EntryAddr(Entry(t.mem, q, j))
    ensures p == q && i == j
  {
    assert EntryOk(t, p, i) && EntryOk(t, q, j);
    OnePlace(t, p, q);
  }

  /** An entry is set exactly when the place below it has a table. */
  lemma PlaceIff(t: Tables, p: bv64, i: bv64)
    requires Tree(t) && IsTable(t, p) && !RoleOf(t, p).Pd?
    ensures Entry(t.mem, p, i) != 0 <==> ChildRole(RoleOf(t, p), i) in Places(t)
  {
    var place := ChildRole(RoleOf(t, p), i);
    assert EntryOk(t, p, i) && HasParent(t, p);
    if Entry(t.mem, p, i) != 0 {
      assert t.role[Key(EntryAddr(Entry(t.mem, p, i)))] == place;
    }
    if place in Places(t) {
      var k :| k in t.role && t.role[k] == place;
      assert k == Key(k.bits) && IsTable(t, k.bits) && HasParent(t, k.bits);
      if place.Pd? {
        var q: bv64 :| IsTable(t, q) && RoleOf(t, q) == Pdpt(place.i) && Leads(t, q, place.j, k.bits);
        OnePlace(t, p, q);
      }
    }
  }

  // ----- the writes of the mapper

  /** The entry that leads to the table in a page. */
  function TableWord(page: bv64): bv64 {
    page | TABLE_FLAGS
  }

  /** A zeroed page becomes the table under entry i of table p. */
  function Linked(m: Memory, p: bv64, i: bv64, page: bv64): Memory {
    Store(m[Key(page) := map[]], p, i, TableWord(page))
  }

  function AddTable(t: Tables, p: bv64, i: bv64, page: bv64): Tables
    requires IsTable(t, p) && !RoleOf(t, p).Pd?
  {
    Tables(Linked(t.mem, p, i, page), t.role[Key(page) := ChildRole(RoleOf(t, p), i)])
  }

  /** Where a fresh table can go. */
  ghost predicate CanAdd(t: Tables, p: bv64, i: bv64, page: bv64) {
    Tree(t) && IsTable(t, p) && !RoleOf(t, p).Pd? && !IsTable(t, page) && PageAligned(page) && Entry(t.mem, p, i) == 0
  }

  lemma AddTableEntry(t: Tables, p: bv64, i: bv64, page: bv64, q: bv64, j: bv64)
    requires Tree(t) && IsTable(t, p) && !RoleOf(t, p).Pd? && !IsTable(t, page)
    ensures Entry(AddTable(t, p, i, page).mem, q, j) ==
      if q == p && j == i then page | TABLE_FLAGS else Entry(t.mem, q, j)
  {
    hide Store, EntryOk, HasParent;
    assert Key(page) !in t.mem && Key(p) != Key(page);
    StoreEntry(t.mem[Key(page) := map[]], p, i, TableWord(page), q, j);
  }

  lemma AddTablePlaces(t: Tables, p: bv64, i: bv64, page: bv64)
    requires CanAdd(t, p, i, page)
    ensures var t' := AddTable(t, p, i, page);
      && t'.role.Keys == t'.mem.Keys && t'.mem.Keys == t.mem.Keys + {Key(page)}
      && (forall q: bv64 :: IsTable(t', q) <==> IsTable(t, q) || q == page)
      && (forall q: bv64 :: IsTable(t, q) ==> RoleOf(t', q) == RoleOf(t, q))
      && RoleOf(t', page) == ChildRole(RoleOf(t, p), i)
      && Places(t') == Places(t) + {ChildRole(RoleOf(t, p), i)}
  {
    var t' := AddTable(t, p, i, page);
    assert Key(page) !in t.role && Key(p) != Key(page);
    assert forall k :: k in t.role ==> k in t'.role && t'.role[k] == t.role[k];
    assert t'.role[Key(page)] == ChildRole(RoleOf(t, p), i);
  }

  /** Hanging a zeroed page under a clear entry keeps the tree. */
  lemma AddTableTree(t: Tables, p: bv64, i: bv64, page: bv64)
    requires CanAdd(t, p, i, page)
    ensures Tree(AddTable(t, p, i, page))
  {
    hide EntryOk, HasParent, AddTable, PageAligned, Entry;
    var t' := AddTable(t, p, i, page);
    AddTablePlaces(t, p, i, page);
    forall q: bv64, j: bv64 | IsTable(t', q)
      ensures EntryOk(t', q, j)
    {
      AddTableOk(t, p, i, page, q, j);
    }
    forall q: bv64 | IsTable(t', q)
      ensures HasParent(t', q)
    {
      if q == page {
        NewTableParent(t, p, i, page);
      } else {
        AddTableParent(t, p, i, page, q);
      }
    }
  }

  lemma AddTableOk(t: Tables, p: bv64, i: bv64, page: bv64, q: bv64, j: bv64)
    requires CanAdd(t, p, i, page) && (q == page || IsTable(t, q))
    ensures var t' := AddTable(t, p, i, page); IsTable(t', q) && EntryOk(t', q, j)
  {
    hide HasParent, AddTable, PageAligned, Entry;
    TableEntry(page);
    AddTablePlaces(t, p, i, page);
    AddTableEntry(t, p, i, page, q, j);
    if q == page {
      NoEntry(t, page, j);
    } else {
      assert EntryOk(t, q, j);
    }
  }

  lemma NoEntry(t: Tables, q: bv64, j: bv64)
    requires Tree(t) && !IsTable(t, q)
    ensures Entry(t.mem, q, j) == 0
  {
  }

  lemma NewTableParent(t: Tables, p: bv64, i: bv64, page: bv64)
    requires CanAdd(t, p, i, page)
    ensures IsTable(AddTable(t, p, i, page), page) && HasParent(AddTable(t, p, i, page), page)
  {
    hide EntryOk, AddTable, PageAligned, Entry;
    var t' := AddTable(t, p, i, page);
    TableEntry(page);
    AddTablePlaces(t, p, i, page);
    AddTableEntry(t, p, i, page, p, i);
    assert HasParent(t, p);
    assert Leads(t', p, i, page) && RoleOf(t', p) == RoleOf(t, p);
  }

  lemma AddTableParent(t: Tables, p: bv64, i: bv64, page: bv64, q: bv64)
    requires CanAdd(t, p, i, page) && IsTable(t, q)
    ensures IsTable(AddTable(t, p, i, page), q) && HasParent(AddTable(t, p, i, page), q)
  {
    hide EntryOk, AddTable, PageAligned, Entry;
    var t' := AddTable(t, p, i, page);
    AddTablePlaces(t, p, i, page);
    assert HasParent(t, q);
    match RoleOf(t, q)
    case Root =>
    case Pdpt(k) => AddTableEntry(t, p, i, page, ROOT, k);
    case Pd(k, j) =>
      var a: bv64 :| IsTable(t, a) && RoleOf(t, a) == Pdpt(k) && Leads(t, a, j, q);
      AddTableEntry(t, p, i, page, a, j);
      assert RoleOf(t', a) == Pdpt(k) && Leads(t', a, j, q);
  }

  /** A fresh empty table changes no translation. */
  lemma AddTableWalk(t: Tables, p: bv64, i: bv64, page: bv64, v: bv64)
    requires CanAdd(t, p, i, page)
    ensures Walk(AddTable(t, p, i, page).mem, v) == Walk(t.mem, v)
  {
    hide AddTable, EntryOk, HasParent, PageAligned, Entry, WalkLow;
    var m := AddTable(t, p, i, page).mem;
    var i4, i3 := Pml4Index(v), PdptIndex(v);
    TableEntry(page);
    AddTableEntry(t, p, i, page, ROOT, i4);
    var e4 := Entry(t.mem, ROOT, i4);
    if p == ROOT && i == i4 {
      EmptyLow(t, p, i, page, i3, v);
    } else if e4 & PRESENT != 0 {
      AddTableEntry(t, p, i, page, EntryAddr(e4), i3);
      if p == EntryAddr(e4) && i == i3 {
        EmptyLeaf(t, p, i, page, v);
      } else {
        UnderRoot(t, i4);
        SameLeaf(t, p, i, page, EntryAddr(e4), v);
      }
    }
  }

  lemma UnderRoot(t: Tables, i: bv64)
    requires Tree(t) && Entry(t.mem, ROOT, i) & PRESENT != 0
    ensures var p := EntryAddr(Entry(t.mem, ROOT, i)); IsTable(t, p) && RoleOf(t, p) == Pdpt(i)
  {
    hide HasParent, Entry;
    assert EntryOk(t, ROOT, i);
  }

  // The new table under a root entry: nothing is present below.
  lemma EmptyLow(t: Tables, p: bv64, i: bv64, page: bv64, i3: bv64, v: bv64)
    requires CanAdd(t, p, i, page)
    ensures WalkLow(AddTable(t, p, i, page).mem, Entry(AddTable(t, p, i, page).mem, page, i3), v) == None
  {
    hide AddTable, EntryOk, HasParent, PageAligned, Entry;
    AddTableEntry(t, p, i, page, page, i3);
    NoEntry(t, page, i3);
  }

  // The new table is the directory that the walk reaches.
  lemma EmptyLeaf(t: Tables, p: bv64, i: bv64, page: bv64, v: bv64)
    requires CanAdd(t, p, i, page)
    ensures WalkLow(AddTable(t, p, i, page).mem, page | TABLE_FLAGS, v) == None == WalkLow(t.mem, 0, v)
  {
    hide AddTable, EntryOk, HasParent, PageAligned, Entry;
    TableEntry(page);
    AddTableEntry(t, p, i, page, page, PdIndex(v));
    NoEntry(t, page, PdIndex(v));
  }

  // The walk goes past the new table.
  lemma SameLeaf(t: Tables, p: bv64, i: bv64, page: bv64, q: bv64, v: bv64)
    requires CanAdd(t, p, i, page) && (IsTable(t, q) ==> RoleOf(t, q).Pdpt?)
    ensures WalkLow(AddTable(t, p, i, page).mem, Entry(t.mem, q, PdptIndex(v)), v) ==
      WalkLow(t.mem, Entry(t.mem, q, PdptIndex(v)), v)
  {
    hide AddTable, HasParent, PageAligned, Entry;
    var e3 := Entry(t.mem, q, PdptIndex(v));
    AddTableEntry(t, p, i, page, EntryAddr(e3), PdIndex(v));
    if IsTable(t, q) {
      assert EntryOk(t, q, PdptIndex(v));
    } else {
      NoEntry(t, q, PdptIndex(v));
    }
  }
}
