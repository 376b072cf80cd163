/**
 * kmalloc and kfree_s of x64_kenerl/mm/malloc.c over memory: descriptors and free blocks are reached
 * by address, as in the source. Each call runs under the allocator's spin lock, so it is one step.
 */
module BucketAllocator {
  import opened Arith
  import opened Bitmap
  import opened PhysicalPages
  import opened Sequences
  import opened BucketModel
  import opened BucketSafety
  import opened BucketMemory
  import opened BucketTheorems

  lemma LowPage(idx: nat)
    requires idx < LOW_LIMIT
    ensures PageAddr(idx) == Base(idx) && PageIndex(Base(idx)) == idx && Base(idx) + PAGE_SIZE <= U32
  {
    PageRoundTrip(idx);
  }

  /** Storing the next link of the free list f. */
  lemma ThreadStep(link: map<nat, nat>, f: seq<nat>, i: nat)
    requires i < |f| && Distinct(f) && Threaded(link, f, i)
    ensures Threaded(link[f[i] := Nth(f, i + 1)], f, i + 1)
  {
    var link' := link[f[i] := Nth(f, i + 1)];
    forall j | 0 <= j < i + 1
      ensures BlockRep(link', f, j)
    {
      assert j < i ==> BlockRep(link, f, j) && f[j] != f[i];
    }
  }

  /** Position i of the free list of a new page. */
  lemma FreeAt(p: nat, k: nat, i: nat)
    requires k < CLASSES && i < PAGE_SIZE / Size(k)
    ensures InitialFree(p, k)[i] == Base(p) + i * Size(k)
    ensures Base(p) <= Base(p) + i * Size(k) < Base(p) + PAGE_SIZE
  {
    InitialFreeIsPage(p, k);
    assert InitialFree(p, k)[i] in Elements(InitialFree(p, k));
  }

  /** One more link of the new page's free list is stored. */
  lemma ThreadPageStep(before: map<nat, nat>, link: map<nat, nat>, p: nat, k: nat, i: nat, v: nat)
    requires k < CLASSES && i < PAGE_SIZE / Size(k) && OnlyPage(before, link, p)
    requires v == if i + 1 < PAGE_SIZE / Size(k) then Base(p) + (i + 1) * Size(k) else NULL
    requires Threaded(link, InitialFree(p, k), i)
    ensures OnlyPage(before, link[Base(p) + i * Size(k) := v], p)
    ensures Threaded(link[Base(p) + i * Size(k) := v], InitialFree(p, k), i + 1)
  {
    FreeAt(p, k, i);
    if i + 1 < PAGE_SIZE / Size(k) {
      FreeAt(p, k, i + 1);
    }
    InitialFreeIsPage(p, k);
    ThreadStep(link, InitialFree(p, k), i);
  }

  /** The first i links of the free list f are in place. */
  ghost predicate Threaded(link: map<nat, nat>, f: seq<nat>, i: nat) {
    i <= |f| && forall j :: 0 <= j < i ==> BlockRep(link, f, j)
  }

  ghost predicate Carved(desc: map<nat, Desc>, s: seq<nat>, i: nat) {
    i <= |s| && forall j :: 0 <= j < i ==> SlotRep(desc, s, j)
  }

  /** desc' is desc outside the slots s. */
  ghost predicate OnlySlots(desc: map<nat, Desc>, desc': map<nat, Desc>, s: seq<nat>) {
    forall d :: d in desc && d !in s ==> d in desc' && desc'[d] == desc[d]
  }

  lemma CarveOne(before: map<nat, Desc>, desc: map<nat, Desc>, s: seq<nat>, i: nat, v: Desc)
    requires i < |s| && Distinct(s) && Carved(desc, s, i) && OnlySlots(before, desc, s) && v.next == Nth(s, i + 1)
    ensures Carved(desc[s[i] := v], s, i + 1) && OnlySlots(before, desc[s[i] := v], s)
  {
    var desc' := desc[s[i] := v];
    forall j | 0 <= j < i + 1
      ensures SlotRep(desc', s, j)
    {
      assert j < i ==> SlotRep(desc, s, j) && s[j] != s[i];
    }
  }

  /** The descriptors that construct_free_bucket_chain carves from address a on. */
  function SlotsAt(a: nat): (s: seq<nat>)
    ensures |s| == PAGE_SIZE / DESC_SIZE && forall j :: 0 <= j < |s| ==> s[j] == a + j * DESC_SIZE
  {
    seq(PAGE_SIZE / DESC_SIZE, (j: nat) => a + j * DESC_SIZE)
  }

  lemma SlotsOfPage(p: nat)
    ensures SlotsAt(Base(p)) == Slots(p)
  {
  }

  lemma CarveStep(before: map<nat, Desc>, desc: map<nat, Desc>, a: nat, i: nat, v: Desc)
    requires i < PAGE_SIZE / DESC_SIZE && Carved(desc, SlotsAt(a), i) && OnlySlots(before, desc, SlotsAt(a))
    requires v.next == if i + 1 < PAGE_SIZE / DESC_SIZE then a + (i + 1) * DESC_SIZE else NULL
    ensures Carved(desc[a + i * DESC_SIZE := v], SlotsAt(a), i + 1)
    ensures OnlySlots(before, desc[a + i * DESC_SIZE := v], SlotsAt(a))
  {
    CarveOne(before, desc, SlotsAt(a), i, v);
  }

  // ----- page 0 carved into descriptors

  /** The next link of the descriptor in a slot of page 0, and its bytes in memory. */
  function NextOf(slot: nat): nat {
    if slot + 1 < PAGE_SIZE / DESC_SIZE then (slot + 1) * DESC_SIZE else NULL
  }

  /** The byte with value n. */
  function ByteOf(n: nat): (x: bv8)
    requires n < 256
    ensures x as nat == n
  {
    if n == 0 then 0 else Successor(ByteOf(n - 1)); ByteOf(n - 1) + 1
  }

  lemma Successor(x: bv8)
    ensures x != 255 ==> (x + 1) as nat == x as nat + 1
  {
  }

  function StoredByte(next: nat, k: nat): bv8
    requires next < PAGE_SIZE
  {
    if k == 0 then ByteOf(next % 256) else if k == 1 then ByteOf(next / 256) else 0
  }

  /** Byte b of the bitmap once the links of page 0 are stored: the link is the second word of a descriptor. */
  function CarvedByte(b: nat, x: bv8): bv8 {
    var a := BITMAP_AT + b;
    if a < PAGE_SIZE && 8 <= a % DESC_SIZE < 16 then StoredByte(NextOf(a / DESC_SIZE), a % DESC_SIZE - 8) else x
  }

  function CarvedBytes(bytes: seq<bv8>): (s: seq<bv8>)
    ensures |s| == |bytes| && forall b :: 0 <= b < |s| ==> s[b] == CarvedByte(b, bytes[b])
  {
    seq(|bytes|, b requires 0 <= b < |bytes| => CarvedByte(b, bytes[b]))
  }

  function ValueOf(x: bv8): nat {
    x as nat
  }

  /** The number in the eight bytes from b on, the lowest first. */
  function WordAt(bytes: seq<bv8>, b: nat): nat
    requires b + 8 <= |bytes|
  {
    ValueOf(bytes[b]) + 0x100 * ValueOf(bytes[b + 1]) + 0x1_0000 * ValueOf(bytes[b + 2]) +
    0x100_0000 * ValueOf(bytes[b + 3]) + 0x1_0000_0000 * ValueOf(bytes[b + 4]) +
    0x100_0000_0000 * ValueOf(bytes[b + 5]) + 0x1_0000_0000_0000 * ValueOf(bytes[b + 6]) +
    0x100_0000_0000_0000 * ValueOf(bytes[b + 7])
  }

  lemma StoredBytes(next: nat)
    requires next < PAGE_SIZE
    ensures ValueOf(StoredByte(next, 0)) + 0x100 * ValueOf(StoredByte(next, 1)) == next
    ensures forall k :: 2 <= k < 8 ==> ValueOf(StoredByte(next, k)) == 0
  {
    hide ByteOf;
  }

  lemma CarvedLink(bytes: seq<bv8>, slot: nat, k: nat)
    requires slot < PAGE_SIZE / DESC_SIZE && BITMAP_AT <= slot * DESC_SIZE && k < 8
    requires slot * DESC_SIZE + 16 - BITMAP_AT <= |bytes|
    ensures CarvedBytes(bytes)[slot * DESC_SIZE + 8 - BITMAP_AT + k] == StoredByte(NextOf(slot), k)
  {
    hide StoredByte;
    SlotParts(slot, k);
  }

  lemma SlotParts(slot: nat, k: nat)
    requires slot < PAGE_SIZE / DESC_SIZE && k < 8
    ensures (slot * DESC_SIZE + 8 + k) / DESC_SIZE == slot && (slot * DESC_SIZE + 8 + k) % DESC_SIZE == 8 + k
    ensures slot * DESC_SIZE + 8 + k < PAGE_SIZE
  {
  }

  /** Over the bitmap lie the links of the descriptors in page 0, each the address of the next one, 0 at the end. */
  lemma LinkStored(bytes: seq<bv8>, slot: nat)
    requires slot < PAGE_SIZE / DESC_SIZE && BITMAP_AT <= slot * DESC_SIZE
    requires slot * DESC_SIZE + 16 - BITMAP_AT <= |bytes|
    ensures WordAt(CarvedBytes(bytes), slot * DESC_SIZE + 8 - BITMAP_AT) ==
      if slot < PAGE_SIZE / DESC_SIZE - 1 then (slot + 1) * DESC_SIZE else 0
  {
    hide StoredByte, CarvedBytes, WordAt;
    var w, b := CarvedBytes(bytes), slot * DESC_SIZE + 8 - BITMAP_AT;
    forall k: nat | k < 8
      ensures w[b + k] == StoredByte(NextOf(slot), k)
    {
      CarvedLink(bytes, slot, k);
    }
    WordOf(w, b, NextOf(slot));
  }

  lemma WordOf(w: seq<bv8>, b: nat, next: nat)
    requires b + 8 <= |w| && next < PAGE_SIZE && forall k: nat :: k < 8 ==> w[b + k] == StoredByte(next, k)
    ensures WordAt(w, b) == next
  {
    hide StoredByte, ValueOf;
    StoredBytes(next);
    assert w[b + 0] == StoredByte(next, 0) && w[b + 1] == StoredByte(next, 1);
    assert w[b + 2] == StoredByte(next, 2) && w[b + 3] == StoredByte(next, 3) && w[b + 4] == StoredByte(next, 4);
    assert w[b + 5] == StoredByte(next, 5) && w[b + 6] == StoredByte(next, 6) && w[b + 7] == StoredByte(next, 7);
  }

  /** Every other byte of the bitmap stays. */
  lemma LinkOnly(bytes: seq<bv8>, b: nat)
    requires b < |bytes|
    requires BITMAP_AT + b >= PAGE_SIZE || (BITMAP_AT + b) % DESC_SIZE < 8 || (BITMAP_AT + b) % DESC_SIZE >= 16
    ensures CarvedBytes(bytes)[b] == bytes[b]
  {
  }

  /** The first page whose bit lies under a link. */
  const REUSED := 64

  lemma SameByte(x: bv8, y: bv8)
    ensures x as nat == y as nat ==> x == y
  {
  }

  lemma FirstCarved(x: bv8)
    ensures CarvedByte(8, x) == 0x20 && forall b :: 0 <= b < 8 ==> CarvedByte(b, x) == x
  {
    hide ByteOf;
    SameByte(ByteOf(0x20), 0x20);
  }

  lemma CarvedBits(bytes: seq<bv8>)
    ensures forall i :: 0 <= i < REUSED && i < 8 * |bytes| ==> Unpack(CarvedBytes(bytes))[i] == Unpack(bytes)[i]
    ensures REUSED < 8 * |bytes| ==> !Unpack(CarvedBytes(bytes))[REUSED]
  {
    var carved := CarvedBytes(bytes);
    forall i | 0 <= i < REUSED && i < 8 * |bytes|
      ensures Unpack(carved)[i] == Unpack(bytes)[i]
    {
      FirstCarved(bytes[i / 8]);
      UnpackAt(carved, i / 8, i % 8);
      UnpackAt(bytes, i / 8, i % 8);
    }
    if REUSED < 8 * |bytes| {
      FirstCarved(bytes[8]);
      UnpackAt(carved, 8, 0);
    }
  }

  /** With every page in use, carving page 0 makes page 64 look free, if the allocator has that many pages. */
  lemma CarvedFree(bytes: seq<bv8>, taken: set<nat>, taken': set<nat>, cap: nat)
    requires cap <= 8 * |bytes| && LowestFree(taken, 0, cap) == EOF
    requires forall i: nat :: i in taken <==> i < 8 * |bytes| && Unpack(bytes)[i]
    requires forall i: nat :: i in taken' <==> i < 8 * |bytes| && Unpack(CarvedBytes(bytes))[i]
    ensures LowestFree(taken', 0, cap) == if REUSED < cap then REUSED else EOF
  {
    hide Unpack, CarvedBytes;
    CarvedBits(bytes);
    var i := LowestFree(taken', 0, cap);
    assert forall j: nat :: j < cap ==> j in taken;
    assert forall j: nat :: j < REUSED && j < cap ==> j in taken';
    assert REUSED < cap ==> REUSED !in taken';
    assert REUSED < i ==> REUSED in taken';
  }

  /** What kmalloc leaves of page 0: carved into descriptors, the first popped and the rest on the spare chain. */
  ghost predicate PageZeroCarved(before: map<nat, Desc>, desc: map<nat, Desc>, spare: nat, k: nat)
    requires k < CLASSES
  {
    && 0 in desc && desc[0] == Desc(NULL, 0, 0, 0, Size(k))
    && SpareRep(desc, spare, SlotsAt(0)[1..]) && OnlySlots(before, desc, SlotsAt(0))
  }

  /** The call finds no page for descriptors. */
  predicate Unlucky(m: Model, len: nat, cap: nat)
    requires |m.chains| == CLASSES
  {
    Malloc(m, len, cap).1 == NoDescriptorPage
  }

  lemma NoneLeft(m: Model, cap: nat)
    requires LowestFree(m.pages.Keys, 0, cap) == EOF
    ensures REUSED < cap ==> REUSED in m.pages
  {
  }

  lemma ZeroInPlace(desc: map<nat, Desc>)
    requires Carved(desc, SlotsAt(0), |SlotsAt(0)|)
    ensures 0 in desc
  {
    assert SlotRep(desc, SlotsAt(0), 0);
  }

  lemma PopFromZero(before: map<nat, Desc>, desc: map<nat, Desc>, k: nat)
    requires k < CLASSES && Carved(desc, SlotsAt(0), |SlotsAt(0)|) && OnlySlots(before, desc, SlotsAt(0))
    ensures 0 in desc && PageZeroCarved(before, desc[0 := Desc(NULL, 0, 0, 0, Size(k))], desc[0].next, k)
  {
    var s, desc' := SlotsAt(0), desc[0 := Desc(NULL, 0, 0, 0, Size(k))];
    var t := s[1..];
    assert SlotRep(desc, s, 0) && s[0] == 0 && s[0] in s;
    forall i | 0 <= i < |t|
      ensures SlotRep(desc', t, i)
    {
      assert SlotRep(desc, s, i + 1) && t[i] == s[i + 1];
    }
  }

  lemma BlockCount(k: nat)
    requires k < CLASSES
    ensures PAGE_SIZE / Size(k) >= 1
  {
    InitialFreeIsPage(0, k);
  }

  lemma AddPages(m: Model, k: nat, page: nat)
    requires k < CLASSES && k < |m.chains| && m.spare != []
    ensures AddBucket(m, k, page).pages.Keys == m.pages.Keys + {page}
  {
  }

  lemma Overwrite(desc: map<nat, Desc>, d: nat, v: Desc, w: Desc)
    ensures desc[d := v][d := w] == desc[d := w]
  {
  }

  /** The model, the bitmap and memory agree. */
  ghost predicate Consistent(m: Model, cap: nat, taken: set<nat>, h: Image) {
    var agree := Inv(m, cap) && taken == m.pages.Keys && Rep(m, h);
    agree
  }

  lemma LoseConsistent(m: Model, cap: nat, taken: set<nat>, h: Image, v: Desc)
    requires Consistent(m, cap, taken, h) && m.spare != []
    ensures h.spare in h.desc
    ensures Consistent(LoseDesc(m), cap, taken, h.(spare := h.desc[h.spare].next, desc := h.desc[h.spare := v]))
  {
    LoseRep(m, cap, h, v);
    LoseKeeps(m, cap);
  }

  lemma AddConsistent(m: Model, cap: nat, taken: set<nat>, h: Image, k: nat, p: nat, link': map<nat, nat>, v: Desc)
    requires Consistent(m, cap, taken, h) && m.spare != [] && k < CLASSES && p == LowestFree(taken, 0, cap)
    requires OnlyPage(h.link, link', p) && FreeRep(link', InitialFree(p, k)) && Base(p) in link'
    requires v == Desc(Base(p), h.dir[k], link'[Base(p)], 1, Size(k))
    ensures h.spare in h.desc
    ensures Consistent(AddBucket(m, k, p), cap, taken + {p},
      Image(h.dir[k := h.spare], h.desc[h.spare].next, h.desc[h.spare := v], link'))
  {
    AddRep(m, cap, h, k, p, link');
    AddKeeps(m, cap, k, p);
    AddPages(m, k, p);
  }

  lemma AddDescConsistent(m: Model, cap: nat, taken: set<nat>, h: Image, p: nat,
                          desc': map<nat, Desc>, taken': set<nat>, spare': nat) returns (m': Model)
    requires Consistent(m, cap, taken, h) && m.spare == [] && p == LowestFree(taken, 0, cap)
    requires SpareRep(desc', Base(p), Slots(p)) && OnlySlots(h.desc, desc', Slots(p))
    requires taken' == taken + {p} && spare' == Base(p)
    ensures m' == AddDescPage(m, p)
    ensures Consistent(m', cap, taken', h.(spare := spare', desc := desc'))
  {
    AddDescRep(m, cap, h, p, desc');
    AddDescKeeps(m, cap, p);
    m' := AddDescPage(m, p);
  }

  /** Descriptor d with the first block of its free list popped. */
  function Popped(desc: map<nat, Desc>, link: map<nat, nat>, d: nat): map<nat, Desc>
    requires d in desc && desc[d].freeBlock in link
  {
    desc[d := desc[d].(freeBlock := link[desc[d].freeBlock], refCnt := desc[d].refCnt + 1)]
  }

  lemma TakeConsistent(m: Model, cap: nat, taken: set<nat>, h: Image, k: nat, i: nat)
    requires Consistent(m, cap, taken, h) && k < CLASSES && i < |m.chains[k]| && m.chains[k][i].free != []
    ensures var b := m.chains[k][i];
      && b.desc in h.desc && h.desc[b.desc].freeBlock == b.free[0] && b.free[0] in h.link
      && Consistent(TakeAt(m, k, i), cap, taken, h.(desc := Popped(h.desc, h.link, b.desc)))
  {
    TakeRep(m, cap, h, k, i);
    TakeKeeps(m, cap, k, i);
  }

  lemma PageNotNull(taken: set<nat>, cap: nat)
    requires cap <= LOW_LIMIT
    ensures var p := LowestFree(taken, 0, cap); p != EOF ==> PageAddr(p) != NULL
  {
  }

  /** The model after a new bucket has been filled, with the evidence that memory agrees with it. */
  ghost function GrownModel(m: Model, cap: nat, taken: set<nat>, h: Image, k: nat, p: nat,
                            link': map<nat, nat>, desc': map<nat, Desc>): (m': Model)
    requires Consistent(m, cap, taken, h) && m.spare != [] && k < CLASSES && p == LowestFree(taken, 0, cap)
    requires OnlyPage(h.link, link', p) && FreeRep(link', InitialFree(p, k)) && Base(p) in link'
    requires desc' ==
      h.desc[h.spare := Desc(Base(p), 0, 0, 0, Size(k))][h.spare := Desc(Base(p), h.dir[k], link'[Base(p)], 1, Size(k))]
    ensures (m', Block(Base(p))) == GrowChain(m, k, cap) && h.spare in h.desc
    ensures Consistent(m', cap, taken + {p}, Image(h.dir[k := h.spare], h.desc[h.spare].next, desc', link'))
  {
    var v := Desc(Base(p), h.dir[k], link'[Base(p)], 1, Size(k));
    AddConsistent(m, cap, taken, h, k, p, link', v);
    Overwrite(h.desc, h.spare, Desc(Base(p), 0, 0, 0, Size(k)), v);
    AddBucket(m, k, p)
  }

  lemma FirstFree(m: Model, cap: nat, taken: set<nat>, h: Image, k: nat, i: nat)
    requires Consistent(m, cap, taken, h) && k < CLASSES && i < |m.chains[k]| && m.chains[k][i].free != []
    ensures var b := m.chains[k][i]; b.desc in h.desc && h.desc[b.desc].freeBlock == b.free[0] && b.free[0] in h.link
  {
    BucketRead(m, h, k, i);
    assert BlockRep(h.link, m.chains[k][i].free, 0);
  }

  lemma TakenModel(m: Model, cap: nat, taken: set<nat>, h: Image, k: nat, i: nat, desc': map<nat, Desc>)
    returns (m': Model)
    requires Consistent(m, cap, taken, h) && k < CLASSES && i < |m.chains[k]| && m.chains[k][i].free != []
    requires m.chains[k][i].desc in h.desc && h.desc[m.chains[k][i].desc].freeBlock in h.link
    requires desc' == Popped(h.desc, h.link, m.chains[k][i].desc)
    ensures m' == TakeAt(m, k, i)
    ensures Consistent(m', cap, taken, h.(desc := desc'))
  {
    TakeConsistent(m, cap, taken, h, k, i);
    m' := TakeAt(m, k, i);
  }

  lemma GiveConsistent(m: Model, cap: nat, taken: set<nat>, h: Image, k: nat, i: nat, p: nat)
    requires Consistent(m, cap, taken, h) && k < CLASSES && i < |m.chains[k]|
    requires p in m.chains[k][i].live && m.chains[k][i].live != {p}
    ensures var b := m.chains[k][i];
      && b.desc in h.desc && h.desc[b.desc].refCnt > 1
      && var v := h.desc[b.desc].(freeBlock := p, refCnt := h.desc[b.desc].refCnt - 1);
         Consistent(WithChain(m, k, m.chains[k][i := GiveBlock(b, p)]), cap, taken,
           h.(desc := h.desc[b.desc := v], link := h.link[p := h.desc[b.desc].freeBlock]))
  {
    var b := m.chains[k][i];
    GiveRep(m, cap, h, k, i, p);
    GiveKeeps(m, cap, k, i, p);
    OneLeft(b.live, p);
  }

  lemma DropConsistent(m: Model, cap: nat, taken: set<nat>, h: Image, k: nat, i: nat, p: nat, v: Desc, w: nat)
    requires Consistent(m, cap, taken, h) && k < CLASSES && i < |m.chains[k]|
    requires m.chains[k][i].live == {p} && v.next == h.spare
    ensures var c := m.chains[k];
      && c[i].desc in h.desc && h.desc[c[i].desc] == Stored(c, i, k) && h.desc[c[i].desc].refCnt == 1
      && DistinctChain(c) && (i > 0 ==> c[i - 1].desc in h.desc)
      && Consistent(DropBucket(m, k, i), cap, taken - {c[i].page},
           Image(if i == 0 then h.dir[k := DescAt(c, 1)] else h.dir, c[i].desc,
                 Released(h.desc, c, i, v), h.link[p := w]))
  {
    BucketRead(m, h, k, i);
    DropRep(m, cap, h, k, i, p, v, w);
    DropKeeps(m, cap, k, i);
    assert DropBucket(m, k, i).pages.Keys == m.pages.Keys - {m.chains[k][i].page};
    assert DistinctChain(m.chains[k]);
  }

  /** The reference count reaches zero exactly when the block given back is the last one of its bucket. */
  lemma LastBlock(m: Model, cap: nat, taken: set<nat>, h: Image, k: nat, i: nat, p: nat)
    requires Consistent(m, cap, taken, h) && k < CLASSES && i < |m.chains[k]| && p in m.chains[k][i].live
    ensures var b := m.chains[k][i];
      && b.desc in h.desc && h.desc[b.desc].refCnt > 0
      && (h.desc[b.desc].refCnt == 1 <==> b.live == {p})
  {
    var b := m.chains[k][i];
    BucketRead(m, h, k, i);
    OneLeft(b.live, p);
  }

  lemma OneLeft(s: set<nat>, p: nat)
    requires p in s
    ensures |s| > 0 && (|s| == 1 <==> s == {p})
  {
    assert s == {p} + (s - {p});
    assert |s - {p}| == |s| - 1;
  }

  ghost predicate LinkAt(desc: map<nat, Desc>, c: seq<Bucket>, j: nat)
    requires j < |c|
  {
    c[j].desc != NULL && c[j].desc in desc && desc[c[j].desc].next == DescAt(c, j + 1)
  }

  /** The links of a chain, which kfree_s follows, are in place, and bucket i has its page. */
  ghost predicate ChainLinked(head: nat, desc: map<nat, Desc>, c: seq<Bucket>, i: nat) {
    var linked :=
      && i < |c| && head == c[0].desc && DistinctChain(c)
      && (forall j :: 0 <= j < |c| ==> LinkAt(desc, c, j))
      && c[i].desc in desc && desc[c[i].desc].page == Base(c[i].page);
    linked
  }

  lemma ChainLinks(m: Model, cap: nat, taken: set<nat>, h: Image, k: nat, i: nat)
    requires Consistent(m, cap, taken, h) && k < CLASSES && i < |m.chains[k]|
    ensures ChainLinked(h.dir[k], h.desc, m.chains[k], i) && m.chains[k][i].page < cap <= LOW_LIMIT
  {
    var c := m.chains[k];
    assert ChainRep(h.desc, h.dir[k], c, k) && DistinctChain(c) && BucketOk(m, k, c[i]);
    forall j | 0 <= j < |c|
      ensures LinkAt(h.desc, c, j)
    {
      ForeignDesc(m, cap, k, j);
      assert NodeRep(h.desc, c, k, j);
    }
    assert LinkAt(h.desc, c, i) && NodeRep(h.desc, c, k, i);
  }

  lemma FollowLink(head: nat, desc: map<nat, Desc>, c: seq<Bucket>, i: nat, j: nat)
    requires ChainLinked(head, desc, c, i) && j <= i
    ensures head == c[0].desc && (head == c[i].desc <==> i == 0)
    ensures c[j].desc in desc && c[i].desc in desc && desc[c[i].desc].next == DescAt(c, i + 1)
    ensures j < i ==> desc[c[j].desc].next == c[j + 1].desc && c[j + 1].desc != NULL && c[j + 1].desc in desc
    ensures j < i ==> (c[j + 1].desc == c[i].desc <==> j + 1 == i)
  {
    assert LinkAt(desc, c, j) && LinkAt(desc, c, i) && (j < i ==> LinkAt(desc, c, j + 1));
    assert j < i ==> DescAt(c, j + 1) == c[j + 1].desc;
  }

  lemma StillLinked(head: nat, desc: map<nat, Desc>, c: seq<Bucket>, i: nat, u: Desc)
    requires ChainLinked(head, desc, c, i) && u.next == desc[c[i].desc].next && u.page == desc[c[i].desc].page
    ensures ChainLinked(head, desc[c[i].desc := u], c, i)
  {
    var desc' := desc[c[i].desc := u];
    forall j | 0 <= j < |c|
      ensures LinkAt(desc', c, j)
    {
      assert LinkAt(desc, c, j);
    }
  }

  /** Descriptor v with block p pushed on its free list. */
  function Pushed(v: Desc, p: nat): Desc
    requires v.refCnt > 0
  {
    v.(freeBlock := p, refCnt := v.refCnt - 1)
  }

  /** Memory after kfree_s has stored block p in bucket i, and released the bucket when that was its last block. */
  ghost predicate Returned(c: seq<Bucket>, taken: set<nat>, h: Image, k: nat, i: nat, p: nat,
                           taken': set<nat>, h': Image)
  {
    var stored :=
      k < |h.dir| && i < |c| && c[i].desc in h.desc && h.desc[c[i].desc].refCnt > 0 &&
      var d := c[i].desc;
      h'.link == h.link[p := h.desc[d].freeBlock] &&
      (if h.desc[d].refCnt > 1 then
         taken' == taken && h'.dir == h.dir && h'.spare == h.spare && h'.desc == h.desc[d := Pushed(h.desc[d], p)]
       else Dropped(c, taken, h.(desc := h.desc[d := Pushed(h.desc[d], p)]), k, i, taken', h'));
    stored
  }

  ghost predicate Dropped(c: seq<Bucket>, taken: set<nat>, h: Image, k: nat, i: nat, taken': set<nat>, h': Image) {
    var dropped :=
      && k < |h.dir| && i < |c| && c[i].desc in h.desc && (i > 0 ==> c[i - 1].desc in h.desc)
      && taken' == taken - {c[i].page} && h'.dir == (if i == 0 then h.dir[k := DescAt(c, 1)] else h.dir)
      && h'.spare == c[i].desc && h'.desc == Released(h.desc, c, i, h.desc[c[i].desc].(next := h.spare));
    dropped
  }

  lemma ReturnedConsistent(m: Model, cap: nat, taken: set<nat>, h: Image, k: nat, i: nat, p: nat,
                           taken': set<nat>, h': Image)
    returns (m': Model)
    requires Consistent(m, cap, taken, h) && k < CLASSES && i < |m.chains[k]| && p in m.chains[k][i].live
    requires Returned(m.chains[k], taken, h, k, i, p, taken', h')
    ensures m' == PutBack(m, k, i, p)
    ensures Consistent(m', cap, taken', h')
  {
    LastBlock(m, cap, taken, h, k, i, p);
    var d := m.chains[k][i].desc;
    var u := Pushed(h.desc[d], p);
    if u.refCnt > 0 {
      GiveConsistent(m, cap, taken, h, k, i, p);
      m' := WithChain(m, k, m.chains[k][i := GiveBlock(m.chains[k][i], p)]);
    } else {
      Overwrite(h.desc, d, u, u.(next := h.spare));
      DropConsistent(m, cap, taken, h, k, i, p, u.(next := h.spare), h.desc[d].freeBlock);
      m' := DropBucket(m, k, i);
    }
  }

  /** The order in which kfree_s writes the released descriptor makes no difference. */
  lemma ReleaseOrder(desc: map<nat, Desc>, c: seq<Bucket>, i: nat, u: Desc, v: Desc)
    requires i < |c| && DistinctChain(c) && (i > 0 ==> c[i - 1].desc in desc)
    ensures Bypassed(desc[c[i].desc := u], c, i)[c[i].desc := v] == Released(desc, c, i, v)
    ensures c[i].desc in Bypassed(desc[c[i].desc := u], c, i) && Bypassed(desc[c[i].desc := u], c, i)[c[i].desc] == u
  {
  }

  lemma ChainCount(m: Model, cap: nat, taken: set<nat>, h: Image)
    requires Consistent(m, cap, taken, h)
    ensures |m.chains| == CLASSES && taken == m.pages.Keys && cap <= LOW_LIMIT && forall p :: p in m.pages ==> p < cap
  {
  }

  /** Pages of others are no part of what memory holds for the heap. */
  lemma ForeignConsistent(m: Model, cap: nat, taken: set<nat>, h: Image, op: Op, taken': set<nat>)
    requires Consistent(m, cap, taken, h) && (op.TakePage? || op.GivePage?)
    requires Legal(m, op, cap) && taken' == Step(m, op, cap).pages.Keys
    ensures Consistent(Step(m, op, cap), cap, taken', h)
  {
    hide Inv, ChainsRep, SpareRep, AllFreesRep;
    ForeignStep(m, op, cap);
  }

  class KernelHeap {
    const pages: PageAllocator
    var dir: seq<nat>            // g_bucket_dir[k].chain
    var spare: nat               // free_bucket_chain
    var desc: map<nat, Desc>     // the descriptors, by address
    var link: map<nat, nat>      // the first word of each block, by address
    ghost var m: Model

    ghost function Mem(): Image
      reads this
    {
      Image(dir, spare, desc, link)
    }

    ghost predicate Valid()
      reads this, pages.bitmap.bits
    {
      && pages.Valid() && pages.Capacity() <= 8 * pages.bitmap.length
      && Consistent(m, pages.Capacity(), pages.Taken(), Mem())
    }

    /** Boot: no chains; the pages already taken belong to others. */
    constructor (pages: PageAllocator)
      requires pages.Valid() && pages.Capacity() <= LOW_LIMIT && forall p :: p in pages.Taken() ==> p < pages.Capacity()
      ensures Valid() && this.pages == pages && m == Start(pages.Taken()).m
    {
      this.pages := pages;
      dir := [NULL, NULL, NULL, NULL, NULL, NULL, NULL, NULL, NULL];
      spare := NULL;
      desc := map[];
      link := map[];
      m := Start(pages.Taken()).m;
      new;
      StartOk(pages.Taken(), pages.Capacity());
      assert forall k :: 0 <= k < CLASSES ==> m.chains[k] == [] && dir[k] == NULL;
    }

    // Lines 59-63 and 129-133.
    method FindClass(len: nat) returns (k: nat)
      ensures k == ClassOf(len)
    {
      k := 0;
      while k < CLASSES
        invariant k <= CLASSES && ClassFrom(len, k) == ClassOf(len)
      {
        if Size(k) >= len {
          break;
        }
        k := k + 1;
      }
    }

    /** The address at position i of chain k is NULL exactly past its end. */
    lemma AtEnd(k: nat, i: nat)
      requires Valid() && k < CLASSES && i <= |m.chains[k]|
      ensures DescAt(m.chains[k], i) == NULL <==> i == |m.chains[k]|
      ensures i < |m.chains[k]| ==>
        m.chains[k][i].desc in desc && desc[m.chains[k][i].desc] == Stored(m.chains[k], i, k)
      ensures i < |m.chains[k]| ==> (Head(m.chains[k][i].free) == NULL <==> m.chains[k][i].free == [])
    {
      if i < |m.chains[k]| {
        ForeignDesc(m, pages.Capacity(), k, i);
        BucketRead(m, Mem(), k, i);
        if m.chains[k][i].free != [] {
          ForeignBlock(m, pages.Capacity(), k, i, m.chains[k][i].free[0]);
        }
      }
    }

    lemma DirHead(k: nat)
      requires Valid() && k < CLASSES
      ensures dir[k] == DescAt(m.chains[k], 0)
    {
      assert ChainRep(desc, dir[k], m.chains[k], k);
    }

    // Lines 70-74: the first bucket of the chain with a free block.
    method FindBucket(k: nat) returns (chain: nat, ghost i: nat)
      requires Valid() && k < CLASSES
      ensures i == FirstWithFree(m.chains[k], 0) && chain == DescAt(m.chains[k], i)
    {
      DirHead(k);
      chain, i := dir[k], 0;
      AtEnd(k, i);
      while chain != NULL
        invariant i <= |m.chains[k]| && chain == DescAt(m.chains[k], i)
        invariant chain == NULL <==> i == |m.chains[k]|
        invariant FirstWithFree(m.chains[k], 0) == FirstWithFree(m.chains[k], i)
        decreases |m.chains[k]| - i
      {
        AtEnd(k, i);
        if desc[chain].freeBlock != NULL {
          break;
        }
        chain := desc[chain].next;
        i := i + 1;
        AtEnd(k, i);
      }
    }

    // Lines 42-48, from whatever address get_free_page answered.
    method CarvePage(page: nat)
      modifies `desc
      ensures Carved(desc, SlotsAt(page), |SlotsAt(page)|) && OnlySlots(old(desc), desc, SlotsAt(page))
    {
      var maxIndex := PAGE_SIZE / DESC_SIZE;
      var i := 0;
      while i < maxIndex - 1
        invariant 0 <= i <= maxIndex - 1
        invariant Carved(desc, SlotsAt(page), i) && OnlySlots(old(desc), desc, SlotsAt(page))
      {
        var rest: Desc := *;
        var v := rest.(next := page + (i + 1) * DESC_SIZE);
        CarveStep(old(desc), desc, page, i, v);
        desc := desc[page + i * DESC_SIZE := v];
        i := i + 1;
      }
      var rest: Desc := *;
      var v := rest.(next := NULL);
      CarveStep(old(desc), desc, page, i, v);
      desc := desc[page + i * DESC_SIZE := v];
    }

    // Lines 100-106: the free list of a new page, threaded through its blocks.
    method ThreadPage(page: nat, k: nat, ghost p: nat)
      requires page == Base(p) && k < CLASSES
      modifies `link
      ensures FreeRep(link, InitialFree(p, k)) && OnlyPage(old(link), link, p)
    {
      var blockNums := PAGE_SIZE / Size(k);
      BlockCount(k);
      var i := 0;
      while i < blockNums - 1
        invariant 0 <= i <= blockNums - 1
        invariant Threaded(link, InitialFree(p, k), i) && OnlyPage(old(link), link, p)
      {
        ThreadPageStep(old(link), link, p, k, i, page + (i + 1) * Size(k));
        link := link[page + i * Size(k) := page + (i + 1) * Size(k)];
        i := i + 1;
      }
      ThreadPageStep(old(link), link, p, k, i, NULL);
      link := link[page + i * Size(k) := NULL];
    }

    // Lines 113-115.
    method PopBlock(chain: nat) returns (retVal: nat)
      requires chain in desc && desc[chain].freeBlock in link
      modifies `desc
      ensures retVal == old(desc)[chain].freeBlock
      ensures desc == Popped(old(desc), link, chain)
    {
      retVal := desc[chain].freeBlock;
      desc := desc[chain := desc[chain].(freeBlock := link[retVal])];
      desc := desc[chain := desc[chain].(refCnt := desc[chain].refCnt + 1)];
    }

    // Lines 81-84.
    method PopDescriptor(k: nat) returns (chain: nat)
      requires k < CLASSES && spare in desc
      modifies `spare, `desc
      ensures chain == old(spare) && spare == old(desc)[chain].next
      ensures desc == old(desc)[chain := Desc(0, 0, 0, 0, Size(k))]
    {
      chain := spare;
      spare := desc[chain].next;
      desc := desc[chain := Desc(0, 0, 0, 0, 0)];
      desc := desc[chain := desc[chain].(blockSize := Size(k))];
    }

    // Lines 100-110.
    method LinkBucket(chain: nat, k: nat, page: nat, ghost p: nat)
      requires page == Base(p) && k < CLASSES == |dir| && chain in desc
      modifies `dir, `desc, `link
      ensures FreeRep(link, InitialFree(p, k)) && OnlyPage(old(link), link, p)
      ensures desc == old(desc)[chain := old(desc)[chain].(freeBlock := page, next := old(dir)[k])]
      ensures dir == old(dir)[k := chain]
    {
      ThreadPage(page, k, p);
      desc := desc[chain := desc[chain].(freeBlock := page)];
      desc := desc[chain := desc[chain].(next := dir[k])];
      dir := dir[k := chain];
    }

    // Lines 100-115 for a new bucket.
    method FillBucket(chain: nat, k: nat, page: nat, ghost p: nat) returns (retVal: nat)
      requires page == Base(p) && k < CLASSES == |dir| && chain in desc
      modifies `dir, `desc, `link
      ensures FreeRep(link, InitialFree(p, k)) && OnlyPage(old(link), link, p) && page in link
      ensures retVal == page && dir == old(dir)[k := chain]
      ensures var v := old(desc)[chain];
        desc == old(desc)[chain := Desc(v.page, old(dir)[k], link[page], v.refCnt + 1, v.blockSize)]
    {
      LinkBucket(chain, k, page, p);
      InitialFreeIsPage(p, k);
      assert BlockRep(link, InitialFree(p, k), 0);
      retVal := PopBlock(chain);
    }

    // Lines 81-86.
    method PrepareBucket(k: nat) returns (chain: nat, page: nat)
      requires pages.Valid() && k < CLASSES && spare in desc
      modifies `spare, `desc, pages.bitmap.bits
      ensures pages.Valid() && chain == old(spare) && spare == old(desc)[chain].next
      ensures desc == old(desc)[chain := Desc(page, 0, 0, 0, Size(k))]
      ensures var i := LowestFree(old(pages.Taken()), 0, pages.Capacity());
        if i == EOF then page == NULL && pages.bitmap.bits[..] == old(pages.bitmap.bits[..])
        else page == PageAddr(i) && pages.Taken() == old(pages.Taken()) + {i}
    {
      chain := PopDescriptor(k);
      page := pages.GetFreePage();
      desc := desc[chain := desc[chain].(page := page)];
    }

    // Lines 81-115 with a spare descriptor at hand.
    method GrowChain(k: nat) returns (r: MallocResult)
      requires Valid() && k < CLASSES && m.spare != []
      modifies this, pages.bitmap.bits
      ensures Valid()
      ensures (m, r) == BucketModel.GrowChain(old(m), k, pages.Capacity())
    {
      ghost var m0, h0, taken := m, Mem(), pages.Taken();
      LoseConsistent(m0, pages.Capacity(), taken, h0, Desc(NULL, 0, 0, 0, Size(k)));
      var chain, page := PrepareBucket(k);
      if page == NULL {
        PageNotNull(taken, pages.Capacity());
        m := LoseDesc(m0);
        return NoPage;
      }
      ghost var p := LowestFree(taken, 0, pages.Capacity());
      LowPage(p);
      var retVal := FillBucket(chain, k, page, p);
      assert pages.Taken() == taken + {p};
      m := GrownModel(m0, pages.Capacity(), taken, h0, k, p, link, desc);
      r := Block(retVal);
    }

    lemma SpareHead()
      requires Valid()
      ensures spare == NULL <==> m.spare == []
    {
      if m.spare != [] {
        SpareDesc(m, pages.Capacity(), m.spare[0]);
      }
    }

    // Line 78. Without a page the code carves page 0, and the heap is no longer what memory says.
    method RefillSpare() returns (ok: bool)
      requires Valid() && m.spare == []
      modifies this, pages.bitmap.bits
      ensures pages.Valid()
      ensures var p := LowestFree(old(m).pages.Keys, 0, pages.Capacity());
        && (p == EOF ==> !ok && m == old(m))
        && (p != EOF ==> ok && Valid() && m == AddDescPage(old(m), p))
      ensures !ok ==> pages.bitmap.bits[..] == old(pages.bitmap.bits[..])
      ensures !ok ==> dir == old(dir) && link == old(link) && spare == NULL
      ensures !ok ==> Carved(desc, SlotsAt(0), |SlotsAt(0)|) && OnlySlots(old(desc), desc, SlotsAt(0))
    {
      ghost var m0, h0, taken := m, Mem(), pages.Taken();
      ghost var p := LowestFree(taken, 0, pages.Capacity());
      assert taken == m0.pages.Keys;
      var page := pages.GetFreePage();
      PageNotNull(taken, pages.Capacity());
      CarvePage(page);
      spare := page;
      ok := page != NULL;
      if ok {
        LowPage(p);
        SlotsOfPage(p);
        assert pages.Taken() == taken + {p};
        m := AddDescConsistent(m0, pages.Capacity(), taken, h0, p, desc, pages.Taken(), spare);
      }
    }

    // The stores of lines 44-47 in page 0 as they fall on the bitmap.
    method CarveBitmap()
      requires pages.Valid()
      modifies pages.bitmap.bits
      ensures pages.Valid() && pages.bitmap.bits[..] == CarvedBytes(old(pages.bitmap.bits[..]))
    {
      var bits := pages.bitmap.bits;
      ghost var before := bits[..];
      for b := 0 to bits.Length
        invariant forall j :: 0 <= j < bits.Length ==> bits[j] == if j < b then CarvedByte(j, before[j]) else before[j]
      {
        bits[b] := CarvedByte(b, bits[b]);
      }
    }

    // Lines 81-115 on the descriptor at address 0, the head of a spare chain that has just been carved in page 0.
    method UseZero(k: nat, ghost before: map<nat, Desc>) returns (r: MallocResult)
      requires pages.Valid() && k < CLASSES == |dir| && spare == NULL && pages.Capacity() <= 8 * pages.bitmap.length
      requires LowestFree(pages.Taken(), 0, pages.Capacity()) == EOF
      requires Carved(desc, SlotsAt(0), |SlotsAt(0)|) && OnlySlots(before, desc, SlotsAt(0))
      modifies `dir, `spare, `desc, `link, pages.bitmap.bits
      ensures pages.Valid()
      ensures pages.Capacity() <= REUSED ==>
        && r == NoDescriptorPage && dir == old(dir) && link == old(link)
        && pages.bitmap.bits[..] == CarvedBytes(old(pages.bitmap.bits[..])) && PageZeroCarved(before, desc, spare, k)
      ensures REUSED < pages.Capacity() ==>
        && r == Block(Base(REUSED)) && dir == old(dir)[k := NULL]
        && FreeRep(link, InitialFree(REUSED, k)) && OnlyPage(old(link), link, REUSED)
    {
      hide CarvedBytes, SpareRep, Unpack, PageZeroCarved, Carved, OnlySlots;
      ghost var bytes, taken := pages.bitmap.bits[..], pages.Taken();
      ZeroInPlace(desc);
      PopFromZero(before, desc, k);
      CarveBitmap();
      CarvedFree(bytes, taken, pages.Taken(), pages.Capacity());
      ghost var carved := pages.bitmap.bits[..];
      var chain, page := PrepareBucket(k);
      if page == NULL {
        return NoDescriptorPage;
      }
      LowPage(REUSED);
      var retVal := FillBucket(chain, k, page, REUSED);
      r := Block(retVal);
    }

    // Lines 113-115 for a bucket already linked.
    method TakeFrom(chain: nat, k: nat, ghost i: nat) returns (p: nat)
      requires Valid() && k < CLASSES && i < |m.chains[k]| && m.chains[k][i].free != [] && chain == m.chains[k][i].desc
      modifies this
      ensures Valid() && p == old(m).chains[k][i].free[0]
      ensures m == TakeAt(old(m), k, i)
    {
      ghost var m0, h0 := m, Mem();
      FirstFree(m, pages.Capacity(), pages.Taken(), Mem(), k, i);
      p := PopBlock(chain);
      m := TakenModel(m0, pages.Capacity(), pages.Taken(), h0, k, i, desc);
    }

    /**
     * kmalloc: memory and bitmap change exactly as the model's Malloc says. The one exception is a call that finds
     * no page for descriptors, and carves page 0, where the bitmap is. With at most 64 pages it still answers NULL.
     * With more, page 64, which is in use, looks free: its first block is handed out again, a free list is threaded
     * through it, and the directory entry of the class becomes NULL.
     */
    method KMalloc(len: nat) returns (r: MallocResult)
      requires Valid()
      modifies this, pages.bitmap.bits
      ensures m == Malloc(old(m), len, pages.Capacity()).0
      ensures !Unlucky(old(m), len, pages.Capacity()) ==> Valid() && r == Malloc(old(m), len, pages.Capacity()).1
      ensures Unlucky(old(m), len, pages.Capacity()) && pages.Capacity() <= REUSED ==>
        && r == NoDescriptorPage && dir == old(dir) && link == old(link) && ClassOf(len) < CLASSES
        && pages.bitmap.bits[..] == CarvedBytes(old(pages.bitmap.bits[..]))
        && PageZeroCarved(old(desc), desc, spare, ClassOf(len))
      ensures Unlucky(old(m), len, pages.Capacity()) && REUSED < pages.Capacity() ==>
        && r == Block(Base(REUSED)) && REUSED in old(m).pages && ClassOf(len) < CLASSES
        && dir == old(dir)[ClassOf(len) := NULL]
        && FreeRep(link, InitialFree(REUSED, ClassOf(len))) && OnlyPage(old(link), link, REUSED)
    {
      var k := FindClass(len);
      if k == CLASSES {
        return TooLarge;
      }
      ghost var i;
      var chain;
      chain, i := FindBucket(k);
      AtEnd(k, i);
      if chain != NULL {
        var p := TakeFrom(chain, k, i);
        return Block(p);
      }
      SpareHead();
      if spare == NULL {
        var ok := RefillSpare();
        if !ok {
          NoneLeft(m, pages.Capacity());
          r := UseZero(k, old(desc));
          return;
        }
      }
      r := GrowChain(k);
    }

    /** Another client takes a page. */
    method TakePage() returns (p: nat)
      requires Valid()
      modifies this`m, pages.bitmap.bits
      ensures Valid() && m == Step(old(m), Op.TakePage, pages.Capacity())
      ensures var i := LowestFree(old(m).pages.Keys, 0, pages.Capacity()); p == if i == EOF then NULL else PageAddr(i)
    {
      hide Inv, Rep;
      ghost var m0, h0, taken := m, Mem(), pages.Taken();
      ChainCount(m0, pages.Capacity(), taken, h0);
      p := pages.GetFreePage();
      m := Step(m0, Op.TakePage, pages.Capacity());
      ForeignConsistent(m0, pages.Capacity(), taken, h0, Op.TakePage, pages.Taken());
    }

    /** Another client gives back a page of its own. */
    method GivePage(p: nat, ghost i: nat)
      requires Valid() && i in m.pages && m.pages[i] == Foreign && p == PageAddr(i)
      modifies this`m, pages.bitmap.bits
      ensures Valid() && m == Step(old(m), Op.GivePage(i), pages.Capacity())
    {
      hide Rep;
      ghost var m0, h0, taken := m, Mem(), pages.Taken();
      ChainCount(m0, pages.Capacity(), taken, h0);
      LowPage(i);
      pages.FreePage(p);
      m := Step(m0, Op.GivePage(i), pages.Capacity());
      ForeignConsistent(m0, pages.Capacity(), taken, h0, Op.GivePage(i), pages.Taken());
    }

    // Lines 141-146.
    method FindOwner(k: nat, base: nat) returns (chain: nat, ghost i: nat)
      requires Valid() && k < CLASSES
      ensures i == FindPage(m.chains[k], base, 0) && chain == DescAt(m.chains[k], i)
    {
      DirHead(k);
      chain, i := dir[k], 0;
      AtEnd(k, i);
      while chain != NULL
        invariant i <= |m.chains[k]| && chain == DescAt(m.chains[k], i)
        invariant chain == NULL <==> i == |m.chains[k]|
        invariant FindPage(m.chains[k], base, 0) == FindPage(m.chains[k], base, i)
        decreases |m.chains[k]| - i
      {
        AtEnd(k, i);
        if desc[chain].page == base {
          break;
        }
        chain := desc[chain].next;
        i := i + 1;
        AtEnd(k, i);
      }
    }

    // Lines 155-157.
    method PushBlock(chain: nat, ptr: nat)
      requires chain in desc && desc[chain].refCnt > 0
      modifies `desc, `link
      ensures link == old(link)[ptr := old(desc)[chain].freeBlock]
      ensures desc == old(desc)[chain := Pushed(old(desc)[chain], ptr)]
    {
      link := link[ptr := desc[chain].freeBlock];
      desc := desc[chain := desc[chain].(freeBlock := ptr)];
      desc := desc[chain := desc[chain].(refCnt := desc[chain].refCnt - 1)];
    }

    // Lines 164-173: the chain is walked from its head until the predecessor is found.
    method Unlink(k: nat, chain: nat, ghost c: seq<Bucket>, ghost i: nat)
      requires k < |dir| && ChainLinked(dir[k], desc, c, i) && chain == c[i].desc
      modifies `dir, `desc
      ensures i > 0 ==> c[i - 1].desc in old(desc)
      ensures desc == Bypassed(old(desc), c, i)
      ensures dir == if i == 0 then old(dir)[k := DescAt(c, 1)] else old(dir)
    {
      ghost var head, desc0 := dir[k], desc;
      FollowLink(head, desc0, c, i, 0);
      if dir[k] == chain {
        dir := dir[k := desc[chain].next];
      } else {
        var pos := dir[k];
        ghost var j := 0;
        while desc[pos].next != NULL
          invariant 0 <= j < i && pos == c[j].desc && pos in desc && desc == desc0 && dir == old(dir)
          invariant desc[pos].next == c[j + 1].desc && desc[pos].next != NULL
          decreases i - j
        {
          FollowLink(head, desc0, c, i, j);
          if desc[pos].next == chain {
            desc := SetNext(desc, pos, desc[chain].next);
            return;
          }
          pos := desc[pos].next;
          j := j + 1;
          FollowLink(head, desc0, c, i, j);
        }
      }
    }

    // Lines 160-178 once the last block of bucket i has been pushed back.
    method Release(k: nat, chain: nat, ghost c: seq<Bucket>, ghost i: nat)
      requires pages.Valid() && pages.Capacity() <= 8 * pages.bitmap.length && pages.Capacity() <= LOW_LIMIT
      requires k < |dir| && ChainLinked(dir[k], desc, c, i) && chain == c[i].desc
      requires c[i].page < pages.Capacity()
      modifies `dir, `desc, `spare, pages.bitmap.bits
      ensures pages.Valid()
      ensures Dropped(c, old(pages.Taken()), old(Mem()), k, i, pages.Taken(), Mem())
    {
      LowPage(c[i].page);
      pages.FreePage(desc[chain].page);
      ghost var desc0 := desc;
      Unlink(k, chain, c, i);
      ReleaseOrder(desc0, c, i, desc0[chain], desc0[chain].(next := spare));
      assert desc0[chain := desc0[chain]] == desc0;
      desc := SetNext(desc, chain, spare);
      spare := chain;
    }

    // Lines 155-178 in memory and bitmap.
    method StoreBlock(k: nat, chain: nat, ghost c: seq<Bucket>, ghost i: nat, ptr: nat)
      requires pages.Valid() && pages.Capacity() <= 8 * pages.bitmap.length && pages.Capacity() <= LOW_LIMIT
      requires k < |dir| && ChainLinked(dir[k], desc, c, i) && c[i].page < pages.Capacity()
      requires chain == c[i].desc && desc[chain].refCnt > 0
      modifies `dir, `desc, `spare, `link, pages.bitmap.bits
      ensures pages.Valid()
      ensures Returned(c, old(pages.Taken()), old(Mem()), k, i, ptr,
                       pages.Taken(), Mem())
    {
      StillLinked(dir[k], desc, c, i, Pushed(desc[chain], ptr));
      PushBlock(chain, ptr);
      if desc[chain].refCnt == 0 {
        Release(k, chain, c, i);
      }
    }

    method StoreIn(k: nat, chain: nat, ghost i: nat, ptr: nat)
      requires Valid() && k < CLASSES && i < |m.chains[k]| && chain == m.chains[k][i].desc && ptr in m.chains[k][i].live
      modifies `dir, `desc, `spare, `link, pages.bitmap.bits
      ensures pages.Valid()
      ensures Returned(old(m.chains[k]), old(pages.Taken()), old(Mem()), k, i, ptr,
                       pages.Taken(), Mem())
    {
      ghost var c := m.chains[k];
      LastBlock(m, pages.Capacity(), pages.Taken(), Mem(), k, i, ptr);
      ChainLinks(m, pages.Capacity(), pages.Taken(), Mem(), k, i);
      StoreBlock(k, chain, c, i, ptr);
    }

    // Lines 155-178.
    method GiveBack(k: nat, chain: nat, ghost i: nat, ptr: nat)
      requires Valid() && k < CLASSES && i < |m.chains[k]| && chain == m.chains[k][i].desc && ptr in m.chains[k][i].live
      modifies this, pages.bitmap.bits
      ensures Valid()
      ensures m == PutBack(old(m), k, i, ptr)
    {
      ghost var m0, h0, taken := m, Mem(), pages.Taken();
      StoreIn(k, chain, i, ptr);
      m := ReturnedConsistent(m0, pages.Capacity(), taken, h0, k, i, ptr, pages.Taken(), Mem());
    }

    lemma FreeIs(m: Model, cap: nat, ptr: nat, len: nat, i: nat)
      requires Inv(m, cap) && LegalFree(m, ptr, len) && ClassOf(len) < CLASSES
      requires i == FindPage(m.chains[ClassOf(len)], ptr - ptr % PAGE_SIZE, 0) < |m.chains[ClassOf(len)]|
      ensures ptr in m.chains[ClassOf(len)][i].live
      ensures Free(m, ptr, len) == (PutBack(m, ClassOf(len), i, ptr), Freed)
    {
      LivePage(m, cap, ClassOf(len), ptr);
    }

    /** kfree_s: memory and bitmap change exactly as the model's Free says. */
    method KFreeS(ptr: nat, len: nat) returns (r: FreeResult)
      requires Valid() && LegalFree(m, ptr, len)
      modifies this, pages.bitmap.bits
      ensures Valid()
      ensures (m, r) == Free(old(m), ptr, len)
    {
      var k := FindClass(len);
      if k == CLASSES {
        return NoClass;
      }
      ghost var i;
      var chain;
      chain, i := FindOwner(k, ptr - ptr % PAGE_SIZE);
      AtEnd(k, i);
      if chain == NULL {
        return NotFound;
      }
      FreeIs(m, pages.Capacity(), ptr, len, i);
      GiveBack(k, chain, i, ptr);
      r := Freed;
    }
  }
}
