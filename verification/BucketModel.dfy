/**
 * The bucket allocator of x64_kenerl/mm/malloc.c over sequences and sets: what each call does, and what every call
 * keeps.
 */
module BucketModel {
  import opened Bitmap
  import opened PhysicalPages
  import opened Sequences

  const CLASSES := 9
  const DESC_SIZE := 32

  /** Page numbers below this have all their bytes below 4 GB, where the casts to 32 bits lose nothing. */
  const LOW_LIMIT := 0xF_FD00

  /** The block sizes of g_bucket_dir. */
  function Size(k: nat): (n: nat)
    requires k < CLASSES
    ensures 16 <= n <= PAGE_SIZE && PAGE_SIZE % n == 0
  {
    if k == 0 then 16 else if k == 1 then 32 else if k == 2 then 64
    else if k == 3 then 128 else if k == 4 then 256 else if k == 5 then 512
    else if k == 6 then 1024 else if k == 7 then 2048 else 4096
  }

  /** The first class from k on whose blocks hold len bytes; CLASSES when none does. */
  function ClassFrom(len: nat, k: nat): (c: nat)
    requires k <= CLASSES
    ensures k <= c <= CLASSES
    ensures c < CLASSES ==> len <= Size(c)
    ensures forall j :: k <= j < c ==> Size(j) < len
    decreases CLASSES - k
  {
    if k == CLASSES || Size(k) >= len then k else ClassFrom(len, k + 1)
  }

  function ClassOf(len: nat): (c: nat)
    ensures c <= CLASSES
  {
    ClassFrom(len, 0)
  }

  /** One linked bucket: descriptor address, page number, in-page free list, and the blocks handed out. */
  datatype Bucket = Bucket(desc: nat, page: nat, free: seq<nat>, live: set<nat>)

  datatype Home = Linked(k: nat) | Spare | Lost

  datatype PageUse = DescPage | BucketPage(k: nat) | Foreign

  /**
   * chains: the nine directory chains; spare: the spare descriptors; home: the place of every
   * descriptor ever carved; pages: the use of every page taken from the bitmap.
   */
  datatype Model = Model(chains: seq<seq<Bucket>>, spare: seq<nat>, home: map<nat, Home>, pages: map<nat, PageUse>)

  function Base(page: nat): nat {
    MANAGER_START + page * PAGE_SIZE
  }

  function PageOf(a: nat): int {
    (a - MANAGER_START) / PAGE_SIZE
  }

  predicate IsBlock(page: nat, k: nat, b: nat)
    requires k < CLASSES
  {
    Base(page) <= b < Base(page) + PAGE_SIZE && (b - Base(page)) % Size(k) == 0
  }

  function Blocks(page: nat, k: nat): set<nat>
    requires k < CLASSES
  {
    set b: nat | Base(page) <= b < Base(page) + PAGE_SIZE && IsBlock(page, k, b)
  }

  function BlockAddr(page: nat, k: nat, j: nat): nat
    requires k < CLASSES
  {
    Base(page) + j * Size(k)
  }

  /** The free list that kmalloc threads through a new page. */
  function InitialFree(page: nat, k: nat): (s: seq<nat>)
    requires k < CLASSES
    ensures |s| == PAGE_SIZE / Size(k)
  {
    seq(PAGE_SIZE / Size(k), (j: nat) => BlockAddr(page, k, j))
  }

  function Elements(s: seq<nat>): set<nat> {
    set x | x in s
  }

  predicate IsSlot(pages: map<nat, PageUse>, d: nat) {
    d >= MANAGER_START && PageOf(d) in pages && pages[PageOf(d)] == DescPage && d % DESC_SIZE == 0
  }

  /** Free list and live blocks split the page of a bucket that belongs to class k. */
  ghost predicate BucketShape(m: Model, k: nat, b: Bucket)
    requires k < CLASSES
  {
    && b.desc in m.home && m.home[b.desc] == Linked(k)
    && b.page in m.pages && m.pages[b.page] == BucketPage(k)
    && Distinct(b.free) && Elements(b.free) !! b.live
    && Elements(b.free) + b.live == Blocks(b.page, k)
  }

  ghost predicate BucketOk(m: Model, k: nat, b: Bucket)
    requires k < CLASSES
  {
    BucketShape(m, k, b) && b.live != {}
  }

  ghost predicate BucketsOk(m: Model) {
    && |m.chains| == CLASSES
    && forall k, i :: 0 <= k < CLASSES && 0 <= i < |m.chains[k]| ==> BucketOk(m, k, m.chains[k][i])
  }

  ghost predicate DistinctChain(c: seq<Bucket>) {
    forall i, j :: 0 <= i < j < |c| ==> c[i].desc != c[j].desc && c[i].page != c[j].page
  }

  ghost predicate ChainsDistinct(m: Model) {
    forall k :: 0 <= k < |m.chains| ==> DistinctChain(m.chains[k])
  }

  ghost predicate SpareOk(m: Model) {
    Distinct(m.spare) && forall d :: d in m.spare ==> d in m.home && m.home[d] == Spare
  }

  ghost predicate DescIn(c: seq<Bucket>, d: nat) {
    exists i :: 0 <= i < |c| && c[i].desc == d
  }

  ghost predicate PageIn(c: seq<Bucket>, p: nat) {
    exists i :: 0 <= i < |c| && c[i].page == p
  }

  ghost predicate HomesOk(m: Model) {
    && (forall d :: d in m.home <==> IsSlot(m.pages, d))
    && (forall d :: d in m.home && m.home[d] == Spare ==> d in m.spare)
    && (forall d :: d in m.home && m.home[d].Linked? ==>
          m.home[d].k < |m.chains| && DescIn(m.chains[m.home[d].k], d))
  }

  ghost predicate PagesOk(m: Model, cap: nat) {
    && (forall p :: p in m.pages ==> p < cap)
    && (forall p :: p in m.pages && m.pages[p].BucketPage? ==>
          m.pages[p].k < |m.chains| && PageIn(m.chains[m.pages[p].k], p))
  }

  /** What holds between any two calls. */
  ghost predicate Inv(m: Model, cap: nat) {
    var kept := cap <= LOW_LIMIT && BucketsOk(m) && ChainsDistinct(m) && SpareOk(m) && HomesOk(m) && PagesOk(m, cap);
    kept
  }

  /** Block p of class k is handed out. */
  ghost predicate Live(m: Model, k: nat, p: nat) {
    k < |m.chains| && LiveIn(m.chains[k], p)
  }

  ghost predicate LiveIn(c: seq<Bucket>, p: nat) {
    exists i :: 0 <= i < |c| && p in c[i].live
  }

  // ----- kmalloc

  datatype MallocResult =
    | Block(ptr: nat)
    | TooLarge            // no class holds len bytes: NULL
    | NoPage              // no page for a new bucket: NULL
    | NoDescriptorPage    // no page for descriptors: the source goes on with page 0

  /** The first bucket of a chain with a free block; the length of the chain when there is none. */
  function FirstWithFree(c: seq<Bucket>, i: nat): (r: nat)
    requires i <= |c|
    ensures i <= r <= |c| && (r < |c| ==> c[r].free != [])
    ensures forall j :: i <= j < r ==> c[j].free == []
    decreases |c| - i
  {
    if i == |c| || c[i].free != [] then i else FirstWithFree(c, i + 1)
  }

  function TakeBlock(b: Bucket): Bucket
    requires b.free != []
  {
    b.(free := b.free[1..], live := b.live + {b.free[0]})
  }

  function WithChain(m: Model, k: nat, c: seq<Bucket>): Model
    requires k < |m.chains|
  {
    m.(chains := m.chains[k := c])
  }

  /** The first free block of bucket i of chain k is taken. */
  function TakeAt(m: Model, k: nat, i: nat): Model
    requires k < |m.chains| && i < |m.chains[k]| && m.chains[k][i].free != []
  {
    WithChain(m, k, m.chains[k][i := TakeBlock(m.chains[k][i])])
  }

  /** The descriptors carved from a page, in address order. */
  function Slots(page: nat): (s: seq<nat>)
    ensures |s| == PAGE_SIZE / DESC_SIZE
  {
    seq(PAGE_SIZE / DESC_SIZE, (j: nat) => Base(page) + j * DESC_SIZE)
  }

  /** construct_free_bucket_chain on a page, when the spare chain is empty. */
  function AddDescPage(m: Model, page: nat): Model {
    m.(spare := Slots(page),
       home := map d | d in m.home.Keys + Elements(Slots(page)) :: if d in m.home then m.home[d] else Spare,
       pages := m.pages[page := DescPage])
  }

  /** A bucket on a fresh page at the head of chain k, with its first block already taken. */
  function AddBucket(m: Model, k: nat, page: nat): Model
    requires k < CLASSES && k < |m.chains| && m.spare != []
  {
    var d := m.spare[0];
    var b := Bucket(d, page, InitialFree(page, k), {});
    m.(chains := m.chains[k := [TakeBlock(b)] + m.chains[k]],
       spare := m.spare[1..], home := m.home[d := Linked(k)], pages := m.pages[page := BucketPage(k)])
  }

  /** A descriptor popped for a bucket that got no page: it is on no chain any more. */
  function LoseDesc(m: Model): Model
    requires m.spare != []
  {
    m.(spare := m.spare[1..], home := m.home[m.spare[0] := Lost])
  }

  function GrowChain(m: Model, k: nat, cap: nat): (Model, MallocResult)
    requires k < CLASSES && k < |m.chains| && m.spare != []
  {
    var p := LowestFree(m.pages.Keys, 0, cap);
    if p == EOF then (LoseDesc(m), NoPage) else (AddBucket(m, k, p), Block(Base(p)))
  }

  function Malloc(m: Model, len: nat, cap: nat): (Model, MallocResult)
    requires |m.chains| == CLASSES
  {
    var k := ClassOf(len);
    if k == CLASSES then (m, TooLarge)
    else
      var c := m.chains[k];
      var i := FirstWithFree(c, 0);
      if i < |c| then (TakeAt(m, k, i), Block(c[i].free[0]))
      else if m.spare != [] then GrowChain(m, k, cap)
      else
        var p := LowestFree(m.pages.Keys, 0, cap);
        if p == EOF then (m, NoDescriptorPage) else GrowChain(AddDescPage(m, p), k, cap)
  }

  // ----- kfree_s

  datatype FreeResult = Freed | NoClass | NotFound

  function FindPage(c: seq<Bucket>, base: nat, i: nat): (r: nat)
    requires i <= |c|
    ensures i <= r <= |c| && (r < |c| ==> Base(c[r].page) == base)
    ensures forall j :: i <= j < r ==> Base(c[j].page) != base
    decreases |c| - i
  {
    if i == |c| || Base(c[i].page) == base then i else FindPage(c, base, i + 1)
  }

  function GiveBlock(b: Bucket, p: nat): Bucket {
    b.(free := [p] + b.free, live := b.live - {p})
  }

  /** Bucket i of chain k leaves its chain; its page and its descriptor become free. */
  function DropBucket(m: Model, k: nat, i: nat): Model
    requires k < |m.chains| && i < |m.chains[k]|
  {
    var c := m.chains[k];
    m.(chains := m.chains[k := c[..i] + c[i + 1..]],
       spare := [c[i].desc] + m.spare, home := m.home[c[i].desc := Spare], pages := m.pages - {c[i].page})
  }

  /** Block p goes back to bucket i of chain k, which leaves the chain with its last block. */
  function PutBack(m: Model, k: nat, i: nat, p: nat): Model
    requires k < |m.chains| && i < |m.chains[k]|
  {
    if m.chains[k][i].live == {p} then DropBucket(m, k, i)
    else WithChain(m, k, m.chains[k][i := GiveBlock(m.chains[k][i], p)])
  }

  function Free(m: Model, ptr: nat, len: nat): (Model, FreeResult)
    requires |m.chains| == CLASSES
  {
    var k := ClassOf(len);
    if k == CLASSES then (m, NoClass)
    else
      var c := m.chains[k];
      var i := FindPage(c, ptr - ptr % PAGE_SIZE, 0);
      if i == |c| then (m, NotFound)
      else (PutBack(m, k, i, ptr), Freed)
  }
}
