/** The guarantees of kmalloc and kfree_s, call by call and over every run. */
module BucketTheorems {
  import opened Arith
  import opened Bitmap
  import opened PhysicalPages
  import opened Sequences
  import opened BucketModel
  import opened BucketSafety

  ghost predicate SameLive(m: Model, m': Model) {
    forall l: nat, q: nat :: Live(m', l, q) <==> Live(m, l, q)
  }

  /** Block p of class k is handed out; before, no class had it. */
  ghost predicate GainsLive(m: Model, m': Model, k: nat, p: nat) {
    && (forall l: nat :: !Live(m, l, p))
    && forall l: nat, q: nat :: Live(m', l, q) <==> Live(m, l, q) || (l == k && q == p)
  }

  /** Block p of class k is taken back, and no other. */
  ghost predicate LosesLive(m: Model, m': Model, k: nat, p: nat) {
    Live(m, k, p) && forall l: nat, q: nat :: Live(m', l, q) <==> Live(m, l, q) && !(l == k && q == p)
  }

  /** No bucket of the chain has a free block left. */
  ghost predicate Exhausted(c: seq<Bucket>) {
    forall i :: 0 <= i < |c| ==> c[i].free == []
  }

  ghost predicate NoPageLeft(m: Model, cap: nat) {
    forall p: nat :: p < cap ==> p in m.pages
  }

  ghost predicate OnePageLeft(m: Model, cap: nat) {
    exists p: nat :: p < cap && p !in m.pages && forall q: nat :: q < cap && q != p ==> q in m.pages
  }

  /** The least power of two from 16 up that holds len bytes. */
  ghost predicate LeastPower(n: nat, len: nat) {
    && IsPower(n) && 16 <= n && len <= n
    && forall m: nat :: IsPower(m) && 16 <= m && len <= m ==> n <= m
  }

  ghost predicate IsPower(n: nat) {
    exists e: nat :: n == Pow2(e)
  }

  lemma PowersOfClasses()
    ensures Pow2(4) == 16 && Pow2(5) == 32 && Pow2(6) == 64 && Pow2(7) == 128 && Pow2(8) == 256
    ensures Pow2(9) == 512 && Pow2(10) == 1024 && Pow2(11) == 2048 && Pow2(12) == 4096
  {
    assert Pow2(0) == 1 && Pow2(1) == 2 && Pow2(2) == 4 && Pow2(3) == 8;
    assert Pow2(4) == 16 && Pow2(5) == 32 && Pow2(6) == 64 && Pow2(7) == 128;
    assert Pow2(8) == 256 && Pow2(9) == 512 && Pow2(10) == 1024 && Pow2(11) == 2048;
  }

  lemma SizeIsPower(k: nat)
    requires k < CLASSES
    ensures Size(k) == Pow2(k + 4)
  {
    PowersOfClasses();
  }

  lemma {:induction false} Pow2Grows(a: nat, b: nat)
    requires a <= b
    ensures Pow2(a) <= Pow2(b)
  {
    if a < b {
      Pow2Grows(a, b - 1);
    }
  }

  /** A power of two from 16 on is the size of a class, or more than any class has. */
  lemma PowerHasClass(e: nat)
    requires Pow2(e) >= 16
    ensures e >= 4 && (if e <= 12 then Pow2(e) == Size(e - 4) else Pow2(e) > PAGE_SIZE)
  {
    PowersOfClasses();
    if e < 4 {
      Pow2Grows(e, 3);
      assert false;
    } else if e <= 12 {
      SizeIsPower(e - 4);
    } else {
      Pow2Grows(13, e);
    }
  }

  /** The class picked: none exactly above 4096, else the first one whose blocks hold len bytes. */
  lemma ClassOfMeaning(len: nat)
    ensures ClassOf(len) == CLASSES <==> len > PAGE_SIZE
    ensures ClassOf(len) < CLASSES ==> len <= Size(ClassOf(len))
    ensures forall j :: 0 <= j < CLASSES && len <= Size(j) ==> ClassOf(len) <= j
  {
    assert Size(8) == PAGE_SIZE;
  }

  /** Its blocks are as long as the least power of two that will do, so longer than 16 only if less than twice len. */
  lemma BlockLength(len: nat)
    requires len <= PAGE_SIZE
    ensures ClassOf(len) < CLASSES && LeastPower(Size(ClassOf(len)), len)
    ensures Size(ClassOf(len)) == 16 || Size(ClassOf(len)) < 2 * len
  {
    ClassOfMeaning(len);
    var k := ClassOf(len);
    SizeIsPower(k);
    forall m: nat | IsPower(m) && 16 <= m && len <= m
      ensures Size(k) <= m
    {
      var e: nat :| m == Pow2(e);
      PowerHasClass(e);
      if e <= 12 {
        SizeIsPower(e - 4);
        Pow2Grows(k + 4, e);
      }
    }
    if k > 0 {
      SizeIsPower(k - 1);
      assert Pow2(k + 4) == 2 * Pow2(k + 3);
    }
  }

  // ----- one call of kmalloc

  lemma GrowKeeps(m: Model, k: nat, cap: nat)
    requires Inv(m, cap) && k < CLASSES && m.spare != []
    ensures Inv(GrowChain(m, k, cap).0, cap)
    ensures var (m', r) := GrowChain(m, k, cap);
      match r
      case Block(p) => GainsLive(m, m', k, p)
      case _ => r == NoPage && NoPageLeft(m, cap) && SameLive(m, m')
  {
    var p := LowestFree(m.pages.Keys, 0, cap);
    if p == EOF {
      LoseKeeps(m, cap);
    } else {
      AddKeeps(m, cap, k, p);
      forall l: nat
        ensures !Live(m, l, Base(p))
      {
        FreshPageNotLive(m, cap, p, l);
      }
      forall l: nat, q: nat
        ensures Live(AddBucket(m, k, p), l, q) <==> Live(m, l, q) || (l == k && q == Base(p))
      {
        AddLive(m, cap, k, p, l, q);
      }
    }
  }

  lemma TakeKeeps(m: Model, cap: nat, k: nat, i: nat)
    requires Inv(m, cap) && k < CLASSES && i < |m.chains[k]| && m.chains[k][i].free != []
    ensures Inv(TakeAt(m, k, i), cap) && GainsLive(m, TakeAt(m, k, i), k, m.chains[k][i].free[0])
  {
    var b := m.chains[k][i];
    var p := b.free[0];
    var m' := TakeAt(m, k, i);
    assert BucketOk(m, k, b);
    TakeOk(m, k, b);
    assert p in b.live + {p};
    ReplaceKeeps(m, m', cap, k, i, TakeBlock(b));
    forall l: nat
      ensures !Live(m, l, p)
    {
      FreeNotLive(m, cap, k, i, p, l);
    }
    forall l: nat, q: nat
      ensures Live(m', l, q) <==> Live(m, l, q) || (l == k && q == p)
    {
      TakeLive(m, cap, k, i, q);
    }
  }

  lemma TakeLive(m: Model, cap: nat, k: nat, i: nat, q: nat)
    requires Inv(m, cap) && k < CLASSES && i < |m.chains[k]| && m.chains[k][i].free != []
    ensures LiveIn(m.chains[k][i := TakeBlock(m.chains[k][i])], q) <==>
      LiveIn(m.chains[k], q) || q == m.chains[k][i].free[0]
  {
    forall j | 0 <= j < |m.chains[k]| && j != i
      ensures !(q in m.chains[k][j].live && q in m.chains[k][i].live)
    {
      if q in m.chains[k][i].live {
        LiveOnce(m, cap, k, i, j, q);
      }
    }
    ReplaceLive(m.chains[k], i, TakeBlock(m.chains[k][i]), q);
  }

  /** kmalloc keeps the invariant and hands out exactly one block, which nobody held before. */
  lemma MallocKeeps(m: Model, len: nat, cap: nat)
    requires Inv(m, cap)
    ensures Inv(Malloc(m, len, cap).0, cap)
    ensures var (m', r) := Malloc(m, len, cap);
      if r.Block? then
        len <= PAGE_SIZE && GainsLive(m, m', ClassOf(len), r.ptr)
      else
        SameLive(m, m')
  {
    var k := ClassOf(len);
    ClassOfMeaning(len);
    if k < CLASSES {
      var c := m.chains[k];
      var i := FirstWithFree(c, 0);
      if i < |c| {
        TakeKeeps(m, cap, k, i);
      } else if m.spare != [] {
        GrowKeeps(m, k, cap);
      } else {
        var p := LowestFree(m.pages.Keys, 0, cap);
        if p != EOF {
          AddDescKeeps(m, cap, p);
          GrowKeeps(AddDescPage(m, p), k, cap);
        }
      }
    }
  }

  /** Exactly when kmalloc answers NULL, and exactly when it has no page to carve descriptors from. */
  lemma MallocFailsIff(m: Model, len: nat, cap: nat)
    requires Inv(m, cap)
    ensures var r := Malloc(m, len, cap).1;
      && (r == TooLarge <==> len > PAGE_SIZE)
      && (r == NoPage <==> len <= PAGE_SIZE && Exhausted(m.chains[ClassOf(len)])
                           && if m.spare != [] then NoPageLeft(m, cap) else OnePageLeft(m, cap))
      && (r == NoDescriptorPage <==> len <= PAGE_SIZE && Exhausted(m.chains[ClassOf(len)])
                                     && m.spare == [] && NoPageLeft(m, cap))
  {
    ClassOfMeaning(len);
    if len <= PAGE_SIZE {
      var c := m.chains[ClassOf(len)];
      assert FirstWithFree(c, 0) == |c| <==> Exhausted(c);
      PagesLeft(m, cap);
    }
  }

  lemma PagesLeft(m: Model, cap: nat)
    ensures var p := LowestFree(m.pages.Keys, 0, cap);
      && (p == EOF <==> NoPageLeft(m, cap))
      && (p != EOF ==> (OnePageLeft(m, cap) <==> LowestFree(AddDescPage(m, p).pages.Keys, 0, cap) == EOF))
  {
    var p := LowestFree(m.pages.Keys, 0, cap);
    if p != EOF {
      var taken := AddDescPage(m, p).pages.Keys;
      assert forall q: nat :: q in taken <==> q == p || q in m.pages;
      if LowestFree(taken, 0, cap) == EOF {
        assert forall q: nat :: q < cap && q != p ==> q in m.pages;
      }
    }
  }

  // ----- one call of kfree_s

  /** What kfree_s relies on: when the page of ptr is in the chain of len, ptr is a block handed out from that chain. */
  ghost predicate LegalFree(m: Model, ptr: nat, len: nat) {
    |m.chains| == CLASSES &&
    (Malloced(m, ptr, len) ==> Live(m, ClassOf(len), ptr))
  }

  ghost predicate Malloced(m: Model, ptr: nat, len: nat)
    requires |m.chains| == CLASSES
  {
    var k := ClassOf(len);
    k < CLASSES && FindPage(m.chains[k], ptr - ptr % PAGE_SIZE, 0) < |m.chains[k]|
  }

  lemma LivePage(m: Model, cap: nat, k: nat, p: nat)
    requires Inv(m, cap) && Live(m, k, p)
    ensures var i := FindPage(m.chains[k], p - p % PAGE_SIZE, 0);
      i < |m.chains[k]| && p in m.chains[k][i].live
  {
    var j :| 0 <= j < |m.chains[k]| && p in m.chains[k][j].live;
    BlockOfBucket(m, cap, k, j, p);
    var i := FindPage(m.chains[k], p - p % PAGE_SIZE, 0);
    OneOwner(m, cap, k, i, k, j, p);
  }

  lemma GiveInv(m: Model, cap: nat, k: nat, i: nat, p: nat)
    requires Inv(m, cap) && k < CLASSES && i < |m.chains[k]|
    requires p in m.chains[k][i].live && m.chains[k][i].live != {p}
    ensures Inv(PutBack(m, k, i, p), cap)
  {
    var b := m.chains[k][i];
    assert BucketOk(m, k, b);
    GiveOk(m, k, b, p);
    ReplaceKeeps(m, PutBack(m, k, i, p), cap, k, i, GiveBlock(b, p));
  }

  lemma LiveAt(c: seq<Bucket>, i: nat, p: nat)
    requires i < |c| && p in c[i].live
    ensures LiveIn(c, p)
  {
  }

  lemma GiveKeeps(m: Model, cap: nat, k: nat, i: nat, p: nat)
    requires Inv(m, cap) && k < CLASSES && i < |m.chains[k]|
    requires p in m.chains[k][i].live && m.chains[k][i].live != {p}
    ensures Inv(PutBack(m, k, i, p), cap) && LosesLive(m, PutBack(m, k, i, p), k, p)
  {
    hide Inv, LiveIn, GiveBlock;
    InvChains(m, cap);
    GiveInv(m, cap, k, i, p);
    LiveAt(m.chains[k], i, p);
    forall l: nat, q: nat
      ensures Live(PutBack(m, k, i, p), l, q) <==> Live(m, l, q) && !(l == k && q == p)
    {
      if l == k {
        GiveLive(m, cap, k, i, p, q);
      }
    }
  }

  lemma GiveLive(m: Model, cap: nat, k: nat, i: nat, p: nat, q: nat)
    requires Inv(m, cap) && k < CLASSES && i < |m.chains[k]| && p in m.chains[k][i].live
    ensures LiveIn(m.chains[k][i := GiveBlock(m.chains[k][i], p)], q) <==> LiveIn(m.chains[k], q) && q != p
  {
    forall j | 0 <= j < |m.chains[k]| && j != i
      ensures !(q in m.chains[k][j].live && q in m.chains[k][i].live)
    {
      if q in m.chains[k][i].live {
        LiveOnce(m, cap, k, i, j, q);
      }
    }
    ReplaceLive(m.chains[k], i, GiveBlock(m.chains[k][i], p), q);
    if q in m.chains[k][i].live {
      assert LiveIn(m.chains[k], q);
    }
  }

  lemma ReleaseKeeps(m: Model, cap: nat, k: nat, i: nat, p: nat)
    requires Inv(m, cap) && k < CLASSES && i < |m.chains[k]| && m.chains[k][i].live == {p}
    ensures Inv(PutBack(m, k, i, p), cap) && LosesLive(m, PutBack(m, k, i, p), k, p)
  {
    DropKeeps(m, cap, k, i);
    assert p in m.chains[k][i].live;
    forall l: nat, q: nat
      ensures Live(DropBucket(m, k, i), l, q) <==> Live(m, l, q) && !(l == k && q == p)
    {
      DropLive(m, cap, k, i, p, l, q);
    }
  }

  /** kfree_s keeps the invariant and takes back exactly the block it is given. */
  lemma FreeKeeps(m: Model, ptr: nat, len: nat, cap: nat)
    requires Inv(m, cap) && LegalFree(m, ptr, len)
    ensures var (m', r) := Free(m, ptr, len);
      && Inv(m', cap)
      && (r == Freed <==> Live(m, ClassOf(len), ptr))
      && if r == Freed then LosesLive(m, m', ClassOf(len), ptr) else m' == m
  {
    var k := ClassOf(len);
    if Live(m, k, ptr) {
      LivePage(m, cap, k, ptr);
      var i := FindPage(m.chains[k], ptr - ptr % PAGE_SIZE, 0);
      if m.chains[k][i].live == {ptr} {
        ReleaseKeeps(m, cap, k, i, ptr);
      } else {
        GiveKeeps(m, cap, k, i, ptr);
      }
    }
  }

  // ----- what the invariant means

  /** Live blocks hold len bytes, are aligned, sit inside low memory, and never overlap one another. */
  lemma LiveBlocksDisjoint(m: Model, cap: nat, k: nat, p: nat, l: nat, q: nat)
    requires Inv(m, cap) && Live(m, k, p) && Live(m, l, q)
    ensures (k, p) != (l, q) ==> p + Size(k) <= q || q + Size(l) <= p
  {
    var i :| 0 <= i < |m.chains[k]| && p in m.chains[k][i].live;
    var j :| 0 <= j < |m.chains[l]| && q in m.chains[l][j].live;
    BlockOfBucket(m, cap, k, i, p);
    BlockOfBucket(m, cap, l, j, q);
    BlockInPage(m.chains[k][i].page, k, p);
    BlockInPage(m.chains[l][j].page, l, q);
    if m.chains[k][i].page == m.chains[l][j].page {
      assert BucketOk(m, k, m.chains[k][i]) && BucketOk(m, l, m.chains[l][j]);
      if p != q {
        BlocksApart(m.chains[k][i].page, k, p, q);
      }
    } else {
      PagesApart(m.chains[k][i].page, m.chains[l][j].page);
    }
  }

  lemma PagesApart(a: nat, b: nat)
    requires a != b
    ensures Base(a) + PAGE_SIZE <= Base(b) || Base(b) + PAGE_SIZE <= Base(a)
  {
  }

  lemma LiveBlockPlaced(m: Model, cap: nat, k: nat, p: nat)
    requires Inv(m, cap) && Live(m, k, p)
    ensures k < CLASSES && p % Size(k) == 0 && MANAGER_START <= p && p + Size(k) <= U32
    ensures PageOf(p) in m.pages && m.pages[PageOf(p)] == BucketPage(k)
  {
    var i :| 0 <= i < |m.chains[k]| && p in m.chains[k][i].live;
    BlockOfBucket(m, cap, k, i, p);
    BlockInPage(m.chains[k][i].page, k, p);
    BlockAligned(m.chains[k][i].page, k, p);
    assert BucketOk(m, k, m.chains[k][i]);
  }

  /** No live block overlaps a descriptor, and no two descriptors overlap. */
  lemma DescriptorsApart(m: Model, cap: nat, d: nat)
    requires Inv(m, cap) && d in m.home
    ensures forall k: nat, p: nat :: Live(m, k, p) ==> p + Size(k) <= d || d + DESC_SIZE <= p
    ensures forall e :: e in m.home && e != d ==> e + DESC_SIZE <= d || d + DESC_SIZE <= e
  {
    forall k: nat, p: nat | Live(m, k, p)
      ensures p + Size(k) <= d || d + DESC_SIZE <= p
    {
      LiveBlockPlaced(m, cap, k, p);
      var i :| 0 <= i < |m.chains[k]| && p in m.chains[k][i].live;
      BlockOfBucket(m, cap, k, i, p);
      BlockInPage(PageOf(p), k, p);
      SlotInPage(m, cap, d);
      PagesApart(PageOf(p), PageOf(d));
    }
    forall e | e in m.home && e != d
      ensures e + DESC_SIZE <= d || d + DESC_SIZE <= e
    {
      assert d % DESC_SIZE == 0 && e % DESC_SIZE == 0;
    }
  }

  lemma SlotInPage(m: Model, cap: nat, d: nat)
    requires Inv(m, cap) && d in m.home
    ensures PageOf(d) >= 0 && Base(PageOf(d)) <= d && d + DESC_SIZE <= Base(PageOf(d)) + PAGE_SIZE
    ensures PageOf(d) in m.pages && m.pages[PageOf(d)] == DescPage
  {
    assert IsSlot(m.pages, d);
  }

  /** A linked bucket's reference count and free list together account for every block of its page. */
  lemma RefCountPlusFree(m: Model, cap: nat, k: nat, i: nat)
    requires Inv(m, cap) && k < CLASSES && i < |m.chains[k]|
    ensures var b := m.chains[k][i];
      && |b.live| + |b.free| == PAGE_SIZE / Size(k) && |b.live| >= 1
      && Distinct(b.free) && Elements(b.free) <= Blocks(b.page, k)
  {
    var b := m.chains[k][i];
    assert BucketOk(m, k, b);
    ElementCount(b.free);
    InitialFreeIsPage(b.page, k);
    ElementCount(InitialFree(b.page, k));
    assert |Elements(b.free) + b.live| == |Elements(b.free)| + |b.live|;
  }

  lemma {:induction false} ElementCount(s: seq<nat>)
    requires Distinct(s)
    ensures |Elements(s)| == |s|
  {
    if s != [] {
      var n := |s| - 1;
      assert s == s[..n] + [s[n]];
      assert Elements(s) == Elements(s[..n]) + {s[n]};
      ElementCount(s[..n]);
    }
  }

  /** Once no block is live, every chain is empty and every page left belongs to descriptors or to others. */
  lemma AllFreed(m: Model, cap: nat)
    requires Inv(m, cap) && forall k: nat, p: nat :: !Live(m, k, p)
    ensures forall k :: 0 <= k < CLASSES ==> m.chains[k] == []
    ensures forall p :: p in m.pages ==> !m.pages[p].BucketPage?
    ensures forall d :: d in m.home ==> m.home[d] == Spare || m.home[d] == Lost
  {
    forall k | 0 <= k < CLASSES
      ensures m.chains[k] == []
    {
      if m.chains[k] != [] {
        assert BucketOk(m, k, m.chains[k][0]);
        var p :| p in m.chains[k][0].live;
        assert Live(m, k, p);
        assert false;
      }
    }
  }

  /** Every descriptor is in exactly one place: one position of one chain, one position of the spare chain, or lost. */
  lemma DescriptorConserved(m: Model, cap: nat, d: nat)
    requires Inv(m, cap)
    ensures d in m.home <==> IsSlot(m.pages, d)
    ensures d in m.home ==> forall k: nat :: k < CLASSES ==> (DescIn(m.chains[k], d) <==> m.home[d] == Linked(k))
    ensures d in m.home ==> (d in m.spare <==> m.home[d] == Spare)
    ensures forall k: nat :: k < CLASSES ==> forall i, j :: 0 <= i < j < |m.chains[k]| ==>
      m.chains[k][i].desc != d || m.chains[k][j].desc != d
  {
    forall k, i | 0 <= k < CLASSES && 0 <= i < |m.chains[k]|
      ensures m.chains[k][i].desc in m.home && m.home[m.chains[k][i].desc] == Linked(k) && DistinctChain(m.chains[k])
    {
      assert BucketOk(m, k, m.chains[k][i]);
    }
  }

  /**
   * Every page taken from the bitmap is a descriptor page, somebody else's, or the page of exactly one linked bucket.
   */
  lemma PageConserved(m: Model, cap: nat, p: nat)
    requires Inv(m, cap) && p in m.pages
    ensures forall k: nat :: k < CLASSES ==> (PageIn(m.chains[k], p) <==> m.pages[p] == BucketPage(k))
    ensures forall k: nat :: k < CLASSES ==> forall i, j :: 0 <= i < j < |m.chains[k]| ==>
      m.chains[k][i].page != p || m.chains[k][j].page != p
    ensures m.pages[p] == DescPage ==> forall d: nat :: d in Slots(p) ==> d in m.home
  {
    forall k, i | 0 <= k < CLASSES && 0 <= i < |m.chains[k]|
      ensures m.pages[m.chains[k][i].page] == BucketPage(k) && DistinctChain(m.chains[k])
    {
      assert BucketOk(m, k, m.chains[k][i]);
    }
    SlotsFillPage(p);
  }

  ghost function LostSet(m: Model): set<nat> {
    set d | d in m.home && m.home[d] == Lost
  }

  lemma GrowLost(m: Model, k: nat, cap: nat)
    requires |m.chains| == CLASSES && k < CLASSES && m.spare != []
    requires m.spare[0] in m.home && m.home[m.spare[0]] == Spare
    ensures var (m', r) := GrowChain(m, k, cap);
      LostSet(m') == if r == NoPage then LostSet(m) + {m.spare[0]} else LostSet(m)
  {
    var (m', r) := GrowChain(m, k, cap);
    assert forall d :: d != m.spare[0] ==> (d in m'.home <==> d in m.home);
    assert forall d :: d != m.spare[0] && d in m.home ==> m'.home[d] == m.home[d];
  }

  lemma AddDescLost(m: Model, page: nat)
    requires forall d :: d in m.home ==> d !in Slots(page)
    ensures LostSet(AddDescPage(m, page)) == LostSet(m)
    ensures var m' := AddDescPage(m, page); m'.home[m'.spare[0]] == Spare && m'.spare[0] !in m.home
  {
    var m' := AddDescPage(m, page);
    assert m'.spare[0] in Slots(page);
  }

  /** The only way a descriptor leaves both kinds of chain is a kmalloc that finds no page for its bucket. */
  lemma LostOnlyWithoutPage(m: Model, len: nat, cap: nat)
    requires Inv(m, cap)
    ensures var (m', r) := Malloc(m, len, cap);
      if r == NoPage then exists d :: d in m'.home && d !in LostSet(m) && LostSet(m') == LostSet(m) + {d}
      else LostSet(m') == LostSet(m)
  {
    var k := ClassOf(len);
    if k < CLASSES && FirstWithFree(m.chains[k], 0) == |m.chains[k]| {
      var p := LowestFree(m.pages.Keys, 0, cap);
      if m.spare != [] {
        assert m.spare[0] in m.spare;
        GrowLost(m, k, cap);
      } else if p != EOF {
        SlotsFillPage(p);
        AddDescLost(m, p);
        GrowLost(AddDescPage(m, p), k, cap);
      }
    }
  }

  // ----- runs

  /** A call by any client of the allocator, or of the page allocator beneath it. */
  datatype Op = MallocOp(len: nat) | FreeOp(ptr: nat, len: nat) | TakePage | GivePage(page: nat)

  function Step(m: Model, op: Op, cap: nat): Model
    requires |m.chains| == CLASSES
  {
    match op
    case MallocOp(len) => Malloc(m, len, cap).0
    case FreeOp(ptr, len) => Free(m, ptr, len).0
    case TakePage =>
      var p := LowestFree(m.pages.Keys, 0, cap);
      if p == EOF then m else m.(pages := m.pages[p := Foreign])
    case GivePage(p) => m.(pages := m.pages - {p})
  }

  /**
   * What a client holds, from the answers it gets: each block allocated and not yet freed, with the length asked for.
   */
  function Held(held: map<nat, nat>, m: Model, op: Op, cap: nat): map<nat, nat>
    requires |m.chains| == CLASSES
  {
    match op
    case MallocOp(len) =>
      var r := Malloc(m, len, cap).1;
      if r.Block? then held[r.ptr := len] else held
    case FreeOp(ptr, len) => if Free(m, ptr, len).1 == Freed then held - {ptr} else held
    case _ => held
  }

  /**
   * Frees are of live blocks with their own class, others return only pages of their own, and kmalloc is not
   * called where it would carve descriptors from page 0.
   */
  ghost predicate Legal(m: Model, op: Op, cap: nat)
    requires |m.chains| == CLASSES
  {
    match op
    case MallocOp(len) => Malloc(m, len, cap).1 != NoDescriptorPage
    case FreeOp(ptr, len) => LegalFree(m, ptr, len)
    case GivePage(p) => p in m.pages && m.pages[p] == Foreign
    case TakePage => true
  }

  /**
   * Exactly when kmalloc may be called: the length is too large, a block or a spare descriptor is left, or a page is.
   */
  lemma LegalMallocIff(m: Model, len: nat, cap: nat)
    requires Inv(m, cap)
    ensures Legal(m, MallocOp(len), cap) <==>
      len > PAGE_SIZE || !Exhausted(m.chains[ClassOf(len)]) || m.spare != [] || !NoPageLeft(m, cap)
  {
    ClassOfMeaning(len);
    MallocFailsIff(m, len, cap);
  }

  /** A call that is not: the first one, when others hold every page. */
  lemma FirstCallWithoutPages(foreign: set<nat>, len: nat, cap: nat)
    requires len <= PAGE_SIZE && cap <= LOW_LIMIT && forall p: nat :: p in foreign <==> p < cap
    ensures Inv(Start(foreign).m, cap) && Malloc(Start(foreign).m, len, cap).1 == NoDescriptorPage
  {
    StartOk(foreign, cap);
    ClassOfMeaning(len);
    MallocFailsIff(Start(foreign).m, len, cap);
  }

  /** A call that drops a descriptor: the first one, when others hold every page but one. */
  lemma FirstCallOnLastPage(foreign: set<nat>, len: nat, cap: nat, p: nat)
    requires len <= PAGE_SIZE && cap <= LOW_LIMIT && p < cap && forall q: nat :: q in foreign <==> q < cap && q != p
    ensures var m := Start(foreign).m;
      Inv(m, cap) && Malloc(m, len, cap).1 == NoPage && LostSet(m) == {} && |LostSet(Malloc(m, len, cap).0)| == 1
  {
    hide Inv, Malloc, LostSet;
    var m := Start(foreign).m;
    StartOk(foreign, cap);
    StartEmpty(foreign, len);
    assert p !in m.pages && OnePageLeft(m, cap);
    MallocFailsIff(m, len, cap);
    LostOnlyWithoutPage(m, len, cap);
    var d :| d in Malloc(m, len, cap).0.home && d !in LostSet(m) && LostSet(Malloc(m, len, cap).0) == LostSet(m) + {d};
    assert LostSet(Malloc(m, len, cap).0) == {d};
  }

  lemma StartEmpty(foreign: set<nat>, len: nat)
    requires len <= PAGE_SIZE
    ensures var m := Start(foreign).m;
      && |m.chains| == CLASSES && ClassOf(len) < CLASSES && m.chains[ClassOf(len)] == []
      && m.spare == [] && LostSet(m) == {}
    ensures forall q :: q in Start(foreign).m.pages <==> q in foreign
  {
    ClassOfMeaning(len);
  }

  datatype Run = Run(m: Model, held: map<nat, nat>)

  /** A run of legal operations leads from s to t. */
  ghost predicate Reaches(s: Run, ops: seq<Op>, cap: nat, t: Run)
    decreases |ops|
  {
    |s.m.chains| == CLASSES &&
    if ops == [] then s == t
    else
      && Legal(s.m, ops[0], cap)
      && Reaches(Run(Step(s.m, ops[0], cap), Held(s.held, s.m, ops[0], cap)), ops[1..], cap, t)
  }

  /** Before the first call: nothing but pages that others have taken. */
  function Start(foreign: set<nat>): Run {
    Run(Model([[], [], [], [], [], [], [], [], []], [], map[], map p | p in foreign :: Foreign), map[])
  }

  /** A client holds address p as a block of class k. */
  predicate Holds(held: map<nat, nat>, k: nat, p: nat) {
    p in held && ClassOf(held[p]) == k && k < CLASSES
  }

  ghost predicate Accounted(s: Run, cap: nat) {
    && Inv(s.m, cap)
    && (forall k: nat, p: nat :: Live(s.m, k, p) <==> Holds(s.held, k, p))
    && (forall p :: p in s.held ==> ClassOf(s.held[p]) < CLASSES)
  }

  lemma StepKeeps(s: Run, op: Op, cap: nat)
    requires Accounted(s, cap) && Legal(s.m, op, cap)
    ensures Accounted(Run(Step(s.m, op, cap), Held(s.held, s.m, op, cap)), cap)
  {
    match op
    case MallocOp(len) => MallocAccounted(s, len, cap);
    case FreeOp(ptr, len) => FreeAccounted(s, ptr, len, cap);
    case TakePage => ForeignStep(s.m, op, cap);
    case GivePage(p) => ForeignStep(s.m, op, cap);
  }

  lemma MallocAccounted(s: Run, len: nat, cap: nat)
    requires Accounted(s, cap)
    ensures Accounted(Run(Malloc(s.m, len, cap).0, Held(s.held, s.m, MallocOp(len), cap)), cap)
  {
    hide Inv, Live, Malloc, ClassOf, Holds;
    InvChains(s.m, cap);
    var held := Held(s.held, s.m, MallocOp(len), cap);
    var (m', r) := Malloc(s.m, len, cap);
    MallocKeeps(s.m, len, cap);
    ClassOfMeaning(len);
    if r.Block? {
      NotHeld(s, r.ptr, cap);
      HoldsMore(s.held, r.ptr, len);
    }
  }

  lemma NotHeld(s: Run, p: nat, cap: nat)
    requires Accounted(s, cap) && forall l: nat :: !Live(s.m, l, p)
    ensures p !in s.held
  {
    hide Inv, Live;
    assert p in s.held ==> Holds(s.held, ClassOf(s.held[p]), p);
  }

  lemma HoldsMore(held: map<nat, nat>, p: nat, len: nat)
    requires p !in held && ClassOf(len) < CLASSES
    ensures forall l: nat, q: nat :: Holds(held[p := len], l, q) <==> Holds(held, l, q) || (l == ClassOf(len) && q == p)
  {
    hide ClassOf;
    var after := held[p := len];
    forall l: nat, q: nat
      ensures Holds(after, l, q) <==> Holds(held, l, q) || (l == ClassOf(len) && q == p)
    {
      if q == p {
        assert after[q] == len;
      } else {
        assert q in after <==> q in held;
      }
    }
  }

  lemma HoldsLess(held: map<nat, nat>, p: nat, k: nat)
    requires Holds(held, k, p)
    ensures forall l: nat, q: nat :: Holds(held - {p}, l, q) <==> Holds(held, l, q) && !(l == k && q == p)
  {
    hide ClassOf;
  }

  lemma FreeAccounted(s: Run, ptr: nat, len: nat, cap: nat)
    requires Accounted(s, cap) && LegalFree(s.m, ptr, len)
    ensures Accounted(Run(Free(s.m, ptr, len).0, Held(s.held, s.m, FreeOp(ptr, len), cap)), cap)
  {
    hide Inv, Live, Free, ClassOf, Holds;
    InvChains(s.m, cap);
    var held := Held(s.held, s.m, FreeOp(ptr, len), cap);
    FreeKeeps(s.m, ptr, len, cap);
    if Free(s.m, ptr, len).1 == Freed {
      assert Holds(s.held, ClassOf(len), ptr);
      HoldsLess(s.held, ptr, ClassOf(len));
    }
  }

  lemma ForeignStep(m: Model, op: Op, cap: nat)
    requires Inv(m, cap)
    requires (op.TakePage? || op.GivePage?) && Legal(m, op, cap)
    ensures Inv(Step(m, op, cap), cap) && SameLive(m, Step(m, op, cap))
  {
    ForeignKeeps(m, Step(m, op, cap), cap);
  }

  /** Pages of others come and go without touching the allocator. */
  lemma ForeignKeeps(m: Model, m': Model, cap: nat)
    requires Inv(m, cap) && m' == m.(pages := m'.pages)
    requires forall p :: p in m'.pages ==> p < cap
    requires forall p :: p in m.pages && m.pages[p] != Foreign ==> p in m'.pages && m'.pages[p] == m.pages[p]
    requires forall p :: p in m'.pages && m'.pages[p] != Foreign ==> p in m.pages && m'.pages[p] == m.pages[p]
    ensures Inv(m', cap)
  {
    forall k, i | 0 <= k < CLASSES && 0 <= i < |m'.chains[k]|
      ensures BucketOk(m', k, m'.chains[k][i])
    {
      assert BucketOk(m, k, m.chains[k][i]);
    }
  }

  /** Every run keeps the invariant, and the live blocks are exactly those allocated and not freed. */
  lemma {:induction false} RunKeeps(s: Run, ops: seq<Op>, cap: nat, t: Run)
    requires Accounted(s, cap) && Reaches(s, ops, cap, t)
    ensures Accounted(t, cap)
    decreases |ops|
  {
    if ops != [] {
      StepKeeps(s, ops[0], cap);
      RunKeeps(Run(Step(s.m, ops[0], cap), Held(s.held, s.m, ops[0], cap)), ops[1..], cap, t);
    }
  }

  lemma StartOk(foreign: set<nat>, cap: nat)
    requires cap <= LOW_LIMIT && forall p :: p in foreign ==> p < cap
    ensures Accounted(Start(foreign), cap)
  {
    var m := Start(foreign).m;
    assert forall k :: 0 <= k < CLASSES ==> m.chains[k] == [];
    assert forall k: nat, p: nat :: !Live(m, k, p);
  }

  lemma LeastPowerUnique(n: nat, m: nat, len: nat)
    requires LeastPower(n, len) && LeastPower(m, len)
    ensures n == m
  {
  }

  /**
   * From boot on, over every legal run: the lengths held are at most 4096; a block of length len has the least power of
   * two from 16 up that holds len, n, for itself: it is aligned to n, and its n bytes overlap no other block and no
   * descriptor; and once all are freed every chain is empty.
   */
  lemma EveryRunIsSafe(foreign: set<nat>, ops: seq<Op>, cap: nat, t: Run)
    requires cap <= LOW_LIMIT && forall p :: p in foreign ==> p < cap
    requires Reaches(Start(foreign), ops, cap, t)
    ensures forall p :: p in t.held ==> t.held[p] <= PAGE_SIZE && exists n: nat :: LeastPower(n, t.held[p])
    ensures forall p, n: nat :: p in t.held && LeastPower(n, t.held[p]) ==>
      n <= PAGE_SIZE && (n == 16 || n < 2 * t.held[p]) && p % n == 0
    ensures forall p, q, n: nat :: p in t.held && LeastPower(n, t.held[p]) && q in t.held && p < q ==> p + n <= q
    ensures forall p, n: nat, d :: p in t.held && LeastPower(n, t.held[p]) && d in t.m.home ==>
      p + n <= d || d + DESC_SIZE <= p
    ensures |t.m.chains| == CLASSES
    ensures t.held == map[] ==> forall k :: 0 <= k < CLASSES ==> t.m.chains[k] == []
  {
    hide Reaches, Inv, Live, LeastPower, Size, ClassOf;
    StartOk(foreign, cap);
    RunKeeps(Start(foreign), ops, cap, t);
    InvChains(t.m, cap);
    forall p | p in t.held
      ensures t.held[p] <= PAGE_SIZE && LeastPower(Size(ClassOf(t.held[p])), t.held[p])
    {
      HeldBlock(t, cap, p);
    }
    forall p, n: nat | p in t.held && LeastPower(n, t.held[p])
      ensures n <= PAGE_SIZE && (n == 16 || n < 2 * t.held[p]) && n > 0 && p % n == 0
      ensures forall q :: q in t.held && p < q ==> p + n <= q
      ensures forall d :: d in t.m.home ==> p + n <= d || d + DESC_SIZE <= p
    {
      HeldBlock(t, cap, p);
      LeastPowerUnique(n, Size(ClassOf(t.held[p])), t.held[p]);
      HeldApart(t, cap, p);
    }
    if t.held == map[] {
      AllFreed(t.m, cap);
    }
  }

  lemma HeldBlock(t: Run, cap: nat, p: nat)
    requires Accounted(t, cap) && p in t.held
    ensures ClassOf(t.held[p]) < CLASSES && Live(t.m, ClassOf(t.held[p]), p) && t.held[p] <= PAGE_SIZE
    ensures var n := Size(ClassOf(t.held[p]));
      LeastPower(n, t.held[p]) && (n == 16 || n < 2 * t.held[p]) && p % n == 0
  {
    hide Inv, Live, LeastPower, Size, ClassOf;
    ClassOfMeaning(t.held[p]);
    assert Holds(t.held, ClassOf(t.held[p]), p);
    LiveBlockPlaced(t.m, cap, ClassOf(t.held[p]), p);
    BlockLength(t.held[p]);
  }

  lemma HeldApart(t: Run, cap: nat, p: nat)
    requires Accounted(t, cap) && p in t.held && ClassOf(t.held[p]) < CLASSES
    ensures var n := Size(ClassOf(t.held[p]));
      && (forall q :: q in t.held && p < q ==> p + n <= q)
      && (forall d :: d in t.m.home ==> p + n <= d || d + DESC_SIZE <= p)
  {
    hide Inv, Live, LeastPower, Size, ClassOf;
    HeldBlock(t, cap, p);
    var n := Size(ClassOf(t.held[p]));
    forall q | q in t.held && p < q
      ensures p + n <= q
    {
      HeldBlock(t, cap, q);
      LiveBlocksDisjoint(t.m, cap, ClassOf(t.held[p]), p, ClassOf(t.held[q]), q);
    }
    forall d | d in t.m.home
      ensures p + n <= d || d + DESC_SIZE <= p
    {
      DescriptorsApart(t.m, cap, d);
    }
  }

  lemma InvChains(m: Model, cap: nat)
    requires Inv(m, cap)
    ensures |m.chains| == CLASSES
  {
  }
}
