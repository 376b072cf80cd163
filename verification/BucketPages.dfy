/** How many pages calls of kmalloc take, and how kmalloc and kfree_s undo one another. */
module BucketPages {
  import opened Arith
  import opened Bitmap
  import opened PhysicalPages
  import opened Sequences
  import opened BucketModel
  import opened BucketSafety
  import opened BucketTheorems

  /** Page numbers below the limit are exactly those whose bytes all have addresses of 32 bits. */
  lemma LowPagesIff(page: nat)
    ensures page < LOW_LIMIT <==> Base(page) + PAGE_SIZE <= U32
  {
  }

  // ----- one call

  /** The free blocks of a chain. */
  ghost function FreeCount(c: seq<Bucket>): nat {
    if c == [] then 0 else |c[0].free| + FreeCount(c[1..])
  }

  lemma {:induction false} FreeCountIff(c: seq<Bucket>)
    ensures FreeCount(c) == 0 <==> Exhausted(c)
  {
    if c != [] {
      FreeCountIff(c[1..]);
      assert forall i :: 0 < i < |c| ==> c[i] == c[1..][i - 1];
      assert forall i :: 0 <= i < |c[1..]| ==> c[1..][i] == c[i + 1];
    }
  }

  lemma {:induction false} TakeCount(c: seq<Bucket>, i: nat)
    requires i < |c| && c[i].free != []
    ensures FreeCount(c[i := TakeBlock(c[i])]) == FreeCount(c) - 1
  {
    var d := c[i := TakeBlock(c[i])];
    if i == 0 {
      assert d[1..] == c[1..];
    } else {
      assert d[1..] == c[1..][i - 1 := TakeBlock(c[1..][i - 1])];
      TakeCount(c[1..], i - 1);
    }
  }

  /** Descriptors that one page holds: three pointers and two 32-bit numbers each. */
  const DESCRIPTORS_PER_PAGE := PAGE_SIZE / (3 * 8 + 2 * 4)

  /** A free block of chain k is used: no page and no descriptor is taken. */
  ghost predicate UsesBlock(m: Model, m': Model, k: nat)
    requires k < |m.chains| == |m'.chains|
  {
    && m'.pages == m.pages && m'.home == m.home && m'.spare == m.spare
    && |m'.chains[k]| == |m.chains[k]| && FreeCount(m'.chains[k]) + 1 == FreeCount(m.chains[k])
  }

  /** Chain k gets a page, all of whose blocks but one are free, and the spare descriptors one if there are none. */
  ghost predicate UsesPage(m: Model, m': Model, k: nat)
    requires k < |m.chains| == |m'.chains| && k < CLASSES
  {
    && |m'.chains[k]| == |m.chains[k]| + 1 && FreeCount(m'.chains[k]) + 1 == PAGE_SIZE / Size(k)
    && m.pages.Keys <= m'.pages.Keys && |m'.pages| == |m.pages| + (if m.spare == [] then 2 else 1)
    && |m'.spare| + 1 == if m.spare == [] then DESCRIPTORS_PER_PAGE else |m.spare|
  }

  /** A call that finds a free block takes no page; any other that answers takes one, or two. */
  lemma CallTakes(m: Model, len: nat, cap: nat)
    requires Inv(m, cap) && Malloc(m, len, cap).1.Block?
    ensures var (k, m') := (ClassOf(len), Malloc(m, len, cap).0);
      && k < CLASSES == |m.chains| == |m'.chains|
      && if FreeCount(m.chains[k]) > 0 then UsesBlock(m, m', k) else UsesPage(m, m', k)
  {
    hide Inv, Size, FreeCount, ClassOf, UsesBlock, UsesPage, LowestFree;
    InvChains(m, cap);
    ClassOfMeaning(len);
    var k := ClassOf(len);
    var c := m.chains[k];
    FreeCountIff(c);
    var i := FirstWithFree(c, 0);
    if i < |c| {
      TakeUses(m, k, i);
    } else {
      var p := LowestFree(m.pages.Keys, 0, cap);
      if m.spare != [] {
        GrowUses(m, k, cap);
      } else {
        DescUses(m, k, p, cap);
      }
    }
  }

  lemma TakeUses(m: Model, k: nat, i: nat)
    requires k < |m.chains| && i < |m.chains[k]| && m.chains[k][i].free != []
    ensures UsesBlock(m, TakeAt(m, k, i), k)
  {
    TakeCount(m.chains[k], i);
  }

  lemma GrowUses(m: Model, k: nat, cap: nat)
    requires |m.chains| == CLASSES && k < CLASSES && m.spare != [] && FreeCount(m.chains[k]) == 0
    ensures var (m', r) := GrowChain(m, k, cap); r.Block? ==> |m'.chains| == CLASSES && UsesPage(m, m', k)
  {
    hide Size, FreeCount;
    var p := LowestFree(m.pages.Keys, 0, cap);
    if p != EOF {
      AddUses(m, k, p);
    }
  }

  lemma AddUses(m: Model, k: nat, page: nat)
    requires |m.chains| == CLASSES && k < CLASSES && m.spare != [] && page !in m.pages && FreeCount(m.chains[k]) == 0
    ensures UsesPage(m, AddBucket(m, k, page), k)
  {
    hide Size;
    var m' := AddBucket(m, k, page);
    assert m'.chains[k][1..] == m.chains[k];
    InitialFreeIsPage(page, k);
    assert m'.pages.Keys == m.pages.Keys + {page};
  }

  lemma CarvesPage(m: Model, page: nat)
    requires page !in m.pages
    ensures var m0 := AddDescPage(m, page);
      && m0.chains == m.chains && |m0.spare| == DESCRIPTORS_PER_PAGE
      && m0.pages.Keys == m.pages.Keys + {page} && |m0.pages| == |m.pages| + 1
  {
    assert AddDescPage(m, page).pages.Keys == m.pages.Keys + {page};
  }

  lemma DescUses(m: Model, k: nat, page: int, cap: nat)
    requires |m.chains| == CLASSES && k < CLASSES && m.spare == [] && FreeCount(m.chains[k]) == 0
    requires page == EOF || (0 <= page && page !in m.pages)
    ensures page != EOF ==>
      var (m', r) := GrowChain(AddDescPage(m, page), k, cap); r.Block? ==> |m'.chains| == CLASSES && UsesPage(m, m', k)
  {
    hide Size, FreeCount, GrowChain, AddDescPage;
    if page != EOF {
      CarvesPage(m, page);
      GrowUses(AddDescPage(m, page), k, cap);
    }
  }

  // ----- many calls

  /** Calls with these lengths, one after the other, all answer with a block, and lead from m to t. */
  ghost predicate Serves(m: Model, lens: seq<nat>, cap: nat, t: Model)
    decreases |lens|
  {
    |m.chains| == CLASSES &&
    if lens == [] then m == t
    else Malloc(m, lens[0], cap).1.Block? && Serves(Malloc(m, lens[0], cap).0, lens[1..], cap, t)
  }

  ghost predicate AllOf(lens: seq<nat>, n: nat) {
    forall i :: 0 <= i < |lens| ==> LeastPower(n, lens[i])
  }

  /** What calls of one class have taken so far: b pages for buckets, d for descriptors. */
  ghost predicate Taken(m: Model, t: Model, k: nat, calls: nat, b: nat, d: nat)
    requires k < |m.chains| == |t.chains| && k < CLASSES
  {
    && |t.chains[k]| == |m.chains[k]| + b && |t.pages| == |m.pages| + b + d
    && b * (PAGE_SIZE / Size(k)) + FreeCount(m.chains[k]) == calls + FreeCount(t.chains[k])
    && (b > 0 ==> FreeCount(t.chains[k]) < PAGE_SIZE / Size(k))
    && |t.spare| + b == |m.spare| + DESCRIPTORS_PER_PAGE * d && (d > 0 ==> |t.spare| < DESCRIPTORS_PER_PAGE)
  }

  lemma TakenFirst(m: Model, m': Model, t: Model, k: nat, calls: nat, b: nat, d: nat) returns (b': nat, d': nat)
    requires k < |m.chains| == |m'.chains| == |t.chains| && k < CLASSES
    requires if FreeCount(m.chains[k]) > 0 then UsesBlock(m, m', k) else UsesPage(m, m', k)
    requires Taken(m', t, k, calls, b, d)
    ensures Taken(m, t, k, calls + 1, b', d')
  {
    hide Size, FreeCount;
    var per := PAGE_SIZE / Size(k);
    if FreeCount(m.chains[k]) > 0 {
      b', d' := b, d;
    } else {
      b', d' := b + 1, if m.spare == [] then d + 1 else d;
      assert (b + 1) * per == b * per + per;
    }
  }

  lemma TakenNone(m: Model, k: nat)
    requires k < |m.chains| && k < CLASSES
    ensures Taken(m, m, k, 0, 0, 0)
  {
    hide Size;
  }

  lemma {:induction false} CallsTake(m: Model, lens: seq<nat>, n: nat, cap: nat, t: Model) returns (b: nat, d: nat)
    requires Inv(m, cap) && Serves(m, lens, cap, t) && AllOf(lens, n) && n <= PAGE_SIZE && LeastPower(n, n)
    ensures Inv(t, cap) && |m.chains| == |t.chains| == CLASSES
    ensures ClassOf(n) < CLASSES && Size(ClassOf(n)) == n && Taken(m, t, ClassOf(n), |lens|, b, d)
    decreases |lens|
  {
    hide Inv, Malloc, Taken, UsesBlock, UsesPage, LeastPower, ClassOf, Size, FreeCount;
    InvChains(m, cap);
    ClassOfPower(n, n);
    if lens == [] {
      b, d := 0, 0;
      TakenNone(m, ClassOf(n));
    } else {
      ClassOfPower(n, lens[0]);
      CallTakes(m, lens[0], cap);
      MallocKeeps(m, lens[0], cap);
      b, d := CallsTake(Malloc(m, lens[0], cap).0, lens[1..], n, cap, t);
      b, d := TakenFirst(m, Malloc(m, lens[0], cap).0, t, ClassOf(n), |lens[1..]|, b, d);
    }
  }

  /** Lengths with the same least power have the same class, whose blocks are that long. */
  lemma ClassOfPower(n: nat, len: nat)
    requires LeastPower(n, len) && n <= PAGE_SIZE
    ensures LeastPower(n, n) && ClassOf(len) == ClassOf(n) < CLASSES && Size(ClassOf(n)) == n
  {
    hide ClassOf;
    BlockLength(len);
    BlockLength(n);
    LeastPowerUnique(n, Size(ClassOf(len)), len);
    LeastPowerUnique(n, Size(ClassOf(n)), n);
    SameSize(ClassOf(len), ClassOf(n));
  }

  lemma SameSize(j: nat, k: nat)
    requires j < CLASSES && k < CLASSES && Size(j) == Size(k)
    ensures j == k
  {
  }

  function CeilDiv(x: nat, n: nat): nat
    requires n > 0
  {
    (x + n - 1) / n
  }

  lemma CeilIs(x: nat, n: nat, b: nat, rest: nat)
    requires n > 0 && b * n == x + rest && rest < n
    ensures CeilDiv(x, n) == b
  {
    DivUnique(x + n - 1, n, b, n - 1 - rest);
  }

  /** The call answers, and has to take a page. */
  ghost predicate TakesPage(m: Model, len: nat, cap: nat) {
    && |m.chains| == CLASSES && Malloc(m, len, cap).1.Block? && |Malloc(m, len, cap).0.pages| > |m.pages|
  }

  /**
   * From m to t a page has been taken for each 4096 / n calls, and for each 128 of those pages beyond the spare
   * descriptors one more.
   */
  ghost predicate PagesTaken(m: Model, t: Model, calls: nat, n: nat) {
    && 0 < n <= PAGE_SIZE
    && var buckets := CeilDiv(calls, PAGE_SIZE / n);
    |t.pages| == |m.pages| + buckets +
      if buckets <= |m.spare| then 0 else CeilDiv(buckets - |m.spare|, DESCRIPTORS_PER_PAGE)
  }

  /**
   * How many pages calls take, all for blocks of n bytes, n the least power of two that will do, when the first of them
   * has to take one.
   */
  lemma PagesForCalls(m: Model, lens: seq<nat>, n: nat, cap: nat, t: Model)
    requires Inv(m, cap) && Serves(m, lens, cap, t) && AllOf(lens, n) && lens != [] && TakesPage(m, lens[0], cap)
    ensures PagesTaken(m, t, |lens|, n)
  {
    hide Inv, Malloc, LeastPower, ClassOf, FreeCount, Size, Taken, CeilDiv, Serves, TakesPage;
    FirstTakesPage(m, lens[0], cap);
    LensSmall(m, lens[0], n, cap);
    ClassOfPower(n, lens[0]);
    var b, d := CallsTake(m, lens, n, cap, t);
    TakenPages(m, t, ClassOf(n), |lens|, b, d);
  }

  lemma FirstTakesPage(m: Model, len: nat, cap: nat)
    requires Inv(m, cap) && TakesPage(m, len, cap)
    ensures |m.chains| == CLASSES && Malloc(m, len, cap).1.Block?
    ensures ClassOf(len) < CLASSES && FreeCount(m.chains[ClassOf(len)]) == 0
  {
    hide Inv, Malloc, ClassOf, FreeCount;
    CallTakes(m, len, cap);
  }

  lemma LensSmall(m: Model, len: nat, n: nat, cap: nat)
    requires Inv(m, cap) && |m.chains| == CLASSES && Malloc(m, len, cap).1.Block? && LeastPower(n, len)
    ensures 0 < n <= PAGE_SIZE
  {
    hide Inv;
    MallocFailsIff(m, len, cap);
    PowersOfClasses();
    assert IsPower(Pow2(12));
  }

  lemma TakenPages(m: Model, t: Model, k: nat, calls: nat, b: nat, d: nat)
    requires k < |m.chains| == |t.chains| && k < CLASSES && Taken(m, t, k, calls, b, d) && calls > 0
    requires FreeCount(m.chains[k]) == 0
    ensures PagesTaken(m, t, calls, Size(k))
  {
    hide Size, FreeCount, CeilDiv;
    var per := PAGE_SIZE / Size(k);
    assert b == 0 ==> b * per == 0;
    assert b > 0;
    CeilIs(calls, PAGE_SIZE / Size(k), b, FreeCount(t.chains[k]));
    if b > |m.spare| {
      CeilIs(b - |m.spare|, DESCRIPTORS_PER_PAGE, d, |t.spare|);
    }
  }

  // ----- kmalloc and kfree_s undo one another

  lemma GiveTaken(m: Model, k: nat, i: nat)
    requires k < |m.chains| && i < |m.chains[k]| && m.chains[k][i].free != []
    requires m.chains[k][i].free[0] !in m.chains[k][i].live && m.chains[k][i].live != {}
    ensures PutBack(TakeAt(m, k, i), k, i, m.chains[k][i].free[0]) == m
  {
    var b, m' := m.chains[k][i], TakeAt(m, k, i);
    var p := b.free[0];
    assert b.live + {p} != {p} by {
      var q :| q in b.live;
      assert q != p;
    }
    assert GiveBlock(TakeBlock(b), p) == b by {
      assert [p] + b.free[1..] == b.free && b.live + {p} - {p} == b.live;
    }
    assert m.chains[k][i := TakeBlock(b)][i := b] == m.chains[k];
    assert m.chains[k := m'.chains[k]][k := m.chains[k]] == m.chains;
  }

  /** The page of a live block leads back to its bucket. */
  lemma FoundAgain(m: Model, cap: nat, k: nat, i: nat, p: nat)
    requires Inv(m, cap) && k < CLASSES && i < |m.chains[k]| && p in m.chains[k][i].live
    ensures FindPage(m.chains[k], p - p % PAGE_SIZE, 0) == i
  {
    hide Inv;
    InvChains(m, cap);
    assert Live(m, k, p);
    LivePage(m, cap, k, p);
    var j := FindPage(m.chains[k], p - p % PAGE_SIZE, 0);
    BlockOfBucket(m, cap, k, i, p);
    BlockOfBucket(m, cap, k, j, p);
    OneOwner(m, cap, k, i, k, j, p);
  }

  lemma FreeApart(m: Model, cap: nat, k: nat, i: nat)
    requires Inv(m, cap) && k < CLASSES && i < |m.chains[k]| && m.chains[k][i].free != []
    ensures m.chains[k][i].free[0] !in m.chains[k][i].live && m.chains[k][i].live != {}
  {
    var b := m.chains[k][i];
    assert BucketOk(m, k, b);
    assert b.free[0] in Elements(b.free);
  }

  lemma TakeThenFree(m: Model, k: nat, i: nat, len: nat, cap: nat)
    requires Inv(m, cap) && |m.chains| == CLASSES && ClassOf(len) == k < CLASSES
    requires i < |m.chains[k]| && m.chains[k][i].free != []
    ensures Free(TakeAt(m, k, i), m.chains[k][i].free[0], len) == (m, Freed)
  {
    hide Inv, ClassOf, GainsLive, PutBack;
    var m', p := TakeAt(m, k, i), m.chains[k][i].free[0];
    TakeKeeps(m, cap, k, i);
    assert p in TakeBlock(m.chains[k][i]).live;
    FoundAgain(m', cap, k, i, p);
    FreeApart(m, cap, k, i);
    GiveTaken(m, k, i);
  }

  lemma AddThenFree(m: Model, k: nat, page: nat, len: nat, cap: nat)
    requires Inv(m, cap) && ClassOf(len) == k < CLASSES && m.spare != [] && page < cap && page !in m.pages
    ensures Free(AddBucket(m, k, page), Base(page), len) == (m, Freed)
  {
    hide ClassOf, Size;
    var m', d := AddBucket(m, k, page), m.spare[0];
    assert d in m.spare && m.home[d] == Spare;
    PageOfOffset(page, 0);
    NewBucketOk(m, cap, k, page);
    assert FindPage(m'.chains[k], Base(page) - Base(page) % PAGE_SIZE, 0) == 0;
    DropAdded(m, k, page);
  }

  lemma DropAdded(m: Model, k: nat, page: nat)
    requires |m.chains| == CLASSES && k < CLASSES && m.spare != [] && page !in m.pages
    requires m.spare[0] in m.home && m.home[m.spare[0]] == Spare
    ensures DropBucket(AddBucket(m, k, page), k, 0) == m
  {
    hide Size;
    var m', d := AddBucket(m, k, page), m.spare[0];
    var b := m'.chains[k][0];
    assert [b] + m.chains[k] == m'.chains[k] && m'.chains[k][..0] + m'.chains[k][1..] == m.chains[k];
    assert m.chains[k := m'.chains[k]][k := m.chains[k]] == m.chains;
    assert [d] + m.spare[1..] == m.spare;
    assert m.home[d := Linked(k)][d := Spare] == m.home;
    assert m.pages[page := BucketPage(k)] - {page} == m.pages;
  }

  /** Freeing what kmalloc has just handed out undoes it, but for a page of descriptors, which stays. */
  lemma MallocThenFree(m: Model, len: nat, cap: nat)
    requires Inv(m, cap) && |m.chains| == CLASSES && Malloc(m, len, cap).1.Block?
    ensures var (m', r) := Malloc(m, len, cap);
      Free(m', r.ptr, len) == (if UsesSpare(m, len) then m else AddDescPage(m, LowestFree(m.pages.Keys, 0, cap)), Freed)
  {
    hide Inv, ClassOf, Free, AddBucket;
    ClassOfMeaning(len);
    var k := ClassOf(len);
    var c := m.chains[k];
    var i := FirstWithFree(c, 0);
    if i < |c| {
      TakeThenFree(m, k, i, len, cap);
    } else {
      var p := LowestFree(m.pages.Keys, 0, cap);
      if m.spare != [] {
        AddThenFree(m, k, p, len, cap);
      } else {
        AddDescKeeps(m, cap, p);
        AddThenFree(AddDescPage(m, p), k, LowestFree(AddDescPage(m, p).pages.Keys, 0, cap), len, cap);
      }
    }
  }

  /** There is a free block for the length, or a descriptor for a new bucket. */
  ghost predicate UsesSpare(m: Model, len: nat)
    requires |m.chains| == CLASSES
  {
    ClassOf(len) < CLASSES && (m.spare != [] || !Exhausted(m.chains[ClassOf(len)]))
  }

  lemma FirstFree(c: seq<Bucket>, i: nat)
    requires i < |c| && c[i].free != [] && forall j :: 0 <= j < i ==> c[j].free == []
    ensures FirstWithFree(c, 0) == i
  {
  }

  /**
   * A block freed is the next one handed out, and that undoes the free, if it was not the last one in its page and the
   * pages before it in the chain are full.
   */
  lemma FreeThenMalloc(m: Model, p: nat, len: nat, again: nat, cap: nat)
    requires Inv(m, cap) && |m.chains| == CLASSES && Live(m, ClassOf(len), p)
    requires ClassOf(again) == ClassOf(len) < CLASSES
    requires var i := FindPage(m.chains[ClassOf(len)], p - p % PAGE_SIZE, 0);
      i < |m.chains[ClassOf(len)]| ==>
        m.chains[ClassOf(len)][i].live != {p} && Exhausted(m.chains[ClassOf(len)][..i])
    ensures Free(m, p, len).1 == Freed && Malloc(Free(m, p, len).0, again, cap) == (m, Block(p))
  {
    hide Inv, ClassOf, Size;
    var k := ClassOf(len);
    var c := m.chains[k];
    LivePage(m, cap, k, p);
    var i := FindPage(c, p - p % PAGE_SIZE, 0);
    var b := c[i];
    var m' := PutBack(m, k, i, p);
    assert m'.chains[k] == c[i := GiveBlock(b, p)];
    assert forall j :: 0 <= j < i ==> c[j] == c[..i][j];
    FirstFree(m'.chains[k], i);
    assert TakeBlock(GiveBlock(b, p)) == b by {
      assert ([p] + b.free)[1..] == b.free && b.live - {p} + {p} == b.live;
    }
    assert c[i := GiveBlock(b, p)][i := b] == c;
    assert m.chains[k := m'.chains[k]][k := c] == m.chains;
  }
}
