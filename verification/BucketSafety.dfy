/** What every call of the bucket allocator keeps, and what follows for its callers. */
module BucketSafety {
  import opened Arith
  import opened PhysicalPages
  import opened Sequences
  import opened BucketModel

  // ----- addresses

  /** Blocks of one page and class: same block or a whole block apart. */
  lemma BlocksApart(page: nat, k: nat, p: nat, q: nat)
    requires k < CLASSES && p in Blocks(page, k) && q in Blocks(page, k) && p != q
    ensures p + Size(k) <= q || q + Size(k) <= p
  {
    var low, high := if p < q then p else q, if p < q then q else p;
    MultiplesApart(low - Base(page), high - Base(page), Size(k));
  }

  lemma BlockInPage(page: nat, k: nat, p: nat)
    requires k < CLASSES && p in Blocks(page, k)
    ensures Base(page) <= p && p + Size(k) <= Base(page) + PAGE_SIZE
    ensures PageOf(p) == page && p - p % PAGE_SIZE == Base(page)
  {
    DivRoom(p - Base(page), Size(k), PAGE_SIZE);
    PageOfOffset(page, p - Base(page));
  }

  lemma PageOfOffset(page: nat, d: nat)
    requires d < PAGE_SIZE
    ensures PageOf(Base(page) + d) == page && (Base(page) + d) % PAGE_SIZE == d
  {
    assert Base(page) + d - MANAGER_START == page * PAGE_SIZE + d;
    DivUnique(page * PAGE_SIZE + d, PAGE_SIZE, page, d);
    DivUnique(Base(page) + d, PAGE_SIZE, MANAGER_START / PAGE_SIZE + page, d);
  }

  lemma BlockAligned(page: nat, k: nat, p: nat)
    requires k < CLASSES && p in Blocks(page, k)
    ensures p % Size(k) == 0
  {
    assert Base(page) == (MANAGER_START / PAGE_SIZE + page) * PAGE_SIZE;
    var d := p - Base(page);
    var n := Size(k);
    var w := PAGE_SIZE / n;
    assert d == d / n * n && PAGE_SIZE == w * n;
    assert (MANAGER_START / PAGE_SIZE + page) * (w * n) + d / n * n ==
      ((MANAGER_START / PAGE_SIZE + page) * w + d / n) * n;
    DivMul((MANAGER_START / PAGE_SIZE + page) * w + d / n, n);
  }

  function BlockNumber(page: nat, k: nat, b: nat): (j: nat)
    requires k < CLASSES && b in Blocks(page, k)
    ensures j < PAGE_SIZE / Size(k) && BlockAddr(page, k, j) == b
  {
    DivRoom(b - Base(page), Size(k), PAGE_SIZE);
    (b - Base(page)) / Size(k)
  }

  lemma BlockOfNumber(page: nat, k: nat, j: nat)
    requires k < CLASSES && j < PAGE_SIZE / Size(k)
    ensures BlockAddr(page, k, j) in Blocks(page, k)
    ensures BlockNumber(page, k, BlockAddr(page, k, j)) == j
  {
    Multiple(j, Size(k), PAGE_SIZE);
  }

  /** The threaded free list visits every block of the page once. */
  lemma InitialFreeIsPage(page: nat, k: nat)
    requires k < CLASSES
    ensures Distinct(InitialFree(page, k)) && Elements(InitialFree(page, k)) == Blocks(page, k)
    ensures InitialFree(page, k) != [] && InitialFree(page, k)[0] == Base(page)
  {
    var f := InitialFree(page, k);
    forall b: nat | b in Blocks(page, k)
      ensures b in f
    {
      var j := BlockNumber(page, k, b);
      assert f[j] == b;
    }
    forall j: nat | j < |f|
      ensures f[j] in Blocks(page, k)
    {
      BlockOfNumber(page, k, j);
    }
    forall i, j | 0 <= i < j < |f|
      ensures f[i] != f[j]
    {
      BlockOfNumber(page, k, i);
      BlockOfNumber(page, k, j);
    }
  }

  // ----- one bucket

  /** An address lies in at most one linked bucket. */
  lemma OneOwner(m: Model, cap: nat, k: nat, i: nat, l: nat, j: nat, p: nat)
    requires Inv(m, cap) && k < CLASSES && l < CLASSES && i < |m.chains[k]| && j < |m.chains[l]|
    requires PageOf(p) == m.chains[k][i].page && PageOf(p) == m.chains[l][j].page
    ensures k == l && i == j
  {
    assert BucketOk(m, k, m.chains[k][i]) && BucketOk(m, l, m.chains[l][j]);
    assert DistinctChain(m.chains[k]);
  }

  /** A block handed out, or on a free list, belongs to the page of its bucket. */
  lemma BlockOfBucket(m: Model, cap: nat, k: nat, i: nat, p: nat)
    requires Inv(m, cap) && k < CLASSES && i < |m.chains[k]|
    requires p in m.chains[k][i].live || p in m.chains[k][i].free
    ensures p in Blocks(m.chains[k][i].page, k) && PageOf(p) == m.chains[k][i].page
    ensures p - p % PAGE_SIZE == Base(m.chains[k][i].page)
  {
    var b := m.chains[k][i];
    assert BucketOk(m, k, b);
    assert p in Elements(b.free) + b.live;
    BlockInPage(b.page, k, p);
  }

  lemma FreeNotLive(m: Model, cap: nat, k: nat, i: nat, p: nat, l: nat)
    requires Inv(m, cap) && k < CLASSES && i < |m.chains[k]| && p in m.chains[k][i].free
    ensures !Live(m, l, p)
  {
    assert BucketOk(m, k, m.chains[k][i]) && p in Elements(m.chains[k][i].free);
    if Live(m, l, p) {
      var j :| 0 <= j < |m.chains[l]| && p in m.chains[l][j].live;
      BlockOfBucket(m, cap, k, i, p);
      BlockOfBucket(m, cap, l, j, p);
      OneOwner(m, cap, k, i, l, j, p);
      assert false;
    }
  }

  /** Bucket i of chain k is replaced by one on the same page with the same descriptor. */
  ghost predicate Replaces(m: Model, m': Model, k: nat, i: nat, b: Bucket) {
    && k < CLASSES == |m.chains| && i < |m.chains[k]|
    && b.desc == m.chains[k][i].desc && b.page == m.chains[k][i].page
    && m' == WithChain(m, k, m.chains[k][i := b])
  }

  lemma ReplaceKeeps(m: Model, m': Model, cap: nat, k: nat, i: nat, b: Bucket)
    requires Inv(m, cap) && Replaces(m, m', k, i, b) && BucketOk(m, k, b)
    ensures Inv(m', cap)
  {
    ReplaceChains(m, m', k, i, b);
    SameMembers(m.chains[k], i, b);
  }

  lemma ReplaceChains(m: Model, m': Model, k: nat, i: nat, b: Bucket)
    requires BucketsOk(m) && ChainsDistinct(m) && Replaces(m, m', k, i, b) && BucketOk(m, k, b)
    ensures BucketsOk(m') && ChainsDistinct(m')
  {
    forall l, j | 0 <= l < CLASSES && 0 <= j < |m'.chains[l]|
      ensures BucketOk(m', l, m'.chains[l][j])
    {
      assert BucketOk(m, l, m.chains[l][j]);
    }
    assert DistinctChain(m.chains[k]);
    forall l | 0 <= l < CLASSES
      ensures DistinctChain(m'.chains[l])
    {
      assert DistinctChain(m.chains[l]);
    }
  }

  lemma SameMembers(c: seq<Bucket>, i: nat, b: Bucket)
    requires i < |c| && b.desc == c[i].desc && b.page == c[i].page
    ensures forall d :: DescIn(c, d) ==> DescIn(c[i := b], d)
    ensures forall p :: PageIn(c, p) ==> PageIn(c[i := b], p)
  {
    var c' := c[i := b];
    forall d | DescIn(c, d)
      ensures DescIn(c', d)
    {
      var j :| 0 <= j < |c| && c[j].desc == d;
      assert c'[j].desc == d;
    }
    forall p | PageIn(c, p)
      ensures PageIn(c', p)
    {
      var j :| 0 <= j < |c| && c[j].page == p;
      assert c'[j].page == p;
    }
  }

  lemma ReplaceLive(c: seq<Bucket>, i: nat, b: Bucket, q: nat)
    requires i < |c| && (forall j :: 0 <= j < |c| && j != i ==> !(q in c[j].live && q in c[i].live))
    ensures LiveIn(c[i := b], q) <==> q in b.live || (LiveIn(c, q) && q !in c[i].live)
  {
    var c' := c[i := b];
    if LiveIn(c, q) && q !in c[i].live {
      var j :| 0 <= j < |c| && q in c[j].live;
      assert q in c'[j].live;
    }
    if q in b.live {
      assert q in c'[i].live;
    }
    forall j | 0 <= j < |c'| && q in c'[j].live
      ensures q in b.live || (LiveIn(c, q) && q !in c[i].live)
    {
      assert j != i ==> q in c[j].live;
    }
  }

  lemma TakeOk(m: Model, k: nat, b: Bucket)
    requires k < CLASSES && BucketShape(m, k, b) && b.free != []
    ensures BucketOk(m, k, TakeBlock(b))
  {
    assert b.free == [b.free[0]] + b.free[1..];
    assert Elements(b.free) == {b.free[0]} + Elements(b.free[1..]);
  }

  lemma GiveOk(m: Model, k: nat, b: Bucket, p: nat)
    requires k < CLASSES && BucketOk(m, k, b) && p in b.live && b.live != {p}
    ensures BucketOk(m, k, GiveBlock(b, p))
  {
    assert Elements([p] + b.free) == {p} + Elements(b.free);
    assert b.live == {p} + (b.live - {p});
  }

  // ----- whole chains

  /** Every bucket of m, in whatever place, is still a good bucket of m'. */
  ghost predicate BucketsCarry(m: Model, m': Model, k: nat, i: int)
    requires |m.chains| == CLASSES
  {
    forall l, j :: 0 <= l < CLASSES && 0 <= j < |m.chains[l]| && (l, j) != (k, i) ==> BucketOk(m', l, m.chains[l][j])
  }

  lemma FreshPageNotLive(m: Model, cap: nat, page: nat, l: nat)
    requires Inv(m, cap) && page !in m.pages
    ensures !Live(m, l, Base(page))
  {
    forall j | l < CLASSES && 0 <= j < |m.chains[l]|
      ensures Base(page) !in m.chains[l][j].live
    {
      var b := m.chains[l][j];
      assert BucketOk(m, l, b) && b.live <= Blocks(b.page, l);
    }
  }

  lemma AddCarries(m: Model, cap: nat, k: nat, page: nat)
    requires Inv(m, cap) && k < CLASSES && m.spare != [] && page !in m.pages
    ensures BucketsCarry(m, AddBucket(m, k, page), k, -1)
  {
    assert m.spare[0] in m.spare;
    forall l, j | 0 <= l < CLASSES && 0 <= j < |m.chains[l]|
      ensures BucketOk(AddBucket(m, k, page), l, m.chains[l][j])
    {
      assert BucketOk(m, l, m.chains[l][j]);
    }
  }

  lemma NewBucketOk(m: Model, cap: nat, k: nat, page: nat)
    requires Inv(m, cap) && k < CLASSES && m.spare != [] && page !in m.pages
    ensures BucketOk(AddBucket(m, k, page), k, AddBucket(m, k, page).chains[k][0])
    ensures AddBucket(m, k, page).chains[k][0].live == {Base(page)}
  {
    InitialFreeIsPage(page, k);
    TakeOk(AddBucket(m, k, page), k, Bucket(m.spare[0], page, InitialFree(page, k), {}));
  }

  lemma PushMembers(c: seq<Bucket>, b: Bucket)
    ensures forall d :: DescIn([b] + c, d) <==> d == b.desc || DescIn(c, d)
    ensures forall p :: PageIn([b] + c, p) <==> p == b.page || PageIn(c, p)
  {
    var c' := [b] + c;
    assert c'[0] == b && forall j :: 0 <= j < |c| ==> c'[j + 1] == c[j];
    forall d
      ensures DescIn(c', d) <==> d == b.desc || DescIn(c, d)
    {
      if DescIn(c, d) {
        var j :| 0 <= j < |c| && c[j].desc == d;
        assert c'[j + 1].desc == d;
      }
    }
    forall p
      ensures PageIn(c', p) <==> p == b.page || PageIn(c, p)
    {
      if PageIn(c, p) {
        var j :| 0 <= j < |c| && c[j].page == p;
        assert c'[j + 1].page == p;
      }
    }
  }

  lemma AddChains(m: Model, cap: nat, k: nat, page: nat)
    requires Inv(m, cap) && k < CLASSES && m.spare != [] && page < cap && page !in m.pages
    ensures BucketsOk(AddBucket(m, k, page)) && ChainsDistinct(AddBucket(m, k, page))
  {
    var m' := AddBucket(m, k, page);
    AddCarries(m, cap, k, page);
    NewBucketOk(m, cap, k, page);
    forall l, j | 0 <= l < CLASSES && 0 <= j < |m'.chains[l]|
      ensures BucketOk(m', l, m'.chains[l][j])
    {
      if l == k && j > 0 {
        assert m'.chains[l][j] == m.chains[l][j - 1];
      }
    }
    assert m.spare[0] in m.spare;
    forall l | 0 <= l < CLASSES
      ensures DistinctChain(m'.chains[l])
    {
      assert DistinctChain(m.chains[l]);
      forall j | 0 <= j < |m.chains[k]|
        ensures m.chains[k][j].desc != m.spare[0] && m.chains[k][j].page != page
      {
        assert BucketOk(m, k, m.chains[k][j]);
      }
    }
  }

  lemma AddKeeps(m: Model, cap: nat, k: nat, page: nat)
    requires Inv(m, cap) && k < CLASSES && m.spare != [] && page < cap && page !in m.pages
    ensures Inv(AddBucket(m, k, page), cap)
  {
    var m' := AddBucket(m, k, page);
    AddChains(m, cap, k, page);
    PushMembers(m.chains[k], m'.chains[k][0]);
    assert m.spare[0] in m.spare && forall x :: x in m'.spare ==> x in m.spare && x != m.spare[0];
  }

  lemma PushLive(c: seq<Bucket>, b: Bucket, q: nat)
    ensures LiveIn([b] + c, q) <==> q in b.live || LiveIn(c, q)
  {
    var c' := [b] + c;
    if LiveIn(c, q) {
      var j :| 0 <= j < |c| && q in c[j].live;
      assert q in c'[j + 1].live;
    }
    if q in b.live {
      assert q in c'[0].live;
    }
  }

  lemma AddLive(m: Model, cap: nat, k: nat, page: nat, l: nat, q: nat)
    requires Inv(m, cap) && k < CLASSES && m.spare != [] && page !in m.pages
    ensures Live(AddBucket(m, k, page), l, q) <==> Live(m, l, q) || (l == k && q == Base(page))
  {
    NewBucketOk(m, cap, k, page);
    PushLive(m.chains[k], AddBucket(m, k, page).chains[k][0], q);
  }

  /** The slots of a page are exactly the descriptor-sized cells in it, each listed once. */
  lemma SlotPlace(page: nat, j: nat)
    requires j < PAGE_SIZE / DESC_SIZE
    ensures var d := Base(page) + j * DESC_SIZE; d >= MANAGER_START && PageOf(d) == page && d % DESC_SIZE == 0
  {
    PageOfOffset(page, j * DESC_SIZE);
    DivUnique(Base(page) + j * DESC_SIZE, DESC_SIZE, MANAGER_START / DESC_SIZE + page * (PAGE_SIZE / DESC_SIZE) + j, 0);
  }

  lemma PlaceOfSlot(page: nat, d: nat) returns (j: nat)
    requires d >= MANAGER_START && PageOf(d) == page && d % DESC_SIZE == 0
    ensures j < PAGE_SIZE / DESC_SIZE && d == Base(page) + j * DESC_SIZE
  {
    assert Base(page) <= d < Base(page) + PAGE_SIZE;
    var i: int := d / DESC_SIZE - MANAGER_START / DESC_SIZE - page * (PAGE_SIZE / DESC_SIZE);
    assert d == Base(page) + i * DESC_SIZE;
    j := i;
  }

  lemma SlotsFillPage(page: nat)
    ensures Distinct(Slots(page))
    ensures forall d: nat :: d in Slots(page) <==> d >= MANAGER_START && PageOf(d) == page && d % DESC_SIZE == 0
  {
    hide PageOf, Base;
    forall d: nat | d >= MANAGER_START && PageOf(d) == page && d % DESC_SIZE == 0
      ensures d in Slots(page)
    {
      var j := PlaceOfSlot(page, d);
      assert Slots(page)[j] == d;
    }
    forall d: nat | d in Slots(page)
      ensures d >= MANAGER_START && PageOf(d) == page && d % DESC_SIZE == 0
    {
      var j :| 0 <= j < PAGE_SIZE / DESC_SIZE && Slots(page)[j] == d;
      SlotPlace(page, j);
    }
  }

  lemma AddDescKeeps(m: Model, cap: nat, page: nat)
    requires Inv(m, cap) && m.spare == [] && page < cap && page !in m.pages
    ensures Inv(AddDescPage(m, page), cap)
    ensures forall l, q :: Live(AddDescPage(m, page), l, q) == Live(m, l, q)
  {
    var m' := AddDescPage(m, page);
    AddDescHomes(m, cap, page);
    hide HomesOk, SpareOk;
    forall l, j | 0 <= l < CLASSES && 0 <= j < |m'.chains[l]|
      ensures BucketOk(m', l, m'.chains[l][j])
    {
      assert BucketOk(m, l, m.chains[l][j]);
    }
  }

  lemma AddDescHomes(m: Model, cap: nat, page: nat)
    requires Inv(m, cap) && m.spare == [] && page < cap && page !in m.pages
    ensures SpareOk(AddDescPage(m, page)) && HomesOk(AddDescPage(m, page))
  {
    hide BucketsOk, ChainsDistinct, PagesOk;
    var m' := AddDescPage(m, page);
    SlotsFillPage(page);
    forall d | d in m'.home
      ensures m'.home[d] == Spare ==> d in m'.spare
    {
      assert d in m.home ==> m.home[d] != Spare;
    }
  }

  lemma LoseKeeps(m: Model, cap: nat)
    requires Inv(m, cap) && m.spare != []
    ensures Inv(LoseDesc(m), cap)
    ensures forall l, q :: Live(LoseDesc(m), l, q) == Live(m, l, q)
  {
    var m' := LoseDesc(m);
    assert m.spare[0] in m.spare && forall x :: x in m'.spare ==> x in m.spare && x != m.spare[0];
    forall l, j | 0 <= l < CLASSES && 0 <= j < |m'.chains[l]|
      ensures BucketOk(m', l, m'.chains[l][j])
    {
      assert BucketOk(m, l, m.chains[l][j]);
    }
  }

  lemma RemoveMembers(c: seq<Bucket>, i: nat)
    requires i < |c|
    ensures forall d :: DescIn(c, d) && d != c[i].desc ==> DescIn(c[..i] + c[i + 1..], d)
    ensures forall p :: PageIn(c, p) && p != c[i].page ==> PageIn(c[..i] + c[i + 1..], p)
  {
    var c' := c[..i] + c[i + 1..];
    forall d | DescIn(c, d) && d != c[i].desc
      ensures DescIn(c', d)
    {
      var j :| 0 <= j < |c| && c[j].desc == d;
      assert c'[if j < i then j else j - 1].desc == d;
    }
    forall p | PageIn(c, p) && p != c[i].page
      ensures PageIn(c', p)
    {
      var j :| 0 <= j < |c| && c[j].page == p;
      assert c'[if j < i then j else j - 1].page == p;
    }
  }

  lemma DropBuckets(m: Model, cap: nat, k: nat, i: nat)
    requires Inv(m, cap) && k < CLASSES && i < |m.chains[k]|
    ensures BucketsOk(DropBucket(m, k, i))
  {
    var m' := DropBucket(m, k, i);
    assert DistinctChain(m.chains[k]) && BucketOk(m, k, m.chains[k][i]);
    forall l, j | 0 <= l < CLASSES && 0 <= j < |m'.chains[l]|
      ensures BucketOk(m', l, m'.chains[l][j])
    {
      var h := if l == k && j >= i then j + 1 else j;
      assert m'.chains[l][j] == m.chains[l][h] && BucketOk(m, l, m.chains[l][h]);
    }
  }

  lemma RemoveDistinct(c: seq<Bucket>, i: nat)
    requires i < |c| && DistinctChain(c)
    ensures DistinctChain(c[..i] + c[i + 1..])
  {
  }

  lemma DropChains(m: Model, cap: nat, k: nat, i: nat)
    requires Inv(m, cap) && k < CLASSES && i < |m.chains[k]|
    ensures BucketsOk(DropBucket(m, k, i)) && ChainsDistinct(DropBucket(m, k, i))
  {
    DropBuckets(m, cap, k, i);
    assert DistinctChain(m.chains[k]);
    RemoveDistinct(m.chains[k], i);
  }

  /** Releasing a bucket from any position of its chain keeps all the others. */
  lemma DropKeeps(m: Model, cap: nat, k: nat, i: nat)
    requires Inv(m, cap) && k < CLASSES && i < |m.chains[k]|
    ensures Inv(DropBucket(m, k, i), cap)
  {
    var m' := DropBucket(m, k, i);
    assert BucketOk(m, k, m.chains[k][i]);
    DropChains(m, cap, k, i);
    RemoveMembers(m.chains[k], i);
    assert m.chains[k][i].desc !in m.spare;
  }

  lemma LiveOnce(m: Model, cap: nat, k: nat, i: nat, j: nat, p: nat)
    requires Inv(m, cap) && k < CLASSES && i < |m.chains[k]| && j < |m.chains[k]| && i != j
    requires p in m.chains[k][i].live
    ensures p !in m.chains[k][j].live
  {
    BlockOfBucket(m, cap, k, i, p);
    assert BucketOk(m, k, m.chains[k][j]) && DistinctChain(m.chains[k]);
    if p in m.chains[k][j].live {
      BlockOfBucket(m, cap, k, j, p);
      assert false;
    }
  }

  lemma RemoveLive(c: seq<Bucket>, i: nat, q: nat)
    requires i < |c| && (q in c[i].live ==> forall j :: 0 <= j < |c| && j != i ==> q !in c[j].live)
    ensures LiveIn(c[..i] + c[i + 1..], q) <==> LiveIn(c, q) && q !in c[i].live
  {
    var c' := c[..i] + c[i + 1..];
    if LiveIn(c, q) && q !in c[i].live {
      var j :| 0 <= j < |c| && q in c[j].live;
      assert q in c'[if j > i then j - 1 else j].live;
    }
    forall j | 0 <= j < |c'| && q in c'[j].live
      ensures LiveIn(c, q) && q !in c[i].live
    {
      assert c'[j] == c[if j >= i then j + 1 else j];
    }
  }

  lemma DropLive(m: Model, cap: nat, k: nat, i: nat, p: nat, l: nat, q: nat)
    requires Inv(m, cap) && k < CLASSES && i < |m.chains[k]| && m.chains[k][i].live == {p}
    ensures Live(DropBucket(m, k, i), l, q) <==> Live(m, l, q) && (l, q) != (k, p)
  {
    forall j | q == p && 0 <= j < |m.chains[k]| && j != i
      ensures q !in m.chains[k][j].live
    {
      LiveOnce(m, cap, k, i, j, p);
    }
    RemoveLive(m.chains[k], i, q);
  }
}
