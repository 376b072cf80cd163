/**
 * How the chains, descriptors and free-block links of the bucket allocator lie in memory, and how each write changes
 * them.
 */
module BucketMemory {
  import opened PhysicalPages
  import opened Sequences
  import opened BucketModel
  import opened BucketSafety

  /** struct bucket_desc. */
  datatype Desc = Desc(page: nat, next: nat, freeBlock: nat, refCnt: nat, blockSize: nat)

  /** What memory holds: the directory, the head of the spare chain, the descriptors and the links, by address. */
  datatype Image = Image(dir: seq<nat>, spare: nat, desc: map<nat, Desc>, link: map<nat, nat>)

  function Head(s: seq<nat>): nat {
    if s == [] then NULL else s[0]
  }

  function Nth(s: seq<nat>, i: nat): nat {
    if i < |s| then s[i] else NULL
  }

  function DescAt(c: seq<Bucket>, i: nat): nat {
    if i < |c| then c[i].desc else NULL
  }

  function Stored(c: seq<Bucket>, i: nat, k: nat): Desc
    requires i < |c| && k < CLASSES
  {
    Desc(Base(c[i].page), DescAt(c, i + 1), Head(c[i].free), |c[i].live|, Size(k))
  }

  ghost predicate NodeRep(desc: map<nat, Desc>, c: seq<Bucket>, k: nat, i: nat)
    requires k < CLASSES && i < |c|
  {
    c[i].desc in desc && desc[c[i].desc] == Stored(c, i, k)
  }

  ghost predicate BlockRep(link: map<nat, nat>, f: seq<nat>, i: nat)
    requires i < |f|
  {
    f[i] in link && link[f[i]] == Nth(f, i + 1)
  }

  ghost predicate SlotRep(desc: map<nat, Desc>, s: seq<nat>, i: nat)
    requires i < |s|
  {
    s[i] in desc && desc[s[i]].next == Nth(s, i + 1)
  }

  /** A chain is linked through its descriptors, and each descriptor describes its bucket. */
  ghost predicate ChainRep(desc: map<nat, Desc>, head: nat, c: seq<Bucket>, k: nat)
    requires k < CLASSES
  {
    head == DescAt(c, 0) && forall i :: 0 <= i < |c| ==> NodeRep(desc, c, k, i)
  }

  /** Each free block stores the address of the next; the last stores NULL. */
  ghost predicate FreeRep(link: map<nat, nat>, f: seq<nat>) {
    forall i :: 0 <= i < |f| ==> BlockRep(link, f, i)
  }

  ghost predicate FreesRep(link: map<nat, nat>, c: seq<Bucket>) {
    forall i :: 0 <= i < |c| ==> FreeRep(link, c[i].free)
  }

  ghost predicate SpareRep(desc: map<nat, Desc>, head: nat, s: seq<nat>) {
    head == Head(s) && forall i :: 0 <= i < |s| ==> SlotRep(desc, s, i)
  }

  ghost predicate ChainsRep(desc: map<nat, Desc>, dir: seq<nat>, chains: seq<seq<Bucket>>) {
    && |chains| == CLASSES == |dir|
    && forall k :: 0 <= k < CLASSES ==> ChainRep(desc, dir[k], chains[k], k)
  }

  ghost predicate AllFreesRep(link: map<nat, nat>, chains: seq<seq<Bucket>>) {
    forall k :: 0 <= k < |chains| ==> FreesRep(link, chains[k])
  }

  ghost predicate Rep(m: Model, h: Image) {
    var stored :=
      SpareRep(h.desc, h.spare, m.spare) && ChainsRep(h.desc, h.dir, m.chains) && AllFreesRep(h.link, m.chains);
    stored
  }

  // ----- which descriptors and blocks a write can touch

  /** Descriptors of other chains and spare descriptors differ from those of chain k. */
  lemma ForeignDesc(m: Model, cap: nat, k: nat, i: nat)
    requires Inv(m, cap) && k < CLASSES && i < |m.chains[k]|
    ensures m.chains[k][i].desc >= MANAGER_START && m.chains[k][i].desc !in m.spare
    ensures forall l, j :: 0 <= l < CLASSES && 0 <= j < |m.chains[l]| && (l, j) != (k, i) ==>
      m.chains[l][j].desc != m.chains[k][i].desc
  {
    assert BucketOk(m, k, m.chains[k][i]) && IsSlot(m.pages, m.chains[k][i].desc);
    forall l, j | 0 <= l < CLASSES && 0 <= j < |m.chains[l]| && (l, j) != (k, i)
      ensures m.chains[l][j].desc != m.chains[k][i].desc
    {
      assert BucketOk(m, l, m.chains[l][j]) && DistinctChain(m.chains[l]);
    }
  }

  /** A spare descriptor is on no chain. */
  lemma SpareDesc(m: Model, cap: nat, d: nat)
    requires Inv(m, cap) && d in m.spare
    ensures d >= MANAGER_START
    ensures forall l, j :: 0 <= l < CLASSES && 0 <= j < |m.chains[l]| ==> m.chains[l][j].desc != d
  {
    assert IsSlot(m.pages, d);
    forall l, j | 0 <= l < CLASSES && 0 <= j < |m.chains[l]|
      ensures m.chains[l][j].desc != d
    {
      assert BucketOk(m, l, m.chains[l][j]);
    }
  }

  /** A block of bucket i of chain k is on no other free list. */
  lemma ForeignBlock(m: Model, cap: nat, k: nat, i: nat, p: nat)
    requires Inv(m, cap) && k < CLASSES && i < |m.chains[k]|
    requires p in m.chains[k][i].live || p in m.chains[k][i].free
    ensures p >= MANAGER_START && p - p % PAGE_SIZE == Base(m.chains[k][i].page)
    ensures forall l, j :: 0 <= l < CLASSES && 0 <= j < |m.chains[l]| && (l, j) != (k, i) ==> p !in m.chains[l][j].free
    ensures p in m.chains[k][i].live ==> p !in m.chains[k][i].free
  {
    BlockOfBucket(m, cap, k, i, p);
    assert BucketOk(m, k, m.chains[k][i]);
    assert p in m.chains[k][i].free ==> p in Elements(m.chains[k][i].free);
    forall l, j | 0 <= l < CLASSES && 0 <= j < |m.chains[l]| && (l, j) != (k, i)
      ensures p !in m.chains[l][j].free
    {
      if p in m.chains[l][j].free {
        BlockOfBucket(m, cap, l, j, p);
        OneOwner(m, cap, k, i, l, j, p);
        assert false;
      }
    }
  }

  // ----- writes to one bucket

  lemma ChainUpdate(desc: map<nat, Desc>, head: nat, c: seq<Bucket>, k: nat, i: nat, b: Bucket, v: Desc)
    requires k < CLASSES && i < |c| && ChainRep(desc, head, c, k)
    requires b.desc == c[i].desc && b.page == c[i].page && v == Stored(c[i := b], i, k)
    requires forall j :: 0 <= j < |c| && j != i ==> c[j].desc != b.desc
    ensures ChainRep(desc[b.desc := v], head, c[i := b], k)
  {
    var c', desc' := c[i := b], desc[b.desc := v];
    forall j | 0 <= j < |c'|
      ensures NodeRep(desc', c', k, j)
    {
      assert NodeRep(desc, c, k, j);
      assert c'[j].desc == c[j].desc && DescAt(c', j + 1) == DescAt(c, j + 1);
    }
  }

  lemma LinkElsewhere(link: map<nat, nat>, f: seq<nat>, a: nat, v: nat)
    requires FreeRep(link, f) && a !in f
    ensures FreeRep(link[a := v], f)
  {
    var link' := link[a := v];
    forall i | 0 <= i < |f|
      ensures BlockRep(link', f, i)
    {
      assert BlockRep(link, f, i);
    }
  }

  /** Descriptor d belongs to bucket i of chain k at most, and v is stored in it. */
  lemma ChainsUpdate(desc: map<nat, Desc>, dir: seq<nat>, chains: seq<seq<Bucket>>, k: nat, i: nat, b: Bucket, v: Desc)
    requires ChainsRep(desc, dir, chains) && k < CLASSES && i < |chains[k]|
    requires b.desc == chains[k][i].desc && b.page == chains[k][i].page && v == Stored(chains[k][i := b], i, k)
    requires forall l, j :: 0 <= l < CLASSES && 0 <= j < |chains[l]| && (l, j) != (k, i) ==> chains[l][j].desc != b.desc
    ensures ChainsRep(desc[b.desc := v], dir, chains[k := chains[k][i := b]])
  {
    var desc' := desc[b.desc := v];
    forall l | 0 <= l < CLASSES
      ensures ChainRep(desc', dir[l], chains[k := chains[k][i := b]][l], l)
    {
      assert ChainRep(desc, dir[l], chains[l], l);
      if l == k {
        ChainUpdate(desc, dir[k], chains[k], k, i, b, v);
      } else {
        ChainElsewhere(desc, desc', dir[l], chains[l], l);
      }
    }
  }

  lemma SpareElsewhere(desc: map<nat, Desc>, head: nat, s: seq<nat>, d: nat, v: Desc)
    requires SpareRep(desc, head, s) && d !in s
    ensures SpareRep(desc[d := v], head, s)
  {
    var desc' := desc[d := v];
    forall i | 0 <= i < |s|
      ensures SlotRep(desc', s, i)
    {
      assert SlotRep(desc, s, i);
    }
  }

  /** Every free list but that of bucket i of chain k is intact in link'. */
  ghost predicate OtherFrees(m: Model, link': map<nat, nat>, k: nat, i: nat) {
    forall l, j :: 0 <= l < |m.chains| && 0 <= j < |m.chains[l]| && (l, j) != (k, i) ==>
      FreeRep(link', m.chains[l][j].free)
  }

  /** One bucket is rewritten in place: its descriptor, and possibly links of its own free list. */
  lemma BucketWrite(m: Model, cap: nat, h: Image, k: nat, i: nat, b: Bucket, v: Desc, link': map<nat, nat>)
    requires Inv(m, cap) && Rep(m, h) && k < CLASSES && i < |m.chains[k]|
    requires b.desc == m.chains[k][i].desc && b.page == m.chains[k][i].page && v == Stored(m.chains[k][i := b], i, k)
    requires FreeRep(link', b.free) && OtherFrees(m, link', k, i)
    ensures Rep(WithChain(m, k, m.chains[k][i := b]), h.(desc := h.desc[b.desc := v], link := link'))
  {
    ForeignDesc(m, cap, k, i);
    ChainsUpdate(h.desc, h.dir, m.chains, k, i, b, v);
    SpareElsewhere(h.desc, h.spare, m.spare, b.desc, v);
    FreesWrite(m, link', k, i, b);
  }

  lemma FreesWrite(m: Model, link': map<nat, nat>, k: nat, i: nat, b: Bucket)
    requires k < |m.chains| && i < |m.chains[k]| && FreeRep(link', b.free) && OtherFrees(m, link', k, i)
    ensures AllFreesRep(link', m.chains[k := m.chains[k][i := b]])
  {
    var chains: seq<seq<Bucket>> := m.chains[k := m.chains[k][i := b]];
    forall l, j | 0 <= l < |chains| && 0 <= j < |chains[l]|
      ensures FreeRep(link', chains[l][j].free)
    {
      assert (l, j) != (k, i) ==> chains[l][j] == m.chains[l][j];
    }
  }

  lemma SameOtherFrees(m: Model, link: map<nat, nat>, k: nat, i: nat)
    requires AllFreesRep(link, m.chains)
    ensures OtherFrees(m, link, k, i)
  {
    forall l, j | 0 <= l < |m.chains| && 0 <= j < |m.chains[l]| && (l, j) != (k, i)
      ensures FreeRep(link, m.chains[l][j].free)
    {
      assert FreesRep(link, m.chains[l]);
    }
  }

  /** What memory says about bucket i of chain k. */
  lemma BucketRead(m: Model, h: Image, k: nat, i: nat)
    requires Rep(m, h) && k < CLASSES && i < |m.chains[k]|
    ensures m.chains[k][i].desc in h.desc && h.desc[m.chains[k][i].desc] == Stored(m.chains[k], i, k)
    ensures FreeRep(h.link, m.chains[k][i].free)
  {
    assert ChainRep(h.desc, h.dir[k], m.chains[k], k) && FreesRep(h.link, m.chains[k]);
    assert NodeRep(h.desc, m.chains[k], k, i);
  }

  /** Popping the first free block. */
  lemma TakeRep(m: Model, cap: nat, h: Image, k: nat, i: nat)
    requires Inv(m, cap) && Rep(m, h) && k < CLASSES && i < |m.chains[k]| && m.chains[k][i].free != []
    ensures var b := m.chains[k][i];
      && b.desc in h.desc && h.desc[b.desc].freeBlock == b.free[0] && b.free[0] in h.link
      && var v := h.desc[b.desc].(freeBlock := h.link[b.free[0]], refCnt := h.desc[b.desc].refCnt + 1);
         Rep(WithChain(m, k, m.chains[k][i := TakeBlock(b)]), h.(desc := h.desc[b.desc := v]))
  {
    var b := m.chains[k][i];
    BucketRead(m, h, k, i);
    assert BucketOk(m, k, b);
    TakeCount(m, k, b);
    TailRep(h.link, b.free);
    var v := h.desc[b.desc].(freeBlock := h.link[b.free[0]], refCnt := h.desc[b.desc].refCnt + 1);
    TakeStored(m.chains[k], i, k, v, h.desc[b.desc], h.link[b.free[0]]);
    SameOtherFrees(m, h.link, k, i);
    BucketWrite(m, cap, h, k, i, TakeBlock(b), v, h.link);
  }

  lemma TakeStored(c: seq<Bucket>, i: nat, k: nat, v: Desc, w: Desc, n: nat)
    requires i < |c| && k < CLASSES && c[i].free != [] && w == Stored(c, i, k)
    requires |TakeBlock(c[i]).live| == |c[i].live| + 1
    requires n == Head(c[i].free[1..]) && v == w.(freeBlock := n, refCnt := w.refCnt + 1)
    ensures v == Stored(c[i := TakeBlock(c[i])], i, k)
  {
  }

  lemma TakeCount(m: Model, k: nat, b: Bucket)
    requires k < CLASSES && b.free != [] && Elements(b.free) !! b.live
    ensures |TakeBlock(b).live| == |b.live| + 1
  {
    assert b.free[0] in Elements(b.free);
  }

  lemma TailRep(link: map<nat, nat>, f: seq<nat>)
    requires f != [] && FreeRep(link, f)
    ensures FreeRep(link, f[1..]) && f[0] in link && link[f[0]] == Head(f[1..])
  {
    var t := f[1..];
    assert BlockRep(link, f, 0);
    forall i | 0 <= i < |t|
      ensures BlockRep(link, t, i)
    {
      assert t[i] == f[i + 1] && BlockRep(link, f, i + 1);
    }
  }

  /** Storing a link in a block that is handed out disturbs no free list. */
  lemma LiveLink(m: Model, cap: nat, h: Image, k: nat, i: nat, p: nat, v: nat)
    requires Inv(m, cap) && Rep(m, h) && k < CLASSES && i < |m.chains[k]| && p in m.chains[k][i].live
    ensures OtherFrees(m, h.link[p := v], k, i) && FreeRep(h.link[p := v], m.chains[k][i].free)
  {
    ForeignBlock(m, cap, k, i, p);
    SameOtherFrees(m, h.link, k, i);
    forall l, j | 0 <= l < |m.chains| && 0 <= j < |m.chains[l]| && (l, j) != (k, i)
      ensures FreeRep(h.link[p := v], m.chains[l][j].free)
    {
      LinkElsewhere(h.link, m.chains[l][j].free, p, v);
    }
    BucketRead(m, h, k, i);
    LinkElsewhere(h.link, m.chains[k][i].free, p, v);
  }

  /** Whatever the holder of a block stores in it, the allocator's data structures are untouched. */
  lemma ClientWrite(m: Model, cap: nat, h: Image, k: nat, p: nat, v: nat)
    requires Inv(m, cap) && Rep(m, h) && Live(m, k, p)
    ensures Rep(m, h.(link := h.link[p := v]))
  {
    var i :| 0 <= i < |m.chains[k]| && p in m.chains[k][i].live;
    LiveLink(m, cap, h, k, i, p, v);
    forall l, j | 0 <= l < |m.chains| && 0 <= j < |m.chains[l]|
      ensures FreeRep(h.link[p := v], m.chains[l][j].free)
    {
      if l == k && j == i {
      }
    }
  }

  lemma PushRep(link: map<nat, nat>, f: seq<nat>, p: nat)
    requires FreeRep(link[p := Head(f)], f)
    ensures FreeRep(link[p := Head(f)], [p] + f)
  {
    var t, link' := [p] + f, link[p := Head(f)];
    forall i | 0 <= i < |t|
      ensures BlockRep(link', t, i)
    {
      if i > 0 {
        assert BlockRep(link', f, i - 1);
        assert t[i] == f[i - 1] && Nth(t, i + 1) == Nth(f, i);
      }
    }
  }

  /** Pushing a block that is not the last one handed out. */
  lemma GiveRep(m: Model, cap: nat, h: Image, k: nat, i: nat, p: nat)
    requires Inv(m, cap) && Rep(m, h) && k < CLASSES && i < |m.chains[k]| && p in m.chains[k][i].live
    ensures var b := m.chains[k][i];
      && b.desc in h.desc && h.desc[b.desc].refCnt == |b.live| >= 1
      && var v := h.desc[b.desc].(freeBlock := p, refCnt := h.desc[b.desc].refCnt - 1);
         Rep(WithChain(m, k, m.chains[k][i := GiveBlock(b, p)]),
           h.(desc := h.desc[b.desc := v], link := h.link[p := h.desc[b.desc].freeBlock]))
  {
    var b := m.chains[k][i];
    BucketRead(m, h, k, i);
    LiveLink(m, cap, h, k, i, p, Head(b.free));
    PushRep(h.link, b.free, p);
    assert |b.live - {p}| == |b.live| - 1;
    var v := h.desc[b.desc].(freeBlock := p, refCnt := h.desc[b.desc].refCnt - 1);
    BucketWrite(m, cap, h, k, i, GiveBlock(b, p), v, h.link[p := Head(b.free)]);
  }

  // ----- unlinking a bucket

  /** The next field of descriptor a becomes n. */
  function SetNext(desc: map<nat, Desc>, a: nat, n: nat): map<nat, Desc>
    requires a in desc
  {
    desc[a := desc[a].(next := n)]
  }

  /** The descriptors after bucket i of a chain has been bypassed: its predecessor points past it. */
  function Bypassed(desc: map<nat, Desc>, c: seq<Bucket>, i: nat): map<nat, Desc>
    requires i < |c| && (i > 0 ==> c[i - 1].desc in desc)
  {
    if i == 0 then desc else SetNext(desc, c[i - 1].desc, DescAt(c, i + 1))
  }

  /** The descriptors after a release: bucket i bypassed, v in its own descriptor. */
  function Released(desc: map<nat, Desc>, c: seq<Bucket>, i: nat, v: Desc): map<nat, Desc>
    requires i < |c| && (i > 0 ==> c[i - 1].desc in desc)
  {
    Bypassed(desc[c[i].desc := v], c, i)[c[i].desc := v]
  }

  lemma ReleasedElsewhere(desc: map<nat, Desc>, c: seq<Bucket>, i: nat, v: Desc, d: nat)
    requires i < |c| && (i > 0 ==> c[i - 1].desc in desc && c[i - 1].desc != c[i].desc)
    ensures c[i].desc in Released(desc, c, i, v) && Released(desc, c, i, v)[c[i].desc] == v
    ensures d in desc && d != c[i].desc && (i > 0 ==> d != c[i - 1].desc) ==>
      d in Released(desc, c, i, v) && Released(desc, c, i, v)[d] == desc[d]
    ensures i > 0 ==> var e := c[i - 1].desc;
      e in Released(desc, c, i, v) && Released(desc, c, i, v)[e] == desc[e].(next := DescAt(c, i + 1))
  {
  }

  lemma BypassRep(desc: map<nat, Desc>, head: nat, c: seq<Bucket>, k: nat, i: nat, v: Desc)
    requires k < CLASSES && i < |c| && ChainRep(desc, head, c, k) && DistinctChain(c)
    ensures i > 0 ==> c[i - 1].desc in desc
    ensures ChainRep(Released(desc, c, i, v), if i == 0 then DescAt(c, 1) else head, c[..i] + c[i + 1..], k)
  {
    assert i > 0 ==> NodeRep(desc, c, k, i - 1);
    var desc' := Released(desc, c, i, v);
    var c' := c[..i] + c[i + 1..];
    forall j | 0 <= j < |c'|
      ensures NodeRep(desc', c', k, j)
    {
      var h := if j < i then j else j + 1;
      assert c'[j] == c[h] && NodeRep(desc, c, k, h);
      ReleasedElsewhere(desc, c, i, v, c[h].desc);
      assert DescAt(c', j + 1) == if j + 1 == i then DescAt(c, i + 1) else DescAt(c, h + 1);
    }
  }

  /** The whole of a release: bypass, push the descriptor on the spare chain, with the block's link already stored. */
  lemma DropRep(m: Model, cap: nat, h: Image, k: nat, i: nat, p: nat, v: Desc, w: nat)
    requires Inv(m, cap) && Rep(m, h) && k < CLASSES && i < |m.chains[k]| && m.chains[k][i].live == {p}
    requires v.next == h.spare
    ensures var c := m.chains[k];
      && (i > 0 ==> c[i - 1].desc in h.desc)
      && Rep(DropBucket(m, k, i),
           Image(if i == 0 then h.dir[k := DescAt(c, 1)] else h.dir, c[i].desc,
                 Released(h.desc, c, i, v), h.link[p := w]))
  {
    LiveLink(m, cap, h, k, i, p, w);
    DropFrees(m, h.link[p := w], k, i);
    DropSpare(m, cap, h, k, i, v);
    DropChainsRep(m, cap, h, k, i, v);
  }

  lemma DropFrees(m: Model, link': map<nat, nat>, k: nat, i: nat)
    requires k < |m.chains| && i < |m.chains[k]| && OtherFrees(m, link', k, i)
    ensures AllFreesRep(link', DropBucket(m, k, i).chains)
  {
    var chains: seq<seq<Bucket>> := DropBucket(m, k, i).chains;
    forall l, j | 0 <= l < |chains| && 0 <= j < |chains[l]|
      ensures FreeRep(link', chains[l][j].free)
    {
      assert chains[l][j] == m.chains[l][if l == k && j >= i then j + 1 else j];
    }
  }

  /** The two descriptors that a release writes lie in chain k only. */
  lemma DropTouches(m: Model, cap: nat, h: Image, k: nat, i: nat, v: Desc)
    requires Inv(m, cap) && Rep(m, h) && k < CLASSES && i < |m.chains[k]|
    ensures i > 0 ==> m.chains[k][i - 1].desc in h.desc
    ensures var desc' := Released(h.desc, m.chains[k], i, v);
      && m.chains[k][i].desc in desc' && desc'[m.chains[k][i].desc] == v
      && (forall d :: d in m.spare && d in h.desc ==> d in desc' && desc'[d] == h.desc[d])
      && forall l, j :: 0 <= l < CLASSES && 0 <= j < |m.chains[l]| && l != k && m.chains[l][j].desc in h.desc ==>
           m.chains[l][j].desc in desc' && desc'[m.chains[l][j].desc] == h.desc[m.chains[l][j].desc]
  {
    var c := m.chains[k];
    ForeignDesc(m, cap, k, i);
    if i > 0 {
      ForeignDesc(m, cap, k, i - 1);
      BucketRead(m, h, k, i - 1);
      assert c[i - 1].desc != c[i].desc;
    }
    ReleasedElsewhere(h.desc, c, i, v, c[i].desc);
    forall d | d in m.spare && d in h.desc
      ensures d in Released(h.desc, c, i, v) && Released(h.desc, c, i, v)[d] == h.desc[d]
    {
      ReleasedElsewhere(h.desc, c, i, v, d);
    }
    forall l, j | 0 <= l < CLASSES && 0 <= j < |m.chains[l]| && l != k && m.chains[l][j].desc in h.desc
      ensures m.chains[l][j].desc in Released(h.desc, c, i, v)
      ensures Released(h.desc, c, i, v)[m.chains[l][j].desc] == h.desc[m.chains[l][j].desc]
    {
      ReleasedElsewhere(h.desc, c, i, v, m.chains[l][j].desc);
    }
  }

  lemma DropSpare(m: Model, cap: nat, h: Image, k: nat, i: nat, v: Desc)
    requires Inv(m, cap) && Rep(m, h) && k < CLASSES && i < |m.chains[k]| && v.next == h.spare
    ensures i > 0 ==> m.chains[k][i - 1].desc in h.desc
    ensures SpareRep(Released(h.desc, m.chains[k], i, v), m.chains[k][i].desc, [m.chains[k][i].desc] + m.spare)
  {
    DropTouches(m, cap, h, k, i, v);
    PushSpare(h.desc, Released(h.desc, m.chains[k], i, v), h.spare, m.spare, m.chains[k][i].desc);
  }

  lemma PushSpare(desc: map<nat, Desc>, desc': map<nat, Desc>, head: nat, s: seq<nat>, d: nat)
    requires SpareRep(desc, head, s) && d in desc' && desc'[d].next == head
    requires forall x :: x in s && x in desc ==> x in desc' && desc'[x] == desc[x]
    ensures SpareRep(desc', d, [d] + s)
  {
    var t := [d] + s;
    forall j | 0 <= j < |t|
      ensures SlotRep(desc', t, j)
    {
      if j > 0 {
        assert SlotRep(desc, s, j - 1);
        assert t[j] == s[j - 1] && Nth(t, j + 1) == Nth(s, j);
      }
    }
  }

  lemma DropChainsRep(m: Model, cap: nat, h: Image, k: nat, i: nat, v: Desc)
    requires Inv(m, cap) && Rep(m, h) && k < CLASSES && i < |m.chains[k]|
    ensures i > 0 ==> m.chains[k][i - 1].desc in h.desc
    ensures ChainsRep(Released(h.desc, m.chains[k], i, v),
      if i == 0 then h.dir[k := DescAt(m.chains[k], 1)] else h.dir, DropBucket(m, k, i).chains)
  {
    DropTouches(m, cap, h, k, i, v);
    var dir' := if i == 0 then h.dir[k := DescAt(m.chains[k], 1)] else h.dir;
    var chains := DropBucket(m, k, i).chains;
    forall l | 0 <= l < CLASSES
      ensures ChainRep(Released(h.desc, m.chains[k], i, v), dir'[l], chains[l], l)
    {
      assert ChainRep(h.desc, h.dir[l], m.chains[l], l);
      if l == k {
        assert DistinctChain(m.chains[k]);
        BypassRep(h.desc, h.dir[k], m.chains[k], k, i, v);
      } else {
        ChainElsewhere(h.desc, Released(h.desc, m.chains[k], i, v), h.dir[l], chains[l], l);
      }
    }
  }

  // ----- linking a new bucket

  lemma PopSpare(desc: map<nat, Desc>, head: nat, s: seq<nat>, v: Desc)
    requires SpareRep(desc, head, s) && s != [] && Distinct(s)
    ensures head == s[0] && head in desc && SpareRep(desc[head := v], desc[head].next, s[1..])
  {
    var t := s[1..];
    assert SlotRep(desc, s, 0);
    var desc' := desc[head := v];
    forall i | 0 <= i < |t|
      ensures SlotRep(desc', t, i)
    {
      assert t[i] == s[i + 1] && t[i] != s[0] && SlotRep(desc, s, i + 1);
    }
  }

  lemma PushChain(desc: map<nat, Desc>, head: nat, c: seq<Bucket>, k: nat, b: Bucket)
    requires k < CLASSES && ChainRep(desc, head, c, k) && forall j :: 0 <= j < |c| ==> c[j].desc != b.desc
    ensures ChainRep(desc[b.desc := Desc(Base(b.page), head, Head(b.free), |b.live|, Size(k))], b.desc, [b] + c, k)
  {
    var c' := [b] + c;
    var desc' := desc[b.desc := Desc(Base(b.page), head, Head(b.free), |b.live|, Size(k))];
    forall j | 0 <= j < |c'|
      ensures NodeRep(desc', c', k, j)
    {
      assert DescAt(c', j + 1) == DescAt(c, j);
      if j > 0 {
        assert c'[j] == c[j - 1] && NodeRep(desc, c, k, j - 1);
      }
    }
  }

  /** link' is link outside the page. */
  ghost predicate OnlyPage(link: map<nat, nat>, link': map<nat, nat>, page: nat) {
    forall a :: a in link && !(Base(page) <= a < Base(page) + PAGE_SIZE) ==> a in link' && link'[a] == link[a]
  }

  lemma FreshPageFrees(m: Model, cap: nat, link: map<nat, nat>, link': map<nat, nat>, page: nat)
    requires Inv(m, cap) && AllFreesRep(link, m.chains) && page !in m.pages && OnlyPage(link, link', page)
    ensures AllFreesRep(link', m.chains)
  {
    forall l, j | 0 <= l < |m.chains| && 0 <= j < |m.chains[l]|
      ensures FreeRep(link', m.chains[l][j].free)
    {
      var b := m.chains[l][j];
      assert BucketOk(m, l, b) && FreesRep(link, m.chains[l]);
      assert FreeRep(link, b.free);
      forall x | x in b.free && x in link
        ensures x in link' && link'[x] == link[x]
      {
        BlockOfBucket(m, cap, l, j, x);
        PageOfBase(page, x);
      }
      SameLinks(link, link', b.free);
    }
  }

  lemma PageOfBase(page: nat, x: nat)
    requires PageOf(x) != page
    ensures !(Base(page) <= x < Base(page) + PAGE_SIZE)
  {
  }

  lemma SameLinks(link: map<nat, nat>, link': map<nat, nat>, f: seq<nat>)
    requires FreeRep(link, f) && forall x :: x in f && x in link ==> x in link' && link'[x] == link[x]
    ensures FreeRep(link', f)
  {
    forall i | 0 <= i < |f|
      ensures BlockRep(link', f, i)
    {
      assert BlockRep(link, f, i);
    }
  }

  lemma AddRep(m: Model, cap: nat, h: Image, k: nat, page: nat, link': map<nat, nat>)
    requires Inv(m, cap) && Rep(m, h) && k < CLASSES && m.spare != [] && page !in m.pages
    requires OnlyPage(h.link, link', page) && FreeRep(link', InitialFree(page, k))
    ensures h.spare in h.desc && Base(page) in link'
      && Rep(AddBucket(m, k, page), Image(h.dir[k := h.spare], h.desc[h.spare].next,
           h.desc[h.spare := Desc(Base(page), h.dir[k], link'[Base(page)], 1, Size(k))], link'))
  {
    var f := InitialFree(page, k);
    InitialFreeIsPage(page, k);
    TailRep(link', f);
    var b := TakeBlock(Bucket(h.spare, page, f, {}));
    assert b.live == {Base(page)};
    var v := Desc(Base(page), h.dir[k], Head(b.free), 1, Size(k));
    SpareDesc(m, cap, m.spare[0]);
    PopSpare(h.desc, h.spare, m.spare, v);
    PushChain(h.desc, h.dir[k], m.chains[k], k, b);
    AddOthers(m, h.dir, h.desc, k, h.spare, v);
    FreshPageFrees(m, cap, h.link, link', page);
    AddFrees(link', m.chains, k, b);
  }

  lemma ChainElsewhere(desc: map<nat, Desc>, desc': map<nat, Desc>, head: nat, c: seq<Bucket>, k: nat)
    requires k < CLASSES && ChainRep(desc, head, c, k)
    requires forall j :: 0 <= j < |c| && c[j].desc in desc ==> c[j].desc in desc' && desc'[c[j].desc] == desc[c[j].desc]
    ensures ChainRep(desc', head, c, k)
  {
    forall j | 0 <= j < |c|
      ensures NodeRep(desc', c, k, j)
    {
      assert NodeRep(desc, c, k, j);
    }
  }

  lemma AddOthers(m: Model, dir: seq<nat>, desc: map<nat, Desc>, k: nat, d: nat, v: Desc)
    requires ChainsRep(desc, dir, m.chains)
    requires forall l, j :: 0 <= l < CLASSES && 0 <= j < |m.chains[l]| ==> m.chains[l][j].desc != d
    ensures forall l :: 0 <= l < CLASSES ==> ChainRep(desc[d := v], dir[l], m.chains[l], l)
  {
    forall l | 0 <= l < CLASSES
      ensures ChainRep(desc[d := v], dir[l], m.chains[l], l)
    {
      assert ChainRep(desc, dir[l], m.chains[l], l);
      ChainElsewhere(desc, desc[d := v], dir[l], m.chains[l], l);
    }
  }

  lemma AddFrees(link: map<nat, nat>, chains: seq<seq<Bucket>>, k: nat, b: Bucket)
    requires k < |chains| && AllFreesRep(link, chains) && FreeRep(link, b.free)
    ensures AllFreesRep(link, chains[k := [b] + chains[k]])
  {
    var c' := [b] + chains[k];
    assert FreesRep(link, chains[k]);
    forall j | 0 <= j < |c'|
      ensures FreeRep(link, c'[j].free)
    {
      assert j > 0 ==> c'[j] == chains[k][j - 1];
    }
  }

  lemma LoseRep(m: Model, cap: nat, h: Image, v: Desc)
    requires Inv(m, cap) && Rep(m, h) && m.spare != []
    ensures h.spare in h.desc && Rep(LoseDesc(m), h.(spare := h.desc[h.spare].next, desc := h.desc[h.spare := v]))
  {
    SpareDesc(m, cap, m.spare[0]);
    PopSpare(h.desc, h.spare, m.spare, v);
    AddOthers(m, h.dir, h.desc, 0, h.spare, v);
  }

  /** desc' holds a fresh chain of spare descriptors in the page, and is desc elsewhere. */
  lemma AddDescRep(m: Model, cap: nat, h: Image, page: nat, desc': map<nat, Desc>)
    requires Inv(m, cap) && Rep(m, h) && m.spare == [] && page !in m.pages
    requires SpareRep(desc', Base(page), Slots(page))
    requires forall d :: d in h.desc && d !in Slots(page) ==> d in desc' && desc'[d] == h.desc[d]
    ensures Rep(AddDescPage(m, page), h.(spare := Base(page), desc := desc'))
  {
    SlotsFillPage(page);
    forall l | 0 <= l < CLASSES
      ensures ChainRep(desc', h.dir[l], m.chains[l], l)
    {
      assert ChainRep(h.desc, h.dir[l], m.chains[l], l);
      forall j | 0 <= j < |m.chains[l]|
        ensures m.chains[l][j].desc !in Slots(page)
      {
        assert BucketOk(m, l, m.chains[l][j]) && IsSlot(m.pages, m.chains[l][j].desc);
      }
      ChainElsewhere(h.desc, desc', h.dir[l], m.chains[l], l);
    }
  }
}
