/** The pages that the mapper gets from get_free_page of x64_kenerl/kernel/phymm.c, as 64-bit addresses. */
module PagePool {
  import opened Arith
  import opened Bitmap
  import opened PhysicalPages
  import opened PageBits
  import opened PageTables
  import PageMapper
  import MapperCode
  import Ioremap

  // ----- numbers as words

  function Plus(v: bv64, w: bv64): bv64 {
    v + w
  }

  lemma PlusLaws(u: bv64, v: bv64, w: bv64)
    ensures Plus(Plus(u, v), w) == Plus(u, Plus(v, w)) && Plus(v, 0) == v
  {
  }

  /** The 64-bit word of a number. */
  function Word(n: nat): bv64 {
    if n == 0 then 0 else Plus(Word(n - 1), 1)
  }

  lemma WordNext(n: nat)
    ensures Word(n + 1) == Plus(Word(n), 1) && Word(0) == 0
  {
    hide Plus;
  }

  lemma {:induction false} WordAdds(a: nat, b: nat)
    ensures Word(a + b) == Plus(Word(a), Word(b))
  {
    hide Word, Plus;
    WordNext(0);
    if b > 0 {
      var n := a + (b - 1);
      WordAdds(a, b - 1);
      WordNext(n);
      WordNext(b - 1);
      assert n + 1 == a + b;
      PlusLaws(Word(a), Word(b - 1), 1);
    } else {
      PlusLaws(0, Word(a), 0);
    }
  }

  lemma WordHalves(n: nat)
    ensures n % 2 == 0 ==> Word(n) == Plus(Word(n / 2), Word(n / 2))
    ensures n % 2 == 1 ==> Word(n) == Plus(Plus(Word(n / 2), Word(n / 2)), 1)
  {
    hide Word, Plus;
    var h := n / 2;
    WordAdds(h, h);
    WordNext(h + h);
    assert n == if n % 2 == 1 then h + h + 1 else h + h;
  }

  function Wider(m: bv64): bv64 {
    (m << 1) | 1
  }

  /** The k low bits. */
  function Mask(k: nat): bv64 {
    if k == 0 then 0 else Wider(Mask(k - 1))
  }

  predicate Within(w: bv64, m: bv64) {
    w & m == w
  }

  lemma DoubleFits(w: bv64, m: bv64)
    requires Within(w, m)
    ensures Within(Plus(w, w), Wider(m)) && Within(Plus(Plus(w, w), 1), Wider(m))
  {
  }

  lemma NothingFits(m: bv64)
    ensures Within(0, m)
  {
  }

  lemma {:induction false} WordFits(n: nat, k: nat)
    requires n < Pow2(k)
    ensures Within(Word(n), Mask(k))
    decreases k
  {
    hide Word, Plus, Within, Wider;
    if k > 0 {
      WordFits(n / 2, k - 1);
      WordHalves(n);
      DoubleFits(Word(n / 2), Mask(k - 1));
    } else {
      WordNext(0);
      NothingFits(Mask(0));
    }
  }

  lemma DoubleNotZero(w: bv64)
    requires Within(w, 0xff_ffff)
    ensures w != 0 ==> Plus(w, w) != 0
    ensures Plus(Plus(w, w), 1) != 0
  {
  }

  lemma MaskIs()
    ensures Mask(24) == 0xff_ffff && Pow2(24) == 0x100_0000
  {
    assert Mask(8) == 0xff && Mask(16) == 0xffff;
    assert Pow2(8) == 0x100 && Pow2(16) == 0x1_0000;
  }

  lemma {:induction false} NotZero(n: nat)
    requires 0 < n < 0x100_0000
    ensures Word(n) != 0
  {
    hide Word, Plus, Within;
    MaskIs();
    WordFits(n / 2, 24);
    WordHalves(n);
    DoubleNotZero(Word(n / 2));
    if n > 1 {
      NotZero(n / 2);
    }
  }

  lemma PlusApart(v: bv64, w: bv64)
    requires w != 0
    ensures Plus(v, w) != v
  {
  }

  /** Different page numbers have different words. */
  lemma WordsApart(i: nat, j: nat)
    requires i < j < 0x100_0000
    ensures Word(i) != Word(j)
  {
    hide Word, Plus;
    WordAdds(i, j - i);
    NotZero(j - i);
    assert Word(j) == Plus(Word(i), Word(j - i));
    PlusApart(Word(i), Word(j - i));
  }

  lemma {:induction false} WordScaled(n: nat, k: nat)
    ensures Word(n * Pow2(k)) == Scaled(Word(n), k)
    decreases k
  {
    hide Word, Plus;
    if k > 0 {
      WordScaled(n, k - 1);
      assert n * Pow2(k) == n * Pow2(k - 1) + n * Pow2(k - 1);
      WordAdds(n * Pow2(k - 1), n * Pow2(k - 1));
    }
  }

  function Scaled(w: bv64, k: nat): bv64 {
    if k == 0 then w else Plus(Scaled(w, k - 1), Scaled(w, k - 1))
  }

  function Fourfold(w: bv64): bv64 {
    w << 4
  }

  lemma ScaledIs(w: bv64)
    ensures Scaled(w, 12) == w << 12 && Pow2(12) == 4096
  {
    hide Fourfold, Scaled;
    FourTimes(w, 0);
    FourTimes(w, 4);
    FourTimes(w, 8);
    ThriceFourfold(w);
  }

  lemma FourTimes(w: bv64, k: nat)
    ensures Scaled(w, k + 4) == Fourfold(Scaled(w, k)) && Pow2(k + 4) == 16 * Pow2(k) && Scaled(w, 0) == w
    ensures Pow2(0) == 1
  {
    hide Scaled, Doubled, Fourfold;
    Twice(w, k);
    Twice(w, k + 1);
    Twice(w, k + 2);
    Twice(w, k + 3);
    FourDoubled(Scaled(w, k));
  }

  function Doubled(w: bv64): bv64 {
    w << 1
  }

  lemma FourDoubled(w: bv64)
    ensures Doubled(Doubled(Doubled(Doubled(w)))) == Fourfold(w)
  {
  }

  lemma ThriceFourfold(w: bv64)
    ensures Fourfold(Fourfold(Fourfold(w))) == w << 12
  {
  }

  lemma PlusDoubles(w: bv64)
    ensures Plus(w, w) == Doubled(w)
  {
  }

  lemma Twice(w: bv64, k: nat)
    ensures Scaled(w, k + 1) == Doubled(Scaled(w, k)) && Pow2(k + 1) == 2 * Pow2(k) && Scaled(w, 0) == w && Pow2(0) == 1
  {
    hide Plus, Doubled;
    PlusDoubles(Scaled(w, k));
  }

  // ----- addresses of pages

  const FIRST_PAGE := 768   // the number of the page at MANAGER_START, counted from address 0

  function Shifted(w: bv64): bv64 {
    w << 12
  }

  lemma Address(i: nat)
    requires i < ALIAS_LIMIT
    ensures Word(PageAddr(i)) == Shifted(Word(FIRST_PAGE + i))
  {
    hide Word, Plus;
    PageRoundTrip(i);
    ScaledIs(Word(FIRST_PAGE + i));
    WordScaled(FIRST_PAGE + i, 12);
    assert PageAddr(i) == (FIRST_PAGE + i) * 4096;
  }

  lemma ShiftedPages(v: bv64, w: bv64)
    requires Within(v, 0xff_ffff) && Within(w, 0xff_ffff)
    ensures PageAligned(Shifted(v)) && (v != w ==> Shifted(v) != Shifted(w))
    ensures v != 0 ==> Shifted(v) != PageMapper.NULL
  {
  }

  lemma BootWords()
    ensures Shifted(Word(144)) == ROOT && Shifted(Word(145)) == FIRST_PDPT && Shifted(Word(146)) == FIRST_PDT
  {
    BootNumber();
    WordNext(144);
    WordNext(145);
  }

  lemma BootNumber()
    ensures Word(144) == 0x90
  {
    hide Word, Plus;
    NineIs();
    WordScaled(9, 4);
    FourTimes(Word(9), 0);
    assert Fourfold(9) == 0x90;
  }

  lemma NineIs()
    ensures Word(9) == 9
  {
  }

  /** Addresses of different pages are different, aligned, not NULL, and not those of the boot tables. */
  lemma PageWords(i: nat, j: nat)
    requires i < ALIAS_LIMIT && j < ALIAS_LIMIT
    ensures var p := Word(PageAddr(i));
      && PageAligned(p) && p != PageMapper.NULL && p != ROOT && p != FIRST_PDPT && p != FIRST_PDT
      && (i != j ==> p != Word(PageAddr(j)))
  {
    hide Word, PageAligned, Within, Shifted, Mask, Plus;
    Address(i);
    Address(j);
    BootWords();
    Other(i, FIRST_PAGE + j);
    Other(i, 144);
    Other(i, 145);
    Other(i, 146);
    NotZero(FIRST_PAGE + i);
  }

  lemma Other(i: nat, n: nat)
    requires i < ALIAS_LIMIT && n < 0x100_0000
    ensures var v, w := Word(FIRST_PAGE + i), Word(n);
      && PageAligned(Shifted(v)) && (n != FIRST_PAGE + i ==> Shifted(v) != Shifted(w))
      && (v != 0 ==> Shifted(v) != PageMapper.NULL)
  {
    hide Word, PageAligned, Within, Shifted, Mask, Plus;
    MaskIs();
    WordFits(FIRST_PAGE + i, 24);
    WordFits(n, 24);
    ShiftedPages(Word(FIRST_PAGE + i), Word(n));
    if n < FIRST_PAGE + i {
      WordsApart(n, FIRST_PAGE + i);
    } else if n > FIRST_PAGE + i {
      WordsApart(FIRST_PAGE + i, n);
    }
  }

  /** The pages whose addresses lie below 32 MB, where the boot tables translate. */
  const BOOT_PAGES := 7424

  lemma ThirteenBits()
    ensures Mask(13) == 0x1fff && Pow2(13) == 8192
  {
    assert Mask(8) == 0xff && Pow2(8) == 256;
  }

  lemma EightK()
    ensures Word(8192) == 0x2000
  {
    hide Word, Plus;
    TwoIs();
    WordScaled(2, 12);
    ScaledIs(Word(2));
  }

  lemma TwoIs()
    ensures Word(2) == 2
  {
    assert Word(1) == 1;
  }

  predicate Under(p: bv64) {
    p < 0x200_0000
  }

  lemma ShiftedBelow(w: bv64)
    requires Within(w, 0xff_ffff)
    ensures PageMapper.Low(Shifted(w)) && (Within(w, 0x1fff) ==> Under(Shifted(w)))
  {
  }

  lemma ShiftedAbove(w: bv64)
    requires Within(w, 0xff_ffff)
    ensures !Under(Shifted(Plus(0x2000, w)))
  {
  }

  lemma BelowBoot(i: nat)
    requires i < ALIAS_LIMIT
    ensures var p := Word(PageAddr(i)); PageMapper.Low(p) && (Under(p) <==> i < BOOT_PAGES)
  {
    hide Word, Plus, Within, Mask, Shifted, PageMapper.Low, Under;
    Address(i);
    MaskIs();
    WordFits(FIRST_PAGE + i, 24);
    ShiftedBelow(Word(FIRST_PAGE + i));
    if i < BOOT_PAGES {
      ThirteenBits();
      WordFits(FIRST_PAGE + i, 13);
    } else {
      var n := i - BOOT_PAGES;
      assert FIRST_PAGE + i == 8192 + n;
      WordAdds(8192, n);
      EightK();
      WordFits(n, 24);
      ShiftedAbove(Word(n));
    }
  }

  // ----- the pool

  function Pool(pages: seq<nat>): (p: seq<bv64>)
    ensures |p| == |pages| && forall k :: 0 <= k < |p| ==> p[k] == Word(PageAddr(pages[k]))
  {
    seq(|pages|, k requires 0 <= k < |pages| => Word(PageAddr(pages[k])))
  }

  /** The page numbers that n calls of get_free_page answer in a row. */
  function Handed(taken: set<nat>, cap: nat, n: nat): (pages: seq<nat>)
    ensures |pages| <= n && forall k :: 0 <= k < |pages| ==> pages[k] < cap && pages[k] !in taken
    ensures forall k, l :: 0 <= k < l < |pages| ==> pages[k] != pages[l]
    decreases n
  {
    var i := LowestFree(taken, 0, cap);
    if n == 0 || i == EOF then [] else [i] + Handed(taken + {i}, cap, n - 1)
  }

  function FreePages(taken: set<nat>, cap: nat): set<nat> {
    set i: nat | i < cap && i !in taken
  }

  /** As many calls get a page as there are free pages. */
  lemma {:induction false} HandedCount(taken: set<nat>, cap: nat, n: nat)
    requires n <= |FreePages(taken, cap)|
    ensures |Handed(taken, cap, n)| == n
    decreases n
  {
    var i := LowestFree(taken, 0, cap);
    if i == EOF {
      assert FreePages(taken, cap) == {};
    } else if n > 0 {
      assert FreePages(taken + {i}, cap) == FreePages(taken, cap) - {i};
      HandedCount(taken + {i}, cap, n - 1);
    }
  }

  lemma NoneFree(taken: set<nat>, cap: nat)
    ensures LowestFree(taken, 0, cap) == EOF <==> FreePages(taken, cap) == {}
  {
    var i := LowestFree(taken, 0, cap);
    assert i != EOF ==> i in FreePages(taken, cap);
  }

  /** The lowest pages are handed out first. */
  lemma {:induction false} HandedLow(taken: set<nat>, low: nat, cap: nat, n: nat)
    requires low <= cap && n <= |FreePages(taken, low)|
    ensures Handed(taken, cap, n) == Handed(taken, low, n)
    decreases n
  {
    if n > 0 {
      NoneFree(taken, low);
      var i := LowestFree(taken, 0, low);
      LowestBelow(taken, low, cap);
      assert FreePages(taken + {i}, low) == FreePages(taken, low) - {i};
      HandedLow(taken + {i}, low, cap, n - 1);
    }
  }

  lemma LowestBelow(taken: set<nat>, low: nat, cap: nat)
    requires low <= cap && LowestFree(taken, 0, low) != EOF
    ensures LowestFree(taken, 0, cap) == LowestFree(taken, 0, low)
  {
    var i, j := LowestFree(taken, 0, low), LowestFree(taken, 0, cap);
    assert i !in taken && i < cap;
    assert j == EOF ==> i in taken;
    assert j != EOF && j < i ==> j in taken;
    assert i < j ==> i in taken;
  }

  /** What the mapper takes from the page allocator at boot is what it relies on: fresh, distinct, aligned pages. */
  lemma PoolFromAllocator(taken: set<nat>, cap: nat, n: nat)
    requires cap <= ALIAS_LIMIT
    ensures PageMapper.PoolOk(Ioremap.BootTables(), Pool(Handed(taken, cap, n)))
  {
    hide Word, PageAligned, Handed, Ioremap.BootTables;
    var pages := Handed(taken, cap, n);
    forall k | 0 <= k < |pages|
      ensures PageMapper.Spare(Ioremap.BootTables(), Pool(pages)[k])
    {
      PageWords(pages[k], pages[k]);
      Ioremap.BootMembers(Pool(pages)[k]);
    }
    forall k, l | 0 <= k < l < |pages|
      ensures Pool(pages)[k] != Pool(pages)[l]
    {
      PageWords(pages[k], pages[l]);
    }
  }

  /** And what it relies on for the first 32 MB: there the boot tables let it write. */
  predicate Writable(p: bv64) {
    PageMapper.Low(p) && Under(p)
  }

  lemma HandedWritable(taken: set<nat>, cap: nat, n: nat)
    requires cap <= ALIAS_LIMIT && n <= |FreePages(taken, if cap < BOOT_PAGES then cap else BOOT_PAGES)|
    ensures forall k :: 0 <= k < |Handed(taken, cap, n)| ==> Writable(Pool(Handed(taken, cap, n))[k])
    ensures |Handed(taken, cap, n)| == n
  {
    hide Word, PageMapper.Low;
    var low := if cap < BOOT_PAGES then cap else BOOT_PAGES;
    HandedLow(taken, low, cap, n);
    HandedCount(taken, low, n);
    var pages := Handed(taken, cap, n);
    forall k | 0 <= k < |pages|
      ensures Writable(Pool(pages)[k])
    {
      BelowBoot(pages[k]);
    }
  }

  // ----- from boot to the last request

  function Total(requests: seq<Ioremap.Request>): nat {
    if requests == [] then 0 else requests[0].n + Total(requests[1..])
  }

  lemma {:induction false} PlacesBound(requests: seq<Ioremap.Request>)
    ensures |Ioremap.RunPlaces(requests)| <= 2 * Total(requests)
  {
    if requests != [] {
      var places, rest := PageMapper.RangePlaces(requests[0].a, requests[0].n), Ioremap.RunPlaces(requests[1..]);
      PageMapper.TwoPerPage(requests[0].a, requests[0].n);
      PageMapper.UnionSize(places, rest);
      PlacesBound(requests[1..]);
    }
  }

  /**
   * Two free pages below 32 MB for every 2 MB requested are enough, whatever else get_free_page answers later: the
   * run ends without a fault, the tables are a tree, and exactly the first 32 MB and the pages requested are
   * translated, each address to itself.
   */
  lemma AllMapped(requests: seq<Ioremap.Request>, taken: set<nat>, cap: nat, rest: seq<bv64>)
    requires cap <= ALIAS_LIMIT
    requires 2 * Total(requests) <= |FreePages(taken, if cap < BOOT_PAGES then cap else BOOT_PAGES)|
    requires Ioremap.Aligned(requests) && Ioremap.AllLow(requests)
    ensures var pool := Pool(Handed(taken, cap, 2 * Total(requests)));
      var o := Ioremap.Serve(PageMapper.State(Ioremap.BootTables(), pool + rest), requests);
      o.Done? && Tree(o.s.t) && Ioremap.MapsExactly(o.s.t.mem, requests)
  {
    hide Walk, PageMapper.Low, PageMapper.PoolOk, Ioremap.BootTables, Ioremap.Serve, Ioremap.MapsExactly, Handed, Tree;
    var n := 2 * Total(requests);
    var s := PageMapper.State(Ioremap.BootTables(), Pool(Handed(taken, cap, n)));
    HandedWritable(taken, cap, n);
    PoolFromAllocator(taken, cap, n);
    PlacesBound(requests);
    PageMapper.UnionSize(Places(s.t), Ioremap.RunPlaces(requests));
    Ioremap.FromBoot(requests, s.pool, rest);
  }

  /** An input that fails: with every page below 32 MB taken, the first table page faults. */
  lemma FirstTableFaults(taken: set<nat>, cap: nat, rest: seq<bv64>)
    requires BOOT_PAGES < cap <= ALIAS_LIMIT && BOOT_PAGES !in taken && forall i: nat :: i < BOOT_PAGES ==> i in taken
    ensures Handed(taken, cap, 1) == [BOOT_PAGES]
    ensures MapperCode.OnePage(
      PageMapper.State(Ioremap.BootTables(), Pool(Handed(taken, cap, 1)) + rest), 0x80_0000_0000).Fault?
  {
    hide Word, Walk, PageMapper.Low, Ioremap.BootTables, MapperCode.OnePage;
    var a: bv64 := 0x80_0000_0000;
    FirstHanded(taken, cap);
    var p := Word(PageAddr(BOOT_PAGES));
    BelowBoot(BOOT_PAGES);
    Ioremap.BootWalk(p);
    Ioremap.BootAddresses();
    Ioremap.BootWalk(ROOT);
    Ioremap.BootEntry(ROOT, Pml4Index(a));
    assert PageMapper.Next(Pool([BOOT_PAGES]) + rest) == p;
    Ioremap.UnreachableFaults(PageMapper.State(Ioremap.BootTables(), Pool([BOOT_PAGES]) + rest), p, a);
  }

  lemma FirstHanded(taken: set<nat>, cap: nat)
    requires BOOT_PAGES < cap && BOOT_PAGES !in taken && forall i: nat :: i < BOOT_PAGES ==> i in taken
    ensures Handed(taken, cap, 1) == [BOOT_PAGES]
  {
    var i := LowestFree(taken, 0, cap);
    assert i != EOF;
    assert Handed(taken + {i}, cap, 0) == [];
  }

  // ----- past the last free page

  /** The page allocator as the mapper finds it. */
  datatype Allocator = Allocator(taken: set<nat>, cap: nat)

  /** One call of get_free_page, and what zeroing its answer does to the bitmap. */
  function Answer(al: Allocator): bv64 {
    var i := LowestFree(al.taken, 0, al.cap);
    if i == EOF then PageMapper.NULL else Word(PageAddr(i))
  }

  function After(al: Allocator): Allocator {
    var i := LowestFree(al.taken, 0, al.cap);
    Allocator(if i == EOF then Zeroed(al.taken) else al.taken + {i}, al.cap)
  }

  function Answers(al: Allocator, n: nat): (s: seq<bv64>)
    ensures |s| == n
    decreases n
  {
    if n == 0 then [] else [Answer(al)] + Answers(After(al), n - 1)
  }

  /** The free pages come first, lowest first; then NULL. */
  lemma {:induction false} AnswersFirst(al: Allocator, n: nat) returns (rest: seq<bv64>)
    requires |FreePages(al.taken, al.cap)| < n
    ensures var pages := Handed(al.taken, al.cap, |FreePages(al.taken, al.cap)|);
      Answers(al, n) == Pool(pages) + ([PageMapper.NULL] + rest) && |pages| == |FreePages(al.taken, al.cap)|
    decreases n
  {
    hide Word, Answers, Handed, Answer;
    NoneFree(al.taken, al.cap);
    var i := LowestFree(al.taken, 0, al.cap);
    HandedCount(al.taken, al.cap, |FreePages(al.taken, al.cap)|);
    AnswersStep(al, n);
    if i == EOF {
      rest := Answers(After(al), n - 1);
      assert Handed(al.taken, al.cap, 0) == [] && Pool([]) == [];
    } else {
      assert FreePages(al.taken + {i}, al.cap) == FreePages(al.taken, al.cap) - {i};
      rest := AnswersFirst(After(al), n - 1);
      HandedStep(al.taken, al.cap, |FreePages(al.taken, al.cap)|);
      PoolStep(i, Handed(al.taken + {i}, al.cap, |FreePages(al.taken, al.cap)| - 1), [PageMapper.NULL] + rest);
    }
  }

  lemma AnswersStep(al: Allocator, n: nat)
    requires n > 0
    ensures Answers(al, n) == [Answer(al)] + Answers(After(al), n - 1)
    ensures Answer(al) ==
      var i := LowestFree(al.taken, 0, al.cap); if i == EOF then PageMapper.NULL else Word(PageAddr(i))
  {
    hide Word;
  }

  lemma HandedStep(taken: set<nat>, cap: nat, n: nat)
    requires n > 0 && LowestFree(taken, 0, cap) != EOF
    ensures var i := LowestFree(taken, 0, cap); Handed(taken, cap, n) == [i] + Handed(taken + {i}, cap, n - 1)
  {
  }

  lemma PoolStep(i: nat, pages: seq<nat>, rest: seq<bv64>)
    ensures Pool([i] + pages) + rest == [Word(PageAddr(i))] + (Pool(pages) + rest)
  {
    hide Word;
  }

  /**
   * From boot, with all its pages below 32 MB, over any run of requests below 2^48: the run ends without a fault and
   * without page 0 as a table if and only if there are as many free pages as the run lacks tables.
   */
  lemma FreePagesIff(requests: seq<Ioremap.Request>, taken: set<nat>, cap: nat, n: nat)
    requires cap <= BOOT_PAGES && |FreePages(taken, cap)| < n && Ioremap.Aligned(requests) && Ioremap.AllLow(requests)
    ensures var o := Ioremap.Serve(PageMapper.State(Ioremap.BootTables(), Answers(Allocator(taken, cap), n)), requests);
      o.Done? && Key(PageMapper.NULL) !in o.s.t.mem <==>
        |Ioremap.RunPlaces(requests) - Places(Ioremap.BootTables())| <= |FreePages(taken, cap)|
  {
    hide PageMapper.Low, PageMapper.PoolOk, Ioremap.BootTables, Ioremap.Serve, Ioremap.MapsExactly;
    hide Handed, Tree, Answers;
    var f := |FreePages(taken, cap)|;
    var rest := AnswersFirst(Allocator(taken, cap), n);
    HandedWritable(taken, cap, f);
    PoolFromAllocator(taken, cap, f);
    Ioremap.IdentityFromBoot(requests, Pool(Handed(taken, cap, f)), rest);
  }

  // ----- an input that fails

  /** With two pages, the third table is page 0 and the fourth the first once more. */
  lemma TwoPages()
    ensures Answers(Allocator({}, 2), 4) ==
      [Word(PageAddr(0)), Word(PageAddr(1))] + [PageMapper.NULL, Word(PageAddr(0))]
  {
    hide Word;
    var al := Allocator({}, 2);
    assert After(al) == Allocator({0}, 2) && Answer(al) == Word(PageAddr(0));
    assert After(Allocator({0}, 2)) == Allocator({0, 1}, 2) && Answer(Allocator({0}, 2)) == Word(PageAddr(1));
    assert Zeroed({0, 1}) == {};
    assert After(Allocator({0, 1}, 2)) == al && Answer(Allocator({0, 1}, 2)) == PageMapper.NULL;
  }

  lemma BootPages()
    ensures PageMapper.PagePlaces(0x80_0000_0000) == {Pdpt(1), Pd(1, 0)}
    ensures PageMapper.PagePlaces(0x80_0000_0000) - Places(Ioremap.BootTables()) == {Pdpt(1), Pd(1, 0)}
    ensures Pdpt(2) !in Places(Ioremap.BootTables())
  {
    hide Ioremap.BootLeaves;
  }

  lemma Indices()
    ensures Pml4Index(0x80_0000_0000) == 1 && Pml4Index(0x100_0000_0000) == 2
    ensures PageMapper.LowRange(0x80_0000_0000, 1) && (0x80_0000_0000 as bv64) & OFFSET_2M == 0
    ensures PageMapper.Low(0x80_0000_0000) && PageMapper.Covered(0x80_0000_0000, 1, 0x80_0000_0000)
  {
    assert PageMapper.LowRange(0x80_0000_0000 + PAGE_2M, 0);
  }

  lemma UnderRootIndex(p: bv64)
    requires Under(p)
    ensures Pml4Index(p) == 0
  {
  }

  lemma TwoGood(s: PageMapper.State)
    requires s == PageMapper.State(Ioremap.BootTables(), [Word(PageAddr(0)), Word(PageAddr(1))])
    ensures PageMapper.Good(s) && MapperCode.Reachable(s)
  {
    hide Word, PageMapper.Low, PageMapper.PoolOk, Ioremap.BootTables, Tree;
    TwoHanded();
    PoolFromAllocator({}, 2, 2);
    HandedWritable({}, 2, 2);
    assert Pool([0, 1]) == s.pool;
    Ioremap.BootGood(s.pool);
  }

  lemma TwoHanded()
    ensures Handed({}, 2, 2) == [0, 1] && |FreePages({}, 2)| == 2
  {
    assert Handed({0, 1}, 2, 0) == [];
    assert {} + {0} + {1} == {0, 1};
    assert FreePages({}, 2) == {0, 1};
  }

  /** What the first mapping leaves for the second. */
  lemma SecondMapping(s: PageMapper.State, r: PageMapper.State, a: bv64, b: bv64, p: bv64)
    requires PageMapper.Good(s) && s.t == Ioremap.BootTables() && |s.pool| == 2 && s.pool[0] == p
    requires a == 0x80_0000_0000 && b == 0x100_0000_0000 && r == PageMapper.MapPage(s, a) && MapperCode.Reachable(r)
    ensures PageMapper.Good(r) && r.pool == [] && IsTable(r.t, p) && RoleOf(r.t, p) == Pdpt(1)
    ensures Entry(r.t.mem, ROOT, Pml4Index(b)) == 0
  {
    hide Ioremap.BootTables, PageMapper.MapPage, Tree, PageMapper.PoolOk, Entry, MapperCode.Reachable;
    BootPages();
    Indices();
    assert |{Pdpt(1), Pd(1, 0)}| == 2;
    Ioremap.BootEntry(ROOT, 1);
    PageMapper.PageKeeps(s, a);
    PageMapper.FirstTable(s, a);
    PageMapper.RootOk(r.t);
    PlaceIff(r.t, ROOT, 2);
  }

  /**
   * With two pages in the allocator, the page at 512 GB is mapped, and translated to itself. Mapping the page at 1 TB
   * then takes page 0, and with it the bits of both pages; the table of the first mapping is handed out again,
   * zeroed, and the first mapping is gone.
   */
  lemma TableHandedOutTwice()
    ensures var s := PageMapper.State(Ioremap.BootTables(), Answers(Allocator({}, 2), 4));
      var a, b: bv64 := 0x80_0000_0000, 0x100_0000_0000;
      var o := MapperCode.Pages(s, a, 1);
      && o.Done? && Walk(o.s.t.mem, a) == Some(a)
      && var o' := MapperCode.OnePage(o.s, b); o'.Done? && Walk(o'.s.t.mem, a) == None
  {
    hide Word, Walk, PageAligned, PageMapper.Low, Ioremap.BootTables, PageMapper.MapRange;
    hide MapperCode.Pages, MapperCode.OnePage;
    hide PageMapper.PagePlaces, Tree, PageMapper.PoolOk, PageMapper.Covered, PageMapper.LowRange, Answers;
    var a, b: bv64 := 0x80_0000_0000, 0x100_0000_0000;
    var p, q := Word(PageAddr(0)), Word(PageAddr(1));
    TwoPages();
    BootPages();
    Indices();
    var s := PageMapper.State(Ioremap.BootTables(), [p, q]);
    var rest := [PageMapper.NULL, p];
    TwoGood(s);
    RangeOfOne(s, a);
    MapperCode.RangeIsIdentity(s, rest, a, 1);
    var r := PageMapper.MapPage(s, a);
    SecondMapping(s, r, a, b, p);
    NothingLeft(r, rest);
    PageWords(0, 0);
    BelowBoot(0);
    UnderRootIndex(p);
    Ioremap.ReuseLoses(r, [], p, b, a);
  }

  lemma NothingLeft(s: PageMapper.State, rest: seq<bv64>)
    requires s.pool == []
    ensures MapperCode.With(s, rest) == PageMapper.State(s.t, rest + [])
  {
  }

  lemma RangeOfOne(s: PageMapper.State, a: bv64)
    ensures PageMapper.RangePlaces(a, 1) == PageMapper.PagePlaces(a)
    ensures PageMapper.MapRange(s, a, 1) == PageMapper.MapPage(s, a)
  {
    hide PageMapper.MapPage, PageMapper.PagePlaces;
    assert PageMapper.RangePlaces(a + PAGE_2M, 0) == {};
  }
}
