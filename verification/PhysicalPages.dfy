/** The physical page allocator: get_free_page and free_page of x64_kenerl/kernel/phymm.c. */
module PhysicalPages {
  import opened Arith
  import opened Bitmap

  const PAGE_SIZE := 4096
  const MANAGER_START := 0x300000
  const NULL: nat := 0

  /** Page number to address; the shift is done in 32 bits. */
  function PageAddr(idx: nat): nat {
    MANAGER_START + idx * PAGE_SIZE % U32
  }

  /** Address to page number, the inverse that free_page computes. */
  function PageIndex(p: nat): nat {
    (p - MANAGER_START) % U64 / PAGE_SIZE % U32
  }

  /** The first page number whose address has the top bits cut off. */
  const ALIAS_LIMIT := 0x10_0000

  lemma PageRoundTrip(idx: nat)
    ensures idx < ALIAS_LIMIT ==> PageIndex(PageAddr(idx)) == idx && PageAddr(idx) == MANAGER_START + idx * PAGE_SIZE
    ensures PageAddr(idx) == PageAddr(idx % ALIAS_LIMIT)
  {
    assert idx * PAGE_SIZE == idx / ALIAS_LIMIT * U32 + idx % ALIAS_LIMIT * PAGE_SIZE;
    ModAdd(idx / ALIAS_LIMIT, idx % ALIAS_LIMIT * PAGE_SIZE);
  }

  lemma ModAdd(q: nat, r: nat)
    requires r < U32
    ensures (q * U32 + r) % U32 == r
  {
  }

  /** Distinct page numbers below `cap` have distinct addresses exactly when the bitmap covers at most 4 GB. */
  lemma PagesDistinctIff(cap: nat)
    ensures (forall i: nat, j: nat :: i < j < cap ==> PageAddr(i) != PageAddr(j)) <==> cap <= ALIAS_LIMIT
  {
    if cap <= ALIAS_LIMIT {
      forall i: nat, j: nat | i < j < cap
        ensures PageAddr(i) != PageAddr(j)
      {
        PageRoundTrip(i);
        PageRoundTrip(j);
      }
    } else {
      PageRoundTrip(ALIAS_LIMIT);
      assert 0 < ALIAS_LIMIT < cap && PageAddr(0) == PageAddr(ALIAS_LIMIT);
    }
  }

  /** The lowest page number in from .. cap-1 that is not taken, or EOF. */
  function LowestFree(taken: set<nat>, from: nat, cap: nat): (i: int)
    ensures i == EOF ==> forall j: nat :: from <= j < cap ==> j in taken
    ensures i != EOF ==> from <= i < cap && i !in taken && forall j: nat :: from <= j < i ==> j in taken
    decreases cap - from
  {
    if from >= cap then EOF
    else if from !in taken then from
    else LowestFree(taken, from + 1, cap)
  }

  /** The lowest free page of a bitmap is where a scan for one clear bit stops. */
  lemma ScanIsLowestFree(v: seq<bool>, cap: nat, s: int, taken: set<nat>)
    requires cap <= |v| && forall i: nat :: i < cap ==> (i in taken <==> v[i])
    requires s == EOF ==> NoHit(v, cap, 1)
    requires s != EOF ==> s >= 0 && FirstHit(v, cap, s, 1)
    ensures s == LowestFree(taken, 0, cap)
  {
    var l := LowestFree(taken, 0, cap);
    if l != EOF {
      assert Hit(v, l, 1);
      forall t: nat | t < l
        ensures !Hit(v, t, 1)
      {
        assert t in taken;
      }
      assert FirstHit(v, cap, l, 1);
    }
    assert s != EOF ==> !v[s] && s !in taken;
    if s != EOF && l != EOF {
      UniqueHit(v, cap, s, l);
    }
  }

  lemma UniqueHit(v: seq<bool>, limit: nat, s: nat, t: nat)
    requires FirstHit(v, limit, s, 1) && FirstHit(v, limit, t, 1)
    ensures s == t
  {
  }

  // ----- the bitmap in page 0

  /** MEN_BITS_MAP: the bitmap starts in page 0, so whoever writes that page writes the bits of the pages below this. */
  const BITMAP_AT := 0x500
  const IN_PAGE_ZERO := 8 * (PAGE_SIZE - BITMAP_AT)

  /** What is taken once page 0 has been zeroed. */
  function Zeroed(taken: set<nat>): set<nat> {
    set i | i in taken && i >= IN_PAGE_ZERO
  }

  /**
   * When get_free_page has answered NULL, every page is in use, and a caller that takes the answer for a page zeroes
   * it. The next answer is a page in use, the first one, if and only if the allocator has pages at all.
   */
  lemma ReusedIff(taken: set<nat>, cap: nat)
    requires LowestFree(taken, 0, cap) == EOF
    ensures var i := LowestFree(Zeroed(taken), 0, cap);
      (i != EOF && i in taken <==> cap > 0) && (cap > 0 ==> i == 0)
  {
    var i := LowestFree(Zeroed(taken), 0, cap);
    assert cap > 0 ==> 0 in taken && 0 !in Zeroed(taken);
    assert i > 0 ==> 0 in Zeroed(taken);
  }

  class PageAllocator {
    const bitmap: Bits

    ghost predicate Valid() {
      bitmap.Valid() && bitmap.offset == 0
    }

    /** The page numbers whose bit is set. */
    ghost function Taken(): (s: set<nat>)
      requires Valid()
      reads bitmap.bits
      ensures forall i: nat :: i in s <==> i < 8 * bitmap.length && bitmap.View()[i]
    {
      set i: nat | i < 8 * bitmap.length && bitmap.View()[i]
    }

    ghost function Capacity(): nat {
      bitmap.Limit()
    }

    constructor (bitmap: Bits)
      requires bitmap.Valid() && bitmap.offset == 0
      ensures Valid() && this.bitmap == bitmap
    {
      this.bitmap := bitmap;
    }

    method GetFreePage() returns (p: nat)
      requires Valid()
      modifies bitmap.bits
      ensures Valid()
      ensures var i := LowestFree(old(Taken()), 0, Capacity());
        if i == EOF then p == NULL && Taken() == old(Taken()) && bitmap.bits[..] == old(bitmap.bits[..])
        else p == PageAddr(i) && Taken() == old(Taken()) + {i}
    {
      ghost var v, taken := bitmap.View(), Taken();
      var r := bitmap.Scan(1);
      ghost var s := StopFrom(v, Capacity(), 1, 0, 0);
      ScanIsLowestFree(v, Capacity(), s, taken);
      assert s != EOF ==> Taken() == taken + {s};
      if s != EOF {
        IntRoundTrip(0, s);
      }
      var idx := r % U32;
      if idx == EOF % U32 {
        return NULL;
      }
      p := PageAddr(idx);
    }

    /** Zeroing page 0, as it falls on the bitmap. */
    method ZeroPageZero()
      requires Valid()
      modifies bitmap.bits
      ensures Valid() && Taken() == Zeroed(old(Taken()))
    {
      ghost var before := bitmap.bits[..];
      var bits := bitmap.bits;
      var n := if bitmap.length < PAGE_SIZE - BITMAP_AT then bitmap.length else PAGE_SIZE - BITMAP_AT;
      for i := 0 to n
        invariant forall j :: 0 <= j < bits.Length ==> bits[j] == if j < i then 0 else before[j]
      {
        bits[i] := 0;
      }
      forall i: nat | i < 8 * bitmap.length
        ensures bitmap.View()[i] == (i >= IN_PAGE_ZERO && Unpack(before)[i])
      {
        UnpackAt(bits[..], i / 8, i % 8);
        UnpackAt(before, i / 8, i % 8);
      }
    }

    method FreePage(p: nat)
      requires Valid() && PageIndex(p) < 8 * bitmap.length
      modifies bitmap.bits
      ensures Valid() && Taken() == old(Taken()) - {PageIndex(p)}
    {
      var idx := PageIndex(p);
      Small(idx);
      bitmap.Set(idx, false);
    }
  }

  lemma Small(i: nat)
    requires i < U32
    ensures (i - 0) % U32 == i
  {
  }
}
