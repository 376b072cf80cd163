/** The shift-and-mask macros of x64_kenerl/include/linux/page.h, and the bit layout of 4-level paging entries. */
module PageBits {

  /** PML4_VRT_TO_PML4_IDX */
  function Pml4Index(v: bv64): (i: bv64)
    ensures i < 512
  {
    (v & 0xffff_ffff_ffff) >> 39
  }

  /** PML4_VRT_TO_PDPT_IDX */
  function PdptIndex(v: bv64): (i: bv64)
    ensures i < 512
  {
    (v & 0x7f_ffff_ffff) >> 30
  }

  /** PML4_VRT_TO_PDT_IDX */
  function PdIndex(v: bv64): (i: bv64)
    ensures i < 512
  {
    (v & 0x3fff_ffff) >> 21
  }

  /** PML4_G_E_ADDR: the address field of an entry. */
  function EntryAddr(e: bv64): bv64 {
    ((e << 12) >> 24) << 12
  }

  const PRESENT: bv64 := 0x1
  const LARGE: bv64 := 0x80
  const TABLE_FLAGS: bv64 := 0xb
  const LEAF_FLAGS: bv64 := 0x8b
  const PAGE_2M: bv64 := 0x20_0000
  const OFFSET_2M: bv64 := 0x1f_ffff
  const FRAME_2M: bv64 := 0xf_ffff_ffe0_0000
  const VIRTUAL: bv64 := 0xffff_ffff_ffff
  const ABOVE_VIRTUAL: bv64 := 0xf_0000_0000_0000

  /** A page-aligned address of at most 52 bits. */
  predicate PageAligned(p: bv64) {
    p & 0xf_ffff_ffff_f000 == p
  }

  /** The three indices and the offset are exactly the low 48 bits of an address. */
  lemma Recombine(v: bv64)
    ensures v & VIRTUAL == (Pml4Index(v) << 39) | (PdptIndex(v) << 30) | (PdIndex(v) << 21) | (v & OFFSET_2M)
  {
  }

  /** The three indices name the 2 MB page of an address, and nothing coarser. */
  predicate SamePage(v: bv64, w: bv64) {
    v & 0xffff_ffe0_0000 == w & 0xffff_ffe0_0000
  }

  lemma IndicesNamePage(v: bv64, w: bv64)
    ensures SamePage(v, w) <==> Pml4Index(v) == Pml4Index(w) && PdptIndex(v) == PdptIndex(w) && PdIndex(v) == PdIndex(w)
  {
    Field(v, w);
    Split(v, w);
  }

  lemma Field(v: bv64, w: bv64)
    ensures Pml4Index(v) == Pml4Index(w) <==> v & 0xff80_0000_0000 == w & 0xff80_0000_0000
    ensures PdptIndex(v) == PdptIndex(w) <==> v & 0x7f_c000_0000 == w & 0x7f_c000_0000
    ensures PdIndex(v) == PdIndex(w) <==> v & 0x3fe0_0000 == w & 0x3fe0_0000
  {
  }

  lemma Split(v: bv64, w: bv64)
    ensures v & 0xffff_ffe0_0000 == w & 0xffff_ffe0_0000 <==>
      v & 0xff80_0000_0000 == w & 0xff80_0000_0000 && v & 0x7f_c000_0000 == w & 0x7f_c000_0000 &&
      v & 0x3fe0_0000 == w & 0x3fe0_0000
  {
  }

  /** A 48-bit address is determined by its indices and its offset. */
  lemma IndicesDetermine(v: bv64, w: bv64)
    ensures v & VIRTUAL == w & VIRTUAL <==> SamePage(v, w) && v & OFFSET_2M == w & OFFSET_2M
  {
    if SamePage(v, w) && v & OFFSET_2M == w & OFFSET_2M {
      PageAndOffset(v);
      PageAndOffset(w);
    }
  }

  lemma PageAndOffset(v: bv64)
    ensures v & VIRTUAL == (v & 0xffff_ffe0_0000) | (v & OFFSET_2M)
  {
  }

  /** The entry-address macro recovers the page from any entry made of a page and low flag bits. */
  lemma EntryAddrRecovers(p: bv64, flags: bv64)
    requires PageAligned(p) && flags & 0xfff == flags
    ensures EntryAddr(p | flags) == p
  {
  }

  lemma TableEntry(p: bv64)
    requires PageAligned(p)
    ensures p | TABLE_FLAGS != 0 && (p | TABLE_FLAGS) & PRESENT != 0 && (p | TABLE_FLAGS) & LARGE == 0
    ensures EntryAddr(p | TABLE_FLAGS) == p
  {
  }

  lemma LeafEntry(a: bv64)
    requires a & OFFSET_2M == 0
    ensures a | LEAF_FLAGS != 0 && (a | LEAF_FLAGS) & PRESENT != 0 && (a | LEAF_FLAGS) & LARGE != 0
  {
  }

  /** Where the 2 MB page at a sends an address. */
  function InFrame(a: bv64, v: bv64): bv64 {
    (a & FRAME_2M) | (v & OFFSET_2M)
  }

  lemma LeafFrame(a: bv64)
    ensures (a | LEAF_FLAGS) & FRAME_2M == a & FRAME_2M
  {
  }

  lemma LeafInFrame(a: bv64, v: bv64)
    ensures InFrame(a | LEAF_FLAGS, v) == InFrame(a, v)
  {
    LeafFrame(a);
    FrameOnly(a | LEAF_FLAGS, a, v);
  }

  lemma FrameOnly(x: bv64, y: bv64, v: bv64)
    requires x & FRAME_2M == y & FRAME_2M
    ensures InFrame(x, v) == InFrame(y, v)
  {
  }

  /** A 48-bit address in the page of a is sent to itself exactly when bits 48 to 51 of a are clear. */
  lemma IdentityIff(a: bv64, v: bv64)
    requires SamePage(a, v) && v & VIRTUAL == v && a & OFFSET_2M == 0
    ensures InFrame(a, v) == v <==> a & ABOVE_VIRTUAL == 0
  {
  }

  lemma NextPageAligned(a: bv64)
    requires a & OFFSET_2M == 0
    ensures (a + PAGE_2M) & OFFSET_2M == 0
  {
  }

  lemma InItsPage(a: bv64)
    ensures SamePage(a, a & VIRTUAL) && (a & VIRTUAL) & VIRTUAL == a & VIRTUAL
  {
  }
}
