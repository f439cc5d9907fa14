/** The address and page-table entry macros, on 64-bit words. */
module Mmu {
  const PTE_TABLE: bv64 := 0x3
  const KSPACE_MASK: bv64 := 0xffff000000000000

  function K2P(a: bv64): bv64 {
    a - KSPACE_MASK
  }

  function P2K(a: bv64): bv64 {
    a + KSPACE_MASK
  }

  function PteAddress(pte: bv64): bv64 {
    pte & !0xFFFF000000000FFF
  }

  function PteFlags(pte: bv64): bv64 {
    pte & 0xFFFF000000000FFF
  }

  predicate IsValid(pte: bv64) {
    pte & 1 != 0
  }

  function VaPart0(va: bv64): bv64 {
    (va & 0xFF8000000000) >> 39
  }

  function VaPart1(va: bv64): bv64 {
    (va & 0x7FC0000000) >> 30
  }

  function VaPart2(va: bv64): bv64 {
    (va & 0x3FE00000) >> 21
  }

  function VaPart3(va: bv64): bv64 {
    (va & 0x1FF000) >> 12
  }

  lemma PartBounds(va: bv64)
    ensures VaPart0(va) < 512 && VaPart1(va) < 512 && VaPart2(va) < 512 && VaPart3(va) < 512
  {
  }

  /** The 48-bit page an address lies in. */
  function PageOf(va: bv64): bv64 {
    va & 0xFFFFFFFFF000
  }

  /** The four indices are fields of the page number, and make it up. */
  lemma PageIsParts(a: bv64)
    ensures PageOf(a) == (VaPart0(a) << 39) | (VaPart1(a) << 30) | (VaPart2(a) << 21) | (VaPart3(a) << 12)
    ensures VaPart0(PageOf(a)) == VaPart0(a) && VaPart1(PageOf(a)) == VaPart1(a)
    ensures VaPart2(PageOf(a)) == VaPart2(a) && VaPart3(PageOf(a)) == VaPart3(a)
  {
  }

  /** The four indices tell exactly which page it is. */
  lemma PartsDecide(a: bv64, b: bv64)
    ensures VaPart0(a) == VaPart0(b) && VaPart1(a) == VaPart1(b) && VaPart2(a) == VaPart2(b) && VaPart3(a) == VaPart3(b)
       <==> PageOf(a) == PageOf(b)
  {
    PageIsParts(a);
    PageIsParts(b);
  }

  /** Any four indices are those of some page. */
  lemma PartsCover(k0: bv64, k1: bv64, k2: bv64, k3: bv64)
    requires k0 < 512 && k1 < 512 && k2 < 512 && k3 < 512
    ensures var va := (k0 << 39) | (k1 << 30) | (k2 << 21) | (k3 << 12);
            PageOf(va) == va && VaPart0(va) == k0 && VaPart1(va) == k1 && VaPart2(va) == k2 && VaPart3(va) == k3
  {
  }

  /** A page-aligned physical address. */
  predicate PageAddr(p: bv64) {
    PteFlags(p) == 0
  }

  /** An entry keeps the address and the flags it is made of. */
  lemma EntryRoundTrip(p: bv64, flags: bv64)
    requires PageAddr(p) && PteAddress(flags) == 0
    ensures PteAddress(p | flags) == p && PteFlags(p | flags) == flags
  {
  }

  lemma TableEntry(p: bv64)
    requires PageAddr(p)
    ensures PteAddress(p | PTE_TABLE) == p && IsValid(p | PTE_TABLE) && p | PTE_TABLE != 0
  {
  }

  lemma KernelRoundTrip(p: bv64)
    ensures K2P(P2K(p)) == p && P2K(K2P(p)) == p
  {
  }
}
