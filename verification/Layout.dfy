/** Page-table entries and linear addresses: the bit-field views of UmPgTblMgr.h.
    The algorithms work on the field views; module Encoding ties them to 64-bit words. */
module Layout {

  /** An index into a 512-entry table. */
  type Ix = i: nat | i < 512

  /** A 4K physical frame, by its number: what fits in the 40-bit address field of an entry. */
  datatype Pfn = Pfn(number: bv40)

  /** The null pointer. The allocator never hands out frame 0. */
  const NULL: Pfn := Pfn(0)

  const TBL_LEVEL := 1
  const DIR_LEVEL := 2
  const PDPT_LEVEL := 3
  const PML4_LEVEL := 4
  const SLOT_PML4_NUM: Ix := 0x180

  /** The fields of a page-table entry that the manager or the hardware uses. */
  datatype Pte = Pte(sel: bool, rw: bool, us: bool, acc: bool, dirty: bool, maps: bool, pfn: Pfn, xd: bool)

  const ZERO_PTE := Pte(false, false, false, false, false, false, NULL, false)

  /** The entry built by simple_pte::setPte; MAPS is never set. */
  function SetPte(tab: Pfn, dirty: bool := false, acc: bool := false, rw: bool := true,
                  us: bool := false, xd: bool := false): Pte {
    Pte(true, rw, us, acc, dirty, false, tab, xd)
  }

  predicate IsLeaf(e: Pte, lvl: nat) {
    lvl == TBL_LEVEL || e.maps
  }

  /** A 4K page of the slot: the three indices below the PML4. */
  datatype VPage = VPage(pdpt: Ix, dir: Ix, tab: Ix) {

    function At(lvl: nat): Ix {
      if lvl == PDPT_LEVEL then pdpt else if lvl == DIR_LEVEL then dir else tab
    }

    function With(lvl: nat, i: Ix): VPage {
      if lvl == PDPT_LEVEL then this.(pdpt := i) else if lvl == DIR_LEVEL then this.(dir := i) else this.(tab := i)
    }

    /** Same indices at every level up to and including lvl. */
    predicate SameUpTo(w: VPage, lvl: nat) {
      (lvl >= 1 ==> tab == w.tab) && (lvl >= 2 ==> dir == w.dir) && (lvl >= 3 ==> pdpt == w.pdpt)
    }

    /** Same indices at every level above lvl. */
    predicate SameAbove(w: VPage, lvl: nat) {
      (lvl < 1 ==> tab == w.tab) && (lvl < 2 ==> dir == w.dir) && (lvl < 3 ==> pdpt == w.pdpt)
    }
  }

  /** A linear address as the bit-field union lin_addr sees it. */
  datatype LinAddr = LinAddr(pml4: Ix, page: VPage, off: nat) {

    /** lin_addr::operator[] on levels 1 to 4. */
    function At(lvl: nat): Ix {
      if lvl == PML4_LEVEL then pml4 else page.At(lvl)
    }
  }
}
