/** The 64-bit words behind page-table entries and linear addresses (the bit-field unions of UmPgTblMgr.h). */
module Encoding {
  import opened Layout

  // ---------- Page-table entries ----------

  /** The flags that setPte puts below the address: SEL, RW, US, A and DIRTY. */
  function LowFlags(dirty: bool, acc: bool, rw: bool, us: bool): bv64 {
    1 | (if rw then 0x2 else 0) | (if us then 0x4 else 0) | (if acc then 0x20 else 0) | (if dirty then 0x40 else 0)
  }

  /** XD is the top bit. */
  function HighFlag(xd: bool): bv64 {
    if xd then 0x8000_0000_0000_0000 else 0
  }

  /** The 40-bit address field, bits 12 to 51. */
  function AddressField(raw: bv64): bv64 {
    (raw >> 12) & 0xFF_FFFF_FFFF
  }

  /** The address that an address field stands for. */
  function FieldAddress(field: bv64): bv64 {
    field << 12
  }

  function Entry(low: bv64, field: bv64, high: bv64): bv64 {
    low | (field << 12) | high
  }

  /** simple_pte::setPte. */
  function SetPteRaw(tab: bv64, dirty: bool, acc: bool, rw: bool, us: bool, xd: bool): bv64
    requires tab & 0xFFF == 0
  {
    Entry(LowFlags(dirty, acc, rw, us), AddressField(tab), HighFlag(xd))
  }

  predicate Has(raw: bv64, mask: bv64) {
    raw & mask != 0
  }

  /** simple_pte::pageTabEntToAddr for levels 1 to 4. */
  function PageTabEntToAddr(raw: bv64, lvl: nat): bv64
    requires 1 <= lvl <= 4
  {
    if lvl == PDPT_LEVEL && Has(raw, 0x80) then ((raw >> 30) & 0x3F_FFFF) << 30
    else if lvl == DIR_LEVEL && Has(raw, 0x80) then ((raw >> 21) & 0x7FFF_FFFF) << 21
    else FieldAddress(AddressField(raw))
  }

  /** The frame number of an address. */
  function PfnOf(addr: bv64): Pfn {
    FramePfn(AddressField(addr))
  }

  function FramePfn(field: bv64): Pfn {
    Pfn((field & 0xFF_FFFF_FFFF) as bv40)
  }

  /** The field view of an entry that the algorithms work on. */
  function Decode(raw: bv64): Pte {
    Pte(Has(raw, 0x1), Has(raw, 0x2), Has(raw, 0x4), Has(raw, 0x20), Has(raw, 0x40), Has(raw, 0x80),
        PfnOf(raw), Has(raw, 0x8000_0000_0000_0000))
  }

  /** The parts of a word do not overlap. */
  lemma Parts(low: bv64, field: bv64, high: bv64)
    requires low < 0x80 && field < 0x100_0000_0000 && (high == 0 || high == 0x8000_0000_0000_0000)
    ensures AddressField(Entry(low, field, high)) == field
    ensures Entry(low, field, high) & 0xFFF == low && Entry(low, field, high) & 0x8000_0000_0000_0000 == high
  {
  }

  /** The flags below the address are read from the twelve low bits. */
  lemma SameFlags(raw: bv64, low: bv64)
    requires raw & 0xFFF == low
    ensures Has(raw, 0x1) == Has(low, 0x1) && Has(raw, 0x2) == Has(low, 0x2) && Has(raw, 0x4) == Has(low, 0x4)
    ensures Has(raw, 0x20) == Has(low, 0x20) && Has(raw, 0x40) == Has(low, 0x40) && Has(raw, 0x80) == Has(low, 0x80)
  {
  }

  lemma TopFlag(raw: bv64, high: bv64)
    requires raw & 0x8000_0000_0000_0000 == high
    ensures Has(raw, 0x8000_0000_0000_0000) == (high != 0)
  {
  }

  lemma EntryFlags(low: bv64, field: bv64, high: bv64)
    requires low < 0x80 && field < 0x100_0000_0000 && (high == 0 || high == 0x8000_0000_0000_0000)
    ensures var raw := Entry(low, field, high);
            && AddressField(raw) == field && Has(raw, 0x8000_0000_0000_0000) == (high != 0)
            && Has(raw, 0x1) == Has(low, 0x1) && Has(raw, 0x2) == Has(low, 0x2) && Has(raw, 0x4) == Has(low, 0x4)
            && Has(raw, 0x20) == Has(low, 0x20) && Has(raw, 0x40) == Has(low, 0x40) && Has(raw, 0x80) == Has(low, 0x80)
  {
    Parts(low, field, high);
    SameFlags(Entry(low, field, high), low);
    TopFlag(Entry(low, field, high), high);
  }

  lemma LowFlagBits(dirty: bool, acc: bool, rw: bool, us: bool)
    ensures var low := LowFlags(dirty, acc, rw, us);
            && low < 0x80 && Has(low, 0x1) && Has(low, 0x2) == rw && Has(low, 0x4) == us
            && Has(low, 0x20) == acc && Has(low, 0x40) == dirty && !Has(low, 0x80)
  {
  }

  /** An entry without MAPS holds the same address at every level. */
  lemma SmallAddress(raw: bv64, lvl: nat)
    requires 1 <= lvl <= 4 && !Has(raw, 0x80)
    ensures PageTabEntToAddr(raw, lvl) == FieldAddress(AddressField(raw))
  {
  }

  /** The word that setPte builds reads back as the entry that SetPte describes: no flag disturbs another or the
      address, and MAPS is clear. */
  lemma SetPteFields(tab: bv64, dirty: bool, acc: bool, rw: bool, us: bool, xd: bool)
    requires tab & 0xFFF == 0
    ensures Decode(SetPteRaw(tab, dirty, acc, rw, us, xd)) == SetPte(PfnOf(tab), dirty, acc, rw, us, xd)
  {
    LowFlagBits(dirty, acc, rw, us);
    FieldBound(tab);
    EntryFlags(LowFlags(dirty, acc, rw, us), AddressField(tab), HighFlag(xd));
  }

  lemma FieldBound(tab: bv64)
    ensures AddressField(tab) < 0x100_0000_0000
  {
  }

  predicate Bit(raw: bv64, n: bv6) {
    (raw >> n) & 1 == 1
  }

  /** The flags are at their places in the processor's format: present 0, writable 1, user 2, accessed 5, dirty 6,
      large page 7, execute-disable 63. */
  lemma DecodeBits(raw: bv64)
    ensures Decode(raw).sel == Bit(raw, 0) && Decode(raw).rw == Bit(raw, 1) && Decode(raw).us == Bit(raw, 2)
    ensures Decode(raw).acc == Bit(raw, 5) && Decode(raw).dirty == Bit(raw, 6) && Decode(raw).maps == Bit(raw, 7)
    ensures Decode(raw).xd == Bit(raw, 63)
  {
  }

  /** A large page's address, at the level of 2M and of 1G pages, is read from its own bits up to 51. */
  lemma LargeAddress(raw: bv64)
    requires Bit(raw, 7)
    ensures PageTabEntToAddr(raw, DIR_LEVEL) == raw & 0x000F_FFFF_FFE0_0000
    ensures PageTabEntToAddr(raw, PDPT_LEVEL) == raw & 0x000F_FFFF_C000_0000
    ensures PageTabEntToAddr(raw, TBL_LEVEL) == PageTabEntToAddr(raw, PML4_LEVEL) == raw & 0x000F_FFFF_FFFF_F000
  {
    LargeBit(raw);
    MaskedUnits(raw);
  }

  lemma LargeBit(raw: bv64)
    ensures Bit(raw, 7) == Has(raw, 0x80)
  {
  }

  lemma MaskedUnits(raw: bv64)
    ensures ((raw >> 30) & 0x3F_FFFF) << 30 == raw & 0x000F_FFFF_C000_0000
    ensures ((raw >> 21) & 0x7FFF_FFFF) << 21 == raw & 0x000F_FFFF_FFE0_0000
    ensures FieldAddress(AddressField(raw)) == raw & 0x000F_FFFF_FFFF_F000
  {
  }

  /** An aligned address survives the 40-bit field exactly when it is below 2^52. */
  lemma FieldKeepsAddress(tab: bv64)
    requires tab & 0xFFF == 0
    ensures FieldAddress(AddressField(tab)) == tab <==> tab < 0x10_0000_0000_0000
  {
  }

  /** At every level the address read back from a built entry is the aligned address that was stored, exactly
      when that address fits below 2^52, whatever the flags. */
  lemma SetPteAddress(tab: bv64, dirty: bool, acc: bool, rw: bool, us: bool, xd: bool, lvl: nat)
    requires tab & 0xFFF == 0 && 1 <= lvl <= 4
    ensures PageTabEntToAddr(SetPteRaw(tab, dirty, acc, rw, us, xd), lvl) == tab <==> tab < 0x10_0000_0000_0000
  {
    LowFlagBits(dirty, acc, rw, us);
    FieldBound(tab);
    EntryFlags(LowFlags(dirty, acc, rw, us), AddressField(tab), HighFlag(xd));
    SmallAddress(SetPteRaw(tab, dirty, acc, rw, us, xd), lvl);
    FieldKeepsAddress(tab);
  }

  /** The address of a frame. */
  function AddressOf(f: Pfn): bv64 {
    FieldAddress(Widen(f.number))
  }

  function Widen(n: bv40): bv64 {
    n as bv64
  }

  /** Frames and aligned addresses below 2^52 are in bijection. */
  lemma FrameRoundTrip(f: Pfn)
    ensures AddressOf(f) & 0xFFF == 0 && AddressOf(f) < 0x10_0000_0000_0000 && PfnOf(AddressOf(f)) == f
  {
    ShiftBack(f.number);
  }

  lemma ShiftBack(n: bv40)
    ensures ((n as bv64) << 12) & 0xFFF == 0 && (n as bv64) << 12 < 0x10_0000_0000_0000
    ensures AddressField((n as bv64) << 12) as bv40 == n
  {
  }

  lemma AlignedAddressRoundTrip(a: bv64)
    requires a & 0xFFF == 0
    ensures AddressOf(PfnOf(a)) == a <==> a < 0x10_0000_0000_0000
  {
    FieldKeepsAddress(a);
    NarrowAndBack(a);
  }

  lemma NarrowAndBack(a: bv64)
    ensures Widen(PfnOf(a).number) == AddressField(a)
  {
  }

  /** Every entry that the mappers build survives its 64-bit word. */
  lemma EntryRoundTrip(f: Pfn, dirty: bool, acc: bool, rw: bool, us: bool, xd: bool)
    ensures AddressOf(f) & 0xFFF == 0
    ensures Decode(SetPteRaw(AddressOf(f), dirty, acc, rw, us, xd)) == SetPte(f, dirty, acc, rw, us, xd)
    ensures Decode(0) == ZERO_PTE
  {
    FrameRoundTrip(f);
    SetPteFields(AddressOf(f), dirty, acc, rw, us, xd);
  }

  // ---------- Linear addresses ----------

  /** The tblOffsets field of a level. */
  function Field(raw: bv64, lvl: nat): bv64
    requires 1 <= lvl <= 4
  {
    match lvl
    case 1 => (raw >> 12) & 0x1FF
    case 2 => (raw >> 21) & 0x1FF
    case 3 => (raw >> 30) & 0x1FF
    case 4 => (raw >> 39) & 0x1FF
  }

  /** The address without its offset and the fields of the n lowest levels. */
  function Above(raw: bv64, n: nat): bv64
    requires n <= 3
  {
    match n
    case 0 => raw >> 12
    case 1 => raw >> 21
    case 2 => raw >> 30
    case 3 => raw >> 39
  }

  lemma AboveNext(raw: bv64, n: nat)
    requires n < 3
    ensures Above(raw, n) >> 9 == Above(raw, n + 1)
  {
    if n == 0 {
      assert (raw >> 12) >> 9 == raw >> 21;
    } else if n == 1 {
      assert (raw >> 21) >> 9 == raw >> 30;
    } else {
      assert (raw >> 30) >> 9 == raw >> 39;
    }
  }

  lemma FieldAbove(raw: bv64, lvl: nat)
    requires 1 <= lvl <= 4
    ensures Above(raw, lvl - 1) & 0x1FF == Field(raw, lvl)
  {
    match lvl {
      case 1 =>
      case 2 =>
      case 3 =>
      case 4 =>
    }
  }

  /** lin_addr::operator[]: shift the offset out, then nine bits for every level below. */
  method Index(raw: bv64, idx: nat) returns (r: bv64)
    requires 1 <= idx <= 4
    ensures r == Field(raw, idx)
  {
    var tmp := raw >> 12;
    var i := 0;
    while i < idx - 1
      invariant 0 <= i <= idx - 1 <= 3 && tmp == Above(raw, i)
    {
      AboveNext(raw, i);
      tmp := tmp >> 9;
      i := i + 1;
    }
    FieldAbove(raw, idx);
    r := tmp & 0x1FF;
  }

  /** Bits 48 to 63 repeat bit 47. */
  predicate Canonical(raw: bv64) {
    raw < 0x8000_0000_0000 || raw >= 0xFFFF_8000_0000_0000
  }

  /** The four index fields and the bits above them. */
  function Join(pml4: bv64, pdpt: bv64, dir: bv64, tab: bv64, sign: bv64): bv64 {
    (pml4 << 39) | (pdpt << 30) | (dir << 21) | (tab << 12) | sign
  }

  /** The top 16 bits that reconstructLinAddrPgFromOffsets adds for the upper half. */
  function SignBits(pml4: bv64): bv64 {
    if pml4 >= 0x100 then 0xFFFF_0000_0000_0000 else 0
  }

  /** reconstructLinAddrPgFromOffsets, with the sign extension of the upper half. */
  function ReconstructRaw(pml4: bv64, pdpt: bv64, dir: bv64, tab: bv64): bv64
    requires pml4 < 512 && pdpt < 512 && dir < 512 && tab < 512
  {
    Join(pml4, pdpt, dir, tab, SignBits(pml4))
  }

  /** Reconstructing and indexing are inverse: the indices come back, the address is canonical and the base of
      its page. */
  lemma IndicesRoundTrip(pml4: bv64, pdpt: bv64, dir: bv64, tab: bv64)
    requires pml4 < 512 && pdpt < 512 && dir < 512 && tab < 512
    ensures var raw := ReconstructRaw(pml4, pdpt, dir, tab);
            && Field(raw, 4) == pml4 && Field(raw, 3) == pdpt && Field(raw, 2) == dir && Field(raw, 1) == tab
            && raw & 0xFFF == 0 && Canonical(raw)
  {
    JoinedFields(pml4, pdpt, dir, tab, SignBits(pml4));
  }

  lemma JoinedFields(pml4: bv64, pdpt: bv64, dir: bv64, tab: bv64, sign: bv64)
    requires pml4 < 512 && pdpt < 512 && dir < 512 && tab < 512
    requires (pml4 < 0x100 && sign == 0) || (pml4 >= 0x100 && sign == 0xFFFF_0000_0000_0000)
    ensures var raw := Join(pml4, pdpt, dir, tab, sign);
            && Field(raw, 4) == pml4 && Field(raw, 3) == pdpt && Field(raw, 2) == dir && Field(raw, 1) == tab
            && raw & 0xFFF == 0 && Canonical(raw)
  {
  }

  /** What one step of an index stands for, 512G, 1G, 2M and 4K, and where the slot begins. */
  lemma IndexUnits()
    ensures ReconstructRaw(1, 0, 0, 0) == 0x80_0000_0000 && ReconstructRaw(0, 1, 0, 0) == 0x4000_0000
    ensures ReconstructRaw(0, 0, 1, 0) == 0x20_0000 && ReconstructRaw(0, 0, 0, 1) == 0x1000
    ensures ReconstructRaw(0x180, 0, 0, 0) == 0xFFFF_C000_0000_0000
  {
  }

  /** Sign extension restores an address exactly when it is canonical. */
  lemma SignExtensionUpper(raw: bv64)
    requires raw & 0x8000_0000_0000 != 0
    ensures (((raw & 0xFFFF_FFFF_F000) | 0xFFFF_0000_0000_0000) == raw & 0xFFFF_FFFF_FFFF_F000)
            <==> raw >= 0xFFFF_8000_0000_0000
    ensures raw >= 0x8000_0000_0000
  {
  }

  lemma SignExtensionLower(raw: bv64)
    requires raw & 0x8000_0000_0000 == 0
    ensures (raw & 0xFFFF_FFFF_F000 == raw & 0xFFFF_FFFF_FFFF_F000) <==> raw < 0x8000_0000_0000
    ensures !(raw >= 0xFFFF_8000_0000_0000)
  {
  }

  lemma FieldsCover(raw: bv64)
    ensures (Field(raw, 4) << 39) | (Field(raw, 3) << 30) | (Field(raw, 2) << 21) | (Field(raw, 1) << 12)
            == raw & 0xFFFF_FFFF_F000
    ensures Field(raw, 4) >= 0x100 <==> raw & 0x8000_0000_0000 != 0
  {
  }

  /** And the other way round: the indices of an address give its page base back, exactly for canonical addresses. */
  lemma AddressRoundTrip(raw: bv64)
    ensures ReconstructRaw(Field(raw, 4), Field(raw, 3), Field(raw, 2), Field(raw, 1)) == raw & 0xFFFF_FFFF_FFFF_F000
            <==> Canonical(raw)
  {
    FieldsCover(raw);
    if raw & 0x8000_0000_0000 != 0 {
      SignExtensionUpper(raw);
    } else {
      SignExtensionLower(raw);
      OrZero(raw & 0xFFFF_FFFF_F000);
    }
  }

  lemma OrZero(low: bv64)
    ensures low | 0 == low
  {
  }

  const SLOT_START: bv64 := 0xFFFF_C000_0000_0000
  const SLOT_END: bv64 := 0xFFFF_C07F_FFFF_FFFF

  /** UmManager::valid_address. */
  predicate ValidAddress(vaddr: bv64) {
    vaddr != 0 && vaddr >= SLOT_START && vaddr < SLOT_END
  }

  /** The valid addresses are the canonical addresses under PML4 entry 0x180, but for the last byte of the slot:
      the end of the range, itself a slot address, is excluded. */
  lemma SlotAddresses(vaddr: bv64)
    ensures ValidAddress(vaddr) <==>
            Canonical(vaddr) && Field(vaddr, 4) == 0x180 && vaddr != 0xFFFF_C07F_FFFF_FFFF
  {
  }

  /** The field view of an address that the algorithms work on. */
  function ViewAddr(raw: bv64): LinAddr {
    LinAddr(IxOf(Field(raw, 4)), VPage(IxOf(Field(raw, 3)), IxOf(Field(raw, 2)), IxOf(Field(raw, 1))), OffOf(raw))
  }

  function IxOf(f: bv64): Ix {
    NineBits(f) as int
  }

  function NineBits(f: bv64): bv9 {
    (f & 0x1FF) as bv9
  }

  function OffOf(raw: bv64): nat {
    ((raw & 0xFFF) as bv12) as int
  }

  /** The index that the algorithms use at a level is the address's field of that level. */
  lemma ViewIndices(raw: bv64, lvl: nat)
    requires 1 <= lvl <= 4
    ensures ViewAddr(raw).At(lvl) == IxOf(Field(raw, lvl))
  {
  }

  /** Two slot addresses are seen as the same page exactly when they are on the same 4K page. */
  lemma PagesDistinct(a: bv64, b: bv64)
    requires ValidAddress(a) && ValidAddress(b)
    ensures ViewAddr(a).page == ViewAddr(b).page <==> a & 0xFFFF_FFFF_FFFF_F000 == b & 0xFFFF_FFFF_FFFF_F000
  {
    SlotAddresses(a);
    SlotAddresses(b);
    if ViewAddr(a).page == ViewAddr(b).page {
      SameIndex(Field(a, 1), Field(b, 1));
      SameIndex(Field(a, 2), Field(b, 2));
      SameIndex(Field(a, 3), Field(b, 3));
      AddressRoundTrip(a);
      AddressRoundTrip(b);
    }
  }

  lemma SameIndex(f: bv64, g: bv64)
    requires f < 512 && g < 512 && IxOf(f) == IxOf(g)
    ensures f == g
  {
    IntAndBack(NineBits(f));
    IntAndBack(NineBits(g));
    SameBits(f, g);
  }

  lemma IntAndBack(x: bv9)
    ensures (x as int) as bv9 == x
  {
  }

  lemma SameBits(f: bv64, g: bv64)
    requires f < 512 && g < 512 && NineBits(f) == NineBits(g)
    ensures f == g
  {
  }

  /** The index field of a number below 512. */
  function BitsOf(i: Ix): (f: bv64)
    ensures f < 512
  {
    Padded(Nine(i))
  }

  function Nine(i: Ix): (x: bv9)
    ensures x as int == i
  {
    if i == 0 then 0
    else
      var x := Nine(i - 1);
      Increment(x);
      x + 1
  }

  lemma Increment(x: bv9)
    requires x != 511
    ensures (x + 1) as int == x as int + 1
  {
  }

  lemma IndexAndBack(i: Ix)
    ensures IxOf(BitsOf(i)) == i
  {
    BitsAndBack(Nine(i));
  }

  lemma BitsAndBack(x: bv9)
    ensures NineBits(Padded(x)) == x
  {
  }

  function Padded(x: bv9): bv64 {
    x as bv64
  }

  /** The address that the walks rebuild for a page of the slot. */
  function PageBase(p: VPage): bv64 {
    ReconstructRaw(0x180, BitsOf(p.pdpt), BitsOf(p.dir), BitsOf(p.tab))
  }

  /** Every page of the slot has a valid address, the base that the walks rebuild, and is the page seen there. */
  lemma PagesReached(p: VPage)
    ensures ValidAddress(PageBase(p)) && PageBase(p) & 0xFFF == 0
    ensures ViewAddr(PageBase(p)).page == p && ViewAddr(PageBase(p)).pml4 == SLOT_PML4_NUM
  {
    IndicesRoundTrip(0x180, BitsOf(p.pdpt), BitsOf(p.dir), BitsOf(p.tab));
    SlotAddresses(PageBase(p));
    IndexAndBack(p.pdpt);
    IndexAndBack(p.dir);
    IndexAndBack(p.tab);
    SlotIndex();
  }

  lemma SlotIndex()
    ensures IxOf(0x180) == SLOT_PML4_NUM
  {
    assert BitsOf(0x180) == 0x180;
    IndexAndBack(0x180);
  }
}
