// The kernel's four-level page tables, kernel/src/paging.rs.  An entry is
// a 64-bit word: bits 12..51 hold a 4 KiB-aligned physical address and the
// other bits are flags.  Every table is 512 entries and 4 KiB-aligned; a
// static array of tables is one `TableArray` (a 2-D array, one row per
// table).  `init` builds the direct map of the first 4 GiB, at physical 0
// and again at KERNEL_VIRTUAL_BASE, with 4 KiB pages, then turns the page
// below the kernel stack into a guard page.  Entries and addresses stay
// `bv64`, the width the source computes in.

module Paging {

  const KERNEL_VIRTUAL_BASE: bv64 := 0xFFFF_8000_0000_0000
  const PAGE_TABLE_ENTRY_COUNT: bv64 := 512
  const PAGE_SIZE: bv64 := 4096

  /** Bits 12..51: the physical frame address held by an entry. */
  const ADDRESS_MASK: bv64 := 0x000F_FFFF_FFFF_F000

  /** The bits outside ADDRESS_MASK: the low 12 and the top 12. */
  const FLAG_BITS: bv64 := 0xFFF0_0000_0000_0FFF

  /** Clears the offset inside a 4 KiB page. */
  const PAGE_MASK: bv64 := 0xFFFF_FFFF_FFFF_F000

  const ALL_ONES: bv64 := 0xFFFF_FFFF_FFFF_FFFF

  const PRESENT: bv64 := 1
  const WRITABLE: bv64 := 2
  const USER_ACCESSIBLE: bv64 := 4
  const WRITE_THROUGH: bv64 := 8
  const CACHE_DISABLE: bv64 := 0x10
  const ACCESSED: bv64 := 0x20
  const DIRTY: bv64 := 0x40
  const HUGE_PAGE: bv64 := 0x80
  const GLOBAL: bv64 := 0x100
  const NO_EXECUTE: bv64 := 0x8000_0000_0000_0000

  /** The flags `init` gives every mapping: Present | Writable. */
  const KERNEL_FLAGS: bv64 := PRESENT | WRITABLE

  // ---- PageTableEntry ---------------------------------------------------

  /** `PageTableEntry::new`. */
  const EMPTY_ENTRY: bv64 := 0

  /** `is_present`: the Present bit. */
  predicate IsPresent(e: bv64)
  {
    e & PRESENT != 0
  }

  /** `set_flags`: every old bit and every flag bit is set. */
  function SetFlags(e: bv64, flags: bv64): (r: bv64)
    ensures r & e == e && r & flags == flags
  {
    e | flags
  }

  /** `set_flags` changes no bit outside `flags`. */
  lemma SetFlagsOnlyAddsFlags(e: bv64, flags: bv64)
    ensures SetFlags(e, flags) & (ALL_ONES ^ flags) == e & (ALL_ONES ^ flags)
  {
  }

  /** `get_address`: the frame address, 4 KiB-aligned and below 2^52. */
  function GetAddress(e: bv64): (r: bv64)
    ensures r & 0xFFF == 0 && r >> 52 == 0
    ensures r & e == r
  {
    e & ADDRESS_MASK
  }

  /**
   * `set_address`: the low 12 flag bits are kept, the address bits are the
   * new address's, and bits 52..63 (No-Execute among them) end up clear.
   */
  function SetAddress(e: bv64, addr: bv64): (r: bv64)
    ensures r & 0xFFF == e & 0xFFF
    ensures GetAddress(r) == GetAddress(addr)
    ensures r >> 52 == 0 && r & NO_EXECUTE == 0
  {
    (e & 0xFFF) | (addr & ADDRESS_MASK)
  }

  /** `set`: the entry is rebuilt from the address bits of `addr` and all of `flags`. */
  function Set(addr: bv64, flags: bv64): (r: bv64)
    ensures r & flags == flags
    ensures r & FLAG_BITS == flags & FLAG_BITS
  {
    (addr & ADDRESS_MASK) | flags
  }

  /**
   * `set` then `get_address` round-trips the address whenever the flags
   * stay out of the address bits; for a 4 KiB-aligned address below 2^52
   * that is the address itself.
   */
  lemma SetThenGetAddress(addr: bv64, flags: bv64)
    requires flags & ADDRESS_MASK == 0
    ensures GetAddress(Set(addr, flags)) == GetAddress(addr)
    ensures addr & 0xFFF == 0 && addr >> 52 == 0 ==> GetAddress(Set(addr, flags)) == addr
  {
  }

  /** Presence of a freshly `set` entry is decided by the flags alone. */
  lemma SetPresentIffFlag(addr: bv64, flags: bv64)
    ensures IsPresent(Set(addr, flags)) <==> flags & PRESENT != 0
  {
  }

  /** `set_address` never changes presence, and `set_flags` never clears it. */
  lemma PresenceKept(e: bv64, addr: bv64, flags: bv64)
    ensures IsPresent(SetAddress(e, addr)) <==> IsPresent(e)
    ensures IsPresent(e) ==> IsPresent(SetFlags(e, flags))
  {
  }

  /** Setting the same flags twice is setting them once. */
  lemma SetFlagsIdempotent(e: bv64, flags: bv64)
    ensures SetFlags(SetFlags(e, flags), flags) == SetFlags(e, flags)
  {
  }

  // ---- the direct map -----------------------------------------------------

  /** The physical page that entry `page` of page table `pt` maps: `(pt * 512 + page) * 4096`. */
  function MappedPage(pt: bv64, page: bv64): (r: bv64)
    requires pt < 2048 && page < PAGE_TABLE_ENTRY_COUNT
    ensures r & 0xFFF == 0 && r < 0x1_0000_0000
  {
    (pt * 512 + page) * 4096
  }

  /** Distinct entries map distinct pages. */
  lemma MappedPageInjective(pt: bv64, page: bv64, pt2: bv64, page2: bv64)
    requires pt < 2048 && page < 512 && pt2 < 2048 && page2 < 512
    requires MappedPage(pt, page) == MappedPage(pt2, page2)
    ensures pt == pt2 && page == page2
  {
  }

  /** Page-table index of physical offset `off`: `(off >> 12) / 512`. */
  function PtIndex(off: bv64): (r: bv64)
    ensures off < 0x1_0000_0000 <==> r < 2048
  {
    (off >> 12) / 512
  }

  /** Entry index of physical offset `off` inside its page table: `(off >> 12) % 512`. */
  function PageIndex(off: bv64): (r: bv64)
    ensures r < PAGE_TABLE_ENTRY_COUNT
  {
    (off >> 12) % 512
  }

  /**
   * The 2048 x 512 entries cover 4 GiB: every offset below 4 GiB lies in
   * the page mapped by entry `PageIndex` of table `PtIndex`.
   */
  lemma MappedPageCovers(off: bv64)
    requires off < 0x1_0000_0000
    ensures MappedPage(PtIndex(off), PageIndex(off)) == off & PAGE_MASK
    ensures MappedPage(PtIndex(off), PageIndex(off)) <= off < MappedPage(PtIndex(off), PageIndex(off)) + PAGE_SIZE
  {
  }

  /** The higher-half base is PML4 slot 256. */
  lemma KernelBaseIsPml4Slot256()
    ensures (KERNEL_VIRTUAL_BASE >> 39) & 511 == 256
    ensures KERNEL_VIRTUAL_BASE & ((1 << 39) - 1) == 0
  {
  }

  // ---- page tables ----------------------------------------------------------

  /**
   * Where a static page-table array may live: 4 KiB-aligned
   * (`repr(align(4096))`) inside the higher-half copy of the first 4 GiB,
   * where the kernel image is loaded.
   */
  predicate TableBase(virt: bv64)
  {
    0xFFFF_8000_0000_0000 <= virt < 0xFFFF_8001_0000_0000 && virt & 0xFFF == 0
  }

  /**
   * A static array of page tables (`PageTable`, or `[PageTable; N]` with
   * N <= 2048) at kernel virtual address `virt`: table `t` is row `t` of
   * `entries`.  The statics are 4 KiB-aligned (`repr(align(4096))`) and
   * the kernel image lies in the higher-half copy of the first 4 GiB.
   */
  class TableArray {
    const entries: array2<bv64>
    const virt: bv64

    predicate Valid()
    {
      entries.Length1 == 512 && 1 <= entries.Length0 <= 2048 && TableBase(virt)
    }

    constructor(count: nat, virt: bv64)
      requires 1 <= count <= 2048 && TableBase(virt)
      ensures Valid() && fresh(entries) && entries.Length0 == count && this.virt == virt
      ensures Empty()
    {
      this.virt := virt;
      entries := new bv64[count, 512]((t, i) => EMPTY_ENTRY);
    }

    /** Every entry of every table is empty. */
    predicate Empty()
      reads entries
    {
      forall s, i :: 0 <= s < entries.Length0 && 0 <= i < entries.Length1 ==> entries[s, i] == EMPTY_ENTRY
    }

    /**
     * `physical_address` of table `t`: its virtual address minus
     * KERNEL_VIRTUAL_BASE, which is 4 KiB-aligned and below 2^47, so an
     * entry holds it exactly.
     */
    function PhysicalAddress(t: int): (r: bv64)
      requires Valid() && 0 <= t < entries.Length0
      ensures r + 0xFFFF_8000_0000_0000 == virt + (t as bv64) * 4096
      ensures r & 0xFFF == 0 && r >> 47 == 0
    {
      SmallIndex(t);
      virt + (t as bv64) * 4096 - 0xFFFF_8000_0000_0000
    }

    /** `clear` on table `t`: its 512 entries become empty; no other table changes. */
    method Clear(t: int)
      requires Valid() && 0 <= t < entries.Length0
      modifies entries
      ensures forall i :: 0 <= i < 512 ==> entries[t, i] == EMPTY_ENTRY
      ensures forall s, i :: 0 <= s < entries.Length0 && s != t && 0 <= i < 512 ==>
        entries[s, i] == old(entries[s, i])
    {
      for i := 0 to 512
        invariant forall k :: 0 <= k < i ==> entries[t, k] == EMPTY_ENTRY
        invariant forall s, k :: 0 <= s < entries.Length0 && s != t && 0 <= k < 512 ==>
          entries[s, k] == old(entries[s, k])
      {
        entries[t, i] := EMPTY_ENTRY;
      }
    }

    /** `clear` on every table of the array, one after the other. */
    method ClearAll()
      requires Valid()
      modifies entries
      ensures Empty()
    {
      for t := 0 to entries.Length0
        invariant forall s, i :: 0 <= s < t && 0 <= i < 512 ==> entries[s, i] == EMPTY_ENTRY
      {
        Clear(t);
      }
    }

    /** `entry(i).set(addr, flags)` on table `t`: that entry alone changes. */
    method SetEntry(t: int, i: int, addr: bv64, flags: bv64)
      requires Valid() && 0 <= t < entries.Length0 && 0 <= i < 512
      modifies entries
      ensures entries[t, i] == Set(addr, flags)
      ensures forall s, k :: 0 <= s < entries.Length0 && 0 <= k < 512 && (s != t || k != i) ==>
        entries[s, k] == old(entries[s, k])
    {
      entries[t, i] := Set(addr, flags);
    }

    /** Entries `0 .. cols` of table `r` point at tables `r * 512 + e` of `child`; no other entry changes. */
    method LinkRow(child: TableArray, r: int, cols: int)
      requires Valid() && child.Valid() && child.entries != entries
      requires 0 <= r < entries.Length0 && 0 <= cols <= 512 && r * 512 + cols <= child.entries.Length0
      modifies entries
      ensures forall e :: 0 <= e < cols ==> entries[r, e] == Set(child.PhysicalAddress(r * 512 + e), KERNEL_FLAGS)
      ensures forall s, k :: 0 <= s < entries.Length0 && 0 <= k < 512 && (s != r || k >= cols) ==>
        entries[s, k] == old(entries[s, k])
    {
      for e := 0 to cols
        invariant forall e' :: 0 <= e' < e ==> entries[r, e'] == Set(child.PhysicalAddress(r * 512 + e'), KERNEL_FLAGS)
        invariant forall s, k :: 0 <= s < entries.Length0 && 0 <= k < 512 && (s != r || k >= e) ==>
          entries[s, k] == old(entries[s, k])
      {
        SetEntry(r, e, child.PhysicalAddress(r * 512 + e), KERNEL_FLAGS);
      }
    }

    /**
     * The linking loops of `init`: for `r < rows` and `e < cols`, entry
     * `e` of table `r` points at table `r * 512 + e` of `child`, Present
     * and Writable; no other entry changes.
     */
    method Link(child: TableArray, rows: int, cols: int)
      requires Valid() && child.Valid() && child.entries != entries
      requires 1 <= rows <= entries.Length0 && 0 <= cols <= 512 && (rows - 1) * 512 + cols <= child.entries.Length0
      modifies entries
      ensures forall r, e :: 0 <= r < rows && 0 <= e < cols ==>
        entries[r, e] == Set(child.PhysicalAddress(r * 512 + e), KERNEL_FLAGS)
      ensures forall s, k :: 0 <= s < entries.Length0 && 0 <= k < 512 && !(s < rows && k < cols) ==>
        entries[s, k] == old(entries[s, k])
    {
      for r := 0 to rows
        invariant forall r', e :: 0 <= r' < r && 0 <= e < cols ==>
          entries[r', e] == Set(child.PhysicalAddress(r' * 512 + e), KERNEL_FLAGS)
        invariant forall s, k :: 0 <= s < entries.Length0 && 0 <= k < 512 && !(s < r && k < cols) ==>
          entries[s, k] == old(entries[s, k])
      {
        LinkRow(child, r, cols);
      }
    }

    /** The mapping loop of `init` on page table `pt`; no other table changes. */
    method MapTable(pt: int)
      requires Valid() && 0 <= pt < entries.Length0 && pt < 2048
      modifies entries
      ensures forall page :: 0 <= page < 512 ==> entries[pt, page] == DirectEntry(pt, page)
      ensures forall s, k :: 0 <= s < entries.Length0 && s != pt && 0 <= k < 512 ==>
        entries[s, k] == old(entries[s, k])
    {
      SmallIndex(pt);
      for page := 0 to 512
        invariant forall g :: 0 <= g < page ==> entries[pt, g] == DirectEntry(pt, g)
        invariant forall s, k :: 0 <= s < entries.Length0 && s != pt && 0 <= k < 512 ==>
          entries[s, k] == old(entries[s, k])
      {
        SmallIndex(page);
        SetEntry(pt, page, MappedPage(pt as bv64, page as bv64), KERNEL_FLAGS);
      }
    }

    /** The mapping loops of `init` on an array of 2048 page tables. */
    method MapPages()
      requires Valid() && entries.Length0 == 2048
      modifies entries
      ensures forall pt, page :: 0 <= pt < 2048 && 0 <= page < 512 ==> entries[pt, page] == DirectEntry(pt, page)
    {
      for pt := 0 to 2048
        invariant forall p, g :: 0 <= p < pt && 0 <= g < 512 ==> entries[p, g] == DirectEntry(p, g)
      {
        MapTable(pt);
      }
    }
  }

  /** A table index below 2048 stays below 2048 as a `u64`. */
  lemma SmallIndex(k: int)
    requires 0 <= k < 2048
    ensures (k as bv64) < 2048
  {
  }

  /**
   * What the mapping loop writes into entry `page` of page table `pt`:
   * physical page `(pt * 512 + page) * 4096`, Present and Writable.
   */
  function DirectEntry(pt: int, page: int): bv64
    requires 0 <= pt < 2048 && 0 <= page < 512
  {
    SmallIndex(pt);
    SmallIndex(page);
    Set(MappedPage(pt as bv64, page as bv64), KERNEL_FLAGS)
  }

  /** Every direct-map entry is present and holds its page's frame address. */
  lemma DirectEntryDecodes(pt: int, page: int)
    requires 0 <= pt < 2048 && 0 <= page < 512
    ensures IsPresent(DirectEntry(pt, page))
    ensures GetAddress(DirectEntry(pt, page)) == MappedPage(pt as bv64, page as bv64)
  {
    SmallIndex(pt);
    SmallIndex(page);
    var m := MappedPage(pt as bv64, page as bv64);
    SetPresentIffFlag(m, KERNEL_FLAGS);
    SetThenGetAddress(m, KERNEL_FLAGS);
  }

  // ---- init -----------------------------------------------------------------

  /** Physical offset of the guard page: the page just below the kernel stack. */
  function GuardOffset(stack: bv64): (r: bv64)
    requires 0xFFFF_8000_0000_1000 <= stack < 0xFFFF_8001_0000_0000
    ensures r < 0x1_0000_0000
    ensures r + 0xFFFF_8000_0000_1000 == stack
  {
    stack - 4096 - 0xFFFF_8000_0000_0000
  }

  /** A slot index below 2048 survives the round trip through an array index. */
  lemma IndexRoundTrip(x: bv64)
    requires x < 2048
    ensures 0 <= x as int < 2048 && (x as int) as bv64 == x
  {
  }

  /** The direct-map entry at `u64` indices. */
  lemma DirectEntryAt(pt: bv64, page: bv64)
    requires pt < 2048 && page < 512
    ensures DirectEntry(pt as int, page as int) == Set(MappedPage(pt, page), KERNEL_FLAGS)
  {
    IndexRoundTrip(pt);
    IndexRoundTrip(page);
  }

  /**
   * The entry `init` writes for the guard page keeps the frame the direct
   * map gave that slot, but is not present, so touching the page faults.
   */
  lemma GuardEntryUnmapsOnlyPresence(off: bv64)
    requires off < 0x1_0000_0000
    ensures !IsPresent(Set(off, 0))
    ensures IsPresent(Set(MappedPage(PtIndex(off), PageIndex(off)), KERNEL_FLAGS))
    ensures GetAddress(Set(off, 0)) == GetAddress(Set(MappedPage(PtIndex(off), PageIndex(off)), KERNEL_FLAGS))
  {
    var m := MappedPage(PtIndex(off), PageIndex(off));
    MappedPageCovers(off);
    SetPresentIffFlag(off, 0);
    SetPresentIffFlag(m, KERNEL_FLAGS);
    SetThenGetAddress(off, 0);
    SetThenGetAddress(m, KERNEL_FLAGS);
    assert off & ADDRESS_MASK == off & PAGE_MASK;
  }

  /**
   * The statics `init` fills: PML4, the low and high PDPs, four PDs for
   * each half and 2048 PTs for each half, plus the address of the kernel
   * stack (`KERNEL_STACK`), whose preceding page becomes the guard page.
   */
  class KernelTables {
    const pml4: TableArray
    const pdpLow: TableArray
    const pdpHigh: TableArray
    const pdLow: TableArray
    const pdHigh: TableArray
    const ptLow: TableArray
    const ptHigh: TableArray
    const stack: bv64

    predicate Valid()
    {
      pml4.Valid() && pdpLow.Valid() && pdpHigh.Valid() && pdLow.Valid() && pdHigh.Valid() &&
      ptLow.Valid() && ptHigh.Valid() &&
      pml4.entries.Length0 == 1 && pdpLow.entries.Length0 == 1 && pdpHigh.entries.Length0 == 1 &&
      pdLow.entries.Length0 == 4 && pdHigh.entries.Length0 == 4 &&
      ptLow.entries.Length0 == 2048 && ptHigh.entries.Length0 == 2048 &&
      Distinct() &&
      0xFFFF_8000_0000_1000 <= stack < 0xFFFF_8001_0000_0000
    }

    /** The seven statics are seven separate arrays. */
    predicate Distinct()
    {
      pml4.entries != pdpLow.entries && pml4.entries != pdpHigh.entries && pml4.entries != pdLow.entries &&
      pml4.entries != pdHigh.entries && pml4.entries != ptLow.entries && pml4.entries != ptHigh.entries &&
      pdpLow.entries != pdpHigh.entries && pdpLow.entries != pdLow.entries && pdpLow.entries != pdHigh.entries &&
      pdpLow.entries != ptLow.entries && pdpLow.entries != ptHigh.entries &&
      pdpHigh.entries != pdLow.entries && pdpHigh.entries != pdHigh.entries &&
      pdpHigh.entries != ptLow.entries && pdpHigh.entries != ptHigh.entries &&
      pdLow.entries != pdHigh.entries && pdLow.entries != ptLow.entries && pdLow.entries != ptHigh.entries &&
      pdHigh.entries != ptLow.entries && pdHigh.entries != ptHigh.entries &&
      ptLow.entries != ptHigh.entries
    }

    /** The statics as declared: every table `PageTable::new()`, all entries empty. */
    constructor(pml4Virt: bv64, pdpLowVirt: bv64, pdpHighVirt: bv64, pdLowVirt: bv64, pdHighVirt: bv64,
                ptLowVirt: bv64, ptHighVirt: bv64, stack: bv64)
      requires TableBase(pml4Virt) && TableBase(pdpLowVirt) && TableBase(pdpHighVirt)
      requires TableBase(pdLowVirt) && TableBase(pdHighVirt) && TableBase(ptLowVirt) && TableBase(ptHighVirt)
      requires 0xFFFF_8000_0000_1000 <= stack < 0xFFFF_8001_0000_0000
      ensures Valid()
      ensures pml4.Empty() && pdpLow.Empty() && pdpHigh.Empty() && pdLow.Empty() && pdHigh.Empty()
      ensures ptLow.Empty() && ptHigh.Empty()
    {
      pml4 := new TableArray(1, pml4Virt);
      pdpLow := new TableArray(1, pdpLowVirt);
      pdpHigh := new TableArray(1, pdpHighVirt);
      pdLow := new TableArray(4, pdLowVirt);
      pdHigh := new TableArray(4, pdHighVirt);
      ptLow := new TableArray(2048, ptLowVirt);
      ptHigh := new TableArray(2048, ptHighVirt);
      this.stack := stack;
    }

    /** PML4 slot 0 points at the low PDP, slot 256 at the high PDP, every other slot is empty. */
    predicate Pml4Built()
      requires Valid()
      reads pml4.entries
    {
      pml4.entries[0, 0] == Set(pdpLow.PhysicalAddress(0), KERNEL_FLAGS) &&
      pml4.entries[0, 256] == Set(pdpHigh.PhysicalAddress(0), KERNEL_FLAGS) &&
      forall i :: 0 < i < 512 && i != 256 ==> pml4.entries[0, i] == EMPTY_ENTRY
    }

    /** Every low PT entry maps its page of the first 4 GiB. */
    predicate LowMapped()
      requires Valid()
      reads ptLow.entries
    {
      forall p, g :: 0 <= p < 2048 && 0 <= g < 512 ==> ptLow.entries[p, g] == DirectEntry(p, g)
    }

    /**
     * Every high PT entry maps its page of the first 4 GiB, except the
     * guard page's slot, which holds the guard page's address with no flags.
     */
    predicate HighMappedWithGuard()
      requires Valid()
      reads ptHigh.entries
    {
      ptHigh.entries[GuardTable(), GuardSlot()] == Set(GuardOffset(stack), 0) &&
      forall p, g :: 0 <= p < 2048 && 0 <= g < 512 && (p != GuardTable() || g != GuardSlot()) ==>
        ptHigh.entries[p, g] == DirectEntry(p, g)
    }

    /** The high PT holding the guard page. */
    function GuardTable(): (r: int)
      requires Valid()
      ensures 0 <= r < 2048
    {
      IndexRoundTrip(PtIndex(GuardOffset(stack)));
      PtIndex(GuardOffset(stack)) as int
    }

    /** The guard page's slot inside `GuardTable()`. */
    function GuardSlot(): (r: int)
      requires Valid()
      ensures 0 <= r < 512
    {
      IndexRoundTrip(PageIndex(GuardOffset(stack)));
      PageIndex(GuardOffset(stack)) as int
    }

    /**
     * `init`: clear every table, link PML4 -> PDPs -> PDs -> PTs, map
     * 4 GiB of 4 KiB pages in both halves, unmap the guard page; the
     * returned value is what is loaded into CR3.
     */
    method Init() returns (cr3: bv64)
      requires Valid()
      modifies pml4.entries, pdpLow.entries, pdpHigh.entries, pdLow.entries, pdHigh.entries
      modifies ptLow.entries, ptHigh.entries
      ensures cr3 == pml4.PhysicalAddress(0)
      ensures Pml4Built() && PdpBuilt(pdpLow, pdLow) && PdpBuilt(pdpHigh, pdHigh)
      ensures PdBuilt(pdLow, ptLow) && PdBuilt(pdHigh, ptHigh)
      ensures LowMapped() && HighMappedWithGuard()
    {
      ClearTables();
      BuildUpper();
      BuildDirectories();
      BuildPageTables();
      cr3 := pml4.PhysicalAddress(0);
    }

    /** The clearing loops of `init`. */
    method ClearTables()
      requires Valid()
      modifies pml4.entries, pdpLow.entries, pdpHigh.entries, pdLow.entries, pdHigh.entries
      modifies ptLow.entries, ptHigh.entries
      ensures pml4.Empty() && pdpLow.Empty() && pdpHigh.Empty() && pdLow.Empty() && pdHigh.Empty()
      ensures ptLow.Empty() && ptHigh.Empty()
    {
      pml4.ClearAll();
      pdpLow.ClearAll();
      pdpHigh.ClearAll();
      pdLow.ClearAll();
      pdHigh.ClearAll();
      ptLow.ClearAll();
      ptHigh.ClearAll();
    }

    /** PML4 slots 0 and 256 and the two PDP loops of `init`, over cleared tables. */
    method BuildUpper()
      requires Valid() && pml4.Empty() && pdpLow.Empty() && pdpHigh.Empty()
      modifies pml4.entries, pdpLow.entries, pdpHigh.entries
      ensures Pml4Built() && PdpBuilt(pdpLow, pdLow) && PdpBuilt(pdpHigh, pdHigh)
    {
      pml4.SetEntry(0, 0, pdpLow.PhysicalAddress(0), KERNEL_FLAGS);
      BuildPdp(pdpLow, pdLow);
      pml4.SetEntry(0, 256, pdpHigh.PhysicalAddress(0), KERNEL_FLAGS);
      BuildPdp(pdpHigh, pdHigh);
    }

    /** The PD loops of `init`. */
    method BuildDirectories()
      requires Valid()
      modifies pdLow.entries, pdHigh.entries
      ensures PdBuilt(pdLow, ptLow) && PdBuilt(pdHigh, ptHigh)
    {
      pdLow.Link(ptLow, 4, 512);
      pdHigh.Link(ptHigh, 4, 512);
    }

    /** The PT loops and the guard page of `init`. */
    method BuildPageTables()
      requires Valid()
      modifies ptLow.entries, ptHigh.entries
      ensures LowMapped() && HighMappedWithGuard()
    {
      ptLow.MapPages();
      ptHigh.MapPages();
      SetGuardPage();
    }

    /**
     * The guard-page step of `init`: the slot of the page below the stack,
     * `(off >> 12) / 512` and `(off >> 12) % 512`, is rewritten with no flags.
     */
    method SetGuardPage()
      requires Valid()
      requires forall p, g :: 0 <= p < 2048 && 0 <= g < 512 ==> ptHigh.entries[p, g] == DirectEntry(p, g)
      modifies ptHigh.entries
      ensures HighMappedWithGuard()
    {
      var offset := GuardOffset(stack);
      ptHigh.SetEntry(GuardTable(), GuardSlot(), offset, 0);
    }
  }

  /** A PDP whose slots 0..3 point at the four PDs of `pd` and whose other slots are empty. */
  predicate PdpBuilt(pdp: TableArray, pd: TableArray)
    requires pdp.Valid() && pd.Valid() && pdp.entries.Length0 == 1 && pd.entries.Length0 == 4
    reads pdp.entries
  {
    (forall e :: 0 <= e < 4 ==> pdp.entries[0, e] == Set(pd.PhysicalAddress(e), KERNEL_FLAGS)) &&
    forall e :: 4 <= e < 512 ==> pdp.entries[0, e] == EMPTY_ENTRY
  }

  /** The PDP loop of `init` over a cleared PDP: slots 0..3 point at the four PDs. */
  method BuildPdp(pdp: TableArray, pd: TableArray)
    requires pdp.Valid() && pd.Valid() && pdp.entries.Length0 == 1 && pd.entries.Length0 == 4
    requires pdp.entries != pd.entries && pdp.Empty()
    modifies pdp.entries
    ensures PdpBuilt(pdp, pd)
  {
    pdp.LinkRow(pd, 0, 4);
  }

  /** Four PDs whose entry `e` of PD `d` points at PT `d * 512 + e` of `pt`. */
  predicate PdBuilt(pd: TableArray, pt: TableArray)
    requires pd.Valid() && pt.Valid() && pd.entries.Length0 == 4 && pt.entries.Length0 == 2048
    reads pd.entries
  {
    forall d, e :: 0 <= d < 4 && 0 <= e < 512 ==> pd.entries[d, e] == Set(pt.PhysicalAddress(d * 512 + e), KERNEL_FLAGS)
  }
}
