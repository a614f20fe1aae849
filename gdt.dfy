// The Global Descriptor Table and the Task State Segment, kernel/src/gdt.rs,
// laid out as sections 3.4.5, 7.2.3 and 7.7 of the Intel SDM Vol. 3A
// describe them for long mode.  Descriptor fields are bit-vectors of the
// widths the packed Rust structs use.

module Gdt {
  import opened Base

  /** Errors `init` can report; the code never produces one. */
  datatype GdtError = InitFailed | InvalidAddress

  // ---- Task State Segment -------------------------------------------------

  /** The 64-bit TSS, field by field (`repr(C, packed)`). */
  datatype TaskStateSegment = TaskStateSegment(
    reserved1: bv32,
    rsp0: bv64, rsp1: bv64, rsp2: bv64,
    reserved2: bv64,
    ist1: bv64, ist2: bv64, ist3: bv64, ist4: bv64, ist5: bv64, ist6: bv64, ist7: bv64,
    reserved3: bv64,
    reserved4: bv16,
    iomapBase: bv16)

  /**
   * Bytes of the packed TSS: `reserved_1` (4), `rsp0..2` (3 x 8),
   * `reserved_2` (8), `ist1..7` (7 x 8), `reserved_3` (8), `reserved_4` and
   * `iomap_base` (2 each).
   */
  const TSS_SIZE: nat := 4 + 3 * 8 + 8 + 7 * 8 + 8 + 2 + 2

  /**
   * `TaskStateSegment::new`: every stack pointer and reserved field is
   * zero and the I/O map base is the TSS size, so there is no I/O bitmap
   * (section 7.7 of the Intel SDM Vol. 3A).
   */
  function NewTss(): (r: TaskStateSegment)
    ensures r.iomapBase as nat == TSS_SIZE
    ensures r.rsp0 == r.rsp1 == r.rsp2 == 0
    ensures r.ist1 == r.ist2 == r.ist3 == r.ist4 == r.ist5 == r.ist6 == r.ist7 == 0
    ensures r.reserved1 == 0 && r.reserved2 == 0 && r.reserved3 == 0 && r.reserved4 == 0
  {
    TaskStateSegment(0, 0, 0, 0, 0, 0, 0, 0, 0, 0, 0, 0, 0, 0, 0x68)
  }

  // ---- segment descriptors ------------------------------------------------

  /** An 8-byte segment descriptor. */
  datatype GdtEntry = GdtEntry(limitLow: bv16, baseLow: bv16, baseMiddle: bv8, access: bv8, granularity: bv8, baseHigh: bv8)

  /** Access byte: Present (bit 7). */
  predicate Present(e: GdtEntry) { e.access & 0x80 != 0 }

  /** Access byte: Descriptor Privilege Level (bits 5-6). */
  function Dpl(e: GdtEntry): bv8 { (e.access >> 5) & 3 }

  /** Access byte: S (bit 4), a code or data segment rather than a system one. */
  predicate CodeOrData(e: GdtEntry) { e.access & 0x10 != 0 }

  /** Access byte: Executable (bit 3). */
  predicate Executable(e: GdtEntry) { e.access & 0x08 != 0 }

  /** Access byte: readable for code, writable for data (bit 1). */
  predicate ReadWrite(e: GdtEntry) { e.access & 0x02 != 0 }

  /** Flags nibble: L (bit 5 of the granularity byte), a 64-bit code segment. */
  predicate LongMode(e: GdtEntry) { e.granularity & 0x20 != 0 }

  /** Flags nibble: D/B (bit 6), which must be clear when L is set. */
  predicate DefaultSize32(e: GdtEntry) { e.granularity & 0x40 != 0 }

  /** `GdtEntry::null`. */
  const NULL_ENTRY: GdtEntry := GdtEntry(0, 0, 0, 0, 0, 0)

  /** `code_segment(dpl)`: access `0b1001_1010 | (dpl & 3) << 5`, granularity 0x20. */
  function CodeSegment(dpl: bv8): GdtEntry
  {
    GdtEntry(0, 0, 0, 0x9A | ((dpl & 3) << 5), 0x20, 0)
  }

  /** `data_segment(dpl)`: access `0b1001_0010 | (dpl & 3) << 5`, granularity 0. */
  function DataSegment(dpl: bv8): GdtEntry
  {
    GdtEntry(0, 0, 0, 0x92 | ((dpl & 3) << 5), 0, 0)
  }

  /**
   * A code descriptor is a present, readable, executable 64-bit code
   * segment (L set, D clear) at privilege `dpl & 3`.
   */
  lemma CodeSegmentBits(dpl: bv8)
    ensures Present(CodeSegment(dpl)) && CodeOrData(CodeSegment(dpl))
    ensures Executable(CodeSegment(dpl)) && ReadWrite(CodeSegment(dpl))
    ensures LongMode(CodeSegment(dpl)) && !DefaultSize32(CodeSegment(dpl))
    ensures Dpl(CodeSegment(dpl)) == dpl & 3
  {
  }

  /** A data descriptor is a present, writable, non-executable data segment at privilege `dpl & 3`. */
  lemma DataSegmentBits(dpl: bv8)
    ensures Present(DataSegment(dpl)) && CodeOrData(DataSegment(dpl))
    ensures !Executable(DataSegment(dpl)) && ReadWrite(DataSegment(dpl))
    ensures Dpl(DataSegment(dpl)) == dpl & 3
  {
  }

  /** The null descriptor is not present. */
  lemma NullNotPresent()
    ensures !Present(NULL_ENTRY)
  {
  }

  // ---- TSS descriptor -----------------------------------------------------

  /** The 16-byte system descriptor of a 64-bit TSS: two 8-byte slots. */
  datatype TssDescriptor = TssDescriptor(low: GdtEntry, high: GdtEntry)

  /** `TssDescriptor::new`: the TSS address spread over five fields, limit `0x68 - 1`. */
  function NewTssDescriptor(tssAddr: bv64): TssDescriptor
  {
    var limit: bv32 := 0x67;
    TssDescriptor(
      GdtEntry((limit & 0xFFFF) as bv16, (tssAddr & 0xFFFF) as bv16, ((tssAddr >> 16) & 0xFF) as bv8,
               0x89, ((limit >> 16) & 0x0F) as bv8, ((tssAddr >> 24) & 0xFF) as bv8),
      GdtEntry(((tssAddr >> 32) & 0xFFFF) as bv16, ((tssAddr >> 48) & 0xFFFF) as bv16, 0, 0, 0, 0))
  }

  /** The base address the processor reads from a TSS descriptor. */
  function TssBase(d: TssDescriptor): bv64
  {
    ((d.high.baseLow as bv64) << 48) | ((d.high.limitLow as bv64) << 32) |
    ((d.low.baseHigh as bv64) << 24) | ((d.low.baseMiddle as bv64) << 16) | (d.low.baseLow as bv64)
  }

  /** The segment limit the processor reads from a TSS descriptor. */
  function TssLimit(d: TssDescriptor): bv32
  {
    (((d.low.granularity & 0x0F) as bv32) << 16) | (d.low.limitLow as bv32)
  }

  /**
   * The TSS address is stored so that it reassembles exactly; the limit is
   * the TSS size minus one; the access byte 0b1000_1001 is a present,
   * DPL 0, available 64-bit TSS (type 9).
   */
  lemma TssDescriptorRoundTrip(tssAddr: bv64)
    ensures TssBase(NewTssDescriptor(tssAddr)) == tssAddr
    ensures TssLimit(NewTssDescriptor(tssAddr)) as nat == TSS_SIZE - 1
    ensures Present(NewTssDescriptor(tssAddr).low) && Dpl(NewTssDescriptor(tssAddr).low) == 0
    ensures !CodeOrData(NewTssDescriptor(tssAddr).low) && NewTssDescriptor(tssAddr).low.access & 0x0F == 9
  {
  }

  // ---- the table ----------------------------------------------------------

  /** The GDT's six descriptors; the TSS descriptor takes two slots. */
  datatype GdtTable = GdtTable(nullEntry: GdtEntry, kernelCode: GdtEntry, kernelData: GdtEntry,
                               userCode: GdtEntry, userData: GdtEntry, tss: TssDescriptor)

  const KERNEL_CODE_SELECTOR: bv16 := 0x08
  const KERNEL_DATA_SELECTOR: bv16 := 0x10
  const USER_CODE_SELECTOR: bv16 := 0x18 | 3
  const USER_DATA_SELECTOR: bv16 := 0x20 | 3
  const TSS_SELECTOR: bv16 := 0x28

  /** The IST slot the double-fault handler runs on. */
  const DOUBLE_FAULT_IST_INDEX: bv8 := 1

  /** Bytes of the double-fault stack. */
  const DOUBLE_FAULT_STACK_SIZE: bv64 := 16384

  /** `Gdt::new`: null, kernel code and data (DPL 0), user code and data (DPL 3), a placeholder TSS. */
  function NewGdt(): GdtTable
  {
    GdtTable(NULL_ENTRY, CodeSegment(0), DataSegment(0), CodeSegment(3), DataSegment(3), NewTssDescriptor(0))
  }

  /** The 8-byte slot `i` of the table, as the processor indexes it. */
  function Slot(g: GdtTable, i: nat): Option<GdtEntry>
  {
    match i
    case 0 => Some(g.nullEntry)
    case 1 => Some(g.kernelCode)
    case 2 => Some(g.kernelData)
    case 3 => Some(g.userCode)
    case 4 => Some(g.userData)
    case 5 => Some(g.tss.low)
    case 6 => Some(g.tss.high)
    case _ => None
  }

  /** Index of a selector (bits 3-15) and its requested privilege level (bits 0-1). */
  function SelectorIndex(sel: bv16): nat { (sel >> 3) as nat }
  function SelectorRpl(sel: bv16): bv16 { sel & 3 }

  /**
   * Each selector picks the descriptor it is named after, with a requested
   * privilege level equal to that descriptor's DPL, and the TSS selector
   * picks the first slot of the TSS descriptor.
   */
  lemma SelectorsMatchLayout(tssAddr: bv64)
    ensures Slot(NewGdt(), SelectorIndex(KERNEL_CODE_SELECTOR)) == Some(CodeSegment(0))
    ensures Slot(NewGdt(), SelectorIndex(KERNEL_DATA_SELECTOR)) == Some(DataSegment(0))
    ensures Slot(NewGdt(), SelectorIndex(USER_CODE_SELECTOR)) == Some(CodeSegment(3))
    ensures Slot(NewGdt(), SelectorIndex(USER_DATA_SELECTOR)) == Some(DataSegment(3))
    ensures Slot(SetTss(NewGdt(), tssAddr), SelectorIndex(TSS_SELECTOR)) == Some(NewTssDescriptor(tssAddr).low)
    ensures SelectorRpl(KERNEL_CODE_SELECTOR) as bv8 == Dpl(CodeSegment(0))
    ensures SelectorRpl(KERNEL_DATA_SELECTOR) as bv8 == Dpl(DataSegment(0))
    ensures SelectorRpl(USER_CODE_SELECTOR) as bv8 == Dpl(CodeSegment(3))
    ensures SelectorRpl(USER_DATA_SELECTOR) as bv8 == Dpl(DataSegment(3))
  {
    CodeSegmentBits(0);
    CodeSegmentBits(3);
    DataSegmentBits(0);
    DataSegmentBits(3);
  }

  /** `set_tss`: only the TSS descriptor changes. */
  function SetTss(g: GdtTable, tssAddr: bv64): (r: GdtTable)
    ensures r.nullEntry == g.nullEntry && r.kernelCode == g.kernelCode && r.kernelData == g.kernelData
    ensures r.userCode == g.userCode && r.userData == g.userData
    ensures TssBase(r.tss) == tssAddr
  {
    TssDescriptorRoundTrip(tssAddr);
    g.(tss := NewTssDescriptor(tssAddr))
  }

  /** The statics `GDT` and `TSS`. */
  class DescriptorTables {
    var gdt: GdtTable
    var tss: TaskStateSegment

    /** Their initial values, `Gdt::new()` and `TaskStateSegment::new()`. */
    constructor()
      ensures gdt == NewGdt() && tss == NewTss()
    {
      gdt := NewGdt();
      tss := NewTss();
    }

    /**
     * `init`: IST1 becomes the top of the double-fault stack, the GDT gets
     * a TSS descriptor for the TSS's address, nothing else changes, and the
     * result is always Ok.  (Loading GDTR, the segment registers and TR is
     * not part of the model.)
     */
    method Init(doubleFaultStack: bv64, tssAddr: bv64) returns (r: Result<(), GdtError>)
      requires doubleFaultStack <= 0xFFFF_FFFF_FFFF_FFFF - DOUBLE_FAULT_STACK_SIZE
      modifies this
      ensures tss == old(tss).(ist1 := doubleFaultStack + DOUBLE_FAULT_STACK_SIZE)
      ensures gdt == SetTss(old(gdt), tssAddr)
      ensures r.Ok?
    {
      tss := tss.(ist1 := doubleFaultStack + DOUBLE_FAULT_STACK_SIZE);
      gdt := SetTss(gdt, tssAddr);
      r := Ok(());
    }
  }
}
