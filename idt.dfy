// The Interrupt Descriptor Table, kernel/src/idt.rs: 64-bit interrupt gate
// descriptors (section 6.14.1 of the Intel SDM Vol. 3A), the table the
// kernel installs its exception and timer handlers in, and the decoding of
// the error codes the #GP, #PF and #DF handlers report.

module Idt {
  import opened Base
  import Gdt

  /** A 16-byte gate descriptor, field by field (`repr(C, packed)`). */
  datatype IdtEntry = IdtEntry(offsetLow: bv16, selector: bv16, ist: bv8, attributes: bv8,
                               offsetMiddle: bv16, offsetHigh: bv32, reserved: bv32)

  /** `IdtEntry::null`: all zero, so not present. */
  const NULL_ENTRY: IdtEntry := IdtEntry(0, 0, 0, 0, 0, 0, 0)

  /** Number of gates in the table. */
  const IDT_SIZE: nat := 256

  /** The vector of the APIC timer interrupt (`TIMER_INTERRUPT_VECTOR`). */
  const TIMER_INTERRUPT_VECTOR: bv8 := 32

  /** Attribute byte: Present (bit 7). */
  predicate Present(e: IdtEntry) { e.attributes & 0x80 != 0 }

  /** Attribute byte: gate type (bits 0-3) and the zero bit 4. */
  function GateType(e: IdtEntry): bv8 { e.attributes & 0x1F }

  /** Attribute byte: Descriptor Privilege Level (bits 5-6). */
  function Dpl(e: IdtEntry): bv8 { (e.attributes >> 5) & 3 }

  /** The handler address the processor jumps to, reassembled from the three offset fields. */
  function Handler(e: IdtEntry): bv64
  {
    ((e.offsetHigh as bv64) << 32) | ((e.offsetMiddle as bv64) << 16) | (e.offsetLow as bv64)
  }

  /** `IdtEntry::new`: a present 64-bit interrupt gate (type 0xE) at privilege `dpl & 3`, no IST. */
  function New(handler: bv64, selector: bv16, dpl: bv8): IdtEntry
  {
    IdtEntry((handler & 0xFFFF) as bv16, selector, 0, 0x80 | ((dpl & 3) << 5) | 0x0E,
             ((handler >> 16) & 0xFFFF) as bv16, ((handler >> 32) & 0xFFFF_FFFF) as bv32, 0)
  }

  /** `IdtEntry::new_with_ist`: the same gate, switching to IST slot `ist_index & 7`. */
  function NewWithIst(handler: bv64, selector: bv16, dpl: bv8, istIndex: bv8): IdtEntry
  {
    IdtEntry((handler & 0xFFFF) as bv16, selector, istIndex & 7, 0x80 | ((dpl & 3) << 5) | 0x0E,
             ((handler >> 16) & 0xFFFF) as bv16, ((handler >> 32) & 0xFFFF_FFFF) as bv32, 0)
  }

  /**
   * A gate built by `new` sends the processor to exactly `handler`,
   * through `selector`, without a stack switch; it is a present interrupt
   * gate (type 0xE) whose DPL is `dpl & 3`.
   */
  lemma NewDescribesGate(handler: bv64, selector: bv16, dpl: bv8)
    ensures Handler(New(handler, selector, dpl)) == handler
    ensures New(handler, selector, dpl).selector == selector && New(handler, selector, dpl).ist == 0
    ensures Present(New(handler, selector, dpl)) && GateType(New(handler, selector, dpl)) == 0x0E
    ensures Dpl(New(handler, selector, dpl)) == dpl & 3 && New(handler, selector, dpl).reserved == 0
  {
  }

  /**
   * `new_with_ist` differs from `new` only in the IST field, which is a
   * valid slot number (0 means no switch); with index 0 it is `new`.
   */
  lemma NewWithIstDescribesGate(handler: bv64, selector: bv16, dpl: bv8, istIndex: bv8)
    ensures NewWithIst(handler, selector, dpl, istIndex) == New(handler, selector, dpl).(ist := istIndex & 7)
    ensures NewWithIst(handler, selector, dpl, istIndex).ist < 8
    ensures istIndex < 8 ==> NewWithIst(handler, selector, dpl, istIndex).ist == istIndex
    ensures NewWithIst(handler, selector, dpl, 0) == New(handler, selector, dpl)
  {
  }

  /** The null gate is not present, so its vector raises #NP/#GP rather than jumping anywhere. */
  lemma NullEntryNotPresent()
    ensures !Present(NULL_ENTRY) && Handler(NULL_ENTRY) == 0
  {
  }

  /** The addresses of the handlers `init` installs. */
  datatype Handlers = Handlers(divideError: bv64, debug: bv64, breakpoint: bv64, invalidOpcode: bv64,
                               doubleFault: bv64, generalProtection: bv64, pageFault: bv64, timer: bv64)

  /** The static `IDT`. */
  class InterruptTable {
    const entries: array<IdtEntry>

    predicate Valid()
      reads this
    {
      entries.Length == IDT_SIZE
    }

    /** `Idt::new`: 256 null gates. */
    constructor()
      ensures Valid() && fresh(entries)
      ensures forall v :: 0 <= v < IDT_SIZE ==> entries[v] == NULL_ENTRY
    {
      entries := new IdtEntry[IDT_SIZE](_ => NULL_ENTRY);
    }

    /** `set_idt_entry`: vector `vector` gets a kernel-code gate at DPL 0; no other vector changes. */
    method SetIdtEntry(vector: bv8, handler: bv64)
      requires Valid()
      modifies entries
      ensures entries[vector as int] == New(handler, Gdt.KERNEL_CODE_SELECTOR, 0)
      ensures forall v :: 0 <= v < IDT_SIZE && v != vector as int ==> entries[v] == old(entries[v])
    {
      entries[vector as int] := New(handler, Gdt.KERNEL_CODE_SELECTOR, 0);
    }

    /** `set_idt_entry_with_ist`: the same, with IST slot `ist_index & 7`. */
    method SetIdtEntryWithIst(vector: bv8, handler: bv64, istIndex: bv8)
      requires Valid()
      modifies entries
      ensures entries[vector as int] == NewWithIst(handler, Gdt.KERNEL_CODE_SELECTOR, 0, istIndex)
      ensures forall v :: 0 <= v < IDT_SIZE && v != vector as int ==> entries[v] == old(entries[v])
    {
      entries[vector as int] := NewWithIst(handler, Gdt.KERNEL_CODE_SELECTOR, 0, istIndex);
    }

    /**
     * `init`: #DE, #DB, #BP, #UD, #GP, #PF and the timer vector get
     * ordinary gates, #DF a gate on IST slot 1; every other vector keeps
     * its gate.  (Loading IDTR is not part of the model.)
     */
    method Init(h: Handlers)
      requires Valid()
      modifies entries
      ensures entries[0] == New(h.divideError, Gdt.KERNEL_CODE_SELECTOR, 0)
      ensures entries[1] == New(h.debug, Gdt.KERNEL_CODE_SELECTOR, 0)
      ensures entries[3] == New(h.breakpoint, Gdt.KERNEL_CODE_SELECTOR, 0)
      ensures entries[6] == New(h.invalidOpcode, Gdt.KERNEL_CODE_SELECTOR, 0)
      ensures entries[8] == NewWithIst(h.doubleFault, Gdt.KERNEL_CODE_SELECTOR, 0, Gdt.DOUBLE_FAULT_IST_INDEX)
      ensures entries[13] == New(h.generalProtection, Gdt.KERNEL_CODE_SELECTOR, 0)
      ensures entries[14] == New(h.pageFault, Gdt.KERNEL_CODE_SELECTOR, 0)
      ensures entries[32] == New(h.timer, Gdt.KERNEL_CODE_SELECTOR, 0)
      ensures forall v :: 0 <= v < IDT_SIZE && !InstalledVector(v) ==> entries[v] == old(entries[v])
    {
      SetIdtEntry(0, h.divideError);
      SetIdtEntry(1, h.debug);
      SetIdtEntry(3, h.breakpoint);
      SetIdtEntry(6, h.invalidOpcode);
      SetIdtEntryWithIst(8, h.doubleFault, Gdt.DOUBLE_FAULT_IST_INDEX);
      SetIdtEntry(13, h.generalProtection);
      SetIdtEntry(14, h.pageFault);
      SetIdtEntry(TIMER_INTERRUPT_VECTOR, h.timer);
    }
  }

  /** The vectors `init` installs a gate for. */
  predicate InstalledVector(v: int)
  {
    v == 0 || v == 1 || v == 3 || v == 6 || v == 8 || v == 13 || v == 14 || v == 32
  }

  /** The handler `init` installs for an installed vector. */
  function HandlerFor(h: Handlers, v: int): bv64
    requires InstalledVector(v)
  {
    if v == 0 then h.divideError
    else if v == 1 then h.debug
    else if v == 3 then h.breakpoint
    else if v == 6 then h.invalidOpcode
    else if v == 8 then h.doubleFault
    else if v == 13 then h.generalProtection
    else if v == 14 then h.pageFault
    else h.timer
  }

  /**
   * After `init` every installed vector dispatches to its own handler
   * through the kernel code segment at DPL 0 as a present interrupt gate,
   * and only #DF switches stacks, to the double-fault IST slot.
   */
  lemma {:induction false} InstalledGateDispatches(h: Handlers, v: int, e: IdtEntry)
    requires InstalledVector(v)
    requires v == 8 ==> e == NewWithIst(h.doubleFault, Gdt.KERNEL_CODE_SELECTOR, 0, Gdt.DOUBLE_FAULT_IST_INDEX)
    requires v != 8 ==> e == New(HandlerFor(h, v), Gdt.KERNEL_CODE_SELECTOR, 0)
    ensures Handler(e) == HandlerFor(h, v) && e.selector == Gdt.KERNEL_CODE_SELECTOR
    ensures Present(e) && GateType(e) == 0x0E && Dpl(e) == 0
    ensures e.ist == (if v == 8 then Gdt.DOUBLE_FAULT_IST_INDEX else 0)
  {
    NewDescribesGate(HandlerFor(h, v), Gdt.KERNEL_CODE_SELECTOR, 0);
    NewWithIstDescribesGate(h.doubleFault, Gdt.KERNEL_CODE_SELECTOR, 0, Gdt.DOUBLE_FAULT_IST_INDEX);
  }

  // ---- error codes --------------------------------------------------------

  /** The descriptor table a selector error code points into. */
  datatype DescriptorTable = GdtTable | IdtTable | LdtTable

  /** A #GP selector error code: external event, table, selector index. */
  datatype SelectorError = SelectorError(external: bool, table: bv64, index: bv64)

  /** The #GP handler's decoding: nothing for error code 0, otherwise bits 0, 1-2 and 3-15. */
  function DecodeGeneralProtection(code: bv64): (r: Option<SelectorError>)
    ensures r.None? <==> code == 0
    ensures r.Some? ==> r.value.table < 4 && r.value.index < 0x2000
  {
    if code == 0 then None
    else Some(SelectorError(code & 1 != 0, (code >> 1) & 3, (code >> 3) & 0x1FFF))
  }

  /** The decoded fields put back together are the low 16 bits of the error code. */
  lemma GeneralProtectionReassembles(code: bv64)
    requires code != 0
    ensures var d := DecodeGeneralProtection(code).value;
      (d.index << 3) | (d.table << 1) | (if d.external then 1 else 0) == code & 0xFFFF
  {
  }

  /** The handler's name for the two-bit table field: 0 GDT, 1 and 3 IDT, 2 LDT. */
  function TableName(table: bv64): (r: Option<DescriptorTable>)
  {
    if table == 0 then Some(GdtTable)
    else if table == 1 || table == 3 then Some(IdtTable)
    else if table == 2 then Some(LdtTable)
    else None
  }

  /**
   * The names agree with the error-code format of section 6.13 of the Intel
   * SDM Vol. 3A: bit 1 set means the IDT, otherwise bit 2 chooses the LDT
   * over the GDT; every decoded table field has a name.
   */
  lemma TableNameFollowsFlags(code: bv64)
    requires code != 0
    ensures var t := TableName(DecodeGeneralProtection(code).value.table);
      t.Some? &&
      (t.value == IdtTable <==> code & 2 != 0) &&
      (t.value == LdtTable <==> code & 2 == 0 && code & 4 != 0) &&
      (t.value == GdtTable <==> code & 6 == 0)
  {
  }

  /** The five page-fault error-code bits the #PF handler reports. */
  datatype PageFaultError = PageFaultError(protection: bool, write: bool, user: bool,
                                           reservedWrite: bool, instructionFetch: bool)

  /** The #PF handler's decoding of bits 0 to 4. */
  function DecodePageFault(code: bv64): PageFaultError
  {
    PageFaultError(code & 0x01 != 0, code & 0x02 != 0, code & 0x04 != 0, code & 0x08 != 0, code & 0x10 != 0)
  }

  /** The error code the processor would push for a decoded page fault. */
  function EncodePageFault(p: PageFaultError): bv64
  {
    (if p.protection then 0x01 else 0) | (if p.write then 0x02 else 0) | (if p.user then 0x04 else 0) |
    (if p.reservedWrite then 0x08 else 0) | (if p.instructionFetch then 0x10 else 0)
  }

  /** Decoding loses exactly the bits above bit 4, and every decoded value encodes back. */
  lemma PageFaultRoundTrip(code: bv64, p: PageFaultError)
    ensures EncodePageFault(DecodePageFault(code)) == code & 0x1F
    ensures DecodePageFault(EncodePageFault(p)) == p
  {
  }

  /**
   * The #DF handler's stack-overflow test: the fault address (CR2) lies in
   * the page just below the kernel stack.
   */
  predicate IsStackOverflow(faultAddr: U64, stack: U64)
    requires 0x1000 <= stack
  {
    stack - 0x1000 <= faultAddr < stack - 0x1000 + 0x1000
  }

  /**
   * For a page-aligned stack that test is "the fault address's page is the
   * guard page", the page the paging setup leaves unmapped.
   */
  lemma StackOverflowIsGuardPage(faultAddr: U64, stack: U64)
    requires 0x1000 <= stack && stack % 0x1000 == 0
    ensures IsStackOverflow(faultAddr, stack) <==> faultAddr / 0x1000 == stack / 0x1000 - 1
  {
  }
}
