# je4OS core in Dafny

This project models the core of je4OS. je4OS is a small x86-64 operating system written in Rust: a UEFI loader, a kernel and a slab allocator. The model follows the source file by file, with one Dafny module per Rust file.

- **Loader.** The UEFI memory-map walk and the `BootInfo` the kernel receives, from `uefi.dfy`. The kernel ELF load and the choice of the largest conventional region for the early heap, from `bootloader.dfy` and `early_main.dfy`.
- **Kernel memory.** Address arithmetic (`addr.dfy`), the page-table entry encoders and the identity-mapping plan (`paging.dfy`), and the kernel's heap plan (`kernel_main.dfy`).
- **Slab allocator.** Size-class selection, free-list push and pop, and `GlobalAlloc` behaviour, in `allocator.dfy`.
- **Descriptors and devices.** GDT and IDT entry encoding (`gdt.dfy`, `idt.dfy`) and PCI configuration and ECAM addresses, field extraction and the bus scan (`pci.dfy`). ACPI RSDP checksums and the RSDT/XSDT/MADT walk (`acpi.dfy`). HPET and local-APIC timer arithmetic, including the median-of-measurements calibration (`hpet.dfy`, `apic.dfy`).
- **Timers.** The tick counter, the timer min-heap, `check_timers` and the timer softirq (`kernel_timer.dfy`).
- **Scheduler.** It is modelled in both generations the repository contains.
  - The newer `kernel/src/sched/*` (`sched_task.dfy`, `sched_scheduler.dfy`, `sched_blocking.dfy`, `sched_context.dfy`): real-time and CFS run queues keyed by priority and by virtual runtime, the blocked set, and the schedule step.
  - The older `kernel/src/task.rs` (`legacy_task.dfy`), which is the scheduler the kernel build uses.
  - Wait queues are in `wait_queue.dfy`.
- **Graphics.** Pixel drawing in the common and kernel graphics modules, the framebuffer and shadow buffer, the region writers that queue draw commands, and the compositor that renders dirty buffers into the shadow buffer and copies it out.

Conventions:

- Values that come from hardware or firmware are parameters of the operations. Examples are port and MMIO reads, the UEFI memory map and file contents, the PIT/HPET counter readings and the font.
- Rust's fixed-width integers are `int`s bounded by the `Byte`/`U16`/`U32`/`U64` subset types in `base.dfy`. Where the source would panic on overflow in a debug build, the model states that as a precondition. Where the source wraps (an atomic `fetch_add`, a `wrapping_*` call), the model wraps explicitly. Masks and shifts are mostly written out as arithmetic on these bounded integers.
- A Rust `BTreeMap` used as a run queue is a sorted sequence of `(key, value)` pairs (`keyed_queue.dfy`). A `BinaryHeap` of timers is a sequence sorted by expiry.
- A Rust struct behind a `static Mutex` whose methods update it in place is a Dafny `class`. Its methods carry `modifies` clauses and state their new state through a `State()` snapshot. Spec functions on datatypes hold the properties, and lemmas prove them.

## Model

| member | source | states |
|---|---|---|
| Addr.AlignDown | kernel/src/addr.rs:86-89 | the masked address is a multiple of `align` with `r <= addr < r + align` |
| Addr.AlignUp | kernel/src/addr.rs:72-75 | the masked sum is a multiple of `align` with `addr <= r < addr + align`; the sum must not overflow |
| Addr.AlignDownIsGreatest | kernel/src/addr.rs:86-89 | every multiple of `align` not above `addr` is at most `align_down(addr)` |
| Addr.AlignUpIsLeast | kernel/src/addr.rs:72-75 | every multiple of `align` not below `addr` is at least `align_up(addr)` |
| Addr.AlignedIffFixed | kernel/src/addr.rs:58-89 | `is_aligned` holds iff `align_down` is the identity, and iff `align_up` is (when it does not overflow) |
| Addr.IsAlignedExamples | kernel/src/addr.rs:199-205 | 0x1000, 0x2000 and 0 are 4 KiB aligned and 0x1001 is not |
| Addr.FromPagingError | kernel/src/addr.rs:32-40 | `InvalidAddress` becomes `Null`, every other paging error `ConversionFailed` |
| Addr.PhysToRef | kernel/src/addr.rs:106-138 | address 0 gives `Null` before any conversion; otherwise the conversion's address, or its error mapped by `From<PagingError>`: `InvalidAddress` becomes `Null` and every other paging error `ConversionFailed` |
| Addr.VirtToRef | kernel/src/addr.rs:155-192 | `Null` iff the address is 0, `Unaligned` iff non-zero and not aligned, otherwise the address itself |
| Paging.SetFlags | kernel/src/paging.rs:52-54 | the result keeps every bit of the old entry and has every flag bit set |
| Paging.SetFlagsOnlyAddsFlags | kernel/src/paging.rs:52-54 | `set_flags` changes no bit outside the flags, so it never clears a bit |
| Paging.GetAddress | kernel/src/paging.rs:72-74 | the address read back is 4 KiB-aligned, below 2^52 and made of bits of the entry |
| Paging.SetAddress | kernel/src/paging.rs:57-62 | the low 12 flag bits are kept, the address bits become those of the new address, and bits 52-63 (NX included) are cleared |
| Paging.Set | kernel/src/paging.rs:65-69 | every flag bit is set and the bits outside the address mask are exactly the flags' |
| Paging.SetThenGetAddress | kernel/src/paging.rs:65-74 | when the flags have no address bits, `get_address` after `set(a, f)` returns `a & mask`, and returns `a` itself for an aligned address below 2^52 |
| Paging.SetPresentIffFlag | kernel/src/paging.rs:47-49 | after `set(a, f)` the entry is present exactly when `f` has bit 0 |
| Paging.PresenceKept | kernel/src/paging.rs:47-62 | `set_address` never changes presence and `set_flags` never clears it |
| Paging.SetFlagsIdempotent | kernel/src/paging.rs:52-54 | setting the same flags twice equals setting them once |
| Paging.MappedPage | kernel/src/paging.rs:266-267 | the page mapped by PT `pt` entry `page`, `(pt * 512 + page) * 4096`, is 4 KiB-aligned and below 4 GiB |
| Paging.MappedPageInjective | kernel/src/paging.rs:264-271 | distinct (PT, entry) pairs map distinct physical pages |
| Paging.PtIndex | kernel/src/paging.rs:285-288 | the PT index of an offset is below 2048 exactly when the offset is below 4 GiB |
| Paging.PageIndex | kernel/src/paging.rs:285-289 | the entry index inside a PT is below 512 |
| Paging.MappedPageCovers | kernel/src/paging.rs:282-289 | the page chosen by the guard-page index arithmetic is the page containing the offset, so the direct map covers all of the first 4 GiB |
| Paging.KernelBaseIsPml4Slot256 | kernel/src/paging.rs:241-243 | KERNEL_VIRTUAL_BASE selects PML4 slot 256 and has no lower bits |
| Paging.TableArray.constructor | kernel/src/paging.rs:91-95 | new tables have every entry empty |
| Paging.TableArray.PhysicalAddress | kernel/src/paging.rs:104-107 | a table's physical address is its virtual address minus KERNEL_VIRTUAL_BASE, 4 KiB-aligned |
| Paging.TableArray.Clear | kernel/src/paging.rs:110-114 | all 512 entries of the table become 0 and no other table changes |
| Paging.TableArray.ClearAll | kernel/src/paging.rs:218-225 | clearing each table of an array leaves every entry empty |
| Paging.TableArray.SetEntry | kernel/src/paging.rs:98-101 | `entry(i).set(a, f)` changes that one entry to `set(a, f)` and nothing else |
| Paging.TableArray.LinkRow | kernel/src/paging.rs:255-261 | entries 0..cols of one PD point at PTs `r * 512 + e` with Present, Writable; no other entry changes |
| Paging.TableArray.Link | kernel/src/paging.rs:255-261 | entry e of PD d points at PT `d * 512 + e` for every PD and entry of the loop; no other entry changes |
| Paging.TableArray.MapTable | kernel/src/paging.rs:265-270 | every entry of one PT maps its own page of the direct map; no other table changes |
| Paging.TableArray.MapPages | kernel/src/paging.rs:264-271 | after the loops every entry (pt, page) of the 2048 PTs maps `(pt * 512 + page) * 4096` with Present, Writable |
| Paging.DirectEntryDecodes | kernel/src/paging.rs:264-271 | every direct-map entry is present and holds the address of its page |
| Paging.GuardOffset | kernel/src/paging.rs:275-282 | the guard page's offset is the stack address minus one page minus KERNEL_VIRTUAL_BASE, below 4 GiB |
| Paging.GuardEntryUnmapsOnlyPresence | kernel/src/paging.rs:291-292 | the guard entry `set(off, 0)` is not present, while the direct entry it replaces was present and held the same frame address |
| Paging.KernelTables.constructor | kernel/src/paging.rs:174-197 | the seven static tables start with every entry empty |
| Paging.KernelTables.GuardTable | kernel/src/paging.rs:288 | the guard page's PT index is one of the 2048 PTs |
| Paging.KernelTables.GuardSlot | kernel/src/paging.rs:289 | the guard page's entry index is one of the 512 entries |
| Paging.KernelTables.Init | kernel/src/paging.rs:203-308 | CR3 gets the PML4's physical address; PML4 slots 0 and 256 point at the low and high PDPs and nothing else; each PDP's slots 0..3 point at its four PDs; PD entries point at their PTs; every low PT entry maps its page; every high PT entry maps its page except the guard page, which is not present |
| Paging.KernelTables.ClearTables | kernel/src/paging.rs:214-225 | the clearing loops empty all seven tables |
| Paging.KernelTables.BuildUpper | kernel/src/paging.rs:230-248 | PML4 slots 0 and 256 and both PDPs are built as described for `init` |
| Paging.KernelTables.BuildDirectories | kernel/src/paging.rs:255-261 | both PD arrays link their 2048 PTs |
| Paging.KernelTables.BuildPageTables | kernel/src/paging.rs:264-292 | the low PTs map the first 4 GiB; the high PTs do too, except for the guard page |
| Paging.KernelTables.SetGuardPage | kernel/src/paging.rs:274-292 | over a complete high direct map, only the guard page's entry is replaced, by a non-present one |
| Paging.BuildPdp | kernel/src/paging.rs:236-238 | over a cleared PDP, slots 0..3 point at the four PDs and every other slot stays empty |
| Gdt.NewTss | kernel/src/gdt.rs:71-89 | a new TSS has every stack pointer and IST slot 0 and its I/O map base at the TSS size, 0x68 |
| Gdt.CodeSegmentBits | kernel/src/gdt.rs:121-132 | a code segment is present, a code/data descriptor, executable, readable, 64-bit (L set, D clear), with the DPL's low two bits |
| Gdt.DataSegmentBits | kernel/src/gdt.rs:138-148 | a data segment is present, a code/data descriptor, not executable, writable, with the DPL's low two bits |
| Gdt.NullNotPresent | kernel/src/gdt.rs:106-115 | the null descriptor is not present |
| Gdt.TssDescriptorRoundTrip | kernel/src/gdt.rs:164-190 | the base reassembled from the 16-byte TSS descriptor is the TSS address, its limit is the TSS size minus one, and it is a present DPL-0 available 64-bit TSS (type 9) |
| Gdt.SelectorsMatchLayout | kernel/src/gdt.rs:196-259 | each selector's index picks the descriptor of its name (0x08 kernel code, 0x10 kernel data, 0x18 user code, 0x20 user data, 0x28 TSS) and its RPL equals that descriptor's DPL |
| Gdt.SetTss | kernel/src/gdt.rs:220-222 | `set_tss` replaces only the TSS descriptor, whose base becomes the given address |
| Gdt.DescriptorTables.constructor | kernel/src/gdt.rs:208-217 | the static GDT and TSS start as `Gdt::new()` and `TaskStateSegment::new()` |
| Gdt.DescriptorTables.Init | kernel/src/gdt.rs:266-334 | IST1 becomes the top of the 16 KiB double-fault stack, nothing else in the TSS changes, the GDT's TSS descriptor points at the TSS, and the result is Ok |
| Idt.NewDescribesGate | kernel/src/idt.rs:57-68 | an interrupt gate built by `new` dispatches to the handler address, uses the given selector, no IST, is present, has type 0xE, the DPL's low two bits and a zero reserved field |
| Idt.NewWithIstDescribesGate | kernel/src/idt.rs:77-88 | `new_with_ist` is `new` with IST field `ist_index & 7`, which is the index itself when below 8 and no IST when 0 |
| Idt.NullEntryNotPresent | kernel/src/idt.rs:39-49 | the null gate is not present and has handler address 0 |
| Idt.InterruptTable.constructor | kernel/src/idt.rs:100-104 | the IDT starts with 256 null gates |
| Idt.InterruptTable.SetIdtEntry | kernel/src/idt.rs:622-631 | the vector's gate becomes a DPL-0 kernel-code gate for the handler; no other gate changes |
| Idt.InterruptTable.SetIdtEntryWithIst | kernel/src/idt.rs:634-644 | as SetIdtEntry, with the given IST index |
| Idt.InterruptTable.Init | kernel/src/idt.rs:647-659 | vectors 0, 1, 3, 6, 13, 14 and 32 get their handlers' gates, vector 8 the double-fault handler on IST 1, and every other vector is unchanged |
| Idt.InstalledGateDispatches | kernel/src/idt.rs:647-659 | every installed vector's gate is present, type 0xE, DPL 0, in the kernel code segment and dispatches to that vector's handler, with IST 1 exactly for the double fault |
| Idt.DecodeGeneralProtection | kernel/src/idt.rs:530-533 | a #GP error code is decoded exactly when it is non-zero, into a table below 4 and an index below 0x2000 |
| Idt.GeneralProtectionReassembles | kernel/src/idt.rs:531-533 | the external bit, table and index reassemble the low 16 bits of the error code |
| Idt.TableNameFollowsFlags | kernel/src/idt.rs:538-544 | table 0 is the GDT, 2 the LDT, and 1 and 3 the IDT |
| Idt.PageFaultRoundTrip | kernel/src/idt.rs:609-613 | the five #PF flag bits decode and re-encode to the error code's low five bits, and encoding then decoding returns the flags |
| Idt.StackOverflowIsGuardPage | kernel/src/idt.rs:444-450 | the double-fault handler reports a stack overflow exactly when the fault address lies in the page just below the kernel stack |
| Regions.ContainsByEdges | kernel/src/graphics/region.rs:42-54 | for a region whose edges do not overflow, containment is bounded by x, `right()`, y and `bottom()` |
| Regions.EmptyContainsNothing | kernel/src/graphics/region.rs:42-44 | a region of width or height 0 contains no point |
| Regions.WithinContains | kernel/src/graphics/region.rs:42-44 | a point of a region inside another region is in the outer region too |
| KeyedQueue.Insert | kernel/src/sched/scheduler.rs:69-77 | inserting into an ordered run queue keeps it ordered, adds the entry, keeps every entry of another key and replaces an entry of the same key |
| KeyedQueue.InsertKeys | kernel/src/sched/scheduler.rs:69-77 | the keys after an insert are the old keys plus the new one |
| KeyedQueue.HeadIsLeast | kernel/src/sched/scheduler.rs:306 | `pop_first` takes the least key |
| KeyedQueue.InsertIds | kernel/src/sched/scheduler.rs:69-77 | inserting a new key adds exactly its id to the queue's ids |
| KeyedQueue.InsertFreshIds | kernel/src/sched/scheduler.rs:69-77 | inserting an entry whose id is not yet queued adds exactly that id |
| WaitQueues.WaitQueue.constructor | kernel/src/sync/wait_queue.rs:15-19 | a new wait queue is empty |
| WaitQueues.WaitQueue.Wait | kernel/src/sync/wait_queue.rs:24-32 | the current task's id joins the back of the queue and the task is blocked |
| WaitQueues.WaitQueue.WakeOne | kernel/src/sync/wait_queue.rs:38-47 | returns false and changes nothing on an empty queue; otherwise the oldest waiter leaves the queue and is unblocked, and it returns true |
| WaitQueues.WaitQueue.WakeAll | kernel/src/sync/wait_queue.rs:50-58 | every waiter is unblocked, oldest first, and the queue ends empty |
| Acpi.ByteSumIsSumMod256 | kernel/src/acpi.rs:58-69 | the 8-bit wrapping fold over `n` bytes equals the plain sum of those bytes modulo 256 |
| Acpi.RsdpSignatureBytes | kernel/src/acpi.rs:126-128 | `is_valid_signature` holds iff the eight signature bytes are those of "RSD PTR " |
| Acpi.RsdpChecksumMeaning | kernel/src/acpi.rs:131-141 | the RSDP checksum passes iff its 20 bytes sum to a multiple of 256 |
| Acpi.EntriesShape | kernel/src/acpi.rs:323-381 | the MADT walk visits offsets in `[start, end)`, each the previous one plus that entry's length |
| Acpi.CountsBounded | kernel/src/acpi.rs:339-377 | the CPU count plus the I/O APIC count never exceeds the number of entries visited |
| Acpi.CountEntry | kernel/src/acpi.rs:339-377 | a type-0 entry with flags bit 0 set adds one CPU, a type-1 entry adds one I/O APIC, anything else adds nothing |
| Acpi.WalkMadt | kernel/src/acpi.rs:327-381 | the loop's counts are the enabled local APICs and the I/O APICs among exactly the entries the walk visits |
| Acpi.ParseMadt | kernel/src/acpi.rs:298-384 | address 0 gives nothing, a failed checksum a rejection, otherwise the local APIC address, flags and entry counts of the walk from offset 44 to `length` |
| Acpi.EntriesInsideTable | kernel/src/acpi.rs:220-239 | every table address read after the header lies within the root table's `length` bytes |
| Acpi.ParseRootTable | kernel/src/acpi.rs:200-296 | a root table at 0, with a wrong signature or a failed checksum is rejected; otherwise its `(length-36)/width` addresses are read in order and each "APIC" table is parsed as a MADT |
| Acpi.Init | kernel/src/acpi.rs:153-197 | no RSDP, a bad signature and a bad checksum each stop `init` (in that order); otherwise revision 2 or later follows the XSDT and earlier ones the RSDT |
| WriterBuffers.WriterBuffer.constructor | kernel/src/graphics/buffer.rs:52-58 | a new buffer holds its region, no commands and is clean |
| WriterBuffers.WriterBuffer.PushCommand | kernel/src/graphics/buffer.rs:65-68 | the command is appended and the buffer becomes dirty |
| WriterBuffers.WriterBuffer.ExtendCommands | kernel/src/graphics/buffer.rs:74-80 | the commands are appended in order, and the buffer becomes dirty exactly when at least one was added (otherwise the flag is unchanged) |
| WriterBuffers.WriterBuffer.ClearCommands | kernel/src/graphics/buffer.rs:95-98 | the commands are dropped and the buffer is clean |
| Framebuffer.PaintRow | kernel/src/graphics/mod.rs:157-161 | after one row of a drawing loop, a pixel holds the ink exactly when an accepted cell of the row points at it, and keeps its value otherwise |
| Framebuffer.PaintGrid | kernel/src/graphics/mod.rs:153-163 | after the rows of a drawing loop, a pixel holds the ink exactly when an accepted cell of those rows points at it, and keeps its value otherwise |
| Framebuffer.GridHitsIff | kernel/src/graphics/mod.rs:153-163 | a pixel is painted by the loops exactly when some accepted cell (row, column) of the rectangle has that pixel's offset |
| Framebuffer.PaintInto | kernel/src/graphics/mod.rs:153-163 | the nested loops over the framebuffer array leave exactly the pixels PaintGrid describes |
| DrawCommands.DirtyOf | kernel/src/graphics/compositor.rs:126-182 | the rectangle marked for a command (the whole region for Clear, 8 x 8 for a character, 8 pixels per byte for a string, the given size for FillRect, all moved by the region's corner) has edges that do not overflow |
| DrawCommands.RectAt | kernel/src/graphics/mod.rs:128-164 | `draw_rect` changes only pixels inside its rectangle |
| DrawCommands.CharAt | kernel/src/graphics/mod.rs:42-106 | `draw_char` changes only pixels inside the 8 x 8 cell at the given corner |
| DrawCommands.StringAt | kernel/src/graphics/mod.rs:108-126 | `draw_string` changes only pixels inside the rectangle 8 pixels per byte wide and 8 high |
| DrawCommands.Apply | kernel/src/graphics/compositor.rs:111-184 | every pixel a command changes in the shadow buffer lies in the rectangle `render_commands_to` marks dirty for it |
| DrawCommands.Dirties | kernel/src/graphics/compositor.rs:111-185 | marking each command's rectangle in turn keeps the dirty rectangle inside the screen |
| SchedContext.InitialRsp | kernel/src/sched/context.rs:111-113 | the final stack pointer is non-zero, 16-byte aligned, and leaves a 512-byte FXSAVE area below the 64-byte register frame with less than 16 bytes of slack |
| SchedContext.ContextInit | kernel/src/sched/context.rs:35-128 | creation fails exactly when the stack top is below 1024 or the entry point is 0; a zero stack top is InvalidStackAddress, then a zero entry point is ContextInitFailed, then a small stack is InvalidStackAddress; on success the stack pointer is aligned and below the frame and FXSAVE area |
| SchedContext.Empty | kernel/src/sched/context.rs:131-133 | the empty context has stack pointer 0, which no successful creation returns |
| SchedContext.PushFrame | kernel/src/sched/context.rs:56-107 | the eight words below the stack top are the entry point, six zero registers and RFLAGS 0x202, and no other word changes |
| SchedContext.ZeroFxsave | kernel/src/sched/context.rs:121-122 | every word of the 512-byte FXSAVE area is 0 and no other word changes |
| SchedContext.NewContext | kernel/src/sched/context.rs:35-128 | the result is ContextInit's; on failure memory is unchanged; on success memory holds the register frame, a zeroed FXSAVE area whose last word is the stack pointer before the area, and nothing else changed |
| ShadowBuffers.Clip | kernel/src/graphics/shadow_buffer.rs:79-89 | a region that survives clipping is non-empty and lies within the screen |
| ShadowBuffers.ClipIsIntersection | kernel/src/graphics/shadow_buffer.rs:79-89 | the clipped region contains exactly the region's points that lie on the screen, and a region is dropped only when it has no such point |
| ShadowBuffers.MergeIsBoundingBox | kernel/src/graphics/shadow_buffer.rs:94-98 | the merged rectangle contains both rectangles and lies within any rectangle that contains both |
| ShadowBuffers.MarkDirtyInBounds | kernel/src/graphics/shadow_buffer.rs:77-102 | marking keeps the dirty rectangle inside the screen |
| ShadowBuffers.MarkDirtyGrows | kernel/src/graphics/shadow_buffer.rs:91-101 | an existing dirty rectangle is never lost or shrunk by marking |
| ShadowBuffers.RectFits | kernel/src/graphics/shadow_buffer.rs:142-152 | every pixel the blit loop copies for a rectangle inside the screen lies inside the buffer, since the dirty rectangle was clipped |
| ShadowBuffers.BlitCopiesDirtyRect | kernel/src/graphics/shadow_buffer.rs:131-153 | `blit_to` copies exactly the dirty rectangle's pixels, each to the same offset, leaves every other destination pixel as it was, and copies nothing when there is no dirty rectangle |
| ShadowBuffers.ShadowBuffer.constructor | kernel/src/graphics/shadow_buffer.rs:32-43 | a new shadow buffer holds `width * height` black pixels and no dirty rectangle |
| ShadowBuffers.ShadowBuffer.MarkDirtyRegion | kernel/src/graphics/shadow_buffer.rs:77-102 | the dirty rectangle becomes MarkDirty of the old one; pixels and size are unchanged |
| ShadowBuffers.ShadowBuffer.TakeDirtyRect | kernel/src/graphics/shadow_buffer.rs:109-111 | returns the dirty rectangle and leaves none |
| ShadowBuffers.ShadowBuffer.MarkAllDirty | kernel/src/graphics/shadow_buffer.rs:117-119 | the whole screen becomes dirty |
| ShadowBuffers.ShadowBuffer.Clear | kernel/src/graphics/shadow_buffer.rs:65-68 | every pixel gets the colour and the whole screen becomes dirty |
| ShadowBuffers.ShadowBuffer.BlitTo | kernel/src/graphics/shadow_buffer.rs:131-153 | the destination becomes Blit of its old contents with the old dirty rectangle, the dirty rectangle is cleared, and the shadow pixels are unchanged |
| Compositors.ClipCovers | kernel/src/graphics/shadow_buffer.rs:79-89 | a screen pixel inside a region is inside that region's clipped rectangle |
| Compositors.MarkDirtyCovers | kernel/src/graphics/shadow_buffer.rs:77-102 | after marking, the dirty rectangle still covers every pixel the old one covered and every pixel of the clipped new region |
| Compositors.CommandCovers | kernel/src/graphics/compositor.rs:111-184 | every pixel a command changes is covered by the clipped rectangle it marks |
| Compositors.RenderCovers | kernel/src/graphics/compositor.rs:107-186 | after `render_commands_to`, the dirty rectangle covers every pixel the commands changed and every pixel it covered before |
| Compositors.JobsCover | kernel/src/graphics/compositor.rs:351-361 | the same holds across all the buffers rendered in a frame |
| Compositors.BlitSyncs | kernel/src/graphics/compositor.rs:363-365 | if the hardware framebuffer agreed with the shadow buffer outside the dirty rectangle, then after the blit they agree everywhere |
| Compositors.FrameSyncs | kernel/src/graphics/compositor.rs:349-365 | one frame keeps the hardware framebuffer in step: after replaying the frame's commands and blitting, it equals the shadow buffer on every pixel |
| Compositors.RenderCommand | kernel/src/graphics/compositor.rs:112-184 | one command draws its pixels (Apply) and marks its rectangle (MarkDirty of DirtyOf) in the shadow buffer |
| Compositors.RenderCommandsTo | kernel/src/graphics/compositor.rs:107-186 | the loop leaves the shadow pixels Render and the dirty rectangle Dirties of the commands, oldest first |
| Compositors.FrameJobsAre | kernel/src/graphics/compositor.rs:351-361 | a frame renders exactly one job per buffer whose lock it took and that was dirty, with that buffer's region and commands |
| Compositors.AfterFrameValid | kernel/src/graphics/buffer.rs:65-98 | after a frame every buffer is still dirty exactly when it holds commands |
| Compositors.SecondFrameIdle | kernel/src/graphics/compositor.rs:352-358 | with the same locks taken, a second frame renders nothing, because every buffer the first rendered was cleared |
| Compositors.ProcessBuffer | kernel/src/graphics/compositor.rs:352-360 | a buffer whose lock was taken and that is dirty is rendered, then emptied and cleaned; any other buffer is left alone; no other buffer changes |
| Compositors.RenderBuffers | kernel/src/graphics/compositor.rs:351-361 | the loop over the snapshot replays the frame's jobs into the shadow buffer and leaves every buffer as AfterFrame says |
| Compositors.CompositeFrame | kernel/src/graphics/compositor.rs:349-365 | after rendering and blitting, the shadow buffer holds the replay of the frame's jobs, has no dirty rectangle, the hardware framebuffer equals it, and the buffers are as AfterFrame says |
| Compositors.Compositor.constructor | kernel/src/graphics/compositor.rs:53-58 | a new compositor holds its configuration and no buffers |
| Compositors.Compositor.RegisterWriter | kernel/src/graphics/compositor.rs:70-81 | a fresh empty, clean buffer for the region is appended to the list and returned |
| Compositors.Compositor.Snapshot | kernel/src/graphics/compositor.rs:88-90 | the snapshot is the current list of buffers |
| Compositors.FrameCounter.constructor | kernel/src/graphics/compositor.rs:10 | the frame count starts at 0 |
| Compositors.FrameCounter.Increment | kernel/src/graphics/compositor.rs:367 | the frame count goes up by one, wrapping as a `u64` |
| Compositors.CompositorGlobals.constructor | kernel/src/graphics/compositor.rs:10-16 | before `init_compositor` there is no compositor, the screen size is 0 x 0 and the frame count is 0 |
| Compositors.CompositorGlobals.InitCompositor | kernel/src/graphics/compositor.rs:199-206 | the screen size is recorded and a fresh compositor with the configuration and no buffers is installed |
| Compositors.CompositorGlobals.RegisterWriter | kernel/src/graphics/compositor.rs:237-264 | None exactly when there is no compositor; otherwise a fresh empty buffer for the region is appended and returned |
| Compositors.CompositorGlobals.Frame | kernel/src/graphics/compositor.rs:314-365 | with no compositor nothing changes; otherwise the frame's jobs are replayed, the hardware framebuffer equals the shadow buffer and every rendered buffer is emptied |
| TaskWriters.DrawAtInRegion | kernel/src/graphics/writer.rs:82-92 | the cell a character is drawn in starts at the left edge or ends by the region's right edge, and starts at the top or ends by the bottom |
| TaskWriters.EmittedShape | kernel/src/graphics/writer.rs:76-103 | a newline pushes no command; any other byte pushes one DrawChar at the cell before the new cursor, preceded by Clear(0) exactly when the cursor went back to the top |
| TaskWriters.TypesetDefinedAppend | kernel/src/graphics/writer.rs:71-106 | a run of bytes can be typeset exactly when its first part can and the rest can from where the first part leaves the cursor |
| TaskWriters.FinalCursorAppend | kernel/src/graphics/writer.rs:71-106 | the cursor after two runs of bytes is the cursor after the second run, started where the first left it |
| TaskWriters.TypesetAppend | kernel/src/graphics/writer.rs:71-106 | the commands for two runs of bytes are the first run's followed by the second's from the intermediate cursor, so writing a string in pieces pushes the same commands |
| TaskWriters.OneDrawCharPerByte | kernel/src/graphics/writer.rs:71-106 | writing pushes exactly one DrawChar per byte that is not a newline |
| TaskWriters.TypesetInRegion | kernel/src/graphics/writer.rs:71-106 | every command pushed is a character cell inside the region or a Clear to colour 0 |
| TaskWriters.TaskWriter.constructor | kernel/src/graphics/writer.rs:25-31 | a new writer uses the buffer and colour and starts at (0, 0) |
| TaskWriters.TaskWriter.SetPosition | kernel/src/graphics/writer.rs:39-42 | the cursor moves to (x, y) and the colour is kept |
| TaskWriters.TaskWriter.SetColor | kernel/src/graphics/writer.rs:48-50 | the colour changes and the cursor is kept |
| TaskWriters.TaskWriter.Clear | kernel/src/graphics/writer.rs:56-61 | a Clear with the background colour is pushed and the cursor returns to (0, 0) |
| TaskWriters.TaskWriter.PutByte | kernel/src/graphics/writer.rs:76-103 | one byte pushes the commands Emitted describes and moves the cursor to NextCursor |
| TaskWriters.TaskWriter.WriteStr | kernel/src/graphics/writer.rs:71-106 | writing a string pushes exactly Typeset of its bytes and leaves the cursor at FinalCursor |
| EarlyGraphics.CharFitsGrid | src/graphics/mod.rs:17-24 | every offset the glyph loops store to lies inside the framebuffer when the cell does |
| EarlyGraphics.GlyphPixelIsHit | src/graphics/mod.rs:17-24 | each set glyph bit (row, col) stores the colour at `(y + row) * width + x + col` |
| EarlyGraphics.HitIsGlyphPixel | src/graphics/mod.rs:17-24 | the loops store to no offset other than those of set glyph bits |
| EarlyGraphics.DrawCharPixels | src/graphics/mod.rs:6-26 | a byte outside 32..126 changes nothing; otherwise a pixel gets the colour exactly when a set glyph bit lands on it, and keeps its value otherwise |
| EarlyGraphics.DrawCharInto | src/graphics/mod.rs:6-26 | the loops over the framebuffer array leave exactly the pixels DrawChar describes |
| EarlyGraphics.DrawStringSplit | src/graphics/mod.rs:29-35 | drawing a string in two parts, the second 8 pixels per byte further right, is drawing it whole |
| EarlyGraphics.DrawStringInto | src/graphics/mod.rs:29-35 | the loop leaves the framebuffer as DrawString says: each byte drawn at `x + 8 * i` |
| CommonGraphics.DrawChar | common/src/graphics/mod.rs:10-40 | the framebuffer keeps its length; its pixels are given by `DrawCharPixels` |
| CommonGraphics.CharPixelIsHit | common/src/graphics/mod.rs:20-35 | every set glyph bit left of the right edge is a pixel the glyph loops store to |
| CommonGraphics.HitIsCharPixel | common/src/graphics/mod.rs:20-35 | every pixel the glyph loops store to is a set glyph bit left of the right edge |
| CommonGraphics.DrawCharPixels | common/src/graphics/mod.rs:10-40 | a byte outside 32..=126 changes nothing; otherwise pixel `p` takes the color exactly when it is a set bit of the glyph whose column is left of `width`, and keeps its old value otherwise |
| CommonGraphics.DrawCharInto | common/src/graphics/mod.rs:10-40 | the nested row/column loops leave the framebuffer equal to `DrawChar` of the old one |
| CommonGraphics.DrawString | common/src/graphics/mod.rs:47-60 | drawing a string keeps the framebuffer's length |
| CommonGraphics.StringFitsAppend | common/src/graphics/mod.rs:47-60 | if both halves of a string fit where they are drawn, so does the whole string |
| CommonGraphics.DrawStringSplit | common/src/graphics/mod.rs:47-60 | drawing `a + b` at `x` is drawing `a` at `x`, then `b` at `x + 8 * |a|`: byte `i` lands at `x + 8 * i` |
| CommonGraphics.DrawStringCons | common/src/graphics/mod.rs:49-58 | a string is its first character at `x` followed by the rest at `x + 8` |
| CommonGraphics.DrawStringInto | common/src/graphics/mod.rs:47-60 | the per-byte loop, stopping when `cur_x + 8` overflows, leaves the framebuffer equal to `DrawString` of the old one |
| CommonGraphics.DrawRect | common/src/graphics/mod.rs:67-95 | filling a rectangle keeps the framebuffer's length |
| CommonGraphics.DrawRectPixels | common/src/graphics/mod.rs:67-95 | pixel `p` takes the color exactly when it is column `x + dx` of row `y + dy` with `dx < w`, `dy < h` and `x + dx < width`; every other pixel keeps its value |
| CommonGraphics.DrawRectInto | common/src/graphics/mod.rs:67-95 | the nested loops leave the framebuffer equal to `DrawRect` of the old one |
| CommonGraphics.DrawRectOutline | common/src/graphics/mod.rs:102-176 | drawing an outline keeps the framebuffer's length |
| CommonGraphics.TopBottomHits | common/src/graphics/mod.rs:118-145 | the first loop stores exactly to the top and bottom rows' pixels `x ..< x + w` left of the edge (both directions) |
| CommonGraphics.LeftRightHits | common/src/graphics/mod.rs:147-175 | the second loop stores exactly to the left and right columns' pixels of rows `y ..< y + h` left of the edge (both directions) |
| CommonGraphics.DrawRectOutlinePixels | common/src/graphics/mod.rs:102-176 | a zero width or height changes nothing; otherwise exactly the border pixels left of the edge take the color and every other pixel keeps its value |
| CommonGraphics.DrawRectOutlineInto | common/src/graphics/mod.rs:102-176 | the two loops leave the framebuffer equal to `DrawRectOutline` of the old one |
| CommonGraphics.PenAt | common/src/graphics/mod.rs:255-257 | a character is drawn at the left edge or ends by the right edge, on the current line or the next (10 pixels down) |
| CommonGraphics.PlacementsShape | common/src/graphics/mod.rs:249-266 | `write_str` draws each non-newline byte exactly once, in order, and never a newline, and every character starts at the left edge or ends by the right edge |
| CommonGraphics.PlacementsBelow | common/src/graphics/mod.rs:249-266 | the cursor never moves up: every character and the final cursor are at or below the starting line |
| CommonGraphics.DrawPlacements | common/src/graphics/mod.rs:259-261 | drawing the placed characters in turn keeps the framebuffer's length |
| CommonGraphics.FramebufferWriter.constructor | common/src/graphics/mod.rs:202-211 | a new writer holds the framebuffer, its size and the color, with the cursor at the top-left corner |
| CommonGraphics.FramebufferWriter.SetPosition | common/src/graphics/mod.rs:214-217 | moves the cursor and keeps the color |
| CommonGraphics.FramebufferWriter.SetColor | common/src/graphics/mod.rs:220-222 | changes the color and keeps the cursor |
| CommonGraphics.FramebufferWriter.ClearArea | common/src/graphics/mod.rs:225-239 | fills `width_chars * 8` by 10 pixels at the cursor with the background color, as `DrawRect` |
| CommonGraphics.FramebufferWriter.PutByte | common/src/graphics/mod.rs:250-263 | a newline moves the cursor to the next line and draws nothing; any other byte is drawn at `PenAt` of the cursor and the cursor moves to `PenNext` |
| CommonGraphics.FramebufferWriter.WriteStr | common/src/graphics/mod.rs:249-266 | the framebuffer becomes the old one with the characters drawn where `Placements` puts them, and the cursor ends where `Placements` leaves it |
| KernelGraphics.FillNothing | kernel/src/graphics/mod.rs:21-35 | a fill of zero pixels leaves the buffer unchanged |
| KernelGraphics.FastFill | kernel/src/graphics/mod.rs:21-35 | `fast_fill_u32` sets exactly the `count` pixels from `start` to the value and leaves the rest |
| KernelGraphics.VisibleCols | kernel/src/graphics/mod.rs:71-97 | the columns drawn are `min(stride - x, 8)` and end by the right edge, on the fast path as on the clipping one |
| KernelGraphics.CharFitsGrid | kernel/src/graphics/mod.rs:62-97 | when the last row's visible columns end inside the framebuffer, every cell the loops may store to does |
| KernelGraphics.DrawChar | kernel/src/graphics/mod.rs:42-101 | drawing a character keeps the framebuffer's length |
| KernelGraphics.DrawCharPixels | kernel/src/graphics/mod.rs:42-101 | a byte without a glyph, an overflow of `x + 8` or `y + 8`, or `x >= stride` changes nothing; otherwise exactly the glyph's set pixels left of the edge take the color |
| KernelGraphics.DrawCharInto | kernel/src/graphics/mod.rs:42-101 | the early returns, then the fast or the clipping loops, leave the framebuffer equal to `DrawChar` of the old one |
| KernelGraphics.DrawString | kernel/src/graphics/mod.rs:108-121 | drawing a string keeps the framebuffer's length |
| KernelGraphics.StringFitsAppend | kernel/src/graphics/mod.rs:108-121 | if both halves of a string fit where they are drawn, so does the whole string |
| KernelGraphics.DrawStringSplit | kernel/src/graphics/mod.rs:108-121 | drawing `a + b` at `x` is drawing `a` at `x`, then `b` at `x + 8 * |a|` |
| KernelGraphics.DrawStringCons | kernel/src/graphics/mod.rs:110-120 | a string is its first character at `x` followed by the rest at `x + 8` |
| KernelGraphics.DrawStringInto | kernel/src/graphics/mod.rs:108-121 | the per-byte loop, stopping when `cur_x + 8` overflows, leaves the framebuffer equal to `DrawString` of the old one |
| KernelGraphics.ClipEnd | kernel/src/graphics/mod.rs:128-164 | the clipped end column is at most `stride`, and is `min(x + w, stride)` when the sum cannot saturate |
| KernelGraphics.RectRows | kernel/src/graphics/mod.rs:155-163 | filling the first rows keeps the framebuffer's length |
| KernelGraphics.RectRowsPixels | kernel/src/graphics/mod.rs:155-163 | after `m` rows, a pixel holds the color exactly when it is one of the first `cw` pixels of one of those rows |
| KernelGraphics.DrawRect | kernel/src/graphics/mod.rs:128-164 | filling a rectangle keeps the framebuffer's length |
| KernelGraphics.DrawRectPixels | kernel/src/graphics/mod.rs:128-164 | an empty size changes nothing; otherwise pixel `p` takes the color exactly when it is pixel `dx < w` of row `dy < h` with `x + dx < stride` |
| KernelGraphics.DrawRectInto | kernel/src/graphics/mod.rs:128-164 | clipping, then one `fast_fill_u32` per row, leaves the framebuffer equal to `DrawRect` of the old one |
| KernelGraphics.DrawRectOutlineInto | kernel/src/graphics/mod.rs:172-246 | the kernel's outline drawing leaves the framebuffer equal to the shared crate's `DrawRectOutline` |
| KernelGraphics.CharFootprint | kernel/src/graphics/mod.rs:42-101 | a pixel `draw_char` changes lies in the 8x8 cell at `(x, y)` |
| KernelGraphics.StringFootprint | kernel/src/graphics/mod.rs:108-121 | a pixel `draw_string` changes lies in the `8 * len` by 8 box at `(x, y)` |
| KernelGraphics.RectFootprint | kernel/src/graphics/mod.rs:128-164 | a pixel `draw_rect` changes lies in the `w` by `h` box at `(x, y)` |
| KernelGraphics.CharChangesWithin | kernel/src/graphics/mod.rs:42-101 | `draw_char` changes nothing outside its 8x8 cell |
| KernelGraphics.StringChangesWithin | kernel/src/graphics/mod.rs:108-121 | `draw_string` changes nothing outside its `8 * len` by 8 box |
| KernelGraphics.RectChangesWithin | kernel/src/graphics/mod.rs:128-164 | `draw_rect` changes nothing outside its `w` by `h` box |
| KernelGraphics.DrawPlacements | kernel/src/graphics/mod.rs:350-352 | drawing the placed characters in turn keeps the framebuffer's length |
| KernelGraphics.FramebufferWriter.constructor | kernel/src/graphics/mod.rs:272-282 | a new writer holds the framebuffer, its size and the color, with the cursor at the top-left corner |
| KernelGraphics.FramebufferWriter.SetPosition | kernel/src/graphics/mod.rs:285-288 | moves the cursor and keeps the color |
| KernelGraphics.FramebufferWriter.SetColor | kernel/src/graphics/mod.rs:292-294 | changes the color and keeps the cursor |
| KernelGraphics.FramebufferWriter.ClearArea | kernel/src/graphics/mod.rs:298-312 | fills `width_chars * 8` by 10 pixels at the cursor with the background color, as the kernel's `DrawRect` |
| KernelGraphics.FramebufferWriter.Newline | kernel/src/graphics/mod.rs:315-318 | the cursor goes to the left edge one 10-pixel line down |
| KernelGraphics.FramebufferWriter.ClearScreen | kernel/src/graphics/mod.rs:324-336 | exactly the first `width * height` pixels take the color and the cursor goes back to the corner |
| KernelGraphics.FramebufferWriter.PutByte | kernel/src/graphics/mod.rs:341-354 | a newline moves the cursor to the next line and draws nothing; any other byte is drawn at `PenAt` of the cursor and the cursor moves to `PenNext` |
| KernelGraphics.FramebufferWriter.WriteStr | kernel/src/graphics/mod.rs:340-357 | the framebuffer becomes the old one with the characters drawn by the kernel's `draw_char` where `Placements` puts them, and the cursor ends where `Placements` leaves it |
| Allocator.SizeClassesShape | src/allocator.rs:9-10 | the ten classes are powers of two from 8 to 4096, each twice the one before |
| Allocator.SizeClassesAscending | src/allocator.rs:9 | the class sizes strictly increase with the index |
| Allocator.FirstClassFrom | src/allocator.rs:150-152 | the search from index `from` returns the first class of at least `size` bytes, and none iff every class from there is smaller |
| Allocator.SizeToClassIsSmallestFit | src/allocator.rs:150-152 | `size_to_class` is None iff `size > 4096`; otherwise it is the smallest class that holds `size` bytes |
| Allocator.SizeToClassIsTight | src/allocator.rs:150-152 | for `8 < size <= 4096` the chosen class is less than twice `size`, so a block wastes under half of itself |
| Allocator.Push | src/allocator.rs:50-59 | giving back a non-null block adds one list entry; a null pointer empties the list (`NonNull::new` gives None) |
| Allocator.PushThenPop | src/allocator.rs:33-59 | LIFO: after `deallocate(p)` with `p != 0`, `allocate` returns `p` and leaves the list as before |
| Allocator.HeadNullIffEmpty | src/allocator.rs:33-48 | on a list without null entries, `allocate` returns null exactly when the list is empty |
| Allocator.PushKeepsNonNull | src/allocator.rs:50-59 | giving back a non-null block keeps the list free of null entries |
| Allocator.SlabBlocks | src/allocator.rs:62-71 | the slab contributes exactly `n` blocks |
| Allocator.PushBlocksPrepends | src/allocator.rs:62-71 | `add_slab` away from address 0 puts the slab's blocks, last first, in front of the old list |
| Allocator.SlabBlocksAt | src/allocator.rs:62-71 | list position `j` holds block `n-1-j`, at `start + (n-1-j)*size` |
| Allocator.SlabBlocksDisjoint | src/allocator.rs:62-71 | a slab's blocks do not overlap and all lie in `[start, start + n*size)` |
| Allocator.SlabCache.constructor | src/allocator.rs:25-30 | a new cache has the given block size and an empty free list |
| Allocator.SlabCache.Allocate | src/allocator.rs:33-48 | pops the head of the free list, returning null iff the list was empty |
| Allocator.SlabCache.Deallocate | src/allocator.rs:50-59 | pushes the block onto the head of the free list |
| Allocator.SlabCache.AddSlab | src/allocator.rs:62-71 | pushes `slab_size / block_size` blocks `slab_start + i*block_size`, in order of `i` |
| Allocator.SlabBytes | src/allocator.rs:124-127 | class `i`'s slab is a multiple of its block size within one block below a tenth of half the heap |
| Allocator.SlabStartBound | src/allocator.rs:121-132 | slab `i` starts no earlier than the heap and no later than `i` tenths of the first half |
| Allocator.InitLayout | src/allocator.rs:118-132 | each slab is a whole number of blocks, starts where the previous one ends, and all slabs fit in the first half of the heap |
| Allocator.InitListIsSlab | src/allocator.rs:118-132 | `init` puts exactly class `i`'s slab blocks in front of its list, each whole block inside that slab |
| Allocator.BumpBlockFits | src/allocator.rs:155-175 | a successful bump allocation is aligned, starts at or after `next` and ends at or before `end` |
| Allocator.SlabAllocator.constructor | src/allocator.rs:87-106 | ten empty caches with the class sizes and an empty bump region |
| Allocator.SlabAllocator.AddSlabTo | src/allocator.rs:128-130 | only class `i`'s list changes, by `add_slab` |
| Allocator.SlabAllocator.TakeFrom | src/allocator.rs:220-221 | only class `c`'s list changes, by `allocate` |
| Allocator.SlabAllocator.GiveTo | src/allocator.rs:236-238 | only class `c`'s list changes, by `deallocate` |
| Allocator.SlabAllocator.Init | src/allocator.rs:109-147 | every class list gains its slab's blocks; the bump region is `[start + size/2, start + size)` with nothing used |
| Allocator.SlabAllocator.SetLargeRegion | src/allocator.rs:136-145 | the bump region becomes `[start, end)` with its cursor at `start` |
| Allocator.SlabAllocator.AllocateLarge | src/allocator.rs:155-175 | returns `align_up(next)` and moves `next` to the saturated end when that end fits, else returns null and changes nothing; `next` never decreases |
| Allocator.SlabAllocator.Alloc | src/allocator.rs:216-229 | the class of `max(size, align)` serves the request when its list is non-empty; otherwise the bump region does and no list changes |
| Allocator.SlabAllocator.Dealloc | src/allocator.rs:231-243 | a block of a class size goes onto that class's list only; larger blocks change nothing |
| Allocator.SlabAllocator.CountFreeBlocks | src/allocator.rs:180-197 | the length of class `classIdx`'s list, or 0 for an index past the last class |
| Allocator.SlabAllocator.LargeAllocUsage | src/allocator.rs:200-212 | used is `next - start` and total `end - start`, with used at most total |
| KernelTimer.Cmp | kernel/src/timer.rs:61-66 | timers compare by expiry in reverse: `Greater` exactly when the first expires earlier, `Less` exactly when it expires later, `Equal` exactly on the same expiry |
| KernelTimer.OrdDisagreesWithEq | kernel/src/timer.rs:61-80 | two timers with one expiry and different ids compare `Equal` under `Ord` yet are not equal under `PartialEq` |
| KernelTimer.PeekIsEarliest | kernel/src/timer.rs:163-165 | the timer at the top of an ordered heap is not less than any other under `Ord`, so `peek` and `pop` take an earliest timer |
| KernelTimer.OrderedTail | kernel/src/timer.rs:165 | popping the top of an ordered heap leaves an ordered heap |
| KernelTimer.OrderedHeadFirst | kernel/src/timer.rs:163-165 | every timer of an ordered heap expires no earlier than the top |
| KernelTimer.OrderedCons | kernel/src/timer.rs:139 | a timer expiring no later than every timer of an ordered heap can head it |
| KernelTimer.HeapPush | kernel/src/timer.rs:139 | `push` keeps the heap ordered and adds exactly the one timer to its contents |
| KernelTimer.SplitExpired | kernel/src/timer.rs:163-173 | the timers moved are a prefix of the heap, all expired at `now`, and the rest is empty or starts with a timer that has not expired |
| KernelTimer.SplitExpiredLater | kernel/src/timer.rs:163-173 | on an ordered heap, no timer left behind has expired and what is left stays ordered |
| KernelTimer.OrderedSuffix | kernel/src/timer.rs:163-173 | any suffix of an ordered heap is ordered |
| KernelTimer.SplitExpiredAt | kernel/src/timer.rs:163-173 | any split into an expired prefix and a rest starting after `now` is the one `check_timers` makes |
| KernelTimer.Callbacks | kernel/src/timer.rs:269-275 | at most one callback per timer; when every timer holds one, exactly the timers' callbacks in FIFO order |
| KernelTimer.MsToTicks | kernel/src/timer.rs:289-292 | the ticks are `ms * frequency / 1000` rounded down: `ticks * 1000 <= ms * frequency < (ticks + 1) * 1000` |
| KernelTimer.SecondsToTicks | kernel/src/timer.rs:298-301 | `seconds_to_ticks` agrees with `ms_to_ticks` of `seconds * 1000` whenever that product fits in `u64` |
| KernelTimer.PopExpired | kernel/src/timer.rs:163-173 | the peek/pop loop moves out exactly `SplitExpired`'s prefix and leaves its rest, still ordered |
| KernelTimer.TimerSystem.constructor | kernel/src/timer.rs:16-28 | tick count 0, next timer id 1, frequency 0, both queues empty, both flags clear |
| KernelTimer.TimerSystem.Init | kernel/src/timer.rs:96-98 | sets the frequency and changes nothing else |
| KernelTimer.TimerSystem.IncrementTick | kernel/src/timer.rs:109-111 | the tick count goes up by one and the new count is returned; nothing else changes |
| KernelTimer.TimerSystem.RegisterTimer | kernel/src/timer.rs:121-150 | returns the counter's id, advances the counter with wrap-around, and pushes one timer expiring at `current_tick + delay` with the callback; nothing else changes |
| KernelTimer.TimerSystem.CheckTimers | kernel/src/timer.rs:156-179 | the expired timers move, earliest first, to the back of the pending FIFO, the rest stay in the heap, and the softirq is raised exactly when one moved |
| KernelTimer.TimerSystem.RaiseSoftirq | kernel/src/timer.rs:186-188 | sets the pending flag and changes nothing else |
| KernelTimer.TimerSystem.ProcessPendingTimers | kernel/src/timer.rs:237-282 | empties the pending FIFO, running each timer's callback once in FIFO order |
| KernelTimer.TimerSystem.DoSoftirq | kernel/src/timer.rs:215-232 | does nothing when a softirq is already running; otherwise runs the pending callbacks if the flag was set, and leaves both flags clear |
| LegacyTask.PriorityToClass | kernel/src/task.rs:99-107 | priority 0 is exactly Idle, priorities from 100 up are exactly Realtime, and 1..99 are exactly Normal |
| LegacyTask.WeightIndex | kernel/src/task.rs:165 | the table index `39 - min(priority * 40 / 256, 39)` is within the 40-entry table |
| LegacyTask.PriorityToWeight | kernel/src/task.rs:153-168 | every priority maps to a weight between 15 and 88761 |
| LegacyTask.PriorityToWeightValues | kernel/src/task.rs:141-168 | priority 0 weighs 15, priority 255 weighs 88761, and the default priority 10 weighs 18, not the 1024 the doc comment promises |
| LegacyTask.PriorityToWeightMonotone | kernel/src/task.rs:153-168 | a higher priority never gets a smaller weight |
| LegacyTask.NewTask | kernel/src/task.rs:372-409 | priority 0 is refused with InvalidPriority; otherwise it fails exactly when the context cannot be built, with that error, and a new task is Ready with vruntime 0, not Idle, with the class and weight its priority gives |
| LegacyTask.NewIdle | kernel/src/task.rs:414-439 | it fails exactly when the context cannot be built; an idle task has priority 0, class Idle, weight 15, vruntime 0 and state Ready |
| LegacyTask.UpdateVruntime | kernel/src/task.rs:474-486 | only the vruntime changes; weight 0 leaves the task alone; otherwise the new vruntime `u` is the one with `u * weight <= vruntime * weight + delta * 1024 < (u + 1) * weight` (a charge of `delta * 1024 / weight`, rounded down) while that fits in `u64`, and `u64::MAX` once it does not |
| LegacyTask.HeavierAdvancesLess | kernel/src/task.rs:474-486 | over the same runtime, a heavier task's vruntime advances no further than a lighter one's from the same start |
| LegacyTask.RtKey | kernel/src/task.rs:567-568 | the realtime key carries the task's id and a major part within 0..255 |
| LegacyTask.CfsKey | kernel/src/task.rs:572-573 | the CFS key is the task's vruntime and id |
| LegacyTask.RtHeadIsHighest | kernel/src/task.rs:854-856 | the head of the realtime queue has a strictly higher priority than any other queued task, or the same priority and a lower id |
| LegacyTask.Initial | kernel/src/task.rs:510-543 | the queues start consistent, with no current task and no blocked task |
| LegacyTask.Enqueue | kernel/src/task.rs:559-581 | the task joins exactly its class's queue (under its key, or at the back of the idle FIFO), the queues stay sorted, every entry already queued under another key stays, and nothing else changes |
| LegacyTask.EnqueueKeepsConsistent | kernel/src/task.rs:559-581 | enqueueing a task keeps the scheduler state consistent |
| LegacyTask.PickNext | kernel/src/task.rs:854-866 | nothing is taken exactly when all three queues are empty, and then nothing changes; otherwise only the queues change |
| LegacyTask.PickNextKeepsConsistent | kernel/src/task.rs:854-866 | taking the next task keeps the queues consistent, and the task taken fits its fields |
| LegacyTask.PickNextIsBest | kernel/src/task.rs:854-866 | Realtime before Normal before Idle; within Realtime the highest priority, then the lowest id; within CFS the lowest vruntime, then the lowest id; within Idle the oldest; the task leaves its own queue and the other two queues are unchanged |
| LegacyTask.InitialShaped | kernel/src/task.rs:510-543 | the empty queues hold every task in its own class's queue under its key |
| LegacyTask.EnqueueKeepsShaped | kernel/src/task.rs:559-581 | `enqueue_task` files every task in its own class's queue under its key |
| LegacyTask.PickNextKeepsShaped | kernel/src/task.rs:854-866 | popping the next task keeps every queued task in its own class's queue under its key |
| LegacyTask.Outgoing | kernel/src/task.rs:886-896 | only vruntime and state change; a Running task becomes Ready; a Normal task with accumulated runtime is charged as `update_vruntime` charges it, and no other task is |
| LegacyTask.Dispose | kernel/src/task.rs:903-926 | a Terminated task is dropped, a Blocked one is filed under its id among the blocked tasks, and any other is enqueued |
| LegacyTask.DisposeKeepsConsistent | kernel/src/task.rs:903-926 | disposing of the outgoing task keeps the state consistent |
| LegacyTask.DisposeKeepsShaped | kernel/src/task.rs:903-926 | disposing of the outgoing task keeps every queued task in its own class's queue under its key |
| LegacyTask.ScheduleKeepsShaped | kernel/src/task.rs:840-952 | `schedule` keeps every queued task in its own class's queue under its key, so PickNextIsBest applies at every step |
| LegacyTask.ScheduleStep | kernel/src/task.rs:840-952 | the state stays consistent; with nothing ready nothing changes; otherwise the task taken becomes current and Running, and the accumulated runtime is reset when there was an outgoing task |
| LegacyTask.Block | kernel/src/task.rs:726-735 | blocking keeps the state consistent and is a `schedule` with the current task marked Blocked |
| LegacyTask.BlockFilesTask | kernel/src/task.rs:726-735 | a task that blocks while another is ready is filed among the blocked tasks under its id, charged as `schedule` charges it |
| LegacyTask.Unblock | kernel/src/task.rs:746-775 | an id among the blocked tasks leaves them and its task is enqueued as Ready; any other id changes nothing |
| LegacyTask.BlockUnblockKeepShaped | kernel/src/task.rs:726-775 | blocking and waking keep every queued task in its own class's queue under its key |
| LegacyTask.WakeupBeforeBlockIsLost | kernel/src/task.rs:726-775 | a wake-up that arrives before its task has blocked is dropped, and the block that follows files the task among the blocked tasks all the same |
| LegacyTask.UnblockAll | kernel/src/sync/wait_queue.rs:50-58 | waking a list of ids keeps the state consistent, removes exactly those ids from the blocked tasks and leaves the current task and runtime alone |
| LegacyTask.LegacyScheduler.constructor | kernel/src/task.rs:510-543 | the statics start in the initial state |
| LegacyTask.LegacyScheduler.EnqueueTask | kernel/src/task.rs:559-581 | the state becomes `Enqueue` of the old one |
| LegacyTask.LegacyScheduler.TryAddTask | kernel/src/task.rs:594-629 | always returns Ok, and the task is enqueued as `Enqueue` does |
| LegacyTask.LegacyScheduler.AddTask | kernel/src/task.rs:638-640 | the task is enqueued as `Enqueue` does |
| LegacyTask.LegacyScheduler.SetCurrentTask | kernel/src/task.rs:659-664 | the task becomes current and nothing else changes |
| LegacyTask.LegacyScheduler.UpdateCurrentTaskVruntime | kernel/src/task.rs:678-680 | the accumulated runtime grows by `delta`, wrapping at `2^64`, and nothing else changes |
| LegacyTask.LegacyScheduler.SetNeedResched | kernel/src/task.rs:686-688 | sets the reschedule flag and nothing else |
| LegacyTask.LegacyScheduler.CurrentTaskIdOf | kernel/src/task.rs:712-717 | the current task's id, or, with no current task, the counter's value, the counter advancing by one and wrapping from `u64::MAX` to 0 |
| LegacyTask.LegacyScheduler.PopNext | kernel/src/task.rs:854-866 | takes from the realtime, then CFS, then idle queue, as `PickNext` |
| LegacyTask.LegacyScheduler.DisposeOutgoing | kernel/src/task.rs:903-926 | the state becomes `Dispose` of the old one |
| LegacyTask.LegacyScheduler.Schedule | kernel/src/task.rs:840-952 | the state becomes `ScheduleStep` of the old one |
| LegacyTask.LegacyScheduler.YieldNow | kernel/src/task.rs:646-648 | yielding is one `schedule` |
| LegacyTask.LegacyScheduler.CheckReschedOnInterruptExit | kernel/src/task.rs:697-703 | with the flag set, clears it and schedules; otherwise nothing changes |
| LegacyTask.LegacyScheduler.BlockCurrentTask | kernel/src/task.rs:726-735 | the state becomes `Block` of the old one |
| LegacyTask.LegacyScheduler.UnblockTask | kernel/src/task.rs:746-775 | the state becomes `Unblock` of the old one |
| SchedBlocking.IsInterruptContext | kernel/src/sched/blocking.rs:36-46 | true exactly when bit 9 (IF) of the RFLAGS image is clear |
| SchedBlocking.BlockDecision | kernel/src/sched/blocking.rs:67-90 | it blocks exactly when there is a current task with no pending wake-up; a pending wake-up is consumed instead; with no current task nothing changes; when it blocks, only the current task's state becomes Blocked |
| SchedBlocking.BlockDecisionKeepsValid | kernel/src/sched/blocking.rs:67-90 | the critical section keeps the scheduler invariant and owns the same task ids |
| SchedBlocking.BlockCurrent | kernel/src/sched/blocking.rs:65-96 | blocking keeps the invariant, and no task is lost or duplicated |
| SchedBlocking.CurrentNotBlocked | kernel/src/sched/blocking.rs:19 | the current task is never also among the blocked tasks |
| SchedBlocking.BlockFilesTask | kernel/src/sched/blocking.rs:65-96 | a task with no pending wake-up that blocks while another is ready is filed among the blocked tasks in state Blocked, and another task becomes current |
| SchedBlocking.SwitchFilesBlocked | kernel/src/sched/scheduler.rs:372-377 | `schedule` from a Blocked current task files it among the blocked tasks and makes another task current |
| SchedBlocking.FiledApart | kernel/src/sched/scheduler.rs:372-377 | a task filed in the blocked table is held there and is not the current task |
| SchedBlocking.Unblock | kernel/src/sched/blocking.rs:109-130 | the id leaves the blocked tasks; a blocked task is enqueued and the pending set is unchanged; an id not blocked is added to the pending wake-ups and nothing else changes |
| SchedBlocking.UnblockRemovedIds | kernel/src/sched/blocking.rs:113 | removing a blocked id from the table removes exactly that one id from the owned ids |
| SchedBlocking.UnblockKeepsValid | kernel/src/sched/blocking.rs:109-130 | waking keeps the invariant and moves the task rather than copying or dropping it |
| SchedBlocking.UnblockMakesReady | kernel/src/sched/blocking.rs:113-120 | a woken blocked task is Ready in the run queue of its class, under its key |
| SchedBlocking.NoLostWakeup | kernel/src/sched/blocking.rs:73-81 | a wake-up that arrives before the block it answers makes that block return at once, leaving the scheduler exactly as it was before the wake-up |
| SchedBlocking.RunCallbacks | kernel/src/sched/blocking.rs:168-173 | running the timers' wake-up callbacks keeps the invariant and the owned ids, and leaves the current task, runtime and flag alone |
| SchedBlocking.Resched | kernel/src/sched/scheduler.rs:244-248 | the flag ends clear and the invariant holds; with the flag clear nothing changes |
| SchedBlocking.BlockCurrentTask | kernel/src/sched/blocking.rs:65-96 | the scheduler's state becomes `BlockCurrent` of the old one |
| SchedBlocking.DecideBlock | kernel/src/sched/blocking.rs:67-90 | the decision and the new state are `BlockDecision` of the old state |
| SchedBlocking.UnblockTask | kernel/src/sched/blocking.rs:109-130 | the scheduler's state becomes `Unblock` of the old one |
| SchedBlocking.SleepTicks | kernel/src/sched/blocking.rs:165 | the wait is at least one tick, and is `ms * frequency / 1000` rounded down whenever that is at least one |
| SchedBlocking.SleepMs | kernel/src/sched/blocking.rs:148-178 | zero milliseconds is one `schedule` with no timer; otherwise one timer that wakes the current task joins the heap, expiring `SleepTicks` from now, and the task blocks |
| SchedBlocking.ArmSleepTimer | kernel/src/sched/blocking.rs:162-173 | one timer with the next id, expiring `SleepTicks` from now and waking the current task's id, joins the heap |
| SchedBlocking.RunTimerCallbacks | kernel/src/sched/blocking.rs:170-172 | running the callbacks in order leaves the state `RunCallbacks` gives |
| SchedBlocking.CheckReschedOnInterruptExit | kernel/src/sched/scheduler.rs:226-250 | the timer softirq's callbacks run first (unless one is already running), then `schedule` if the flag was set; the softirq flag ends clear |
| SchedScheduler.RtKey | kernel/src/sched/scheduler.rs:69 | the realtime key carries the task's id and a major part `99 - rt_priority` within 0..99 |
| SchedScheduler.CfsKey | kernel/src/sched/scheduler.rs:74 | the CFS key is the task's vruntime and id |
| SchedScheduler.Initial | kernel/src/sched/scheduler.rs:20-49 | the statics start owning no task |
| SchedScheduler.InitialValid | kernel/src/sched/scheduler.rs:20-49 | the initial state satisfies the scheduler invariant |
| SchedScheduler.Enqueue | kernel/src/sched/scheduler.rs:66-103 | the task joins exactly its class's queue (under its key, or at the back of the idle FIFO), the queues stay sorted, every entry already queued under another key stays, and nothing else changes |
| SchedScheduler.EnqueueShaped | kernel/src/sched/scheduler.rs:66-83 | a well-formed task can be enqueued, and each queue still holds only its own class under the key the enqueue computes |
| SchedScheduler.EnqueueIds | kernel/src/sched/scheduler.rs:66-83 | enqueueing a task under a fresh id adds exactly that id to what the scheduler owns |
| SchedScheduler.EnqueueKeepsValid | kernel/src/sched/scheduler.rs:66-103 | enqueueing a well-formed task under a fresh id keeps the invariant and adds exactly that task |
| SchedScheduler.PickNext | kernel/src/sched/scheduler.rs:303-325 | nothing is taken exactly when all three queues are empty, and then nothing changes; otherwise only the queues change |
| SchedScheduler.PickNextSorted | kernel/src/sched/scheduler.rs:303-325 | taking the next task keeps both keyed queues sorted |
| SchedScheduler.PickNextIds | kernel/src/sched/scheduler.rs:303-325 | the task taken leaves exactly its own id behind |
| SchedScheduler.PickNextShaped | kernel/src/sched/scheduler.rs:303-325 | taking the next task keeps the queues' shape, and the task taken is well formed |
| SchedScheduler.PickNextIsBest | kernel/src/sched/scheduler.rs:303-325 | Realtime before Normal before Idle; within Realtime the highest rt_priority, then the lowest id; within CFS the lowest vruntime, then the lowest id; within Idle the oldest |
| SchedScheduler.ChargedRuntime | kernel/src/sched/scheduler.rs:346-350 | a Normal task is charged at least one unit, and exactly the accumulated runtime when some accumulated |
| SchedScheduler.Outgoing | kernel/src/sched/scheduler.rs:343-355 | only vruntime and state change; a Running task becomes Ready; a Normal task is charged as `update_vruntime` charges `ChargedRuntime`, and no other task is |
| SchedScheduler.Dispose | kernel/src/sched/scheduler.rs:368-383 | a Terminated task is dropped, a Blocked one is filed under its id among the blocked tasks, and any other is enqueued |
| SchedScheduler.ScheduleStep | kernel/src/sched/scheduler.rs:292-409 | with nothing ready nothing changes; otherwise the task taken becomes current and Running, the accumulated runtime is reset when there was an outgoing task, and the pending wake-ups and flag are untouched |
| SchedScheduler.DisposeKeepsValid | kernel/src/sched/scheduler.rs:368-383 | filing the outgoing task keeps the invariant, and it is owned again unless it terminated |
| SchedScheduler.Switched | kernel/src/sched/scheduler.rs:337-364 | the task taken, now Running, becomes current and the accumulator is swapped to 0 |
| SchedScheduler.SwitchKeepsValid | kernel/src/sched/scheduler.rs:337-364 | handing the CPU over keeps the invariant and takes exactly the outgoing task's id out of what is owned |
| SchedScheduler.ScheduleConservesTasks | kernel/src/sched/scheduler.rs:292-409 | `schedule` keeps the invariant and owns the same tasks afterwards, except that a Terminated outgoing task is dropped |
| SchedScheduler.FirstRunKeepsValid | kernel/src/sched/scheduler.rs:386-395 | the first switch, with no current task, keeps the invariant and the owned tasks |
| SchedScheduler.SwitchRunKeepsValid | kernel/src/sched/scheduler.rs:341-384 | a switch away from a current task keeps the invariant and files the outgoing task back unless it terminated |
| SchedScheduler.ScheduleStepSwitches | kernel/src/sched/scheduler.rs:341-384 | with a task to run and a current task, `schedule` is the hand-over followed by filing the outgoing task |
| SchedScheduler.CurrentTaskId | kernel/src/sched/scheduler.rs:259-264 | the current task's id, or the fresh id when there is no current task |
| SchedScheduler.Scheduler.constructor | kernel/src/sched/scheduler.rs:20-49 | the statics start in the initial state |
| SchedScheduler.Scheduler.EnqueueTask | kernel/src/sched/scheduler.rs:66-103 | the state becomes `Enqueue` of the old one |
| SchedScheduler.Scheduler.TryAddTask | kernel/src/sched/scheduler.rs:116-151 | always returns Ok, and the task is enqueued as `Enqueue` does |
| SchedScheduler.Scheduler.AddTask | kernel/src/sched/scheduler.rs:160-162 | the task is enqueued as `Enqueue` does |
| SchedScheduler.Scheduler.SetCurrentTask | kernel/src/sched/scheduler.rs:181-186 | the task becomes current and nothing else changes |
| SchedScheduler.Scheduler.UpdateCurrentTaskVruntime | kernel/src/sched/scheduler.rs:200-202 | the accumulated runtime grows by `delta`, wrapping at `2^64`, and nothing else changes |
| SchedScheduler.Scheduler.SetNeedResched | kernel/src/sched/scheduler.rs:208-210 | sets the reschedule flag and nothing else |
| SchedScheduler.Scheduler.TakeNeedResched | kernel/src/sched/scheduler.rs:244 | returns the flag's old value and clears it |
| SchedScheduler.Scheduler.CurrentTaskIdOf | kernel/src/sched/scheduler.rs:259-264 | returns `CurrentTaskId`, drawing the counter's next id (the counter wrapping from `u64::MAX` to 0) only when there is no current task |
| SchedScheduler.Scheduler.PopNext | kernel/src/sched/scheduler.rs:303-325 | takes from the realtime, then CFS, then idle queue, as `PickNext` |
| SchedScheduler.Scheduler.DisposeOutgoing | kernel/src/sched/scheduler.rs:368-383 | the state becomes `Dispose` of the old one |
| SchedScheduler.Scheduler.Schedule | kernel/src/sched/scheduler.rs:292-409 | the state becomes `ScheduleStep` of the old one |
| SchedScheduler.Scheduler.YieldNow | kernel/src/sched/scheduler.rs:168-170 | yielding is one `schedule` |
| SchedTask.ClampNice | kernel/src/sched/task.rs:142 | the clamped nice value lies in -20..19, equals the input inside that range, and is the nearer bound outside it |
| SchedTask.NiceToWeight | kernel/src/sched/task.rs:129-146 | nice -20 and below weigh 88761, nice 19 and above weigh 15, nice 0 weighs 1024, and every weight lies between 15 and 88761 |
| SchedTask.WeightTableStrictlyDecreasing | kernel/src/sched/task.rs:132-136 | each entry of the 40-entry weight table is strictly smaller than the one before |
| SchedTask.NiceToWeightAntitone | kernel/src/sched/task.rs:129-146 | a larger nice value never gets a larger weight, and a strictly larger clamped nice value gets a strictly smaller one |
| SchedTask.NiceToWeightAt | kernel/src/sched/task.rs:142-145 | the weight is the table entry at index `clamp(nice) + 20`, which lies within the table |
| SchedTask.WeightAt | kernel/src/sched/task.rs:132-136 | a later entry of the weight table is no larger, and strictly smaller if strictly later |
| SchedTask.NewTask | kernel/src/sched/task.rs:234-261 | it fails exactly when the context cannot be built, with that error; a new task is a Ready Normal task with the clamped nice value, its weight, rt_priority 0, vruntime 0 and the built context |
| SchedTask.NewRealtime | kernel/src/sched/task.rs:274-303 | rt_priority 0 is refused with InvalidPriority; otherwise it fails exactly when the context cannot be built; a new task is a Ready Realtime task with rt_priority capped at 99, weight 0, nice 0 and vruntime 0 |
| SchedTask.NewIdle | kernel/src/sched/task.rs:314-336 | it fails exactly when the context cannot be built; an idle task is a Ready Idle task with nice 19, weight 15, rt_priority 0 and vruntime 0 |
| SchedTask.UpdateVruntime | kernel/src/sched/task.rs:379-390 | only the vruntime changes; weight 0 leaves the task alone; otherwise the new vruntime `u` is the one with `u * weight <= vruntime * weight + delta * 1024 < (u + 1) * weight` (a charge of `delta * 1024 / weight`, rounded down) while that fits in `u64`, and `u64::MAX` once it does not; a well-formed task stays well formed |
| SchedTask.ChargeBracket | kernel/src/sched/task.rs:388-389 | adding `d / w` to `v` brackets `v * w + d` between consecutive multiples of `w`, and the sum fits in `u64` exactly when `v * w + d < 2^64 * w` |
| SchedTask.DivisorAntitone | kernel/src/sched/task.rs:388 | dividing by a larger weight never gives a larger increment |
| SchedTask.HeavierAdvancesLess | kernel/src/sched/task.rs:379-390 | over the same runtime, a heavier task's vruntime advances no further than a lighter one's from the same start |
| SchedTask.TaskIdAllocator.constructor | kernel/src/sched/task.rs:53 | the id counter starts at 0 with no id issued |
| SchedTask.TaskIdAllocator.NewId | kernel/src/sched/task.rs:52-58 | returns the counter's value and advances it by one, wrapping from `u64::MAX` to 0 as `fetch_add` does; until the counter has wrapped, the id returned was never issued before |
| Pci.ConfigAddressBits | kernel/src/pci.rs:115-119 | with bus, device, function and offset in range, each field reads back from its bits of the configuration address |
| Pci.ConfigAddressRoundTrip | kernel/src/pci.rs:106-119 | with device < 32 and function < 8 the fields do not overlap: enable bit set, bits 24-30 and 0-1 zero, bus, device, function and `offset & 0xFC` recoverable |
| Pci.EcamInjective | kernel/src/pci.rs:190-194 | within one segment's window, distinct (bus, device, function, offset) give distinct ECAM addresses |
| Pci.PciGlobals.constructor | kernel/src/pci.rs:20-22 | the MMCONFIG base and bus range start at zero |
| Pci.PciGlobals.SetMmconfig | kernel/src/pci.rs:149-166 | a segment other than 0 changes nothing; segment 0 stores the base and the bus range |
| Pci.HalfIsTwoBytes | kernel/src/pci.rs:214-225 | the 16-bit field at an even offset of a dword is its two bytes, low first |
| Pci.ReadU16IsTwoBytes | kernel/src/pci.rs:203-225 | a 16-bit read at an even offset equals the 8-bit reads at that offset and the next, little-endian |
| Pci.ReadDevice | kernel/src/pci.rs:43-70 | None iff the vendor id reads 0xFFFF; otherwise a device at the given address with that vendor id |
| Pci.ReadDeviceFields | kernel/src/pci.rs:51-56 | the vendor and device ids split the first dword and revision, prog-if, subclass and class code the third |
| Pci.ClassNameReserved | kernel/src/pci.rs:73-96 | `class_name` is "Reserved" exactly for the codes 0x12 to 0xFE |
| Pci.ProbeFunctions | kernel/src/pci.rs:248-254 | functions 1 to 7 are probed in order and each one present is reported |
| Pci.ScanBus | kernel/src/pci.rs:238-258 | the 32 device slots of a bus in order, each contributing function 0 and, for a multi-function device, functions 1-7 |
| Pci.ScanPciBus | kernel/src/pci.rs:228-267 | the scan reports the functions of all 256 buses in slot order, and `device_count` is their number |
| Pci.ScanReportsOnlyPresentFunctions | kernel/src/pci.rs:238-258 | every function the scan counts answered with a vendor id other than 0xFFFF, and functions above 0 only for multi-function devices |
| Pci.ScanAtMost | kernel/src/pci.rs:236-258 | at most 256 × 32 × 8 functions are counted |
| Hpet.SplitProductDiv | kernel/src/hpet.rs:178-183 | the overflow-avoiding split `(c/10^6)*p + (c%10^6)*p/10^6` equals `floor(c*p/10^6)` |
| Hpet.DivDiv | kernel/src/hpet.rs:187-199 | dividing `elapsed_ns` by 10^3, 10^6 or 10^9 is dividing the elapsed femtoseconds once by the product |
| Hpet.PeriodOf | kernel/src/hpet.rs:71-72 | the period is the upper 32 bits of the capabilities register: below 2^32, with `cap_id = period*2^32 + low bits` |
| Hpet.FrequencyMeaning | kernel/src/hpet.rs:74-80 | the frequency is 0 for period 0; otherwise `f` periods fit in 10^15 fs and `f + 1` do not |
| Hpet.WithEnable | kernel/src/hpet.rs:85-86 | `config \| 1` has bit 0 set and every higher bit as before |
| Hpet.DelayTargetMeaning | kernel/src/hpet.rs:135 | the target count is the largest whole number of periods inside `ns` nanoseconds |
| Hpet.FirstReachedUnique | kernel/src/hpet.rs:137-140 | the number of counter polls a delay makes is determined by the readings |
| Hpet.Hpet.constructor | kernel/src/hpet.rs:12-24 | the globals start unavailable, with base, period, frequency and start counter 0 |
| Hpet.Hpet.ReadRegister | kernel/src/hpet.rs:37-45 | a register read gives 0 while the base is 0, and the device's value otherwise |
| Hpet.Hpet.WriteConfig | kernel/src/hpet.rs:47-54 | a write is ignored while the base is 0; otherwise only the configuration register changes |
| Hpet.Hpet.Init | kernel/src/hpet.rs:60-101 | the base is the physical address plus the kernel's virtual base; period and frequency come from the capabilities; config bit 0 is set and the others kept; the counter is sampled and HPET marked available |
| Hpet.Hpet.DelayNs | kernel/src/hpet.rs:123-141 | no poll when unavailable or the period is 0; otherwise it stops at the first reading whose wrapping distance from the start reaches `ns*10^6/period` |
| Hpet.Hpet.DelayUs | kernel/src/hpet.rs:144-146 | a delay of `us*1000` nanoseconds |
| Hpet.Hpet.DelayMs | kernel/src/hpet.rs:149-151 | a delay of `ms*10^6` nanoseconds |
| Hpet.Hpet.ElapsedNs | kernel/src/hpet.rs:158-184 | 0 when unavailable or the period is 0; otherwise `floor(counts*period/10^6)` with counts measured by wrapping subtraction |
| Hpet.Hpet.ElapsedUs | kernel/src/hpet.rs:187-189 | the elapsed femtoseconds divided by 10^9, floored |
| Hpet.Hpet.ElapsedMs | kernel/src/hpet.rs:192-194 | the elapsed femtoseconds divided by 10^12, floored |
| Hpet.Hpet.ElapsedSecs | kernel/src/hpet.rs:197-199 | the elapsed femtoseconds divided by 10^15, floored |
| Apic.MsrSplitJoin | kernel/src/apic.rs:90-127 | joining the EDX:EAX halves `write_msr` produces gives the 64-bit value back |
| Apic.MsrJoinSplit | kernel/src/apic.rs:90-127 | splitting what `read_msr` joins gives both 32-bit halves back |
| Apic.EnableBit | kernel/src/apic.rs:138-144 | `apic_base \| (1 << 11)` sets bit 11 and keeps every other bit |
| Apic.LvtPeriodicBits | kernel/src/apic.rs:325-328 | the timer LVT value has periodic bit 17 set, mask bit 16 clear, vector 32 and no other bit |
| Apic.Count | kernel/src/apic.rs:259-270 | the number of elements on one side of `x` is at most the length |
| Apic.CountPermutation | kernel/src/apic.rs:259-270 | counting elements on one side of a value does not depend on their order |
| Apic.MedianUnique | kernel/src/apic.rs:259-270 | a sequence has at most one median |
| Apic.SortedMiddleIsMedian | kernel/src/apic.rs:268-270 | index 2 of five sorted measurements is their median |
| Apic.SortMeasurements | kernel/src/apic.rs:266 | `sort_unstable` leaves the array ascending and a permutation of what it held |
| Apic.MedianOf | kernel/src/apic.rs:266-270 | the value taken after sorting is a median of the five measurements and one of them |
| Apic.LocalApic.constructor | kernel/src/apic.rs:158 | the APIC starts with the given IA32_APIC_BASE value, no register written and frequency 0 |
| Apic.LocalApic.EnableApic | kernel/src/apic.rs:130-151 | IA32_APIC_BASE gains bit 11, the spurious vector register gets 0x1FF; nothing else changes |
| Apic.LocalApic.MeasureTicks | kernel/src/apic.rs:164-219 | the result is `0xFFFFFFFF - current_count`; divide-by-16, a masked LVT and a stopped timer are left in the registers |
| Apic.LocalApic.MeasurePit | kernel/src/apic.rs:255-264 | five measurements, each `0xFFFFFFFF` minus its current count, with the same register writes |
| Apic.LocalApic.CalibrateTimer | kernel/src/apic.rs:230-292 | with the HPET the frequency is one measurement times 20; with the PIT the median of five times 20; it is stored even when 0, and CalibrationFailed is returned iff it is 0 |
| Apic.LocalApic.InitTimer | kernel/src/apic.rs:302-343 | 0 Hz gives InvalidFrequency and an uncalibrated timer NotCalibrated, both before any register write; otherwise divide-by-16, the periodic LVT and initial count `apic_freq / frequency_hz` are written |
| Apic.LocalApic.SendEoi | kernel/src/apic.rs:347-353 | 0 is written to the EOI register and nothing else changes |
| Apic.InitialCountMeaning | kernel/src/apic.rs:330-333 | the initial count is the number of whole `frequency_hz` periods in the calibrated rate |
| Uefi.MemoryTypeNameKnown | bootloader/src/main.rs:23-41 | a memory type gets a name other than "Unknown" exactly when it is at most 13 (PALCode), and is named "Available" exactly when it is conventional memory (type 7) |
| Uefi.MemoryTypeNamesDistinct | src/main.rs:27-45 | the fourteen known memory types get pairwise different names in the listing |
| Uefi.LeRoundTrip | common/src/uefi/mod.rs:104-111 | reading n little-endian bytes where a value below 256^n was encoded gives that value back |
| Uefi.DescriptorRoundTrip | common/src/uefi/mod.rs:104-111 | decoding the 40-byte repr(C) descriptor layout (type at 0, physical start at 8, virtual start at 16, pages at 24, attribute at 32) inverts its encoding |
| Uefi.EntryInside | bootloader/src/main.rs:184-186 | descriptor i, read at offset i * descriptor_size, lies wholly inside the returned map when i < map_size / descriptor_size |
| Uefi.ShowMemoryMap | bootloader/src/main.rs:155-178 | the listing has min(entry count, 20) lines and line i shows the name, physical start and page count of descriptor i |
| Uefi.RegionAt | bootloader/src/main.rs:184-192 | region i is descriptor i's physical start, its page count times 4096 and its type |
| Uefi.BootInfo.constructor | common/src/boot_info.rs:36-55 | a new BootInfo has 256 zeroed regions, count 0, RSDP address 0, maximum physical address 0 and an all-zero framebuffer |
| Uefi.SelectStep | kernel/src/main.rs:239-247 | one scan step keeps "largest conventional region so far, first one on ties": the last region replaces the pick exactly when it is conventional and strictly larger |
| Uefi.LargestConventionalPicks | src/main.rs:177-192 | the scan's result is the earliest conventional region of maximal size (or 0, 0 when no conventional region is non-empty) |
| Uefi.LargestUnique | kernel/src/main.rs:239-247 | the largest-conventional description fixes start and size uniquely, so both scans agree with the fold |
| Uefi.FoundIffPositive | kernel/src/main.rs:249 | the selected size is positive exactly when some conventional region is non-empty |
| Uefi.HeapSize | kernel/src/main.rs:253-257 | the heap size never exceeds the region, is capped at 256 KiB when visualising, and is otherwise the whole region |
| Uefi.PlanHeap | kernel/src/main.rs:249-269 | the heap is initialised exactly when the largest size is positive, at the region's start with HeapSize bytes; otherwise "no usable memory" |
| Bootloader.FillBootInfo | bootloader/src/main.rs:141-194 | the framebuffer record is filled (stride = width); on a failed GetMemoryMap nothing else changes; on success the first min(entries, 256) regions are the decoded descriptors and the count is set; RSDP and maximum physical address stay as they were |
| Bootloader.CopyRegions | bootloader/src/main.rs:184-194 | copies exactly min(entry count, array length) regions, region k being descriptor k, and leaves the rest of the array unchanged |
| Bootloader.LoadOutside | bootloader/src/main.rs:308-329 | a byte no PT_LOAD segment covers keeps its old value |
| Bootloader.LoadInside | bootloader/src/main.rs:308-329 | a byte covered by segment k and no later segment ends up holding segment k's file byte, or 0 in its BSS tail |
| Bootloader.CopySegment | bootloader/src/main.rs:312-327 | after the copy and the zero fill, memory equals the specification of loading that segment |
| Bootloader.LoadKernelElf | bootloader/src/main.rs:237-332 | returns 0 and leaves memory unchanged when locating, opening or reading the file fails or the header is invalid; otherwise returns e_entry and memory holds every PT_LOAD segment loaded in order |
| Bootloader.ToUtf16 | bootloader/src/main.rs:335-344 | the loop's buffer equals the name specification |
| Bootloader.Utf16NameTerminated | bootloader/src/main.rs:335-344 | at most 31 characters are copied, each as its code unit, and the buffer is NUL-terminated right after them and in its last unit |
| KernelMain.ScannedRegions | kernel/src/main.rs:232-236 | the scanned regions are the first min(memory_map_count, 256) entries of the array |
| KernelMain.SelectLargestRegion | kernel/src/main.rs:232-247 | the loop returns the earliest conventional region of maximal size among the scanned ones |
| KernelMain.PlanKernelHeap | kernel/src/main.rs:249-269 | the heap is planned from the selected region, and initialised exactly when some scanned conventional region is non-empty |
| EarlyMain.SelectLargestDescriptor | src/main.rs:177-192 | the descriptor loop returns the earliest conventional region of maximal size (pages times 4096) |
| EarlyMain.SetUpMemory | src/main.rs:142-207 | nothing happens on a failed GetMemoryMap; otherwise the listing is the first 20 entries and the heap is initialised exactly when some conventional region is non-empty, from the largest one |

## Left out

- EarlyGraphics.DrawCharInto: requires the whole 8 x 8 cell of the character to lie inside the framebuffer, while src/graphics/mod.rs:6-26 needs only the offsets of the set glyph bits inside it (a byte outside 32..126 or a blank glyph column stores nothing), so callers the source accepts with a partly outside blank cell are not modelled.
- EarlyGraphics.DrawStringInto: requires the whole `8 * len` by 8 box to lie inside the framebuffer, for the same reason as DrawCharInto.
- Inline and naked assembly is not modelled because its effect lives in machine registers. This covers `switch_context` in both scheduler generations, the IDT handler stubs, `lgdt`, `ltr` and the far return in kernel/src/gdt.rs, the CR3 read and write in kernel/src/paging.rs, and the `kernel_main` trampoline. The schedule step ends at the point where it would switch. `Context::new` is modelled up to the frame it leaves on the stack.
- Port and MMIO I/O are not modelled: kernel/src/io.rs, kernel/src/serial.rs and kernel/src/pit.rs as a whole, plus the register accesses in kernel/src/apic.rs, kernel/src/hpet.rs and kernel/src/pci.rs. Register and counter values read from hardware are parameters, and a register write is a returned value or an updated field. PIC masking is I/O only.
- Concurrency is not modelled: kernel/src/sync/blocking_mutex.rs, `without_interrupts`, spin-lock ordering and atomic memory orderings. The scheduler, timer and compositor globals are single-threaded state. Whether a buffer's `try_lock` succeeds in a frame is a parameter (`locked`).
- `pow_f32` in kernel/src/task.rs is floating point, and the weight table the code uses does not depend on it.
- The busy-wait loops of the HPET and PIT delays and the compositor task's sleeps are not modelled. `delay_ns` is modelled by its target count and by the uniqueness of the first reading that reaches it, over a given sequence of counter readings.
- The UI and demo code is not modelled: common/src/allocator_visualization.rs, src/visualization.rs, kernel/src/debug_overlay.rs, log and `println!` output, GOP mode setup, `exit_boot_services` and the jump to the kernel entry.
- `boot_complete` in kernel/src/main.rs is an empty marker for a debugger breakpoint: its only action is a volatile read of a local zero byte, so it has no observable state to model.
- The RSDP address field of `BootInfo` starts at 0, and nothing in the modelled code sets it. ACPI parsing takes the RSDP address as a parameter.
- `FONT_8X8` is not part of this model. Glyphs are a parameter: 95 glyphs of 8 bytes, bit `col` of byte `row` set for a lit pixel.
- `Elf64Header::is_valid` and the common ELF module are not part of this model. The loader takes the header check's result as the `headerValid` parameter and reads headers and program headers at the standard ELF64 offsets.
- `phys_to_virt` and `PagingError` are not part of this model; the address helpers take their outcome as a parameter.
- KernelMain.PlanKernelHeap: the heap is planned at the region's physical start. The kernel passes the translated virtual address to `init_heap`, and that translation is not part of this model.
- Rust debug-build overflow panics are preconditions and are not modelled as panics. Examples are `delta * 1024`, `region.x + width`, `length - 36` and `ticks * multiplier`.
- Uefi.RegionOf: the region size `number_of_pages * 4096` is an unbounded natural. In src/main.rs and bootloader/src/main.rs it is a u64 product, which panics in a debug build and wraps in a release build for 2^52 pages or more; the model captures neither.
- The documentation comment of `priority_to_weight` at kernel/src/task.rs:145 says priority 10 gets weight 1024, but the code gives 18. The model follows the code.
- KernelTimer.HeapPush: timers with equal expiry keep a fixed order, insertion after the earlier ones. Rust's `BinaryHeap` leaves that order unspecified, so the model states one particular heap behaviour. Every other property holds for any tie order.
- Acpi.WalkMadt: a MADT entry of length 0 would make the source loop forever. The model requires every entry it walks to have a positive length.
- Compositors.CompositorGlobals.Frame: one pass renders and blits but does not count the frame. The count is the separate Compositors.FrameCounter.Increment, which the source runs right after the blit. The endless `compositor_task` loop that sequences the two with its sleeps is not modelled.
- The `visualize-allocator` cargo feature is the `visualize` parameter of the heap plan.
- The literal examples in the address-helper tests (0x1001 rounds up to 0x2000, and so on) are not restated. The general properties of `is_aligned`, `align_up` and `align_down` cover them.
- The slab free lists are sequences of block addresses. The intrusive `next` pointer that each free block stores in its own first word is not modelled.
- kernel/src/sched/mod.rs and kernel/src/sync/mod.rs only re-export, so they have nothing to model.
- Pure type and constant definitions (common/src/uefi/mod.rs, src/uefi/mod.rs, common/src/boot_info.rs) appear only as the datatypes and constants the modelled code uses.
