// The UEFI memory map as the loaders see it (section 7.2 of the UEFI
// Specification, GetMemoryMap): the memory-type codes, the 40-byte
// EFI_MEMORY_DESCRIPTOR laid out little-endian in the firmware's buffer
// (common/src/uefi/mod.rs), and the BootInfo block the bootloader hands
// to the kernel (common/src/boot_info.rs).  Both loaders and the kernel
// pick the largest conventional-memory region for the heap; the rule is
// stated once here as `IsLargestConventional`.

module Uefi {
  import opened Base

  const EFI_SUCCESS: nat := 0

  const EFI_RESERVED_MEMORY_TYPE: nat := 0
  const EFI_LOADER_CODE: nat := 1
  const EFI_LOADER_DATA: nat := 2
  const EFI_BOOT_SERVICES_CODE: nat := 3
  const EFI_BOOT_SERVICES_DATA: nat := 4
  const EFI_RUNTIME_SERVICES_CODE: nat := 5
  const EFI_RUNTIME_SERVICES_DATA: nat := 6
  const EFI_CONVENTIONAL_MEMORY: nat := 7
  const EFI_UNUSABLE_MEMORY: nat := 8
  const EFI_ACPI_RECLAIM_MEMORY: nat := 9
  const EFI_ACPI_MEMORY_NVS: nat := 10
  const EFI_MEMORY_MAPPED_IO: nat := 11
  const EFI_MEMORY_MAPPED_IO_PORT_SPACE: nat := 12
  const EFI_PAL_CODE: nat := 13

  const PAGE_SIZE: nat := 4096
  const MAX_MEMORY_REGIONS: nat := 256

  // ---- memory_type_str ------------------------------------------------------------

  /** `memory_type_str`: the display name of a memory type. */
  function MemoryTypeName(memType: U32): string
  {
    match memType
    case 0 => "Reserved"
    case 1 => "LoaderCode"
    case 2 => "LoaderData"
    case 3 => "BSCode"
    case 4 => "BSData"
    case 5 => "RTCode"
    case 6 => "RTData"
    case 7 => "Available"
    case 8 => "Unusable"
    case 9 => "ACPIReclaim"
    case 10 => "ACPINVS"
    case 11 => "MMIO"
    case 12 => "MMIOPort"
    case 13 => "PALCode"
    case _ => "Unknown"
  }

  /** Exactly the types defined by the UEFI Specification (0 to 13) have a name of their own. */
  lemma MemoryTypeNameKnown(memType: U32)
    ensures MemoryTypeName(memType) != "Unknown" <==> memType <= EFI_PAL_CODE
    ensures memType == EFI_CONVENTIONAL_MEMORY <==> MemoryTypeName(memType) == "Available"
  {
  }

  /** Different defined types get different names. */
  lemma MemoryTypeNamesDistinct(a: U32, b: U32)
    requires a <= EFI_PAL_CODE && b <= EFI_PAL_CODE && a != b
    ensures MemoryTypeName(a) != MemoryTypeName(b)
  {
  }

  // ---- little-endian fields ----------------------------------------------------------

  function Pow256(n: nat): (p: nat)
    ensures p > 0
  {
    if n == 0 then 1 else 256 * Pow256(n - 1)
  }

  lemma Pow256Widths()
    ensures Pow256(2) == U16_LIMIT && Pow256(4) == U32_LIMIT && Pow256(8) == U64_LIMIT
  {
    assert Pow256(4) == U32_LIMIT;
    assert Pow256(8) == Pow256(4) * Pow256(4) by {
      assert Pow256(8) == 256 * 256 * 256 * 256 * Pow256(4);
    }
  }

  /** The `n`-byte little-endian value at `buf[at..]`. */
  function LeBytes(buf: seq<Byte>, at: nat, n: nat): (v: nat)
    requires at + n <= |buf|
    ensures v < Pow256(n)
    decreases n
  {
    if n == 0 then 0 else buf[at] + 256 * LeBytes(buf, at + 1, n - 1)
  }

  /** The `n` little-endian bytes of `v`. */
  function LeEncode(v: nat, n: nat): (b: seq<Byte>)
    ensures |b| == n
  {
    if n == 0 then [] else [v % 256] + LeEncode(v / 256, n - 1)
  }

  /** Decoding the bytes of an encoding, wherever they sit, gives the value back. */
  lemma {:induction false} LeRoundTrip(buf: seq<Byte>, at: nat, v: nat, n: nat)
    requires at + n <= |buf| && v < Pow256(n)
    requires buf[at..at + n] == LeEncode(v, n)
    ensures LeBytes(buf, at, n) == v
    decreases n
  {
    if n > 0 {
      assert buf[at] == LeEncode(v, n)[0];
      assert buf[at + 1..at + n] == LeEncode(v, n)[1..];
      LeRoundTrip(buf, at + 1, v / 256, n - 1);
    }
  }

  // ---- memory descriptors ---------------------------------------------------------------

  /** EFI_MEMORY_DESCRIPTOR: type at 0, then four u64 fields from offset 8. */
  datatype Descriptor = Descriptor(memType: U32, physicalStart: U64, virtualStart: U64, numberOfPages: U64, attribute: U64)

  const DESCRIPTOR_LAYOUT_SIZE: nat := 40

  /** The descriptor at byte `offset` of the memory-map buffer. */
  function DescriptorAt(buf: seq<Byte>, offset: nat): Descriptor
    requires offset + DESCRIPTOR_LAYOUT_SIZE <= |buf|
  {
    Pow256Widths();
    Descriptor(LeBytes(buf, offset, 4), LeBytes(buf, offset + 8, 8), LeBytes(buf, offset + 16, 8),
               LeBytes(buf, offset + 24, 8), LeBytes(buf, offset + 32, 8))
  }

  /** The bytes firmware writes for a descriptor (the padding after the type is zero). */
  function EncodeDescriptor(d: Descriptor): (b: seq<Byte>)
    ensures |b| == DESCRIPTOR_LAYOUT_SIZE
  {
    LeEncode(d.memType, 4) + [0, 0, 0, 0] + LeEncode(d.physicalStart, 8) + LeEncode(d.virtualStart, 8) +
    LeEncode(d.numberOfPages, 8) + LeEncode(d.attribute, 8)
  }

  /** Reading a descriptor back from its bytes gives the same descriptor. */
  lemma DescriptorRoundTrip(d: Descriptor)
    ensures DescriptorAt(EncodeDescriptor(d), 0) == d
  {
    var b := EncodeDescriptor(d);
    Pow256Widths();
    assert b[0..4] == LeEncode(d.memType, 4);
    LeRoundTrip(b, 0, d.memType, 4);
    assert b[8..16] == LeEncode(d.physicalStart, 8);
    LeRoundTrip(b, 8, d.physicalStart, 8);
    assert b[16..24] == LeEncode(d.virtualStart, 8);
    LeRoundTrip(b, 16, d.virtualStart, 8);
    assert b[24..32] == LeEncode(d.numberOfPages, 8);
    LeRoundTrip(b, 24, d.numberOfPages, 8);
    assert b[32..40] == LeEncode(d.attribute, 8);
    LeRoundTrip(b, 32, d.attribute, 8);
  }

  /** The firmware's answer to GetMemoryMap: status, bytes written, descriptor stride. */
  datatype MemoryMap = MemoryMap(status: nat, buffer: seq<Byte>, mapSize: nat, descriptorSize: nat)

  /**
   * What the loaders rely on without checking: the map fits the buffer
   * and the stride is a whole descriptor (`map_size / descriptor_size`
   * divides by it; a stride of 0 would be a division by zero).
   */
  predicate WellFormed(memMap: MemoryMap)
  {
    memMap.descriptorSize >= DESCRIPTOR_LAYOUT_SIZE && memMap.mapSize <= |memMap.buffer|
  }

  /** `map_size / descriptor_size`. */
  function EntryCount(memMap: MemoryMap): nat
    requires WellFormed(memMap)
  {
    memMap.mapSize / memMap.descriptorSize
  }

  /** Every entry's descriptor lies inside the bytes the firmware wrote. */
  lemma EntryInside(memMap: MemoryMap, i: nat)
    requires WellFormed(memMap) && i < EntryCount(memMap)
    ensures i * memMap.descriptorSize + DESCRIPTOR_LAYOUT_SIZE <= memMap.mapSize
  {
    MulMono(i + 1, EntryCount(memMap), memMap.descriptorSize);
  }

  /** Entry `i`, read with stride `descriptor_size`. */
  function Entry(memMap: MemoryMap, i: nat): Descriptor
    requires WellFormed(memMap) && i < EntryCount(memMap)
  {
    EntryInside(memMap, i);
    DescriptorAt(memMap.buffer, i * memMap.descriptorSize)
  }

  // ---- the listing both loaders print ---------------------------------------------

  const MAX_DISPLAY: nat := 20

  /** One line of the memory-map listing: type name, start address, page count. */
  datatype DisplayLine = DisplayLine(name: string, start: U64, pages: U64)

  /** The listing of one descriptor. */
  function LineOf(d: Descriptor): DisplayLine
  {
    DisplayLine(MemoryTypeName(d.memType), d.physicalStart, d.numberOfPages)
  }

  /** The listing loop: the first `min(entry_count, 20)` entries, in order. */
  method ShowMemoryMap(memMap: MemoryMap) returns (lines: seq<DisplayLine>)
    requires WellFormed(memMap)
    ensures |lines| == Min(EntryCount(memMap), MAX_DISPLAY)
    ensures forall i :: 0 <= i < |lines| ==> lines[i] == LineOf(Entry(memMap, i))
  {
    lines := [];
    var i := 0;
    var shown := Min(EntryCount(memMap), MAX_DISPLAY);
    while i < shown
      invariant 0 <= i <= shown
      invariant |lines| == i
      invariant forall k :: 0 <= k < i ==> lines[k] == LineOf(Entry(memMap, k))
    {
      EntryInside(memMap, i);
      var desc := DescriptorAt(memMap.buffer, i * memMap.descriptorSize);
      lines := lines + [LineOf(desc)];
      i := i + 1;
    }
  }

  // ---- BootInfo --------------------------------------------------------------------------

  /** MemoryRegion: a region's start, size in bytes and UEFI type. */
  datatype MemoryRegion = MemoryRegion(start: U64, size: nat, regionType: U32)

  const EMPTY_REGION := MemoryRegion(0, 0, 0)

  /** The region a descriptor describes: pages of 4 KiB. */
  function RegionOf(d: Descriptor): MemoryRegion
  {
    MemoryRegion(d.physicalStart, d.numberOfPages * PAGE_SIZE, d.memType)
  }

  /** Every region of the map, converted. */
  function Regions(memMap: MemoryMap): (r: seq<MemoryRegion>)
    requires WellFormed(memMap)
    ensures |r| == EntryCount(memMap)
  {
    seq(EntryCount(memMap), i requires 0 <= i < EntryCount(memMap) && WellFormed(memMap) => RegionOf(Entry(memMap, i)))
  }

  /** Region `i` of the map is descriptor `i`, converted. */
  lemma RegionAt(memMap: MemoryMap, i: nat)
    requires WellFormed(memMap) && i < EntryCount(memMap)
    ensures Regions(memMap)[i] == RegionOf(Entry(memMap, i))
  {
  }

  datatype FramebufferInfo = FramebufferInfo(base: U64, size: U64, width: U32, height: U32, stride: U32)

  /** The block the bootloader fills and the kernel reads. */
  class BootInfo {
    var framebuffer: FramebufferInfo
    const memoryMap: array<MemoryRegion>
    var memoryMapCount: nat
    var rsdpAddress: U64
    var maxPhysicalAddress: U64

    /** `BootInfo::new`: everything zero, 256 empty regions. */
    constructor ()
      ensures memoryMap.Length == MAX_MEMORY_REGIONS && fresh(memoryMap)
      ensures forall i :: 0 <= i < MAX_MEMORY_REGIONS ==> memoryMap[i] == EMPTY_REGION
      ensures memoryMapCount == 0 && rsdpAddress == 0 && maxPhysicalAddress == 0
      ensures framebuffer == FramebufferInfo(0, 0, 0, 0, 0)
    {
      framebuffer := FramebufferInfo(0, 0, 0, 0, 0);
      memoryMap := new MemoryRegion[MAX_MEMORY_REGIONS](_ => EMPTY_REGION);
      memoryMapCount := 0;
      rsdpAddress := 0;
      maxPhysicalAddress := 0;
    }
  }

  // ---- the largest conventional region --------------------------------------------------

  predicate Conventional(r: MemoryRegion)
  {
    r.regionType == EFI_CONVENTIONAL_MEMORY
  }

  /**
   * `(start, size)` is what the loaders' scan picks: the largest size among
   * conventional regions, taken from the earliest region of that size
   * (the comparison is a strict `>`); `(0, 0)` when no conventional region
   * has a positive size.
   */
  predicate IsLargestConventional(regions: seq<MemoryRegion>, start: nat, size: nat)
  {
    (forall j :: 0 <= j < |regions| && Conventional(regions[j]) ==> regions[j].size <= size) &&
    (size == 0 ==> start == 0) &&
    (size > 0 ==> exists i :: 0 <= i < |regions| && ChosenAt(regions, i, start, size))
  }

  /** Region `i` is conventional, has the given start and size, and no earlier conventional region is as large. */
  predicate ChosenAt(regions: seq<MemoryRegion>, i: nat, start: nat, size: nat)
    requires i < |regions|
  {
    Conventional(regions[i]) && regions[i].start == start && regions[i].size == size &&
    forall j :: 0 <= j < i && Conventional(regions[j]) ==> regions[j].size < size
  }

  /** The next step of the scan: region `r` replaces the current pick when it is conventional and strictly larger. */
  lemma SelectStep(regions: seq<MemoryRegion>, start: nat, size: nat)
    requires |regions| > 0 && IsLargestConventional(regions[..|regions| - 1], start, size)
    ensures var r := regions[|regions| - 1];
      if Conventional(r) && r.size > size then IsLargestConventional(regions, r.start, r.size)
      else IsLargestConventional(regions, start, size)
  {
    var n := |regions| - 1;
    var r := regions[n];
    var prefix := regions[..n];
    if Conventional(r) && r.size > size {
      assert ChosenAt(regions, n, r.start, r.size) by {
        forall j | 0 <= j < n && Conventional(regions[j])
          ensures regions[j].size < r.size
        {
          assert prefix[j] == regions[j];
        }
      }
    } else if size > 0 {
      var i :| 0 <= i < n && ChosenAt(prefix, i, start, size);
      assert ChosenAt(regions, i, start, size) by {
        forall j | 0 <= j < i && Conventional(regions[j])
          ensures regions[j].size < size
        {
          assert prefix[j] == regions[j];
        }
      }
    }
    forall j | 0 <= j < n && Conventional(regions[j])
      ensures regions[j].size <= size
    {
      assert prefix[j] == regions[j];
    }
  }

  /** The scan itself, as a left fold: `(largest_start, largest_size)` after every region. */
  function LargestConventional(regions: seq<MemoryRegion>): (pick: (nat, nat))
  {
    if |regions| == 0 then (0, 0)
    else
      var previous := LargestConventional(regions[..|regions| - 1]);
      var r := regions[|regions| - 1];
      if Conventional(r) && r.size > previous.1 then (r.start, r.size) else previous
  }

  /** One more region extends the fold by one step. */
  lemma LargestStep(regions: seq<MemoryRegion>, i: nat)
    requires i < |regions|
    ensures var previous := LargestConventional(regions[..i]);
      LargestConventional(regions[..i + 1]) ==
        if Conventional(regions[i]) && regions[i].size > previous.1 then (regions[i].start, regions[i].size) else previous
  {
    assert regions[..i + 1][..i] == regions[..i];
  }

  /** The scan picks the largest conventional region, the earliest of equal sizes. */
  lemma {:induction false} LargestConventionalPicks(regions: seq<MemoryRegion>)
    ensures IsLargestConventional(regions, LargestConventional(regions).0, LargestConventional(regions).1)
  {
    if |regions| > 0 {
      LargestConventionalPicks(regions[..|regions| - 1]);
      SelectStep(regions, LargestConventional(regions[..|regions| - 1]).0, LargestConventional(regions[..|regions| - 1]).1);
    }
  }

  /** The pick is unique: two scans of the same regions agree. */
  lemma LargestUnique(regions: seq<MemoryRegion>, s1: nat, z1: nat, s2: nat, z2: nat)
    requires IsLargestConventional(regions, s1, z1) && IsLargestConventional(regions, s2, z2)
    ensures s1 == s2 && z1 == z2
  {
    if z1 > 0 {
      var i :| 0 <= i < |regions| && ChosenAt(regions, i, s1, z1);
      var k :| 0 <= k < |regions| && ChosenAt(regions, k, s2, z2);
    }
  }

  /** The pick has a positive size exactly when some conventional region is non-empty. */
  lemma FoundIffPositive(regions: seq<MemoryRegion>, start: nat, size: nat)
    requires IsLargestConventional(regions, start, size)
    ensures size > 0 <==> exists i :: 0 <= i < |regions| && Conventional(regions[i]) && regions[i].size > 0
  {
    if size > 0 {
      var i :| 0 <= i < |regions| && ChosenAt(regions, i, start, size);
    }
  }

  /** Under the allocator-visualisation build the heap is capped at 256 KiB. */
  const VISUALIZE_HEAP_LIMIT: nat := 256 * 1024

  /** The heap size taken from the largest region. */
  function HeapSize(largestSize: nat, visualize: bool): (heapSize: nat)
    ensures heapSize <= largestSize
    ensures visualize ==> heapSize <= VISUALIZE_HEAP_LIMIT
    ensures heapSize == largestSize || (visualize && heapSize == VISUALIZE_HEAP_LIMIT)
  {
    if visualize then Min(largestSize, VISUALIZE_HEAP_LIMIT) else largestSize
  }

  /** What `main` does with the pick: a heap over the region, or the "no usable memory" path. */
  datatype HeapPlan = NoUsableMemory | InitHeap(start: nat, size: nat)

  function PlanHeap(start: nat, largestSize: nat, visualize: bool): (plan: HeapPlan)
    ensures plan.InitHeap? <==> largestSize > 0
    ensures plan.InitHeap? ==> plan.start == start && plan.size == HeapSize(largestSize, visualize)
  {
    if largestSize > 0 then InitHeap(start, HeapSize(largestSize, visualize)) else NoUsableMemory
  }
}
