// The memory part of `efi_main` in the early UEFI binary, src/main.rs: when
// GetMemoryMap succeeds, it lists the first entries, scans every descriptor
// for the largest conventional one and plans the heap over it. Its
// `memory_type_str` is the same table as the bootloader's, `Uefi.MemoryTypeName`.

module EarlyMain {
  import opened Base
  import opened Uefi

  /** What the memory section of `efi_main` produces. */
  datatype MemorySetup = MemorySetup(lines: seq<DisplayLine>, plan: HeapPlan)

  /** The scan over all `map_size / descriptor_size` descriptors, with size = pages * 4096. */
  method SelectLargestDescriptor(memMap: MemoryMap) returns (largestStart: nat, largestSize: nat)
    requires WellFormed(memMap)
    ensures (largestStart, largestSize) == LargestConventional(Regions(memMap))
    ensures IsLargestConventional(Regions(memMap), largestStart, largestSize)
  {
    var entryCount := memMap.mapSize / memMap.descriptorSize;
    var regions := Regions(memMap);
    assert |regions| == entryCount;
    largestStart, largestSize := 0, 0;
    for i := 0 to entryCount
      invariant (largestStart, largestSize) == LargestConventional(regions[..i])
    {
      var desc := Entry(memMap, i);
      RegionAt(memMap, i);
      LargestStep(regions, i);
      if desc.memType == EFI_CONVENTIONAL_MEMORY {
        var size := RegionOf(desc).size;
        if size > largestSize {
          largestStart := desc.physicalStart;
          largestSize := size;
        }
      }
    }
    assert regions[..entryCount] == regions;
    LargestConventionalPicks(regions);
  }

  /**
   * The memory section: nothing at all when GetMemoryMap failed; otherwise
   * the listing and the heap decision over every descriptor.
   */
  method SetUpMemory(memMap: MemoryMap, visualize: bool) returns (setup: Option<MemorySetup>)
    requires memMap.status == EFI_SUCCESS ==> WellFormed(memMap)
    ensures setup.None? <==> memMap.status != EFI_SUCCESS
    ensures setup.Some? ==>
      var pick := LargestConventional(Regions(memMap));
      setup.value.plan == PlanHeap(pick.0, pick.1, visualize) &&
      |setup.value.lines| == Min(EntryCount(memMap), MAX_DISPLAY) &&
      (forall i :: 0 <= i < |setup.value.lines| ==> setup.value.lines[i] == LineOf(Entry(memMap, i)))
    ensures setup.Some? ==>
      (setup.value.plan.InitHeap? <==>
        exists i :: 0 <= i < EntryCount(memMap) && Conventional(Regions(memMap)[i]) && Regions(memMap)[i].size > 0)
  {
    if memMap.status != EFI_SUCCESS {
      return None;
    }
    var lines := ShowMemoryMap(memMap);
    var largestStart, largestSize := SelectLargestDescriptor(memMap);
    var plan;
    if largestSize > 0 {
      plan := InitHeap(largestStart, HeapSize(largestSize, visualize));
    } else {
      plan := NoUsableMemory;
    }
    FoundIffPositive(Regions(memMap), largestStart, largestSize);
    setup := Some(MemorySetup(lines, plan));
  }
}
