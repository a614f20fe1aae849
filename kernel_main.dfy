// The memory part of `kernel_main_inner`, kernel/src/main.rs: the scan of the
// regions handed over in BootInfo for the largest conventional one, and the
// heap planned over it.

module KernelMain {
  import opened Base
  import opened Uefi

  /** The regions the kernel scans: `min(memory_map_count, memory_map.len())` of them. */
  function ScannedRegions(bootInfo: BootInfo): (regions: seq<MemoryRegion>)
    reads bootInfo, bootInfo.memoryMap
    ensures |regions| <= bootInfo.memoryMap.Length && |regions| <= bootInfo.memoryMapCount
    ensures forall i :: 0 <= i < |regions| ==> regions[i] == bootInfo.memoryMap[i]
  {
    bootInfo.memoryMap[..Min(bootInfo.memoryMapCount, bootInfo.memoryMap.Length)]
  }

  /** The `for` loop over the scanned regions, keeping `largest_start_phys` and `largest_size`. */
  method SelectLargestRegion(bootInfo: BootInfo) returns (largestStart: nat, largestSize: nat)
    ensures (largestStart, largestSize) == LargestConventional(ScannedRegions(bootInfo))
    ensures IsLargestConventional(ScannedRegions(bootInfo), largestStart, largestSize)
  {
    var regions := ScannedRegions(bootInfo);
    var safeCount := |regions|;
    largestStart, largestSize := 0, 0;
    for i := 0 to safeCount
      invariant (largestStart, largestSize) == LargestConventional(regions[..i])
    {
      var region := bootInfo.memoryMap[i];
      LargestStep(regions, i);
      if region.regionType == EFI_CONVENTIONAL_MEMORY && region.size > largestSize {
        largestStart := region.start;
        largestSize := region.size;
      }
    }
    assert regions[..safeCount] == regions;
    LargestConventionalPicks(regions);
  }

  /** The heap decision: a heap over the largest region, or "No usable memory found!". */
  method PlanKernelHeap(bootInfo: BootInfo, visualize: bool) returns (plan: HeapPlan)
    ensures var pick := LargestConventional(ScannedRegions(bootInfo));
      plan == PlanHeap(pick.0, pick.1, visualize)
    ensures plan.InitHeap? <==>
      exists i :: 0 <= i < |ScannedRegions(bootInfo)| &&
        Conventional(ScannedRegions(bootInfo)[i]) && ScannedRegions(bootInfo)[i].size > 0
  {
    var largestStart, largestSize := SelectLargestRegion(bootInfo);
    if largestSize > 0 {
      plan := InitHeap(largestStart, HeapSize(largestSize, visualize));
    } else {
      plan := NoUsableMemory;
    }
    FoundIffPositive(ScannedRegions(bootInfo), largestStart, largestSize);
  }
}
