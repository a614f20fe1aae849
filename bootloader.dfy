// The UEFI bootloader, bootloader/src/main.rs: it copies the map into BootInfo, loads the kernel's PT_LOAD
// segments from kernel.elf (zero-filling each segment's BSS tail) and
// returns the ELF entry point.  Firmware calls (LocateProtocol,
// OpenVolume, Open, Read) are oracle inputs: their statuses and the bytes
// Read leaves in the 2 MiB file buffer are parameters.  The ELF header and
// program-header layouts are those of the ELF-64 object file format
// (e_entry at 24, e_phoff at 32, e_phnum at 56; a 56-byte program header
// with p_type at 0, p_offset at 8, p_paddr at 24, p_filesz at 32 and
// p_memsz at 40).  Physical memory is an array of bytes.

module Bootloader {
  import opened Base
  import opened Uefi

  // ---- the memory map --------------------------------------------------------------

  /**
   * The BootInfo part of `efi_main`: the framebuffer (stride = width) is
   * always recorded; when GetMemoryMap succeeded, the first
   * `min(entry_count, 256)` entries are converted into regions and the
   * count stored.  Slots past the count keep their contents.
   */
  method FillBootInfo(bootInfo: BootInfo, fbBase: U64, fbSize: U64, width: U32, height: U32, memMap: MemoryMap)
    requires memMap.status == EFI_SUCCESS ==> WellFormed(memMap)
    requires bootInfo.memoryMap.Length == MAX_MEMORY_REGIONS
    modifies bootInfo, bootInfo.memoryMap
    ensures bootInfo.framebuffer == FramebufferInfo(fbBase, fbSize, width, height, width)
    ensures memMap.status != EFI_SUCCESS ==>
      bootInfo.memoryMapCount == old(bootInfo.memoryMapCount) && bootInfo.memoryMap[..] == old(bootInfo.memoryMap[..])
    ensures memMap.status == EFI_SUCCESS ==>
      bootInfo.memoryMapCount == Min(EntryCount(memMap), MAX_MEMORY_REGIONS) &&
      bootInfo.memoryMap[..bootInfo.memoryMapCount] == Regions(memMap)[..bootInfo.memoryMapCount] &&
      bootInfo.memoryMap[bootInfo.memoryMapCount..] ==
        old(bootInfo.memoryMap[Min(EntryCount(memMap), MAX_MEMORY_REGIONS)..])
    ensures bootInfo.rsdpAddress == old(bootInfo.rsdpAddress)
    ensures bootInfo.maxPhysicalAddress == old(bootInfo.maxPhysicalAddress)
  {
    bootInfo.framebuffer := FramebufferInfo(fbBase, fbSize, width, height, width);
    if memMap.status == EFI_SUCCESS {
      var count := CopyRegions(bootInfo.memoryMap, memMap);
      bootInfo.memoryMapCount := count;
      assert bootInfo.memoryMap[..count] == Regions(memMap)[..count];
    }
  }

  /** The copy loop: slot `i` gets entry `i`'s region, for the first `min(entry_count, len)` slots. */
  method CopyRegions(memoryMap: array<MemoryRegion>, memMap: MemoryMap) returns (count: nat)
    requires WellFormed(memMap)
    modifies memoryMap
    ensures count == Min(EntryCount(memMap), memoryMap.Length)
    ensures forall k :: 0 <= k < count ==> memoryMap[k] == Regions(memMap)[k]
    ensures forall k :: count <= k < memoryMap.Length ==> memoryMap[k] == old(memoryMap[k])
  {
    count := Min(EntryCount(memMap), memoryMap.Length);
    var i := 0;
    while i < count
      invariant 0 <= i <= count
      invariant forall k :: 0 <= k < i ==> memoryMap[k] == Regions(memMap)[k]
      invariant forall k :: i <= k < memoryMap.Length ==> memoryMap[k] == old(memoryMap[k])
    {
      var desc := Entry(memMap, i);
      RegionAt(memMap, i);
      memoryMap[i] := RegionOf(desc);
      i := i + 1;
    }
  }

  // ---- kernel.elf -------------------------------------------------------------------

  const FILE_BUFFER_SIZE: nat := 2 * 1024 * 1024
  const ELF_HEADER_SIZE: nat := 64
  const PROGRAM_HEADER_SIZE: nat := 56
  const PT_LOAD: nat := 1

  datatype ProgramHeader = ProgramHeader(pType: U32, offset: U64, paddr: U64, fileSize: U64, memSize: U64)

  function ElfEntry(file: seq<Byte>): U64
    requires |file| >= ELF_HEADER_SIZE
  {
    Pow256Widths();
    LeBytes(file, 24, 8)
  }

  function ElfPhoff(file: seq<Byte>): nat
    requires |file| >= ELF_HEADER_SIZE
  {
    LeBytes(file, 32, 8)
  }

  function ElfPhnum(file: seq<Byte>): nat
    requires |file| >= ELF_HEADER_SIZE
  {
    LeBytes(file, 56, 2)
  }

  function ProgramHeaderAt(file: seq<Byte>, offset: nat): ProgramHeader
    requires offset + PROGRAM_HEADER_SIZE <= |file|
  {
    Pow256Widths();
    ProgramHeader(LeBytes(file, offset, 4), LeBytes(file, offset + 8, 8), LeBytes(file, offset + 24, 8),
                  LeBytes(file, offset + 32, 8), LeBytes(file, offset + 40, 8))
  }

  /** The program-header table lies inside the file buffer. */
  predicate HeadersInside(file: seq<Byte>)
  {
    |file| >= ELF_HEADER_SIZE && ElfPhoff(file) + ElfPhnum(file) * PROGRAM_HEADER_SIZE <= |file|
  }

  lemma HeaderInside(file: seq<Byte>, i: nat)
    requires HeadersInside(file) && i < ElfPhnum(file)
    ensures ElfPhoff(file) + i * PROGRAM_HEADER_SIZE + PROGRAM_HEADER_SIZE <= |file|
  {
    MulMono(i + 1, ElfPhnum(file), PROGRAM_HEADER_SIZE);
  }

  /** Program header `i` of the table. */
  function HeaderAt(file: seq<Byte>, i: nat): ProgramHeader
    requires HeadersInside(file) && i < ElfPhnum(file)
  {
    HeaderInside(file, i);
    ProgramHeaderAt(file, ElfPhoff(file) + i * PROGRAM_HEADER_SIZE)
  }

  function ProgramHeaders(file: seq<Byte>): (hs: seq<ProgramHeader>)
    requires HeadersInside(file)
    ensures |hs| == ElfPhnum(file)
  {
    seq(ElfPhnum(file), i requires 0 <= i < ElfPhnum(file) && HeadersInside(file) => HeaderAt(file, i))
  }

  /** A PT_LOAD segment's source lies in the file and its destination in memory. */
  predicate SegmentFits(ph: ProgramHeader, file: seq<Byte>, memLength: nat)
  {
    ph.pType == PT_LOAD ==>
      ph.offset + ph.fileSize <= |file| && ph.paddr + Max(ph.fileSize, ph.memSize) <= memLength
  }

  predicate SegmentsFit(hs: seq<ProgramHeader>, file: seq<Byte>, memLength: nat)
  {
    forall i :: 0 <= i < |hs| ==> SegmentFits(hs[i], file, memLength)
  }

  /** Address `a` is written by segment `ph`: inside `[p_paddr, p_paddr + max(p_filesz, p_memsz))` of a PT_LOAD. */
  predicate Writes(ph: ProgramHeader, a: nat)
  {
    ph.pType == PT_LOAD && ph.paddr <= a < ph.paddr + Max(ph.fileSize, ph.memSize)
  }

  /** What segment `ph` puts at address `a`: the file byte, or 0 in the BSS tail. */
  function SegmentByte(file: seq<Byte>, ph: ProgramHeader, a: nat): Byte
    requires Writes(ph, a) && ph.offset + ph.fileSize <= |file|
  {
    if a < ph.paddr + ph.fileSize then file[ph.offset + (a - ph.paddr)] else 0
  }

  /** Memory after loading one segment; non-PT_LOAD segments change nothing. */
  function LoadSegment(m: seq<Byte>, file: seq<Byte>, ph: ProgramHeader): (r: seq<Byte>)
    requires SegmentFits(ph, file, |m|)
    ensures |r| == |m|
  {
    seq(|m|, a requires 0 <= a < |m| && SegmentFits(ph, file, |m|) =>
      if Writes(ph, a) then SegmentByte(file, ph, a) else m[a])
  }

  /** Memory after loading the segments in table order. */
  function LoadSegments(m: seq<Byte>, file: seq<Byte>, hs: seq<ProgramHeader>): (r: seq<Byte>)
    requires SegmentsFit(hs, file, |m|)
    ensures |r| == |m|
  {
    if |hs| == 0 then m
    else
      var before := LoadSegments(m, file, hs[..|hs| - 1]);
      LoadSegment(before, file, hs[|hs| - 1])
  }

  /** Bytes no PT_LOAD segment covers keep their old contents. */
  lemma {:induction false} LoadOutside(m: seq<Byte>, file: seq<Byte>, hs: seq<ProgramHeader>, a: nat)
    requires SegmentsFit(hs, file, |m|) && a < |m|
    requires forall i :: 0 <= i < |hs| ==> !Writes(hs[i], a)
    ensures LoadSegments(m, file, hs)[a] == m[a]
  {
    if |hs| > 0 {
      LoadOutside(m, file, hs[..|hs| - 1], a);
    }
  }

  /**
   * A byte of segment `k` that no later segment overwrites ends up as the
   * segment's file byte, or 0 in its BSS tail.
   */
  lemma {:induction false} LoadInside(m: seq<Byte>, file: seq<Byte>, hs: seq<ProgramHeader>, k: nat, a: nat)
    requires SegmentsFit(hs, file, |m|) && a < |m| && k < |hs| && Writes(hs[k], a)
    requires forall j :: k < j < |hs| ==> !Writes(hs[j], a)
    ensures hs[k].offset + hs[k].fileSize <= |file|
    ensures LoadSegments(m, file, hs)[a] == SegmentByte(file, hs[k], a)
  {
    assert SegmentFits(hs[k], file, |m|);
    if k < |hs| - 1 {
      LoadInside(m, file, hs[..|hs| - 1], k, a);
    }
  }

  /** `copy_nonoverlapping` of `p_filesz` bytes, then `write_bytes` of zeros over the rest of `p_memsz`. */
  method CopySegment(mem: array<Byte>, file: seq<Byte>, ph: ProgramHeader)
    requires ph.pType == PT_LOAD && SegmentFits(ph, file, mem.Length)
    modifies mem
    ensures mem[..] == LoadSegment(old(mem[..]), file, ph)
  {
    forall k | 0 <= k < ph.fileSize {
      mem[ph.paddr + k] := file[ph.offset + k];
    }
    if ph.memSize > ph.fileSize {
      forall k | ph.fileSize <= k < ph.memSize {
        mem[ph.paddr + k] := 0;
      }
    }
    assert forall a :: 0 <= a < mem.Length ==> mem[a] == LoadSegment(old(mem[..]), file, ph)[a];
  }

  /** The firmware's answers along the way: LocateProtocol, OpenVolume, Open, Read. */
  datatype FileSystem = FileSystem(locateStatus: nat, openVolumeStatus: nat, openStatus: nat, readStatus: nat)

  predicate FileRead(fs: FileSystem)
  {
    fs.locateStatus == EFI_SUCCESS && fs.openVolumeStatus == EFI_SUCCESS &&
    fs.openStatus == EFI_SUCCESS && fs.readStatus == EFI_SUCCESS
  }

  /** An image the loader can place: headers inside the buffer, segments inside file and memory. */
  predicate ImageFits(file: seq<Byte>, memLength: nat)
  {
    HeadersInside(file) && SegmentsFit(ProgramHeaders(file), file, memLength)
  }

  /**
   * `load_kernel_elf`: 0 when any firmware call fails or the header is
   * not a valid ELF header (`headerValid`, the result of
   * `Elf64Header::is_valid`); otherwise every PT_LOAD segment is loaded in
   * table order and `e_entry` returned.  `file` is the file buffer after
   * Read.
   */
  method LoadKernelElf(fs: FileSystem, file: seq<Byte>, headerValid: bool, mem: array<Byte>) returns (entry: U64)
    requires |file| == FILE_BUFFER_SIZE
    requires FileRead(fs) && headerValid ==> ImageFits(file, mem.Length)
    modifies mem
    ensures !(FileRead(fs) && headerValid) ==> entry == 0 && mem[..] == old(mem[..])
    ensures FileRead(fs) && headerValid ==>
      entry == ElfEntry(file) && mem[..] == LoadSegments(old(mem[..]), file, ProgramHeaders(file))
  {
    if fs.locateStatus != EFI_SUCCESS {
      return 0;
    }
    if fs.openVolumeStatus != EFI_SUCCESS {
      return 0;
    }
    var kernelName := ToUtf16("kernel.elf");
    if fs.openStatus != EFI_SUCCESS {
      return 0;
    }
    if fs.readStatus != EFI_SUCCESS {
      return 0;
    }
    if !headerValid {
      return 0;
    }
    ghost var hs := ProgramHeaders(file);
    var phnum := ElfPhnum(file);
    var i := 0;
    while i < phnum
      invariant 0 <= i <= phnum
      invariant mem[..] == LoadSegments(old(mem[..]), file, hs[..i])
    {
      var ph := HeaderAt(file, i);
      assert hs[..i + 1][..i] == hs[..i];
      assert ph == hs[i];
      if ph.pType == PT_LOAD {
        CopySegment(mem, file, ph);
      }
      i := i + 1;
    }
    assert hs[..phnum] == hs;
    return ElfEntry(file);
  }

  // ---- to_utf16 --------------------------------------------------------------------

  const NAME_UNITS: nat := 32

  /** The 32 code units `to_utf16` produces: the first 31 characters cut to 16 bits, zeros after. */
  function Utf16Name(s: string): (units: seq<U16>)
    ensures |units| == NAME_UNITS
  {
    seq(NAME_UNITS, i requires 0 <= i < NAME_UNITS =>
      if i < |s| && i < NAME_UNITS - 1 then s[i] as int % U16_LIMIT else 0)
  }

  /** `to_utf16`: fills a zeroed buffer of 32 units, stopping after 31 characters. */
  method ToUtf16(s: string) returns (units: seq<U16>)
    ensures units == Utf16Name(s)
  {
    var buf := new U16[NAME_UNITS](_ => 0);
    var i := 0;
    while i < |s|
      invariant 0 <= i <= |s| && i <= NAME_UNITS - 1
      invariant forall k :: 0 <= k < NAME_UNITS ==> buf[k] == (if k < i then s[k] as int % U16_LIMIT else 0)
    {
      if i >= NAME_UNITS - 1 {
        break;
      }
      buf[i] := s[i] as int % U16_LIMIT;
      i := i + 1;
    }
    units := buf[..];
  }

  /**
   * The name is always NUL-terminated: the unit after the stored
   * characters, and the last unit, are 0; a character in the Basic
   * Multilingual Plane is stored as its own code.
   */
  lemma Utf16NameTerminated(s: string)
    ensures Utf16Name(s)[Min(|s|, NAME_UNITS - 1)] == 0 && Utf16Name(s)[NAME_UNITS - 1] == 0
    ensures forall i :: 0 <= i < Min(|s|, NAME_UNITS - 1) && (s[i] as int) < U16_LIMIT ==>
      Utf16Name(s)[i] == s[i] as int
  {
  }
}
