// The slab allocator of the early UEFI binary, src/allocator.rs.
//
// Ten caches of fixed-size blocks (8 .. 4096 bytes) keep their free
// blocks on intrusive singly linked lists: a free block holds the address
// of the next one.  The model keeps each list as the sequence of block
// addresses, head first; the `next` words stored inside the blocks are
// not modelled.  Requests a cache cannot serve go to a bump region that
// never gives memory back.  Addresses are `usize` values; `0` is the null
// pointer.

module Allocator {
  import opened Base
  import Addr

  /** `SIZE_CLASSES`. */
  const SIZE_CLASSES: seq<nat> := [8, 16, 32, 64, 128, 256, 512, 1024, 2048, 4096]
  const NUM_SIZE_CLASSES: nat := 10

  /** The size classes are the powers of two from 8 to 4096, ascending. */
  lemma SizeClassesShape()
    ensures |SIZE_CLASSES| == NUM_SIZE_CLASSES
    ensures forall i :: 0 <= i < NUM_SIZE_CLASSES ==> Addr.PowerOfTwo(SIZE_CLASSES[i])
    ensures forall i :: 0 < i < NUM_SIZE_CLASSES ==> SIZE_CLASSES[i] == 2 * SIZE_CLASSES[i - 1]
    ensures SIZE_CLASSES[0] == 8 && SIZE_CLASSES[NUM_SIZE_CLASSES - 1] == 4096
  {
    Addr.SmallPowersOfTwo();
  }

  lemma {:induction false} SizeClassesAscending(i: nat, j: nat)
    requires i < j < NUM_SIZE_CLASSES
    ensures SIZE_CLASSES[i] < SIZE_CLASSES[j]
    decreases j - i
  {
    SizeClassesShape();
    if i + 1 < j {
      SizeClassesAscending(i + 1, j);
    }
  }

  // ---- size_to_class --------------------------------------------------------

  /** `position(|&s| s >= size)` over the classes from index `from` on. */
  function FirstClassFrom(size: nat, from: nat): (r: Option<nat>)
    requires from <= NUM_SIZE_CLASSES
    ensures r.Some? ==> from <= r.value < NUM_SIZE_CLASSES && SIZE_CLASSES[r.value] >= size
    ensures r.Some? ==> forall j :: from <= j < r.value ==> SIZE_CLASSES[j] < size
    ensures r.None? <==> forall j :: from <= j < NUM_SIZE_CLASSES ==> SIZE_CLASSES[j] < size
    decreases NUM_SIZE_CLASSES - from
  {
    if from == NUM_SIZE_CLASSES then None
    else if SIZE_CLASSES[from] >= size then Some(from)
    else FirstClassFrom(size, from + 1)
  }

  /** `size_to_class`: the index of the first class of at least `size` bytes. */
  function SizeToClass(size: nat): Option<nat>
  {
    FirstClassFrom(size, 0)
  }

  /**
   * The class found is the smallest one that holds `size` bytes, and there
   * is none exactly when `size` exceeds 4096.
   */
  lemma SizeToClassIsSmallestFit(size: nat)
    ensures SizeToClass(size).None? <==> size > 4096
    ensures SizeToClass(size).Some? ==>
      var c := SizeToClass(size).value;
      c < NUM_SIZE_CLASSES && size <= SIZE_CLASSES[c] &&
      forall j :: 0 <= j < NUM_SIZE_CLASSES && size <= SIZE_CLASSES[j] ==> c <= j
  {
    SizeClassesShape();
    var r := SizeToClass(size);
    if r.None? {
      assert SIZE_CLASSES[NUM_SIZE_CLASSES - 1] < size;
    }
  }

  /** A block wastes less than half of itself: the class below would not have held `size` bytes. */
  lemma SizeToClassIsTight(size: nat)
    requires 8 < size <= 4096
    ensures SizeToClass(size).Some? && SIZE_CLASSES[SizeToClass(size).value] < 2 * size
  {
    SizeClassesShape();
    SizeToClassIsSmallestFit(size);
    var c := SizeToClass(size).value;
    assert c > 0;
    assert SIZE_CLASSES[c - 1] < size;
  }

  // ---- free lists -----------------------------------------------------------

  /** The address `allocate` hands out: the head of the list, or null. */
  function Head(list: seq<nat>): nat
  {
    if list == [] then 0 else list[0]
  }

  /** The list after `allocate`. */
  function Tail(list: seq<nat>): seq<nat>
  {
    if list == [] then [] else list[1..]
  }

  /**
   * The list after `deallocate(ptr)`: the block becomes the head.  A null
   * `ptr` makes `NonNull::new` yield `None`, which empties the list.
   */
  function Push(list: seq<nat>, ptr: nat): (r: seq<nat>)
    ensures ptr != 0 ==> |r| == |list| + 1
    ensures ptr == 0 ==> r == []
  {
    if ptr == 0 then [] else [ptr] + list
  }

  /** No free list holds the null address. */
  predicate NonNull(list: seq<nat>)
  {
    forall i :: 0 <= i < |list| ==> list[i] != 0
  }

  /** LIFO: a block given back is the next one handed out, and the list is as before. */
  lemma PushThenPop(list: seq<nat>, ptr: nat)
    requires ptr != 0
    ensures Head(Push(list, ptr)) == ptr && Tail(Push(list, ptr)) == list
  {
  }

  /** On a list without null entries, `allocate` returns null exactly when the list is empty. */
  lemma HeadNullIffEmpty(list: seq<nat>)
    requires NonNull(list)
    ensures Head(list) == 0 <==> list == []
    ensures NonNull(Tail(list))
  {
  }

  /** Giving back a non-null block keeps the list free of null entries. */
  lemma PushKeepsNonNull(list: seq<nat>, ptr: nat)
    requires NonNull(list)
    ensures NonNull(Push(list, ptr))
  {
  }

  /** The list after `add_slab`'s first `n` iterations: blocks `start + i * size` pushed for `i < n`. */
  function PushBlocks(list: seq<nat>, start: nat, size: nat, n: nat): seq<nat>
    decreases n
  {
    if n == 0 then list else Push(PushBlocks(list, start, size, n - 1), start + (n - 1) * size)
  }

  /** The blocks of a slab as they end up on the list: the last one first. */
  function SlabBlocks(start: nat, size: nat, n: nat): (r: seq<nat>)
    ensures |r| == n
    decreases n
  {
    if n == 0 then [] else [start + (n - 1) * size] + SlabBlocks(start, size, n - 1)
  }

  /** For a slab away from address 0, `add_slab` puts its blocks, last first, in front of the old list. */
  lemma {:induction false} PushBlocksPrepends(list: seq<nat>, start: nat, size: nat, n: nat)
    requires start > 0
    ensures PushBlocks(list, start, size, n) == SlabBlocks(start, size, n) + list
    decreases n
  {
    if n > 0 {
      PushBlocksPrepends(list, start, size, n - 1);
    }
  }

  /** Element `j` of the slab's blocks is block number `n - 1 - j`, at `start + (n - 1 - j) * size`. */
  lemma {:induction false} SlabBlocksAt(start: nat, size: nat, n: nat, j: nat)
    requires j < n
    ensures SlabBlocks(start, size, n)[j] == start + size * (n - 1 - j)
    decreases n
  {
    if j > 0 {
      SlabBlocksAt(start, size, n - 1, j - 1);
    }
  }

  /**
   * The blocks of a slab are pairwise `size` apart in steps, so distinct
   * and non-overlapping, and all lie in `[start, start + n * size)`.
   */
  lemma SlabBlocksDisjoint(start: nat, size: nat, n: nat, i: nat, j: nat)
    requires size > 0 && i < j < n
    ensures SlabBlocks(start, size, n)[j] + size <= SlabBlocks(start, size, n)[i]
    ensures start <= SlabBlocks(start, size, n)[j] && SlabBlocks(start, size, n)[i] + size <= start + size * n
  {
    SlabBlocksAt(start, size, n, i);
    SlabBlocksAt(start, size, n, j);
    Addr.MulStrict(size, n - 1 - j, n - 1 - i);
    Addr.MulStrict(size, n - 1 - i, n);
  }

  /** One size class: the block size and the free list. */
  class SlabCache {
    const blockSize: nat
    var freeList: seq<nat>

    ghost predicate Valid()
      reads this
    {
      blockSize > 0 && NonNull(freeList)
    }

    /** `SlabCache::new`: an empty list. */
    constructor (blockSize: nat)
      requires blockSize > 0
      ensures Valid() && this.blockSize == blockSize && freeList == []
    {
      this.blockSize := blockSize;
      freeList := [];
    }

    /** `allocate`: pop the head, or null when the list is empty. */
    method Allocate() returns (ptr: nat)
      requires Valid()
      modifies this
      ensures Valid()
      ensures ptr == Head(old(freeList)) && freeList == Tail(old(freeList))
      ensures ptr == 0 <==> old(freeList) == []
    {
      HeadNullIffEmpty(freeList);
      if freeList != [] {
        ptr := freeList[0];
        freeList := freeList[1..];
      } else {
        ptr := 0;
      }
    }

    /** `deallocate`: push the block onto the head. */
    method Deallocate(ptr: nat)
      requires Valid()
      modifies this
      ensures Valid() && freeList == Push(old(freeList), ptr)
    {
      PushKeepsNonNull(freeList, ptr);
      if ptr == 0 {
        freeList := [];
      } else {
        freeList := [ptr] + freeList;
      }
    }

    /** `add_slab`: cut `slabSize` bytes from `slabStart` into blocks and give each back in address order. */
    method AddSlab(slabStart: nat, slabSize: nat)
      requires Valid() && slabStart + slabSize < U64_LIMIT
      modifies this
      ensures Valid() && freeList == PushBlocks(old(freeList), slabStart, blockSize, slabSize / blockSize)
    {
      var numBlocks := slabSize / blockSize;
      for i := 0 to numBlocks
        invariant Valid() && freeList == PushBlocks(old(freeList), slabStart, blockSize, i)
      {
        var blockAddr := slabStart + i * blockSize;
        Deallocate(blockAddr);
      }
    }
  }

  // ---- the allocator --------------------------------------------------------

  /** The bytes `init` gives class `i`: `align_down(heap_size / 2 / 10, SIZE_CLASSES[i])`. */
  function SlabBytes(heapSize: U64, i: nat): (r: nat)
    requires i < NUM_SIZE_CLASSES
    ensures r % SIZE_CLASSES[i] == 0 && r <= heapSize / 2 / NUM_SIZE_CLASSES < r + SIZE_CLASSES[i]
  {
    SizeClassesShape();
    Addr.AlignDown(heapSize / 2 / NUM_SIZE_CLASSES, SIZE_CLASSES[i])
  }

  /** Where `init` starts the slab of class `i`: right after the slabs of the classes before it. */
  function SlabStart(heapStart: nat, heapSize: U64, i: nat): nat
    requires i <= NUM_SIZE_CLASSES
  {
    if i == 0 then heapStart else SlabStart(heapStart, heapSize, i - 1) + SlabBytes(heapSize, i - 1)
  }

  /** The slabs lie one after the other and never reach past `i` tenths of the first half of the heap. */
  lemma {:induction false} SlabStartBound(heapStart: nat, heapSize: U64, i: nat)
    requires i <= NUM_SIZE_CLASSES
    ensures heapStart <= SlabStart(heapStart, heapSize, i) <= heapStart + (heapSize / 2 / NUM_SIZE_CLASSES) * i
  {
    if i > 0 {
      var q := heapSize / 2 / NUM_SIZE_CLASSES;
      SlabStartBound(heapStart, heapSize, i - 1);
      assert q * i == q * (i - 1) + q;
    }
  }

  /**
   * `init`'s layout: class `i` gets a whole number of its blocks, its slab
   * starts where the previous one ends, and all slabs fit in the first
   * half of the heap, below the bump region.
   */
  lemma InitLayout(heapStart: nat, heapSize: U64, i: nat)
    requires i < NUM_SIZE_CLASSES
    ensures SlabBytes(heapSize, i) % SIZE_CLASSES[i] == 0
    ensures SlabStart(heapStart, heapSize, i + 1) == SlabStart(heapStart, heapSize, i) + SlabBytes(heapSize, i)
    ensures heapStart <= SlabStart(heapStart, heapSize, i)
    ensures SlabStart(heapStart, heapSize, i + 1) <= heapStart + heapSize / 2
  {
    SlabStartBound(heapStart, heapSize, i);
    SlabStartBound(heapStart, heapSize, i + 1);
    TenthsFit(heapSize / 2, i + 1);
  }

  /** `k` of the ten equal shares of `half` fit in `half`. */
  lemma TenthsFit(half: nat, k: nat)
    requires k <= NUM_SIZE_CLASSES
    ensures (half / NUM_SIZE_CLASSES) * k <= half
  {
    var q := half / NUM_SIZE_CLASSES;
    MulMono(k, NUM_SIZE_CLASSES, q);
    assert q * NUM_SIZE_CLASSES <= half;
  }

  /** Class `i`'s list after `init`: its slab's blocks pushed onto `list`. */
  function InitList(list: seq<nat>, heapStart: nat, heapSize: U64, i: nat): seq<nat>
    requires i < NUM_SIZE_CLASSES
  {
    PushBlocks(list, SlabStart(heapStart, heapSize, i), SIZE_CLASSES[i], SlabBytes(heapSize, i) / SIZE_CLASSES[i])
  }

  /**
   * On a heap away from address 0, `init` puts exactly the blocks of
   * class `i`'s slab in front of its list, each whole block inside the
   * slab `[SlabStart(i), SlabStart(i + 1))`.
   */
  lemma InitListIsSlab(list: seq<nat>, heapStart: nat, heapSize: U64, i: nat)
    requires heapStart > 0 && i < NUM_SIZE_CLASSES
    ensures var n := SlabBytes(heapSize, i) / SIZE_CLASSES[i];
      InitList(list, heapStart, heapSize, i) == SlabBlocks(SlabStart(heapStart, heapSize, i), SIZE_CLASSES[i], n) + list
    ensures forall k :: 0 <= k < SlabBytes(heapSize, i) / SIZE_CLASSES[i] ==>
      SlabStart(heapStart, heapSize, i) <= SlabBlocks(SlabStart(heapStart, heapSize, i), SIZE_CLASSES[i], SlabBytes(heapSize, i) / SIZE_CLASSES[i])[k] &&
      SlabBlocks(SlabStart(heapStart, heapSize, i), SIZE_CLASSES[i], SlabBytes(heapSize, i) / SIZE_CLASSES[i])[k] + SIZE_CLASSES[i] <= SlabStart(heapStart, heapSize, i + 1)
  {
    var start, size, bytes := SlabStart(heapStart, heapSize, i), SIZE_CLASSES[i], SlabBytes(heapSize, i);
    var n := bytes / size;
    InitLayout(heapStart, heapSize, i);
    PushBlocksPrepends(list, start, size, n);
    assert size * n == bytes;
    forall k | 0 <= k < n
      ensures start <= SlabBlocks(start, size, n)[k] && SlabBlocks(start, size, n)[k] + size <= start + bytes
    {
      SlabBlocksAt(start, size, n, k);
      Addr.MulStrict(size, n - 1 - k, n);
    }
  }

  /** The address `allocate_large` would return: `next` aligned up. */
  function BumpStart(next: U64, align: U64): U64
    requires Addr.PowerOfTwo(align) && next + align - 1 < U64_LIMIT
  {
    Addr.AlignUp(next, align)
  }

  /** The end of that block, with `saturating_add`. */
  function BumpEnd(next: U64, size: nat, align: U64): nat
    requires Addr.PowerOfTwo(align) && next + align - 1 < U64_LIMIT
  {
    SaturatingAdd(BumpStart(next, align), size)
  }

  /**
   * A successful bump allocation is an aligned block at or after `next`
   * that ends at or before `end` (unless `end` is the very last address,
   * where the saturated sum can hide an overflow).
   */
  lemma BumpBlockFits(next: U64, end: U64, size: nat, align: U64)
    requires Addr.PowerOfTwo(align) && next + align - 1 < U64_LIMIT && BumpEnd(next, size, align) <= end < U64_MAX
    ensures BumpStart(next, align) % align == 0 && next <= BumpStart(next, align)
    ensures BumpStart(next, align) + size == BumpEnd(next, size, align) <= end
  {
  }

  /** The allocator: ten caches and the bump region `[largeStart, largeEnd)` with cursor `largeNext`. */
  class SlabAllocator {
    const caches: seq<SlabCache>
    var largeStart: nat
    var largeNext: nat
    var largeEnd: nat

    ghost predicate Valid()
      reads this, caches
    {
      |caches| == NUM_SIZE_CLASSES &&
      (forall i :: 0 <= i < NUM_SIZE_CLASSES ==> caches[i].Valid() && caches[i].blockSize == SIZE_CLASSES[i]) &&
      (forall i, j :: 0 <= i < j < NUM_SIZE_CLASSES ==> caches[i] != caches[j]) &&
      largeStart <= largeNext <= largeEnd < U64_LIMIT
    }

    /** `SlabAllocator::new`: empty lists and an empty bump region at 0. */
    constructor ()
      ensures Valid() && fresh(caches)
      ensures forall i :: 0 <= i < NUM_SIZE_CLASSES ==> caches[i].freeList == []
      ensures largeStart == 0 && largeNext == 0 && largeEnd == 0
    {
      SizeClassesShape();
      var cs: seq<SlabCache> := [];
      for i := 0 to NUM_SIZE_CLASSES
        invariant |cs| == i && fresh(cs)
        invariant forall j :: 0 <= j < i ==> cs[j].Valid() && cs[j].blockSize == SIZE_CLASSES[j] && cs[j].freeList == []
        invariant forall j, k :: 0 <= j < k < i ==> cs[j] != cs[k]
      {
        var c := new SlabCache(SIZE_CLASSES[i]);
        cs := cs + [c];
      }
      caches := cs;
      largeStart, largeNext, largeEnd := 0, 0, 0;
    }

    /** `caches[i].add_slab(start, bytes)`: only class `i`'s list changes. */
    method AddSlabTo(i: nat, start: nat, bytes: nat)
      requires Valid() && i < NUM_SIZE_CLASSES && start + bytes < U64_LIMIT
      modifies caches[i]
      ensures Valid()
      ensures caches[i].freeList == PushBlocks(old(caches[i].freeList), start, SIZE_CLASSES[i], bytes / SIZE_CLASSES[i])
      ensures forall j :: 0 <= j < NUM_SIZE_CLASSES && j != i ==> caches[j].freeList == old(caches[j].freeList)
    {
      caches[i].AddSlab(start, bytes);
    }

    /** `caches[c].allocate()`: only class `c`'s list changes. */
    method TakeFrom(c: nat) returns (ptr: nat)
      requires Valid() && c < NUM_SIZE_CLASSES
      modifies caches[c]
      ensures Valid()
      ensures ptr == Head(old(caches[c].freeList)) && caches[c].freeList == Tail(old(caches[c].freeList))
      ensures ptr == 0 <==> old(caches[c].freeList) == []
      ensures forall j :: 0 <= j < NUM_SIZE_CLASSES && j != c ==> caches[j].freeList == old(caches[j].freeList)
    {
      ptr := caches[c].Allocate();
    }

    /** `caches[c].deallocate(ptr)`: only class `c`'s list changes. */
    method GiveTo(c: nat, ptr: nat)
      requires Valid() && c < NUM_SIZE_CLASSES
      modifies caches[c]
      ensures Valid()
      ensures caches[c].freeList == Push(old(caches[c].freeList), ptr)
      ensures forall j :: 0 <= j < NUM_SIZE_CLASSES && j != c ==> caches[j].freeList == old(caches[j].freeList)
    {
      caches[c].Deallocate(ptr);
    }

    /**
     * `init`: the first half of the heap is cut into one slab per class,
     * consecutively from `heapStart`; the second half becomes the bump
     * region.
     */
    method Init(heapStart: nat, heapSize: U64)
      requires Valid() && heapStart + heapSize < U64_LIMIT
      modifies this, caches
      ensures Valid()
      ensures forall i :: 0 <= i < NUM_SIZE_CLASSES ==>
        caches[i].freeList == InitList(old(caches[i].freeList), heapStart, heapSize, i)
      ensures largeStart == heapStart + heapSize / 2 && largeNext == largeStart && largeEnd == heapStart + heapSize
    {
      var slabRegionSize := heapSize / 2;
      var largeRegionStart := heapStart + slabRegionSize;
      var current := heapStart;
      for i := 0 to NUM_SIZE_CLASSES
        invariant Valid() && largeStart == old(largeStart) && largeNext == old(largeNext) && largeEnd == old(largeEnd)
        invariant current == SlabStart(heapStart, heapSize, i)
        invariant forall j :: 0 <= j < i ==> caches[j].freeList == InitList(old(caches[j].freeList), heapStart, heapSize, j)
        invariant forall j :: i <= j < NUM_SIZE_CLASSES ==> caches[j].freeList == old(caches[j].freeList)
      {
        InitLayout(heapStart, heapSize, i);
        var alignedSize := SlabBytes(heapSize, i);
        AddSlabTo(i, current, alignedSize);
        current := current + alignedSize;
      }
      SetLargeRegion(largeRegionStart, heapStart + heapSize);
    }

    /** The stores at the end of `init`: the bump region is `[start, end)`, none of it used. */
    method SetLargeRegion(start: nat, end: nat)
      requires Valid() && start <= end < U64_LIMIT
      modifies this
      ensures Valid() && largeStart == start && largeNext == start && largeEnd == end
    {
      largeStart := start;
      largeNext := start;
      largeEnd := end;
    }

    /** `allocate_large`: bump `largeNext` past an aligned block, or return null and change nothing. */
    method AllocateLarge(size: nat, align: U64) returns (ptr: nat)
      requires Valid() && Addr.PowerOfTwo(align) && largeNext + align - 1 < U64_LIMIT
      modifies this
      ensures Valid() && largeStart == old(largeStart) && largeEnd == old(largeEnd)
      ensures BumpEnd(old(largeNext), size, align) > largeEnd ==> ptr == 0 && largeNext == old(largeNext)
      ensures BumpEnd(old(largeNext), size, align) <= largeEnd ==>
        ptr == BumpStart(old(largeNext), align) && largeNext == BumpEnd(old(largeNext), size, align)
      ensures old(largeNext) <= largeNext
    {
      var allocStart := Addr.AlignUp(largeNext, align);
      var allocEnd := SaturatingAdd(allocStart, size);
      if allocEnd > largeEnd {
        ptr := 0;
      } else {
        largeNext := allocEnd;
        ptr := allocStart;
      }
    }

    /**
     * `alloc`: the class of `max(size, align)` serves the request when it
     * has a free block; otherwise (no class, or an empty list) the bump
     * region does, with the original size and alignment.
     */
    method Alloc(size: nat, align: U64) returns (ptr: nat)
      requires Valid() && Addr.PowerOfTwo(align) && largeNext + align - 1 < U64_LIMIT
      modifies this, caches
      ensures Valid() && largeStart == old(largeStart) && largeEnd == old(largeEnd)
      ensures var c := SizeToClass(Max(size, align));
        if c.Some? && old(caches[c.value].freeList) != [] then
          ptr == Head(old(caches[c.value].freeList)) && caches[c.value].freeList == Tail(old(caches[c.value].freeList)) &&
          largeNext == old(largeNext) &&
          forall j :: 0 <= j < NUM_SIZE_CLASSES && j != c.value ==> caches[j].freeList == old(caches[j].freeList)
        else
          (forall j :: 0 <= j < NUM_SIZE_CLASSES ==> caches[j].freeList == old(caches[j].freeList)) &&
          (BumpEnd(old(largeNext), size, align) > largeEnd ==> ptr == 0 && largeNext == old(largeNext)) &&
          (BumpEnd(old(largeNext), size, align) <= largeEnd ==>
            ptr == BumpStart(old(largeNext), align) && largeNext == BumpEnd(old(largeNext), size, align))
    {
      var s := Max(size, align);
      var c := SizeToClass(s);
      if c.Some? {
        var p := TakeFrom(c.value);
        if p != 0 {
          return p;
        }
      }
      ptr := AllocateLarge(size, align);
    }

    /** `dealloc`: a block of a class size goes back on that class's list; larger blocks are dropped. */
    method Dealloc(ptr: nat, size: nat, align: U64)
      requires Valid()
      modifies caches
      ensures Valid()
      ensures var c := SizeToClass(Max(size, align));
        (c.Some? ==> caches[c.value].freeList == Push(old(caches[c.value].freeList), ptr)) &&
        forall j :: 0 <= j < NUM_SIZE_CLASSES && (c.None? || j != c.value) ==> caches[j].freeList == old(caches[j].freeList)
    {
      var s := Max(size, align);
      var c := SizeToClass(s);
      if c.Some? {
        GiveTo(c.value, ptr);
      }
    }

    /** `count_free_blocks`: walk the list of class `classIdx`; 0 for an index past the last class. */
    method CountFreeBlocks(classIdx: nat) returns (count: nat)
      requires Valid()
      ensures count == if classIdx < NUM_SIZE_CLASSES then |caches[classIdx].freeList| else 0
    {
      if classIdx >= NUM_SIZE_CLASSES {
        return 0;
      }
      var current := caches[classIdx].freeList;
      count := 0;
      while current != []
        invariant count + |current| == |caches[classIdx].freeList|
        decreases |current|
      {
        count := count + 1;
        current := current[1..];
      }
    }

    /** `large_alloc_usage`: bytes handed out by the bump region and its total size. */
    method LargeAllocUsage() returns (used: nat, total: nat)
      requires Valid()
      ensures used == largeNext - largeStart && total == largeEnd - largeStart && used <= total
    {
      used := largeNext - largeStart;
      total := largeEnd - largeStart;
    }
  }
}
