// The compositor's shadow framebuffer, kernel/src/graphics/shadow_buffer.rs:
// an off-screen pixel buffer of `width * height` pixels with one dirty
// rectangle that grows as drawing happens and is copied to the hardware
// framebuffer, and cleared, by `blit_to`.
//
// The dirty rectangle arithmetic is given as functions (`Clip`, `Merge`,
// `MarkDirty`, `Blit`) whose properties are proved as lemmas; the class
// `ShadowBuffer` owns the pixel array and the rectangle and its methods
// are proved to leave the state those functions describe.

module ShadowBuffers {
  import opened Base
  import opened Regions
  import opened Framebuffer

  /** The whole buffer as a region. */
  function Screen(width: U32, height: U32): Region
  {
    Region(0, 0, width, height)
  }

  /** The dirty rectangle, when there is one, lies within the buffer. */
  predicate DirtyInBounds(dirty: Option<Region>, width: U32, height: U32)
  {
    dirty.Some? ==> Within(dirty.value, Screen(width, height))
  }

  /**
   * The clipping step of `mark_dirty`: the region cut down to
   * `[0, width] x [0, height]`, or None when nothing of it is left.
   */
  function Clip(region: Region, width: U32, height: U32): (c: Option<Region>)
    requires NoOverflow(region)
    ensures c.Some? ==> c.value.width > 0 && c.value.height > 0 && Within(c.value, Screen(width, height))
  {
    var x := Min(region.x, width);
    var y := Min(region.y, height);
    var right := Min(region.x + region.width, width);
    var bottom := Min(region.y + region.height, height);
    if right <= x || bottom <= y then None
    else Some(Region(x, y, right - x, bottom - y))
  }

  /** The smallest region containing both arguments (their bounding box). */
  function Merge(a: Region, b: Region): (m: Region)
    requires NoOverflow(a) && NoOverflow(b)
    ensures NoOverflow(m)
  {
    var minX := Min(a.x, b.x);
    var minY := Min(a.y, b.y);
    var maxX := Max(Right(a), Right(b));
    var maxY := Max(Bottom(a), Bottom(b));
    Region(minX, minY, maxX - minX, maxY - minY)
  }

  /** `mark_dirty`: clip, ignore an empty result, else merge into the existing rectangle. */
  function MarkDirty(dirty: Option<Region>, width: U32, height: U32, region: Region): (r: Option<Region>)
    requires NoOverflow(region)
    requires DirtyInBounds(dirty, width, height)
    ensures Clip(region, width, height).None? ==> r == dirty
    ensures Clip(region, width, height).Some? && dirty.None? ==> r == Clip(region, width, height)
    ensures Clip(region, width, height).Some? && dirty.Some? ==>
      r == Some(Merge(dirty.value, Clip(region, width, height).value))
  {
    match Clip(region, width, height)
    case None => dirty
    case Some(clipped) =>
      match dirty
      case Some(existing) => Some(Merge(existing, clipped))
      case None => Some(clipped)
  }

  /**
   * Clipping keeps exactly the points of the region that lie on the
   * buffer, and loses a region only when no such point exists.
   */
  lemma ClipIsIntersection(region: Region, width: U32, height: U32, px: U32, py: U32)
    requires NoOverflow(region)
    ensures Clip(region, width, height).Some? ==>
      (Contains(Clip(region, width, height).value, px, py) <==>
        Contains(region, px, py) && px < width && py < height)
    ensures Clip(region, width, height).None? ==>
      !(Contains(region, px, py) && px < width && py < height)
  {
  }

  /** `Merge` contains both arguments, and any region containing both contains it. */
  lemma MergeIsBoundingBox(a: Region, b: Region, q: Region)
    requires NoOverflow(a) && NoOverflow(b)
    ensures Within(a, Merge(a, b)) && Within(b, Merge(a, b))
    ensures Within(a, q) && Within(b, q) ==> Within(Merge(a, b), q)
  {
  }

  /** `mark_dirty` keeps the dirty rectangle within the buffer. */
  lemma MarkDirtyInBounds(dirty: Option<Region>, width: U32, height: U32, region: Region)
    requires NoOverflow(region)
    requires DirtyInBounds(dirty, width, height)
    ensures DirtyInBounds(MarkDirty(dirty, width, height, region), width, height)
  {
    var c := Clip(region, width, height);
    if c.Some? && dirty.Some? {
      MergeIsBoundingBox(dirty.value, c.value, Screen(width, height));
    }
  }

  /** The old dirty rectangle stays covered: marking never shrinks it. */
  lemma MarkDirtyGrows(dirty: Option<Region>, width: U32, height: U32, region: Region)
    requires NoOverflow(region)
    requires DirtyInBounds(dirty, width, height)
    requires dirty.Some?
    ensures MarkDirty(dirty, width, height, region).Some?
    ensures Within(dirty.value, MarkDirty(dirty, width, height, region).value)
  {
    var c := Clip(region, width, height);
    if c.Some? {
      MergeIsBoundingBox(dirty.value, c.value, dirty.value);
    }
  }

  /** The offset of pixel `(dx, dy)` of a rectangle in a buffer `stride` pixels wide. */
  function RectOffset(stride: nat, d: Region, dy: nat, dx: nat): nat
  {
    (d.y + dy) * stride + d.x + dx
  }

  /** The rows of a dirty rectangle as grid cells: row `dy`, column `dx`. */
  function RectGrid(stride: nat, d: Region): Grid
  {
    Grid(d.height, d.width, (dy: nat, dx: nat) => true, (dy: nat, dx: nat) => RectOffset(stride, d, dy, dx))
  }

  lemma RectOffsetBound(stride: nat, rows: nat, d: Region, dy: nat, dx: nat)
    requires d.x + dx < stride && d.y + dy < rows
    ensures RectOffset(stride, d, dy, dx) < stride * rows
  {
    MulMono(d.y + dy + 1, rows, stride);
    assert (d.y + dy + 1) * stride == (d.y + dy) * stride + stride;
  }

  /** Every pixel of a rectangle within a `stride x rows` buffer has an offset below `stride * rows`. */
  lemma RectFits(stride: U32, rows: U32, d: Region, len: nat)
    requires Within(d, Screen(stride, rows)) && stride * rows <= len
    ensures Fits(RectGrid(stride, d), len)
  {
    var g := RectGrid(stride, d);
    forall o: nat, i: nat | o < g.outer && i < g.inner && g.hit(o, i)
      ensures 0 <= g.at(o, i) < len
    {
      RectOffsetBound(stride, rows, d, o, i);
    }
  }

  /** The pixel value of the source at each offset. */
  function Source(src: seq<bv32>): int -> bv32
  {
    p => if 0 <= p < |src| then src[p] else 0
  }

  /** What `blit_to` leaves in the destination. */
  function Blit(dst: seq<bv32>, src: seq<bv32>, stride: nat, dirty: Option<Region>): (r: seq<bv32>)
    requires dirty.Some? ==> Fits(RectGrid(stride, dirty.value), |dst|)
    ensures |r| == |dst|
  {
    if dirty.None? then dst else PaintGrid(dst, RectGrid(stride, dirty.value), dirty.value.height, Source(src))
  }

  /**
   * `blit_to` copies exactly the dirty rectangle's pixels, each to the same
   * offset, and leaves every other destination pixel as it was; with no
   * dirty rectangle it copies nothing.
   */
  lemma BlitCopiesDirtyRect(dst: seq<bv32>, src: seq<bv32>, stride: nat, dirty: Option<Region>, p: nat)
    requires dirty.Some? ==> Fits(RectGrid(stride, dirty.value), |dst|)
    requires |src| <= |dst| && p < |dst|
    ensures dirty.None? ==> Blit(dst, src, stride, dirty)[p] == dst[p]
    ensures dirty.Some? ==>
      var d := dirty.value;
      Blit(dst, src, stride, dirty)[p] ==
        if exists dy: nat, dx: nat :: dy < d.height && dx < d.width && p == RectOffset(stride, d, dy, dx)
        then (if p < |src| then src[p] else 0)
        else dst[p]
  {
    if dirty.Some? {
      var d := dirty.value;
      var g := RectGrid(stride, d);
      GridHitsIff(g, d.height, p);
      if exists dy: nat, dx: nat :: dy < d.height && dx < d.width && p == RectOffset(stride, d, dy, dx) {
        var dy: nat, dx: nat :| dy < d.height && dx < d.width && p == RectOffset(stride, d, dy, dx);
        assert g.hit(dy, dx) && g.at(dy, dx) == p;
      }
      if exists o: nat, i: nat :: o < d.height && i < g.inner && g.hit(o, i) && g.at(o, i) == p {
        var o: nat, i: nat :| o < d.height && i < g.inner && g.hit(o, i) && g.at(o, i) == p;
        assert p == RectOffset(stride, d, o, i);
      }
    }
  }

  class ShadowBuffer {
    /** The pixels, row after row, `width` to a row. */
    var buffer: array<bv32>
    var width: U32
    var height: U32
    var dirtyRect: Option<Region>

    ghost predicate Valid()
      reads this
    {
      buffer.Length == width * height && DirtyInBounds(dirtyRect, width, height)
    }

    /**
     * `ShadowBuffer::new`: `width * height` black pixels, nothing dirty.
     * The size must fit a `usize` (the source panics otherwise).
     */
    constructor (width: U32, height: U32)
      requires width * height < U64_LIMIT
      ensures Valid()
      ensures this.width == width && this.height == height
      ensures fresh(buffer) && buffer.Length == width * height
      ensures forall i :: 0 <= i < buffer.Length ==> buffer[i] == 0
      ensures dirtyRect.None?
    {
      buffer := new bv32[width * height](_ => 0);
      this.width := width;
      this.height := height;
      dirtyRect := None;
    }

    /** `mark_dirty`. */
    method MarkDirtyRegion(region: Region)
      requires Valid() && NoOverflow(region)
      modifies this
      ensures Valid()
      ensures dirtyRect == MarkDirty(old(dirtyRect), old(width), old(height), region)
      ensures buffer == old(buffer) && width == old(width) && height == old(height)
    {
      MarkDirtyInBounds(dirtyRect, width, height, region);
      dirtyRect := MarkDirty(dirtyRect, width, height, region);
    }

    /** `take_dirty_rect`: hands back the rectangle and forgets it. */
    method TakeDirtyRect() returns (r: Option<Region>)
      requires Valid()
      modifies this
      ensures Valid()
      ensures r == old(dirtyRect) && dirtyRect.None?
      ensures buffer == old(buffer) && width == old(width) && height == old(height)
    {
      r := dirtyRect;
      dirtyRect := None;
    }

    /** `mark_all_dirty`: the whole buffer is dirty. */
    method MarkAllDirty()
      requires Valid()
      modifies this
      ensures Valid()
      ensures dirtyRect == Some(Screen(width, height))
      ensures buffer == old(buffer) && width == old(width) && height == old(height)
    {
      dirtyRect := Some(Region(0, 0, width, height));
    }

    /** `clear`: every pixel takes `color` and the whole buffer is dirty. */
    method Clear(color: bv32)
      requires Valid()
      modifies this, buffer
      ensures Valid()
      ensures forall i :: 0 <= i < buffer.Length ==> buffer[i] == color
      ensures dirtyRect == Some(Screen(width, height))
      ensures buffer == old(buffer) && width == old(width) && height == old(height)
    {
      forall i | 0 <= i < buffer.Length {
        buffer[i] := color;
      }
      MarkAllDirty();
    }

    /**
     * `blit_to`: copies the dirty rectangle, row by row, to the same
     * offsets of the destination and forgets the rectangle.  The
     * destination must hold at least as many pixels as the buffer.
     */
    method BlitTo(dst: array<bv32>)
      requires Valid() && dst != buffer && buffer.Length <= dst.Length
      modifies this, dst
      ensures Valid()
      ensures old(dirtyRect).Some? ==> Fits(RectGrid(width, old(dirtyRect).value), dst.Length)
      ensures dst[..] == Blit(old(dst[..]), buffer[..], width, old(dirtyRect))
      ensures dirtyRect.None?
      ensures buffer == old(buffer) && buffer[..] == old(buffer[..])
      ensures width == old(width) && height == old(height)
    {
      var dirty := TakeDirtyRect();
      if dirty.None? {
        return;
      }
      RectFits(width, height, dirty.value, dst.Length);
      PaintInto(dst, RectGrid(width, dirty.value), Source(buffer[..]));
    }
  }
}
