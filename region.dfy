// Drawing regions of the compositor, kernel/src/graphics/region.rs: an
// axis-aligned rectangle with a top-left corner and a size, all `u32`.
// The sums `x + width` and `y + height` panic on overflow in a debug build;
// here they are preconditions.

module Regions {
  import opened Base

  datatype Region = Region(x: U32, y: U32, width: U32, height: U32)

  /** `Region::new` keeps its four arguments as they are. */
  function New(x: U32, y: U32, width: U32, height: U32): (r: Region)
    ensures r.x == x && r.y == y && r.width == width && r.height == height
  {
    Region(x, y, width, height)
  }

  /** The sums `contains` evaluates do not overflow (it stops at the first false comparison). */
  predicate ContainsDefined(r: Region, px: U32, py: U32)
  {
    && (px >= r.x ==> r.x + r.width < U32_LIMIT)
    && (px >= r.x && px < r.x + r.width && py >= r.y ==> r.y + r.height < U32_LIMIT)
  }

  /** `contains`: the half-open rectangle `[x, x+width) x [y, y+height)`. */
  function Contains(r: Region, px: U32, py: U32): (b: bool)
    requires ContainsDefined(r, px, py)
    ensures b <==> r.x <= px < r.x + r.width && r.y <= py < r.y + r.height
  {
    px >= r.x && px < r.x + r.width && py >= r.y && py < r.y + r.height
  }

  /** `right`: the first column past the region. */
  function Right(r: Region): (v: U32)
    requires r.x + r.width < U32_LIMIT
    ensures v - r.x == r.width
  {
    r.x + r.width
  }

  /** `bottom`: the first row past the region. */
  function Bottom(r: Region): (v: U32)
    requires r.y + r.height < U32_LIMIT
    ensures v - r.y == r.height
  {
    r.y + r.height
  }

  /** The region's corners stay in `u32`. */
  predicate NoOverflow(r: Region)
  {
    r.x + r.width < U32_LIMIT && r.y + r.height < U32_LIMIT
  }

  /** A point is inside iff it lies left of `right` and above `bottom`, at or past the corner. */
  lemma ContainsByEdges(r: Region, px: U32, py: U32)
    requires NoOverflow(r)
    ensures ContainsDefined(r, px, py)
    ensures Contains(r, px, py) <==> r.x <= px < Right(r) && r.y <= py < Bottom(r)
  {
  }

  /** A region with no width or no height contains no point. */
  lemma EmptyContainsNothing(r: Region, px: U32, py: U32)
    requires r.width == 0 || r.height == 0
    requires ContainsDefined(r, px, py)
    ensures !Contains(r, px, py)
  {
  }

  /** `a` lies within `b` (every point of `a` is a point of `b`). */
  predicate Within(a: Region, b: Region)
  {
    b.x <= a.x && a.x + a.width <= b.x + b.width && b.y <= a.y && a.y + a.height <= b.y + b.height
  }

  /** A point of a region inside another is a point of the other. */
  lemma WithinContains(a: Region, b: Region, px: U32, py: U32)
    requires Within(a, b) && NoOverflow(a) && NoOverflow(b)
    requires Contains(a, px, py)
    ensures Contains(b, px, py)
  {
  }
}
