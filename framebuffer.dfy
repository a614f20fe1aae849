// The linear 32-bit framebuffer that every drawing routine of the three
// graphics modules (kernel/src/graphics/mod.rs, common/src/graphics/mod.rs,
// src/graphics/mod.rs) and the shadow buffer's blit write into.
//
// Each of those routines is two nested loops that visit a rectangle of
// cells and, for the cells their guards accept, store one pixel at an
// offset computed from the cell.  That shape is captured once here: a
// `Grid` names the loop bounds, the guard and the offset, `PaintGrid` is
// the pixel sequence the loops leave behind, and `PaintInto` is the loop
// itself over an array.  The contract of `PaintGrid` characterises every
// pixel: it holds the written value exactly when some accepted cell points
// at it, and its old value otherwise.

module Framebuffer {

  /** One 8x8 glyph: eight rows of eight pixels, bit `col` of a row (least significant first) is column `col`. */
  type Glyph = g: seq<bv8> | |g| == 8 witness [0, 0, 0, 0, 0, 0, 0, 0]

  /** `(bits >> col) & 1 == 1`: the glyph row has its pixel `col` set. */
  predicate Bit(bits: bv8, col: nat)
    requires col < 8
  {
    (bits >> col) & 1 == 1
  }

  /**
   * The cells of a two-level loop: the outer index runs below `outer` and
   * the inner one below `inner`; cell `(o, i)` is written iff `hit(o, i)`,
   * at offset `at(o, i)`.
   */
  datatype Grid = Grid(outer: nat, inner: nat, hit: (nat, nat) -> bool, at: (nat, nat) -> int)

  /** Every accepted cell lands inside a buffer of `len` pixels. */
  ghost predicate Fits(g: Grid, len: nat)
  {
    forall o: nat, i: nat :: o < g.outer && i < g.inner && g.hit(o, i) ==> 0 <= g.at(o, i) < len
  }

  /** Some cell `(o, i)` with `i < n` is accepted and points at `p`. */
  predicate RowHits(g: Grid, o: nat, n: nat, p: int)
    decreases n
  {
    n > 0 && (RowHits(g, o, n - 1, p) || (g.hit(o, n - 1) && g.at(o, n - 1) == p))
  }

  /** Some accepted cell of the first `m` outer rows points at `p`. */
  predicate GridHits(g: Grid, m: nat, p: int)
    decreases m
  {
    m > 0 && (GridHits(g, m - 1, p) || RowHits(g, m - 1, g.inner, p))
  }

  /** The inner loop over cells `(o, 0) .. (o, n - 1)`, in that order. */
  function PaintRow(s: seq<bv32>, g: Grid, o: nat, n: nat, ink: int -> bv32): (r: seq<bv32>)
    requires o < g.outer && n <= g.inner && Fits(g, |s|)
    ensures |r| == |s|
    ensures forall p :: 0 <= p < |s| ==> r[p] == if RowHits(g, o, n, p) then ink(p) else s[p]
    decreases n
  {
    if n == 0 then s
    else
      var t := PaintRow(s, g, o, n - 1, ink);
      if g.hit(o, n - 1) then t[g.at(o, n - 1) := ink(g.at(o, n - 1))] else t
  }

  /** Both loops over the first `m` outer rows. */
  function PaintGrid(s: seq<bv32>, g: Grid, m: nat, ink: int -> bv32): (r: seq<bv32>)
    requires m <= g.outer && Fits(g, |s|)
    ensures |r| == |s|
    ensures forall p :: 0 <= p < |s| ==> r[p] == if GridHits(g, m, p) then ink(p) else s[p]
    decreases m
  {
    if m == 0 then s else PaintRow(PaintGrid(s, g, m - 1, ink), g, m - 1, g.inner, ink)
  }

  /** The value written to every pixel is the same `color`. */
  function Solid(color: bv32): int -> bv32
  {
    _ => color
  }

  lemma {:induction false} RowHitsWitness(g: Grid, o: nat, n: nat, p: int)
    requires RowHits(g, o, n, p)
    ensures exists i: nat :: i < n && g.hit(o, i) && g.at(o, i) == p
    decreases n
  {
    if !(g.hit(o, n - 1) && g.at(o, n - 1) == p) {
      RowHitsWitness(g, o, n - 1, p);
    }
  }

  lemma {:induction false} RowHitsIntro(g: Grid, o: nat, n: nat, i: nat)
    requires i < n && g.hit(o, i)
    ensures RowHits(g, o, n, g.at(o, i))
    decreases n
  {
    if i < n - 1 {
      RowHitsIntro(g, o, n - 1, i);
    }
  }

  /** `GridHits` is exactly "some accepted cell of the whole grid points at `p`". */
  lemma {:induction false} GridHitsIff(g: Grid, m: nat, p: int)
    ensures GridHits(g, m, p) <==>
      exists o: nat, i: nat :: o < m && i < g.inner && g.hit(o, i) && g.at(o, i) == p
    decreases m
  {
    if m > 0 {
      GridHitsIff(g, m - 1, p);
      if RowHits(g, m - 1, g.inner, p) {
        RowHitsWitness(g, m - 1, g.inner, p);
      }
      if exists o: nat, i: nat :: o < m && i < g.inner && g.hit(o, i) && g.at(o, i) == p {
        var o: nat, i: nat :| o < m && i < g.inner && g.hit(o, i) && g.at(o, i) == p;
        if o == m - 1 {
          RowHitsIntro(g, o, g.inner, i);
        }
      }
    }
  }

  /**
   * The nested loops themselves: each accepted cell's pixel is stored, and
   * the array ends as `PaintGrid` says.
   */
  method PaintInto(fb: array<bv32>, g: Grid, ink: int -> bv32)
    requires Fits(g, fb.Length)
    modifies fb
    ensures fb[..] == PaintGrid(old(fb[..]), g, g.outer, ink)
  {
    ghost var s0 := fb[..];
    var o := 0;
    while o < g.outer
      invariant o <= g.outer
      invariant fb[..] == PaintGrid(s0, g, o, ink)
    {
      ghost var rowStart := fb[..];
      var i := 0;
      while i < g.inner
        invariant i <= g.inner
        invariant fb[..] == PaintRow(rowStart, g, o, i, ink)
      {
        if g.hit(o, i) {
          var p := g.at(o, i);
          fb[p] := ink(p);
        }
        i := i + 1;
      }
      o := o + 1;
    }
  }
}
