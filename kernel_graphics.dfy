// The kernel's own drawing routines, kernel/src/graphics/mod.rs, over a
// linear framebuffer of 32-bit pixels `stride` pixels to a row.
//
// Unlike the shared crate's routines (module CommonGraphics) these clip
// once up front instead of guarding every store: `draw_char` gives up on a
// character that starts right of the edge and otherwise draws only the
// columns left of it, and `draw_rect` clips its width to the edge and
// fills whole rows with `fast_fill_u32` (`rep stosd`).  No routine clips
// vertically, so the caller provides a buffer large enough for the rows
// drawn: the `...Fits` preconditions.  `draw_rect_outline` is the same
// code as the shared crate's and is modelled there.

module KernelGraphics {
  import opened Base
  import opened Framebuffer
  import CommonGraphics

  // ---- fast_fill_u32 ----------------------------------------------------

  /** The buffer after `count` pixels from `start` were set to `value`. */
  function Fill(s: seq<bv32>, start: nat, count: nat, value: bv32): (r: seq<bv32>)
    requires start + count <= |s|
    ensures |r| == |s|
  {
    seq(|s|, p requires 0 <= p < |s| => if start <= p < start + count then value else s[p])
  }

  /** A fill of zero pixels leaves the buffer as it was. */
  lemma FillNothing(s: seq<bv32>, start: nat, value: bv32)
    requires start <= |s|
    ensures Fill(s, start, 0, value) == s
  {
  }

  /**
   * `fast_fill_u32`: stores `value` into `count` consecutive pixels from
   * `start` (what `rep stosd` does), and returns at once for `count == 0`.
   */
  method FastFill(fb: array<bv32>, start: nat, value: bv32, count: nat)
    requires start + count <= fb.Length
    modifies fb
    ensures fb[..] == Fill(old(fb[..]), start, count, value)
  {
    if count == 0 {
      FillNothing(fb[..], start, value);
      return;
    }
    var i := 0;
    while i < count
      invariant i <= count
      invariant forall p :: 0 <= p < fb.Length ==> fb[p] == if start <= p < start + i then value else old(fb[p])
    {
      fb[start + i] := value;
      i := i + 1;
    }
    assert fb[..] == Fill(old(fb[..]), start, count, value);
  }

  // ---- draw_char --------------------------------------------------------

  /** The checks `draw_char` makes before touching memory: a glyph, no `usize` overflow of `x + 8` or `y + 8`, and a start left of the edge. */
  predicate CharDrawn(stride: nat, x: nat, y: nat, ch: bv8)
  {
    CommonGraphics.Printable(ch) && x + 8 < U64_LIMIT && y + 8 < U64_LIMIT && x < stride
  }

  /** The columns drawn: all eight on the fast path, `min(stride - x, 8)` on the clipping one. */
  function VisibleCols(stride: nat, x: nat): (n: nat)
    requires x < stride
    ensures n == Min(stride - x, 8) && x + n <= stride
  {
    if x + 8 <= stride then 8 else Min(stride - x, 8)
  }

  /** The loops of either path: glyph cell `(row, col)`, `col < cols`, is stored iff its bit is set. */
  function CharGrid(stride: nat, x: nat, y: nat, glyph: Glyph, cols: nat): Grid
    requires cols <= 8
  {
    Grid(8, cols,
      (row: nat, col: nat) => row < 8 && col < 8 && Bit(glyph[row], col),
      (row: nat, col: nat) => CommonGraphics.Cell(stride, x, y, row, col))
  }

  /**
   * The rows `draw_char` may write lie inside a framebuffer of `len` pixels:
   * the last row's visible columns end by `len`. `draw_char` does no
   * bounds check of its own, so this is its caller's obligation.
   */
  predicate CharFits(len: nat, stride: nat, x: nat, y: nat, ch: bv8)
  {
    CharDrawn(stride, x, y, ch) ==> (y + 7) * stride + x + VisibleCols(stride, x) <= len
  }

  /** Every cell of the glyph's box lies below the last row's end. */
  lemma CharFitsGrid(len: nat, stride: nat, x: nat, y: nat, ch: bv8, glyph: Glyph)
    requires CharFits(len, stride, x, y, ch) && CharDrawn(stride, x, y, ch)
    ensures Fits(CharGrid(stride, x, y, glyph, VisibleCols(stride, x)), len)
  {
    var cols := VisibleCols(stride, x);
    forall row: nat, col: nat | row < 8 && col < cols
      ensures CommonGraphics.Cell(stride, x, y, row, col) < len
    {
      RowsBelow(stride, y + row, y + 7);
    }
  }

  /** Rows are laid out in order: row `a` starts no later than row `b`. */
  lemma RowsBelow(stride: nat, a: nat, b: nat)
    requires a <= b
    ensures a * stride <= b * stride
  {
  }

  /** The framebuffer after the kernel's `draw_char`. */
  function DrawChar(s: seq<bv32>, stride: nat, x: nat, y: nat, ch: bv8, color: bv32, font: seq<Glyph>): (r: seq<bv32>)
    requires |font| == 95 && CharFits(|s|, stride, x, y, ch)
    ensures |r| == |s|
  {
    if !CharDrawn(stride, x, y, ch) then s
    else
      CharFitsGrid(|s|, stride, x, y, ch, CommonGraphics.GlyphOf(font, ch));
      PaintGrid(s, CharGrid(stride, x, y, CommonGraphics.GlyphOf(font, ch), VisibleCols(stride, x)), 8, Solid(color))
  }

  /** Pixel `(x + col, y + row)` belongs to the glyph and lies left of the edge. */
  predicate CharPixel(stride: nat, x: nat, glyph: Glyph, row: nat, col: nat)
  {
    row < 8 && col < 8 && Bit(glyph[row], col) && x + col < stride
  }

  /** Pixel `p` is one of the glyph's set pixels left of the edge. */
  ghost predicate CharCovers(stride: nat, x: nat, y: nat, glyph: Glyph, p: nat)
  {
    exists row: nat, col: nat :: CharPixel(stride, x, glyph, row, col) && p == CommonGraphics.Cell(stride, x, y, row, col)
  }

  /**
   * `draw_char` writes nothing for a byte without a glyph, on overflow, or
   * when `x >= stride`; otherwise it colors exactly the set glyph pixels
   * whose column is left of `stride`, and nothing else.
   */
  lemma DrawCharPixels(s: seq<bv32>, stride: nat, x: nat, y: nat, ch: bv8, color: bv32, font: seq<Glyph>, p: nat)
    requires |font| == 95 && CharFits(|s|, stride, x, y, ch) && p < |s|
    ensures !CharDrawn(stride, x, y, ch) ==> DrawChar(s, stride, x, y, ch, color, font)[p] == s[p]
    ensures CharDrawn(stride, x, y, ch) ==>
      DrawChar(s, stride, x, y, ch, color, font)[p] ==
        if CharCovers(stride, x, y, CommonGraphics.GlyphOf(font, ch), p) then color else s[p]
  {
    if CharDrawn(stride, x, y, ch) {
      var glyph := CommonGraphics.GlyphOf(font, ch);
      var g := CharGrid(stride, x, y, glyph, VisibleCols(stride, x));
      GridHitsIff(g, 8, p);
      if CharCovers(stride, x, y, glyph, p) {
        var row: nat, col: nat :| CharPixel(stride, x, glyph, row, col) && p == CommonGraphics.Cell(stride, x, y, row, col);
        assert g.hit(row, col) && g.at(row, col) == p;
      }
    }
  }

  /** The kernel's `draw_char`: the checks, then the fast path when the glyph ends by the edge, else the clipping path. */
  method DrawCharInto(fb: array<bv32>, stride: U32, x: nat, y: nat, ch: bv8, color: bv32, font: seq<Glyph>)
    requires |font| == 95 && CharFits(fb.Length, stride, x, y, ch)
    modifies fb
    ensures fb[..] == DrawChar(old(fb[..]), stride, x, y, ch, color, font)
  {
    if ch < 32 || ch > 126 {
      return;
    }
    if x + 8 >= U64_LIMIT || y + 8 >= U64_LIMIT {
      return;
    }
    var xEnd := x + 8;
    // `y_end == 0` is also checked, but `y + 8` is never 0.
    if x >= stride {
      return;
    }
    var glyph := font[(ch - 32) as int];
    if xEnd <= stride {
      PaintInto(fb, CharGrid(stride, x, y, glyph, 8), Solid(color));
    } else {
      var visibleCols := Min(stride - x, 8);
      PaintInto(fb, CharGrid(stride, x, y, glyph, visibleCols), Solid(color));
    }
  }

  // ---- draw_string ------------------------------------------------------

  /** Every character `draw_string` reaches fits: byte `i` at `x + 8 * i`, for as long as the step stays in `usize`. */
  ghost predicate StringFits(len: nat, stride: nat, x: nat, y: nat, text: seq<bv8>)
    decreases |text|
  {
    text == [] ||
    (CharFits(len, stride, x, y, text[0]) && (x + 8 < U64_LIMIT ==> StringFits(len, stride, x + 8, y, text[1..])))
  }

  /** `draw_string`: each byte at the next 8-pixel step, stopping after the byte whose step would overflow `usize`. */
  function DrawString(s: seq<bv32>, stride: nat, x: nat, y: nat, text: seq<bv8>, color: bv32, font: seq<Glyph>): (r: seq<bv32>)
    requires |font| == 95 && StringFits(|s|, stride, x, y, text)
    ensures |r| == |s|
    decreases |text|
  {
    if text == [] then s
    else
      var s1 := DrawChar(s, stride, x, y, text[0], color, font);
      if x + 8 < U64_LIMIT then DrawString(s1, stride, x + 8, y, text[1..], color, font) else s1
  }

  lemma {:induction false} StringFitsAppend(len: nat, stride: nat, x: nat, y: nat, a: seq<bv8>, b: seq<bv8>)
    requires x + 8 * |a| < U64_LIMIT
    requires StringFits(len, stride, x, y, a) && StringFits(len, stride, x + 8 * |a|, y, b)
    ensures StringFits(len, stride, x, y, a + b)
    decreases |a|
  {
    if a == [] {
      assert a + b == b;
    } else {
      assert (a + b)[0] == a[0] && (a + b)[1..] == a[1..] + b;
      StringFitsAppend(len, stride, x + 8, y, a[1..], b);
    }
  }

  /** Byte `i` is drawn at `x + 8 * i`, after the bytes before it: drawing `a + b` is drawing `a`, then `b` from `8 * |a|` pixels further right. */
  lemma {:induction false} DrawStringSplit(s: seq<bv32>, stride: nat, x: nat, y: nat, a: seq<bv8>, b: seq<bv8>, color: bv32, font: seq<Glyph>)
    requires |font| == 95 && x + 8 * |a| < U64_LIMIT
    requires StringFits(|s|, stride, x, y, a) && StringFits(|s|, stride, x + 8 * |a|, y, b)
    ensures StringFits(|s|, stride, x, y, a + b)
    ensures DrawString(s, stride, x, y, a + b, color, font) ==
      DrawString(DrawString(s, stride, x, y, a, color, font), stride, x + 8 * |a|, y, b, color, font)
    decreases |a|
  {
    StringFitsAppend(|s|, stride, x, y, a, b);
    if a == [] {
      assert a + b == b;
    } else {
      var s1 := DrawChar(s, stride, x, y, a[0], color, font);
      assert |s1| == |s| && x + 8 + 8 * |a[1..]| == x + 8 * |a|;
      DrawStringSplit(s1, stride, x + 8, y, a[1..], b, color, font);
      DrawStringSplitStep(s, stride, x, y, a, b, color, font);
    }
  }

  /** The inductive step of `DrawStringSplit`: its claim for `a[1..]` after `a[0]` gives the claim for `a`. */
  lemma DrawStringSplitStep(s: seq<bv32>, stride: nat, x: nat, y: nat, a: seq<bv8>, b: seq<bv8>, color: bv32, font: seq<Glyph>)
    requires |font| == 95 && a != [] && x + 8 * |a| < U64_LIMIT
    requires StringFits(|s|, stride, x, y, a) && StringFits(|s|, stride, x + 8 * |a|, y, b)
    requires StringFits(|s|, stride, x, y, a + b)
    requires StringFits(|s|, stride, x + 8, y, a[1..]) && StringFits(|s|, stride, x + 8, y, a[1..] + b)
    requires
      var s1 := DrawChar(s, stride, x, y, a[0], color, font);
      DrawString(s1, stride, x + 8, y, a[1..] + b, color, font) ==
        DrawString(DrawString(s1, stride, x + 8, y, a[1..], color, font), stride, x + 8 * |a|, y, b, color, font)
    ensures DrawString(s, stride, x, y, a + b, color, font) ==
      DrawString(DrawString(s, stride, x, y, a, color, font), stride, x + 8 * |a|, y, b, color, font)
  {
    assert (a + b)[0] == a[0] && (a + b)[1..] == a[1..] + b;
    DrawStringCons(s, stride, x, y, a, color, font);
    DrawStringCons(s, stride, x, y, a + b, color, font);
  }

  /** A non-empty string whose next step does not overflow: its first character, then the rest. */
  lemma DrawStringCons(s: seq<bv32>, stride: nat, x: nat, y: nat, t: seq<bv8>, color: bv32, font: seq<Glyph>)
    requires |font| == 95 && StringFits(|s|, stride, x, y, t) && t != [] && x + 8 < U64_LIMIT
    ensures StringFits(|s|, stride, x + 8, y, t[1..])
    ensures DrawString(s, stride, x, y, t, color, font) ==
      DrawString(DrawChar(s, stride, x, y, t[0], color, font), stride, x + 8, y, t[1..], color, font)
  {
  }

  /** The kernel's `draw_string`: the per-byte loop over `draw_char`. */
  method DrawStringInto(fb: array<bv32>, stride: U32, x: nat, y: nat, text: seq<bv8>, color: bv32, font: seq<Glyph>)
    requires |font| == 95 && StringFits(fb.Length, stride, x, y, text)
    modifies fb
    ensures fb[..] == DrawString(old(fb[..]), stride, x, y, text, color, font)
  {
    var curX: nat := x;
    var i := 0;
    while i < |text|
      invariant i <= |text|
      invariant StringFits(fb.Length, stride, curX, y, text[i..])
      invariant DrawString(old(fb[..]), stride, x, y, text, color, font) ==
        DrawString(fb[..], stride, curX, y, text[i..], color, font)
    {
      assert text[i..][0] == text[i] && text[i..][1..] == text[i + 1..];
      DrawCharInto(fb, stride, curX, y, text[i], color, font);
      if curX + 8 < U64_LIMIT {
        curX := curX + 8;
      } else {
        break;
      }
      i := i + 1;
    }
  }

  // ---- draw_rect --------------------------------------------------------

  /** `x.saturating_add(w).min(stride)`: the first column past the clipped rectangle. */
  function ClipEnd(x: nat, w: nat, stride: nat): (e: nat)
    ensures e <= stride
    ensures x < U64_LIMIT && w < U64_LIMIT && stride < U64_MAX ==> e == Min(x + w, stride)
  {
    Min(SaturatingAdd(x, w), stride)
  }

  /** The first pixel of row `dy`: `y.saturating_add(dy) * stride + x`. */
  function RowStart(stride: nat, x: nat, y: nat, dy: nat): nat
  {
    SaturatingAdd(y, dy) * stride + x
  }

  /** Pixel `dx` of row `dy`. */
  function RowPixel(stride: nat, x: nat, y: nat, dy: nat, dx: nat): nat
  {
    RowStart(stride, x, y, dy) + dx
  }

  /** Each of the first `m` rows of `cw` pixels lies inside a buffer of `len` pixels. */
  ghost predicate RowsFit(len: nat, stride: nat, x: nat, y: nat, cw: nat, m: nat)
  {
    forall dy :: 0 <= dy < m ==> RowStart(stride, x, y, dy) + cw <= len
  }

  ghost predicate RectFits(len: nat, stride: nat, x: nat, y: nat, w: nat, h: nat)
  {
    w != 0 && h != 0 && x < ClipEnd(x, w, stride) ==> RowsFit(len, stride, x, y, ClipEnd(x, w, stride) - x, h)
  }

  /** The first `m` rows filled, in order. */
  function RectRows(s: seq<bv32>, stride: nat, x: nat, y: nat, cw: nat, m: nat, color: bv32): (r: seq<bv32>)
    requires RowsFit(|s|, stride, x, y, cw, m)
    ensures |r| == |s|
    decreases m
  {
    if m == 0 then s
    else Fill(RectRows(s, stride, x, y, cw, m - 1, color), RowStart(stride, x, y, m - 1), cw, color)
  }

  /** After `m` rows, exactly the pixels of those rows hold `color`. */
  lemma {:induction false} RectRowsPixels(s: seq<bv32>, stride: nat, x: nat, y: nat, cw: nat, m: nat, color: bv32, p: nat)
    requires RowsFit(|s|, stride, x, y, cw, m) && p < |s|
    ensures RectRows(s, stride, x, y, cw, m, color)[p] ==
      if exists dy, dx :: 0 <= dy < m && 0 <= dx < cw && p == RowPixel(stride, x, y, dy, dx) then color else s[p]
    decreases m
  {
    if m > 0 {
      RectRowsPixels(s, stride, x, y, cw, m - 1, color, p);
      var start := RowStart(stride, x, y, m - 1);
      if start <= p < start + cw {
        assert p == RowPixel(stride, x, y, m - 1, p - start);
      } else if exists dy, dx :: 0 <= dy < m && 0 <= dx < cw && p == RowPixel(stride, x, y, dy, dx) {
        var dy, dx :| 0 <= dy < m && 0 <= dx < cw && p == RowPixel(stride, x, y, dy, dx);
        assert dy < m - 1;
      }
    }
  }

  /** The framebuffer after the kernel's `draw_rect`. */
  function DrawRect(s: seq<bv32>, stride: nat, x: nat, y: nat, w: nat, h: nat, color: bv32): (r: seq<bv32>)
    requires RectFits(|s|, stride, x, y, w, h)
    ensures |r| == |s|
  {
    if w == 0 || h == 0 || x >= ClipEnd(x, w, stride) then s
    else RectRows(s, stride, x, y, ClipEnd(x, w, stride) - x, h, color)
  }

  /**
   * `draw_rect` is a no-op for an empty size; otherwise it colors exactly
   * pixel `dx` of rows `0 .. h`, for the `dx < w` with `x + dx < stride`,
   * and nothing else; rows are not clipped.
   */
  lemma DrawRectPixels(s: seq<bv32>, stride: U32, x: nat, y: nat, w: nat, h: nat, color: bv32, p: nat)
    requires x < U64_LIMIT && w < U64_LIMIT
    requires RectFits(|s|, stride, x, y, w, h) && p < |s|
    ensures (w == 0 || h == 0) ==> DrawRect(s, stride, x, y, w, h, color)[p] == s[p]
    ensures DrawRect(s, stride, x, y, w, h, color)[p] ==
      if exists dy, dx :: 0 <= dy < h && 0 <= dx < w && x + dx < stride && p == RowPixel(stride, x, y, dy, dx)
      then color else s[p]
  {
    var e := ClipEnd(x, w, stride);
    assert e == Min(x + w, stride);
    if w != 0 && h != 0 && x < e {
      RectRowsPixels(s, stride, x, y, e - x, h, color, p);
    }
  }

  /** The kernel's `draw_rect`: clip the width to the edge, then fill `h` rows with `fast_fill_u32`. */
  method DrawRectInto(fb: array<bv32>, stride: U32, x: nat, y: nat, w: nat, h: nat, color: bv32)
    requires RectFits(fb.Length, stride, x, y, w, h)
    modifies fb
    ensures fb[..] == DrawRect(old(fb[..]), stride, x, y, w, h, color)
  {
    if w == 0 || h == 0 {
      return;
    }
    var xEnd := Min(SaturatingAdd(x, w), stride);
    if x >= xEnd {
      return;
    }
    var clippedW := xEnd - x;
    ghost var s0 := fb[..];
    assert RowsFit(|s0|, stride, x, y, clippedW, h);
    var dy := 0;
    while dy < h
      invariant dy <= h
      invariant fb[..] == RectRows(s0, stride, x, y, clippedW, dy, color)
    {
      var pixelY := SaturatingAdd(y, dy);
      var rowStart := pixelY * stride + x;
      assert rowStart == RowStart(stride, x, y, dy) && rowStart + clippedW <= fb.Length;
      FastFill(fb, rowStart, color, clippedW);
      dy := dy + 1;
    }
  }

  /** `draw_rect_outline`, the same code as the shared crate's. */
  method DrawRectOutlineInto(fb: array<bv32>, stride: U32, x: nat, y: nat, w: nat, h: nat, color: bv32)
    requires CommonGraphics.OutlineFits(fb.Length, stride, x, y, w, h)
    modifies fb
    ensures fb[..] == CommonGraphics.DrawRectOutline(old(fb[..]), stride, x, y, w, h, color)
  {
    CommonGraphics.DrawRectOutlineInto(fb, stride, x, y, w, h, color);
  }

  // ---- footprints -------------------------------------------------------

  /** Pixel `p` is `(col, row)` of the box `[x0, x0 + w) x [y0, y0 + h)`, left of the edge. */
  ghost predicate Footprint(stride: nat, x0: nat, y0: nat, w: nat, h: nat, p: nat)
  {
    exists col: nat, row: nat ::
      x0 <= col < x0 + w && col < stride && y0 <= row < y0 + h && p == CommonGraphics.Offset(stride, row, col)
  }

  /** A pixel of a box is a pixel of every box around it. */
  lemma FootprintWiden(stride: nat, x1: nat, y1: nat, w1: nat, h1: nat, x0: nat, y0: nat, w0: nat, h0: nat, p: nat)
    requires Footprint(stride, x1, y1, w1, h1, p)
    requires x0 <= x1 && x1 + w1 <= x0 + w0 && y0 <= y1 && y1 + h1 <= y0 + h0
    ensures Footprint(stride, x0, y0, w0, h0, p)
  {
    var col: nat, row: nat :| x1 <= col < x1 + w1 && col < stride && y1 <= row < y1 + h1 && p == CommonGraphics.Offset(stride, row, col);
    assert x0 <= col < x0 + w0 && y0 <= row < y0 + h0;
  }

  /** `draw_char` changes only pixels of the 8x8 cell at `(x, y)`. */
  lemma CharFootprint(s: seq<bv32>, stride: nat, x: nat, y: nat, ch: bv8, color: bv32, font: seq<Glyph>, p: nat)
    requires |font| == 95 && CharFits(|s|, stride, x, y, ch) && p < |s|
    requires DrawChar(s, stride, x, y, ch, color, font)[p] != s[p]
    ensures Footprint(stride, x, y, 8, 8, p)
  {
    DrawCharPixels(s, stride, x, y, ch, color, font, p);
    var glyph := CommonGraphics.GlyphOf(font, ch);
    var row: nat, col: nat :| CharPixel(stride, x, glyph, row, col) && p == CommonGraphics.Cell(stride, x, y, row, col);
    assert p == CommonGraphics.Offset(stride, y + row, x + col);
  }

  /** `draw_string` changes only pixels of the `8 * |t|` by 8 box at `(x, y)`. */
  lemma {:induction false} StringFootprint(s: seq<bv32>, stride: nat, x: nat, y: nat, t: seq<bv8>, color: bv32, font: seq<Glyph>, p: nat)
    requires |font| == 95 && StringFits(|s|, stride, x, y, t) && p < |s|
    requires DrawString(s, stride, x, y, t, color, font)[p] != s[p]
    ensures Footprint(stride, x, y, 8 * |t|, 8, p)
    decreases |t|
  {
    assert t != [];
    var s1 := DrawChar(s, stride, x, y, t[0], color, font);
    if s1[p] != s[p] {
      CharFootprint(s, stride, x, y, t[0], color, font, p);
      FootprintWiden(stride, x, y, 8, 8, x, y, 8 * |t|, 8, p);
    } else {
      assert x + 8 < U64_LIMIT;
      StringFootprint(s1, stride, x + 8, y, t[1..], color, font, p);
      FootprintWiden(stride, x + 8, y, 8 * |t[1..]|, 8, x, y, 8 * |t|, 8, p);
    }
  }

  /** `draw_rect` changes only pixels of the `w` by `h` box at `(x, y)`. */
  lemma RectFootprint(s: seq<bv32>, stride: U32, x: U32, y: U32, w: U32, h: U32, color: bv32, p: nat)
    requires RectFits(|s|, stride, x, y, w, h) && p < |s|
    requires DrawRect(s, stride, x, y, w, h, color)[p] != s[p]
    ensures Footprint(stride, x, y, w, h, p)
  {
    DrawRectPixels(s, stride, x, y, w, h, color, p);
    var dy, dx :| 0 <= dy < h && 0 <= dx < w && x + dx < stride && p == RowPixel(stride, x, y, dy, dx);
    assert SaturatingAdd(y, dy) == y + dy;
    assert p == CommonGraphics.Offset(stride, y + dy, x + dx);
  }

  /** `draw_char` changes nothing outside its 8x8 cell. */
  lemma CharChangesWithin(s: seq<bv32>, stride: nat, x: nat, y: nat, ch: bv8, color: bv32, font: seq<Glyph>)
    requires |font| == 95 && CharFits(|s|, stride, x, y, ch)
    ensures forall p :: 0 <= p < |s| && DrawChar(s, stride, x, y, ch, color, font)[p] != s[p] ==> Footprint(stride, x, y, 8, 8, p)
  {
    forall p | 0 <= p < |s| && DrawChar(s, stride, x, y, ch, color, font)[p] != s[p]
      ensures Footprint(stride, x, y, 8, 8, p)
    {
      CharFootprint(s, stride, x, y, ch, color, font, p);
    }
  }

  /** `draw_string` changes nothing outside its `8 * |t|` by 8 box. */
  lemma StringChangesWithin(s: seq<bv32>, stride: nat, x: nat, y: nat, t: seq<bv8>, color: bv32, font: seq<Glyph>)
    requires |font| == 95 && StringFits(|s|, stride, x, y, t)
    ensures forall p :: 0 <= p < |s| && DrawString(s, stride, x, y, t, color, font)[p] != s[p] ==> Footprint(stride, x, y, 8 * |t|, 8, p)
  {
    forall p | 0 <= p < |s| && DrawString(s, stride, x, y, t, color, font)[p] != s[p]
      ensures Footprint(stride, x, y, 8 * |t|, 8, p)
    {
      StringFootprint(s, stride, x, y, t, color, font, p);
    }
  }

  /** `draw_rect` changes nothing outside its `w` by `h` box. */
  lemma RectChangesWithin(s: seq<bv32>, stride: U32, x: U32, y: U32, w: U32, h: U32, color: bv32)
    requires RectFits(|s|, stride, x, y, w, h)
    ensures forall p :: 0 <= p < |s| && DrawRect(s, stride, x, y, w, h, color)[p] != s[p] ==> Footprint(stride, x, y, w, h, p)
  {
    forall p | 0 <= p < |s| && DrawRect(s, stride, x, y, w, h, color)[p] != s[p]
      ensures Footprint(stride, x, y, w, h, p)
    {
      RectFootprint(s, stride, x, y, w, h, color, p);
    }
  }

  // ---- FramebufferWriter --------------------------------------------------

  ghost predicate PlacementsFit(len: nat, stride: nat, ps: seq<CommonGraphics.Placement>)
    decreases |ps|
  {
    ps == [] || (CharFits(len, stride, ps[0].x, ps[0].y, ps[0].ch) && PlacementsFit(len, stride, ps[1..]))
  }

  /** The framebuffer after drawing each placed character in turn with the kernel's `draw_char`. */
  function DrawPlacements(s: seq<bv32>, stride: nat, color: bv32, font: seq<Glyph>, ps: seq<CommonGraphics.Placement>): (r: seq<bv32>)
    requires |font| == 95 && PlacementsFit(|s|, stride, ps)
    ensures |r| == |s|
    decreases |ps|
  {
    if ps == [] then s
    else DrawPlacements(DrawChar(s, stride, ps[0].x, ps[0].y, ps[0].ch, color, font), stride, color, font, ps[1..])
  }

  /**
   * The kernel's `FramebufferWriter`: the cursor rules of the shared
   * crate's writer (`CommonGraphics.Placements`), drawing with the
   * kernel's `draw_char`, plus `clear_screen`.
   */
  class FramebufferWriter {
    /** The framebuffer memory at `fb_base`. */
    const fb: array<bv32>
    const width: U32
    const height: U32
    /** The 8x8 font, one glyph per byte 32 ..= 126. */
    const font: seq<Glyph>
    var x: nat
    var y: nat
    var color: bv32

    /** `FramebufferWriter::new`: cursor at the top-left corner. */
    constructor (fb: array<bv32>, width: U32, height: U32, color: bv32, font: seq<Glyph>)
      requires |font| == 95
      ensures this.fb == fb && this.width == width && this.height == height && this.font == font
      ensures x == 0 && y == 0 && this.color == color
    {
      this.fb := fb;
      this.width := width;
      this.height := height;
      this.font := font;
      x := 0;
      y := 0;
      this.color := color;
    }

    /** `set_position`: moves the cursor, nothing else. */
    method SetPosition(x: nat, y: nat)
      modifies this
      ensures this.x == x && this.y == y && color == old(color)
    {
      this.x := x;
      this.y := y;
    }

    /** `set_color`: changes the color, nothing else. */
    method SetColor(color: bv32)
      modifies this
      ensures this.color == color && x == old(x) && y == old(y)
    {
      this.color := color;
    }

    /** `clear_area`: the clipped `draw_rect` of `width_chars` character cells, one 10-pixel line, at the cursor. */
    method ClearArea(widthChars: nat, bgColor: bv32)
      requires widthChars * 8 < U64_LIMIT
      requires RectFits(fb.Length, width, x, y, widthChars * 8, 10)
      modifies fb
      ensures fb[..] == DrawRect(old(fb[..]), width, x, y, widthChars * 8, 10, bgColor)
    {
      var widthPixels := widthChars * 8;
      DrawRectInto(fb, width, x, y, widthPixels, 10, bgColor);
    }

    /** `newline`: back to the left edge, one 10-pixel line down. */
    method Newline()
      requires y + 10 < U64_LIMIT
      modifies this
      ensures x == 0 && y == old(y) + 10 && color == old(color)
    {
      x := 0;
      y := y + 10;
    }

    /** `clear_screen`: `width * height` pixels from the start hold `color`, and the cursor is back at the corner. */
    method ClearScreen(color: bv32)
      requires width * height <= fb.Length
      modifies this, fb
      ensures fb[..] == Fill(old(fb[..]), 0, width * height, color)
      ensures x == 0 && y == 0 && this.color == old(this.color)
    {
      var totalPixels := width * height;
      FastFill(fb, 0, color, totalPixels);
      x := 0;
      y := 0;
    }

    /** One byte of `write_str`'s loop. */
    method PutByte(ch: bv8)
      requires |font| == 95 && CommonGraphics.PenStepDefined(CommonGraphics.Pen(x, y), width, ch)
      requires ch != CommonGraphics.NEWLINE ==>
        var at := CommonGraphics.PenAt(CommonGraphics.Pen(x, y), width);
        CharFits(fb.Length, width, at.x, at.y, ch)
      modifies this, fb
      ensures CommonGraphics.Pen(x, y) == CommonGraphics.PenNext(CommonGraphics.Pen(old(x), old(y)), width, ch)
      ensures color == old(color)
      ensures ch == CommonGraphics.NEWLINE ==> fb[..] == old(fb[..])
      ensures ch != CommonGraphics.NEWLINE ==>
        var at := CommonGraphics.PenAt(CommonGraphics.Pen(old(x), old(y)), width);
        fb[..] == DrawChar(old(fb[..]), width, at.x, at.y, ch, color, font)
    {
      if ch == CommonGraphics.NEWLINE {
        Newline();
      } else {
        if x + 8 > width {
          Newline();
        }
        DrawCharInto(fb, width, x, y, ch, color, font);
        x := x + 8;
      }
    }

    /** `write_str` (which always returns `Ok`): draws the characters where `Placements` puts them and leaves the cursor at its end. */
    method WriteStr(s: seq<bv8>)
      requires |font| == 95
      requires CommonGraphics.PlacementsDefined(CommonGraphics.Pen(x, y), width, s)
      requires PlacementsFit(fb.Length, width, CommonGraphics.Placements(CommonGraphics.Pen(x, y), width, s).0)
      modifies this, fb
      ensures fb[..] == DrawPlacements(old(fb[..]), width, old(color), font,
        CommonGraphics.Placements(CommonGraphics.Pen(old(x), old(y)), width, s).0)
      ensures CommonGraphics.Pen(x, y) == CommonGraphics.Placements(CommonGraphics.Pen(old(x), old(y)), width, s).1
      ensures color == old(color)
    {
      ghost var c0 := CommonGraphics.Pen(x, y);
      var i := 0;
      while i < |s|
        invariant i <= |s| && color == old(color)
        invariant CommonGraphics.PlacementsDefined(CommonGraphics.Pen(x, y), width, s[i..])
        invariant PlacementsFit(fb.Length, width, CommonGraphics.Placements(CommonGraphics.Pen(x, y), width, s[i..]).0)
        invariant DrawPlacements(old(fb[..]), width, color, font, CommonGraphics.Placements(c0, width, s).0) ==
          DrawPlacements(fb[..], width, color, font, CommonGraphics.Placements(CommonGraphics.Pen(x, y), width, s[i..]).0)
        invariant CommonGraphics.Placements(c0, width, s).1 == CommonGraphics.Placements(CommonGraphics.Pen(x, y), width, s[i..]).1
      {
        assert s[i..][0] == s[i] && s[i..][1..] == s[i + 1..];
        var here := CommonGraphics.Pen(x, y);
        ghost var rest := CommonGraphics.Placements(CommonGraphics.PenNext(here, width, s[i]), width, s[i + 1..]).0;
        if s[i] != CommonGraphics.NEWLINE {
          var at := CommonGraphics.PenAt(here, width);
          assert CommonGraphics.Placements(here, width, s[i..]).0 == [CommonGraphics.Placement(at.x, at.y, s[i])] + rest;
          assert ([CommonGraphics.Placement(at.x, at.y, s[i])] + rest)[1..] == rest;
        } else {
          assert CommonGraphics.Placements(here, width, s[i..]).0 == [] + rest;
          assert [] + rest == rest;
        }
        PutByte(s[i]);
        i := i + 1;
      }
    }
  }
}
