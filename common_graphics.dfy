// The bounds-checked drawing routines of the shared crate,
// common/src/graphics/mod.rs, over a linear framebuffer of 32-bit pixels
// `width` pixels to a row.  Every pixel store is guarded: the column must
// be left of `width`, and no `usize` sum or product on the way to the
// offset may overflow.  The guards do not bound the row, so the caller
// still has to provide a buffer large enough for the rows drawn; that is
// the `Fits` precondition of each routine.
//
// `FramebufferWriter`'s cursor rules (newline, wrap at the right edge) are
// shared with the kernel's writer and are given once here, as the list of
// places `Placements` where characters are drawn.

module CommonGraphics {
  import opened Base
  import opened Framebuffer

  const NEWLINE: bv8 := 0x0A

  /** The linear offset of pixel `(col, row)`. */
  function Offset(width: nat, row: nat, col: nat): nat
  {
    row * width + col
  }

  /** The offset of pixel `(x + col, y + row)`: cell `(row, col)` of a figure drawn at `(x, y)`. */
  function Cell(width: nat, x: nat, y: nat, row: nat, col: nat): nat
  {
    Offset(width, y + row, x + col)
  }

  /** A byte the 8x8 font has a glyph for: 32 ..= 126. */
  predicate Printable(ch: bv8)
  {
    32 <= ch <= 126
  }

  /** The glyph of a printable byte; the font has one glyph per byte 32 ..= 126. */
  function GlyphOf(font: seq<Glyph>, ch: bv8): Glyph
    requires |font| == 95 && Printable(ch)
  {
    font[(ch - 32) as int]
  }

  lemma {:induction false} MulAtLeast(a: nat, b: nat)
    requires b >= 1
    ensures a * b >= a
  {
    assert a * b == a + a * (b - 1);
  }

  /** A guarded store at `(col, row)` with `col < width` inside a buffer of fewer than 2^64 pixels passes every overflow check. */
  lemma NoOverflow(width: nat, row: nat, col: nat, len: nat)
    requires col < width && Offset(width, row, col) < len <= U64_LIMIT
    ensures row < U64_LIMIT && col < U64_LIMIT && row * width < U64_LIMIT
  {
    MulAtLeast(row, width);
  }

  // ---- draw_char ------------------------------------------------------

  /** `draw_char`'s loops: glyph cell `(row, col)` is stored iff its bit is set and every guard passes. */
  function CharGrid(width: nat, x: nat, y: nat, glyph: Glyph): Grid
  {
    Grid(8, 8,
      (row: nat, col: nat) =>
        && row < 8 && col < 8 && Bit(glyph[row], col)
        && x + col < U64_LIMIT && y + row < U64_LIMIT && x + col < width
        && Cell(width, x, y, row, col) < U64_LIMIT,
      (row: nat, col: nat) => Cell(width, x, y, row, col))
  }

  ghost predicate CharFits(len: nat, width: nat, x: nat, y: nat, ch: bv8, font: seq<Glyph>)
    requires |font| == 95
  {
    Printable(ch) ==> Fits(CharGrid(width, x, y, GlyphOf(font, ch)), len)
  }

  /** The framebuffer after `draw_char`. */
  function DrawChar(s: seq<bv32>, width: nat, x: nat, y: nat, ch: bv8, color: bv32, font: seq<Glyph>): (r: seq<bv32>)
    requires |font| == 95 && CharFits(|s|, width, x, y, ch, font)
    ensures |r| == |s|
  {
    if !Printable(ch) then s else PaintGrid(s, CharGrid(width, x, y, GlyphOf(font, ch)), 8, Solid(color))
  }

  /** Pixel `(x + col, y + row)` belongs to the glyph and is left of the right edge. */
  predicate CharPixel(width: nat, x: nat, y: nat, glyph: Glyph, row: nat, col: nat)
  {
    row < 8 && col < 8 && Bit(glyph[row], col) && x + col < width
  }

  lemma CharPixelIsHit(width: nat, x: nat, y: nat, glyph: Glyph, len: nat, row: nat, col: nat)
    requires CharPixel(width, x, y, glyph, row, col) && Cell(width, x, y, row, col) < len <= U64_LIMIT
    ensures GridHits(CharGrid(width, x, y, glyph), 8, Cell(width, x, y, row, col))
  {
    var g := CharGrid(width, x, y, glyph);
    NoOverflow(width, y + row, x + col, len);
    assert g.hit(row, col);
    GridHitsIff(g, 8, Cell(width, x, y, row, col));
  }

  lemma HitIsCharPixel(width: nat, x: nat, y: nat, glyph: Glyph, p: nat)
    requires GridHits(CharGrid(width, x, y, glyph), 8, p)
    ensures exists row: nat, col: nat :: CharPixel(width, x, y, glyph, row, col) && p == Cell(width, x, y, row, col)
  {
    var g := CharGrid(width, x, y, glyph);
    GridHitsIff(g, 8, p);
    var row: nat, col: nat :| row < 8 && col < g.inner && g.hit(row, col) && g.at(row, col) == p;
    assert CharPixel(width, x, y, glyph, row, col);
  }

  /**
   * `draw_char` writes nothing for a byte without a glyph; otherwise it
   * colors exactly the set glyph pixels left of the right edge, and
   * nothing else.
   */
  lemma DrawCharPixels(s: seq<bv32>, width: nat, x: nat, y: nat, ch: bv8, color: bv32, font: seq<Glyph>, p: nat)
    requires |font| == 95 && CharFits(|s|, width, x, y, ch, font)
    requires |s| <= U64_LIMIT && p < |s|
    ensures !Printable(ch) ==> DrawChar(s, width, x, y, ch, color, font)[p] == s[p]
    ensures Printable(ch) ==>
      DrawChar(s, width, x, y, ch, color, font)[p] ==
        if exists row: nat, col: nat :: CharPixel(width, x, y, GlyphOf(font, ch), row, col) && p == Cell(width, x, y, row, col)
        then color else s[p]
  {
    if Printable(ch) {
      var glyph := GlyphOf(font, ch);
      if exists row: nat, col: nat :: CharPixel(width, x, y, glyph, row, col) && p == Cell(width, x, y, row, col) {
        var row: nat, col: nat :| CharPixel(width, x, y, glyph, row, col) && p == Cell(width, x, y, row, col);
        CharPixelIsHit(width, x, y, glyph, |s|, row, col);
      } else if GridHits(CharGrid(width, x, y, glyph), 8, p) {
        HitIsCharPixel(width, x, y, glyph, p);
      }
    }
  }

  method DrawCharInto(fb: array<bv32>, width: U32, x: nat, y: nat, ch: bv8, color: bv32, font: seq<Glyph>)
    requires |font| == 95 && CharFits(fb.Length, width, x, y, ch, font)
    modifies fb
    ensures fb[..] == DrawChar(old(fb[..]), width, x, y, ch, color, font)
  {
    if ch < 32 || ch > 126 {
      return;
    }
    var glyph := font[(ch - 32) as int];
    PaintInto(fb, CharGrid(width, x, y, glyph), Solid(color));
  }

  // ---- draw_string ----------------------------------------------------

  ghost predicate StringFits(len: nat, width: nat, x: nat, y: nat, text: seq<bv8>, font: seq<Glyph>)
    requires |font| == 95
    decreases |text|
  {
    text == [] ||
    (CharFits(len, width, x, y, text[0], font) && (x + 8 < U64_LIMIT ==> StringFits(len, width, x + 8, y, text[1..], font)))
  }

  /** `draw_string`: each byte at the next 8-pixel step, stopping after the byte whose step would overflow `usize`. */
  function DrawString(s: seq<bv32>, width: nat, x: nat, y: nat, text: seq<bv8>, color: bv32, font: seq<Glyph>): (r: seq<bv32>)
    requires |font| == 95 && StringFits(|s|, width, x, y, text, font)
    ensures |r| == |s|
    decreases |text|
  {
    if text == [] then s
    else
      var s1 := DrawChar(s, width, x, y, text[0], color, font);
      if x + 8 < U64_LIMIT then DrawString(s1, width, x + 8, y, text[1..], color, font) else s1
  }

  lemma {:induction false} StringFitsAppend(len: nat, width: nat, x: nat, y: nat, a: seq<bv8>, b: seq<bv8>, font: seq<Glyph>)
    requires |font| == 95 && x + 8 * |a| < U64_LIMIT
    requires StringFits(len, width, x, y, a, font) && StringFits(len, width, x + 8 * |a|, y, b, font)
    ensures StringFits(len, width, x, y, a + b, font)
    decreases |a|
  {
    if a == [] {
      assert a + b == b;
    } else {
      assert (a + b)[0] == a[0] && (a + b)[1..] == a[1..] + b;
      StringFitsAppend(len, width, x + 8, y, a[1..], b, font);
    }
  }

  /** Drawing `a + b` is drawing `a`, then `b` from `8 * |a|` pixels further right. */
  lemma {:induction false} DrawStringSplit(s: seq<bv32>, width: nat, x: nat, y: nat, a: seq<bv8>, b: seq<bv8>, color: bv32, font: seq<Glyph>)
    requires |font| == 95 && x + 8 * |a| < U64_LIMIT
    requires StringFits(|s|, width, x, y, a, font) && StringFits(|s|, width, x + 8 * |a|, y, b, font)
    ensures StringFits(|s|, width, x, y, a + b, font)
    ensures DrawString(s, width, x, y, a + b, color, font) ==
      DrawString(DrawString(s, width, x, y, a, color, font), width, x + 8 * |a|, y, b, color, font)
    decreases |a|
  {
    StringFitsAppend(|s|, width, x, y, a, b, font);
    if a == [] {
      assert a + b == b;
    } else {
      assert (a + b)[0] == a[0] && (a + b)[1..] == a[1..] + b;
      var s1 := DrawChar(s, width, x, y, a[0], color, font);
      DrawStringCons(s, width, x, y, a, color, font);
      DrawStringCons(s, width, x, y, a + b, color, font);
      assert |s1| == |s| && x + 8 + 8 * |a[1..]| == x + 8 * |a|;
      DrawStringSplit(s1, width, x + 8, y, a[1..], b, color, font);
    }
  }

  /** A non-empty string whose next step does not overflow: its first character, then the rest. */
  lemma DrawStringCons(s: seq<bv32>, width: nat, x: nat, y: nat, t: seq<bv8>, color: bv32, font: seq<Glyph>)
    requires |font| == 95 && StringFits(|s|, width, x, y, t, font) && t != [] && x + 8 < U64_LIMIT
    ensures StringFits(|s|, width, x + 8, y, t[1..], font)
    ensures DrawString(s, width, x, y, t, color, font) ==
      DrawString(DrawChar(s, width, x, y, t[0], color, font), width, x + 8, y, t[1..], color, font)
  {
  }

  method DrawStringInto(fb: array<bv32>, width: U32, x: nat, y: nat, text: seq<bv8>, color: bv32, font: seq<Glyph>)
    requires |font| == 95 && StringFits(fb.Length, width, x, y, text, font)
    modifies fb
    ensures fb[..] == DrawString(old(fb[..]), width, x, y, text, color, font)
  {
    var curX: nat := x;
    var i := 0;
    while i < |text|
      invariant i <= |text|
      invariant StringFits(fb.Length, width, curX, y, text[i..], font)
      invariant DrawString(old(fb[..]), width, x, y, text, color, font) ==
        DrawString(fb[..], width, curX, y, text[i..], color, font)
    {
      assert text[i..][0] == text[i] && text[i..][1..] == text[i + 1..];
      DrawCharInto(fb, width, curX, y, text[i], color, font);
      if curX + 8 < U64_LIMIT {
        curX := curX + 8;
      } else {
        break;
      }
      i := i + 1;
    }
  }

  // ---- draw_rect ------------------------------------------------------

  /** `draw_rect`'s loops: cell `(dy, dx)` is stored iff every guard passes. */
  function RectGrid(width: nat, x: nat, y: nat, w: nat, h: nat): Grid
  {
    Grid(h, w,
      (dy: nat, dx: nat) =>
        x + dx < U64_LIMIT && y + dy < U64_LIMIT && x + dx < width && Cell(width, x, y, dy, dx) < U64_LIMIT,
      (dy: nat, dx: nat) => Cell(width, x, y, dy, dx))
  }

  /** The framebuffer after `draw_rect`. */
  function DrawRect(s: seq<bv32>, width: nat, x: nat, y: nat, w: nat, h: nat, color: bv32): (r: seq<bv32>)
    requires Fits(RectGrid(width, x, y, w, h), |s|)
    ensures |r| == |s|
  {
    PaintGrid(s, RectGrid(width, x, y, w, h), h, Solid(color))
  }

  /** `draw_rect` colors exactly the pixels `(x + dx, y + dy)`, `dx < w`, `dy < h`, left of the right edge. */
  lemma DrawRectPixels(s: seq<bv32>, width: nat, x: nat, y: nat, w: nat, h: nat, color: bv32, p: nat)
    requires Fits(RectGrid(width, x, y, w, h), |s|)
    requires |s| <= U64_LIMIT && p < |s|
    ensures DrawRect(s, width, x, y, w, h, color)[p] ==
      if exists dy: nat, dx: nat :: dy < h && dx < w && x + dx < width && p == Cell(width, x, y, dy, dx)
      then color else s[p]
  {
    var g := RectGrid(width, x, y, w, h);
    GridHitsIff(g, h, p);
    if exists dy: nat, dx: nat :: dy < h && dx < w && x + dx < width && p == Cell(width, x, y, dy, dx) {
      var dy: nat, dx: nat :| dy < h && dx < w && x + dx < width && p == Cell(width, x, y, dy, dx);
      NoOverflow(width, y + dy, x + dx, |s|);
      assert g.hit(dy, dx) && g.at(dy, dx) == p;
    }
  }

  method DrawRectInto(fb: array<bv32>, width: U32, x: nat, y: nat, w: nat, h: nat, color: bv32)
    requires Fits(RectGrid(width, x, y, w, h), fb.Length)
    modifies fb
    ensures fb[..] == DrawRect(old(fb[..]), width, x, y, w, h, color)
  {
    PaintInto(fb, RectGrid(width, x, y, w, h), Solid(color));
  }

  // ---- draw_rect_outline ----------------------------------------------

  /** The first loop: for each `dx`, the top pixel (edge 0) and the bottom pixel (edge 1). */
  function TopBottom(width: nat, x: nat, y: nat, w: nat, h: nat): Grid
  {
    Grid(w, 2,
      (dx: nat, edge: nat) =>
        && x + dx < U64_LIMIT && x + dx < width
        && (if edge == 0 then Offset(width, y, x + dx) < U64_LIMIT
            else y + h - 1 < U64_LIMIT && (y + h - 1) * width + x + dx < U64_LIMIT),
      (dx: nat, edge: nat) => (if edge == 0 then y else y + h - 1) * width + x + dx)
  }

  /** The second loop: for each `dy`, the left pixel (edge 0) and the right pixel (edge 1). */
  function LeftRight(width: nat, x: nat, y: nat, w: nat, h: nat): Grid
  {
    Grid(h, 2,
      (dy: nat, edge: nat) =>
        && y + dy < U64_LIMIT
        && (if edge == 0 then x < width && Offset(width, y + dy, x) < U64_LIMIT
            else x + w - 1 < U64_LIMIT && x + w - 1 < width && (y + dy) * width + x + w - 1 < U64_LIMIT),
      (dy: nat, edge: nat) => (y + dy) * width + (if edge == 0 then x else x + w - 1))
  }

  ghost predicate OutlineFits(len: nat, width: nat, x: nat, y: nat, w: nat, h: nat)
  {
    w != 0 && h != 0 ==> Fits(TopBottom(width, x, y, w, h), len) && Fits(LeftRight(width, x, y, w, h), len)
  }

  /** The framebuffer after `draw_rect_outline`. */
  function DrawRectOutline(s: seq<bv32>, width: nat, x: nat, y: nat, w: nat, h: nat, color: bv32): (r: seq<bv32>)
    requires OutlineFits(|s|, width, x, y, w, h)
    ensures |r| == |s|
  {
    if w == 0 || h == 0 then s
    else PaintGrid(PaintGrid(s, TopBottom(width, x, y, w, h), w, Solid(color)), LeftRight(width, x, y, w, h), h, Solid(color))
  }

  /** Pixel `(col, row)` lies on the border of the `w x h` rectangle at `(x, y)`. */
  predicate OnOutline(x: nat, y: nat, w: nat, h: nat, col: nat, row: nat)
  {
    || ((row == y || row == y + h - 1) && x <= col < x + w)
    || ((col == x || col == x + w - 1) && y <= row < y + h)
  }

  lemma TopBottomHits(width: nat, x: nat, y: nat, w: nat, h: nat, len: nat, p: nat)
    requires w != 0 && h != 0 && len <= U64_LIMIT && p < len
    ensures GridHits(TopBottom(width, x, y, w, h), w, p) <==>
      exists col: nat, row: nat :: (row == y || row == y + h - 1) && x <= col < x + w && col < width && p == Offset(width, row, col)
  {
    var g := TopBottom(width, x, y, w, h);
    GridHitsIff(g, w, p);
    if exists col: nat, row: nat :: (row == y || row == y + h - 1) && x <= col < x + w && col < width && p == Offset(width, row, col) {
      var col: nat, row: nat :| (row == y || row == y + h - 1) && x <= col < x + w && col < width && p == Offset(width, row, col);
      NoOverflow(width, row, col, len);
      var edge := if row == y then 0 else 1;
      assert g.hit(col - x, edge) && g.at(col - x, edge) == p;
    }
    if exists dx: nat, edge: nat :: dx < w && edge < 2 && g.hit(dx, edge) && g.at(dx, edge) == p {
      var dx: nat, edge: nat :| dx < w && edge < 2 && g.hit(dx, edge) && g.at(dx, edge) == p;
      var row := if edge == 0 then y else y + h - 1;
      assert p == Offset(width, row, x + dx);
    }
  }

  lemma LeftRightHits(width: nat, x: nat, y: nat, w: nat, h: nat, len: nat, p: nat)
    requires w != 0 && h != 0 && len <= U64_LIMIT && p < len
    ensures GridHits(LeftRight(width, x, y, w, h), h, p) <==>
      exists col: nat, row: nat :: (col == x || col == x + w - 1) && y <= row < y + h && col < width && p == Offset(width, row, col)
  {
    var g := LeftRight(width, x, y, w, h);
    GridHitsIff(g, h, p);
    if exists col: nat, row: nat :: (col == x || col == x + w - 1) && y <= row < y + h && col < width && p == Offset(width, row, col) {
      var col: nat, row: nat :| (col == x || col == x + w - 1) && y <= row < y + h && col < width && p == Offset(width, row, col);
      NoOverflow(width, row, col, len);
      var edge := if col == x then 0 else 1;
      assert g.hit(row - y, edge) && g.at(row - y, edge) == p;
    }
    if exists dy: nat, edge: nat :: dy < h && edge < 2 && g.hit(dy, edge) && g.at(dy, edge) == p {
      var dy: nat, edge: nat :| dy < h && edge < 2 && g.hit(dy, edge) && g.at(dy, edge) == p;
      var col := if edge == 0 then x else x + w - 1;
      assert p == Offset(width, y + dy, col);
    }
  }

  /**
   * `draw_rect_outline` writes nothing for an empty size; otherwise it
   * colors exactly the border pixels of the rectangle that lie left of the
   * right edge, and nothing else.
   */
  lemma DrawRectOutlinePixels(s: seq<bv32>, width: nat, x: nat, y: nat, w: nat, h: nat, color: bv32, p: nat)
    requires OutlineFits(|s|, width, x, y, w, h)
    requires |s| <= U64_LIMIT && p < |s|
    ensures DrawRectOutline(s, width, x, y, w, h, color)[p] ==
      if w != 0 && h != 0 && exists col: nat, row: nat :: OnOutline(x, y, w, h, col, row) && col < width && p == Offset(width, row, col)
      then color else s[p]
  {
    if w != 0 && h != 0 {
      TopBottomHits(width, x, y, w, h, |s|, p);
      LeftRightHits(width, x, y, w, h, |s|, p);
    }
  }

  method DrawRectOutlineInto(fb: array<bv32>, width: U32, x: nat, y: nat, w: nat, h: nat, color: bv32)
    requires OutlineFits(fb.Length, width, x, y, w, h)
    modifies fb
    ensures fb[..] == DrawRectOutline(old(fb[..]), width, x, y, w, h, color)
  {
    if w == 0 || h == 0 {
      return;
    }
    PaintInto(fb, TopBottom(width, x, y, w, h), Solid(color));
    PaintInto(fb, LeftRight(width, x, y, w, h), Solid(color));
  }

  // ---- FramebufferWriter ----------------------------------------------

  /** The text cursor, in pixels. */
  datatype Pen = Pen(x: nat, y: nat)

  /** A character drawn at `(x, y)`. */
  datatype Placement = Placement(x: nat, y: nat, ch: bv8)

  /** The `usize` cursor sums one byte evaluates do not overflow. */
  predicate PenStepDefined(c: Pen, width: nat, ch: bv8)
  {
    if ch == NEWLINE then c.y + 10 < U64_LIMIT
    else c.x + 8 < U64_LIMIT && (c.x + 8 > width ==> c.y + 10 < U64_LIMIT)
  }

  /** Where a non-newline byte is drawn: on a new line when it would cross the right edge. */
  function PenAt(c: Pen, width: nat): (at: Pen)
    ensures at.x == 0 || at.x + 8 <= width
    ensures at.y == c.y || at.y == c.y + 10
  {
    if c.x + 8 > width then Pen(0, c.y + 10) else c
  }

  /** The cursor after one byte: a newline starts the next line, any other byte moves 8 pixels right of where it was drawn. */
  function PenNext(c: Pen, width: nat, ch: bv8): Pen
  {
    if ch == NEWLINE then Pen(0, c.y + 10)
    else
      var at := PenAt(c, width);
      Pen(at.x + 8, at.y)
  }

  ghost predicate PlacementsDefined(c: Pen, width: nat, bytes: seq<bv8>)
    decreases |bytes|
  {
    bytes == [] || (PenStepDefined(c, width, bytes[0]) && PlacementsDefined(PenNext(c, width, bytes[0]), width, bytes[1..]))
  }

  /** `write_str`'s cursor rules: where each non-newline byte is drawn, in order, and the final cursor. */
  function Placements(c: Pen, width: nat, bytes: seq<bv8>): (seq<Placement>, Pen)
    decreases |bytes|
  {
    if bytes == [] then ([], c)
    else
      var rest := Placements(PenNext(c, width, bytes[0]), width, bytes[1..]);
      var at := PenAt(c, width);
      ((if bytes[0] == NEWLINE then [] else [Placement(at.x, at.y, bytes[0])]) + rest.0, rest.1)
  }

  /** The number of bytes other than newline. */
  function CountPrintable(bytes: seq<bv8>): nat
  {
    if bytes == [] then 0 else (if bytes[0] != NEWLINE then 1 else 0) + CountPrintable(bytes[1..])
  }

  /**
   * Each non-newline byte is drawn exactly once, in order, and every
   * character starts at the left edge or ends by the right edge.
   */
  lemma {:induction false} PlacementsShape(c: Pen, width: nat, bytes: seq<bv8>)
    ensures |Placements(c, width, bytes).0| == CountPrintable(bytes)
    ensures forall k :: 0 <= k < |Placements(c, width, bytes).0| ==>
      var q := Placements(c, width, bytes).0[k];
      q.ch != NEWLINE && (q.x == 0 || q.x + 8 <= width)
    decreases |bytes|
  {
    if bytes != [] {
      PlacementsShape(PenNext(c, width, bytes[0]), width, bytes[1..]);
      var head: seq<Placement> := if bytes[0] == NEWLINE then [] else [Placement(PenAt(c, width).x, PenAt(c, width).y, bytes[0])];
      var rest := Placements(PenNext(c, width, bytes[0]), width, bytes[1..]).0;
      assert forall k :: |head| <= k < |head + rest| ==> (head + rest)[k] == rest[k - |head|];
    }
  }

  /** Text never moves up: every character is drawn at or below the starting line, and the cursor ends at or below it too. */
  lemma {:induction false} PlacementsBelow(c: Pen, width: nat, bytes: seq<bv8>)
    ensures forall k :: 0 <= k < |Placements(c, width, bytes).0| ==> Placements(c, width, bytes).0[k].y >= c.y
    ensures Placements(c, width, bytes).1.y >= c.y
    decreases |bytes|
  {
    if bytes != [] {
      PlacementsBelow(PenNext(c, width, bytes[0]), width, bytes[1..]);
      var head: seq<Placement> := if bytes[0] == NEWLINE then [] else [Placement(PenAt(c, width).x, PenAt(c, width).y, bytes[0])];
      var rest := Placements(PenNext(c, width, bytes[0]), width, bytes[1..]).0;
      assert forall k :: |head| <= k < |head + rest| ==> (head + rest)[k] == rest[k - |head|];
    }
  }

  ghost predicate PlacementsFit(len: nat, width: nat, font: seq<Glyph>, ps: seq<Placement>)
    requires |font| == 95
    decreases |ps|
  {
    ps == [] || (CharFits(len, width, ps[0].x, ps[0].y, ps[0].ch, font) && PlacementsFit(len, width, font, ps[1..]))
  }

  /** The framebuffer after drawing each placed character in turn. */
  function DrawPlacements(s: seq<bv32>, width: nat, color: bv32, font: seq<Glyph>, ps: seq<Placement>): (r: seq<bv32>)
    requires |font| == 95 && PlacementsFit(|s|, width, font, ps)
    ensures |r| == |s|
    decreases |ps|
  {
    if ps == [] then s
    else DrawPlacements(DrawChar(s, width, ps[0].x, ps[0].y, ps[0].ch, color, font), width, color, font, ps[1..])
  }

  class FramebufferWriter {
    /** The framebuffer memory at `fb_base`. */
    const fb: array<bv32>
    const width: U32
    const height: U32
    /** The 8x8 font, one glyph per byte 32 ..= 126. */
    const font: seq<Glyph>
    var x: nat
    var y: nat
    var color: bv32

    /** `FramebufferWriter::new`: cursor at the top-left corner. */
    constructor (fb: array<bv32>, width: U32, height: U32, color: bv32, font: seq<Glyph>)
      requires |font| == 95
      ensures this.fb == fb && this.width == width && this.height == height && this.font == font
      ensures x == 0 && y == 0 && this.color == color
    {
      this.fb := fb;
      this.width := width;
      this.height := height;
      this.font := font;
      x := 0;
      y := 0;
      this.color := color;
    }

    /** `set_position`: moves the cursor, nothing else. */
    method SetPosition(x: nat, y: nat)
      modifies this
      ensures this.x == x && this.y == y && color == old(color)
    {
      this.x := x;
      this.y := y;
    }

    /** `set_color`: changes the color, nothing else. */
    method SetColor(color: bv32)
      modifies this
      ensures this.color == color && x == old(x) && y == old(y)
    {
      this.color := color;
    }

    /** `clear_area`: fills `width_chars` character cells of one 10-pixel line at the cursor. */
    method ClearArea(widthChars: nat, bgColor: bv32)
      requires widthChars * 8 < U64_LIMIT
      requires Fits(RectGrid(width, x, y, widthChars * 8, 10), fb.Length)
      modifies fb
      ensures fb[..] == DrawRect(old(fb[..]), width, x, y, widthChars * 8, 10, bgColor)
    {
      var widthPixels := widthChars * 8;
      DrawRectInto(fb, width, x, y, widthPixels, 10, bgColor);
    }

    /** One byte of `write_str`'s loop. */
    method PutByte(ch: bv8)
      requires |font| == 95 && PenStepDefined(Pen(x, y), width, ch)
      requires ch != NEWLINE ==> CharFits(fb.Length, width, PenAt(Pen(x, y), width).x, PenAt(Pen(x, y), width).y, ch, font)
      modifies this, fb
      ensures Pen(x, y) == PenNext(Pen(old(x), old(y)), width, ch) && color == old(color)
      ensures ch == NEWLINE ==> fb[..] == old(fb[..])
      ensures ch != NEWLINE ==>
        var at := PenAt(Pen(old(x), old(y)), width);
        fb[..] == DrawChar(old(fb[..]), width, at.x, at.y, ch, color, font)
    {
      if ch == NEWLINE {
        x := 0;
        y := y + 10;
      } else {
        if x + 8 > width {
          x := 0;
          y := y + 10;
        }
        DrawCharInto(fb, width, x, y, ch, color, font);
        x := x + 8;
      }
    }

    /** `write_str` (which always returns `Ok`): draws the characters where `Placements` puts them and leaves the cursor at its end. */
    method WriteStr(s: seq<bv8>)
      requires |font| == 95
      requires PlacementsDefined(Pen(x, y), width, s)
      requires PlacementsFit(fb.Length, width, font, Placements(Pen(x, y), width, s).0)
      modifies this, fb
      ensures fb[..] == DrawPlacements(old(fb[..]), width, old(color), font, Placements(Pen(old(x), old(y)), width, s).0)
      ensures Pen(x, y) == Placements(Pen(old(x), old(y)), width, s).1
      ensures color == old(color)
    {
      ghost var c0 := Pen(x, y);
      var i := 0;
      while i < |s|
        invariant i <= |s| && color == old(color)
        invariant PlacementsDefined(Pen(x, y), width, s[i..])
        invariant PlacementsFit(fb.Length, width, font, Placements(Pen(x, y), width, s[i..]).0)
        invariant DrawPlacements(old(fb[..]), width, color, font, Placements(c0, width, s).0) ==
          DrawPlacements(fb[..], width, color, font, Placements(Pen(x, y), width, s[i..]).0)
        invariant Placements(c0, width, s).1 == Placements(Pen(x, y), width, s[i..]).1
      {
        assert s[i..][0] == s[i] && s[i..][1..] == s[i + 1..];
        ghost var rest := Placements(PenNext(Pen(x, y), width, s[i]), width, s[i + 1..]).0;
        if s[i] != NEWLINE {
          var at := PenAt(Pen(x, y), width);
          assert Placements(Pen(x, y), width, s[i..]).0 == [Placement(at.x, at.y, s[i])] + rest;
          assert ([Placement(at.x, at.y, s[i])] + rest)[1..] == rest;
        } else {
          assert Placements(Pen(x, y), width, s[i..]).0 == [] + rest;
          assert [] + rest == rest;
        }
        PutByte(s[i]);
        i := i + 1;
      }
    }
  }
}
