// The drawing routines of the early UEFI binary, src/graphics/mod.rs.
// Unlike the kernel's and the shared crate's routines they check nothing
// but the byte: every set glyph bit is stored at `(y + row) * width +
// x + col`, even a column past the right edge (which lands on the next
// row).  The caller must keep every such offset inside the framebuffer;
// that is the `StringFits` precondition (the whole 8 x 8 cell of every byte).

module EarlyGraphics {
  import opened Base
  import opened Framebuffer
  import CommonGraphics

  /** `draw_char`'s loops: cell `(row, col)` is stored iff its glyph bit is set; no other guard. */
  function CharGrid(width: nat, x: nat, y: nat, glyph: Glyph): Grid
  {
    Grid(8, 8,
      (row: nat, col: nat) => row < 8 && col < 8 && Bit(glyph[row], col),
      (row: nat, col: nat) => CommonGraphics.Cell(width, x, y, row, col))
  }

  /**
   * The text box of `n` characters from `(x, y)` (8 pixels wide each, 8
   * rows) lies inside a framebuffer of `len` pixels; for `n == 1` this is
   * the cell of one character.
   */
  predicate StringFits(len: nat, width: nat, x: nat, y: nat, n: nat)
  {
    (y + 7) * width + x + 8 * n <= len
  }

  lemma RowsBelow(width: nat, a: nat, b: nat)
    requires a <= b
    ensures a * width <= b * width
  {
  }

  /** Every pixel of a character cell inside the framebuffer is inside it. */
  lemma CharFitsGrid(len: nat, width: nat, x: nat, y: nat, glyph: Glyph)
    requires StringFits(len, width, x, y, 1)
    ensures Fits(CharGrid(width, x, y, glyph), len)
  {
    forall row: nat, col: nat | row < 8 && col < 8
      ensures CommonGraphics.Cell(width, x, y, row, col) < len
    {
      RowsBelow(width, y + row, y + 7);
    }
  }

  /** The framebuffer after `draw_char`. */
  function DrawChar(s: seq<bv32>, width: nat, x: nat, y: nat, ch: bv8, color: bv32, font: seq<Glyph>): (r: seq<bv32>)
    requires |font| == 95 && StringFits(|s|, width, x, y, 1)
    ensures |r| == |s|
  {
    if !CommonGraphics.Printable(ch) then s
    else
      var glyph := CommonGraphics.GlyphOf(font, ch);
      CharFitsGrid(|s|, width, x, y, glyph);
      PaintGrid(s, CharGrid(width, x, y, glyph), 8, Solid(color))
  }

  /** Pixel `p` is the store of set glyph bit `(row, col)`. */
  predicate GlyphPixel(width: nat, x: nat, y: nat, glyph: Glyph, row: nat, col: nat, p: nat)
  {
    row < 8 && col < 8 && Bit(glyph[row], col) && p == CommonGraphics.Cell(width, x, y, row, col)
  }

  lemma GlyphPixelIsHit(width: nat, x: nat, y: nat, glyph: Glyph, row: nat, col: nat, p: nat)
    requires GlyphPixel(width, x, y, glyph, row, col, p)
    ensures GridHits(CharGrid(width, x, y, glyph), 8, p)
  {
    var g := CharGrid(width, x, y, glyph);
    assert g.hit(row, col) && g.at(row, col) == p;
    GridHitsIff(g, 8, p);
  }

  lemma HitIsGlyphPixel(width: nat, x: nat, y: nat, glyph: Glyph, p: nat)
    requires GridHits(CharGrid(width, x, y, glyph), 8, p)
    ensures exists row: nat, col: nat :: GlyphPixel(width, x, y, glyph, row, col, p)
  {
    var g := CharGrid(width, x, y, glyph);
    GridHitsIff(g, 8, p);
    var row: nat, col: nat :| row < 8 && col < 8 && g.hit(row, col) && g.at(row, col) == p;
    assert GlyphPixel(width, x, y, glyph, row, col, p);
  }

  /**
   * `draw_char` leaves the framebuffer alone for a byte outside 32 ..= 126;
   * otherwise pixel `p` takes `color` exactly when some set glyph bit
   * `(row, col)` lands on it, and keeps its value otherwise.
   */
  lemma DrawCharPixels(s: seq<bv32>, width: nat, x: nat, y: nat, ch: bv8, color: bv32, font: seq<Glyph>, p: nat)
    requires |font| == 95 && StringFits(|s|, width, x, y, 1) && p < |s|
    ensures !CommonGraphics.Printable(ch) ==> DrawChar(s, width, x, y, ch, color, font)[p] == s[p]
    ensures CommonGraphics.Printable(ch) ==>
      DrawChar(s, width, x, y, ch, color, font)[p] ==
        if exists row: nat, col: nat :: GlyphPixel(width, x, y, CommonGraphics.GlyphOf(font, ch), row, col, p)
        then color else s[p]
  {
    if CommonGraphics.Printable(ch) {
      var glyph := CommonGraphics.GlyphOf(font, ch);
      if exists row: nat, col: nat :: GlyphPixel(width, x, y, glyph, row, col, p) {
        var row: nat, col: nat :| GlyphPixel(width, x, y, glyph, row, col, p);
        GlyphPixelIsHit(width, x, y, glyph, row, col, p);
      } else if GridHits(CharGrid(width, x, y, glyph), 8, p) {
        HitIsGlyphPixel(width, x, y, glyph, p);
      }
    }
  }

  /** `draw_char` over the framebuffer array. */
  method DrawCharInto(fb: array<bv32>, width: U32, x: nat, y: nat, ch: bv8, color: bv32, font: seq<Glyph>)
    requires |font| == 95 && StringFits(fb.Length, width, x, y, 1)
    modifies fb
    ensures fb[..] == DrawChar(old(fb[..]), width, x, y, ch, color, font)
  {
    if ch < 32 || ch > 126 {
      return;
    }
    var glyph := font[(ch - 32) as int];
    CharFitsGrid(fb.Length, width, x, y, glyph);
    PaintInto(fb, CharGrid(width, x, y, glyph), Solid(color));
  }

  // ---- draw_string ----------------------------------------------------

  /** `draw_string`: the first byte at `x`, the rest from `x + 8`. */
  function DrawString(s: seq<bv32>, width: nat, x: nat, y: nat, text: seq<bv8>, color: bv32, font: seq<Glyph>): (r: seq<bv32>)
    requires |font| == 95 && StringFits(|s|, width, x, y, |text|)
    ensures |r| == |s|
    decreases |text|
  {
    if text == [] then s
    else DrawString(DrawChar(s, width, x, y, text[0], color, font), width, x + 8, y, text[1..], color, font)
  }

  /**
   * Byte `i` of the string is drawn at `x + 8 * i`, in order: drawing
   * `a + b` is drawing `a`, then `b` from `8 * |a|` pixels further right.
   */
  lemma {:induction false} DrawStringSplit(s: seq<bv32>, width: nat, x: nat, y: nat, a: seq<bv8>, b: seq<bv8>, color: bv32, font: seq<Glyph>)
    requires |font| == 95 && StringFits(|s|, width, x, y, |a| + |b|)
    ensures StringFits(|s|, width, x + 8 * |a|, y, |b|)
    ensures DrawString(s, width, x, y, a + b, color, font) ==
      DrawString(DrawString(s, width, x, y, a, color, font), width, x + 8 * |a|, y, b, color, font)
    decreases |a|
  {
    if a == [] {
      assert a + b == b;
    } else {
      assert (a + b)[0] == a[0] && (a + b)[1..] == a[1..] + b;
      var s1 := DrawChar(s, width, x, y, a[0], color, font);
      assert x + 8 + 8 * |a[1..]| == x + 8 * |a|;
      DrawStringSplit(s1, width, x + 8, y, a[1..], b, color, font);
    }
  }

  /**
   * `draw_string`'s loop: `cur_x` starts at `x` and grows by 8 after every
   * byte; the last step must not overflow `usize`.
   */
  method DrawStringInto(fb: array<bv32>, width: U32, x: nat, y: nat, text: seq<bv8>, color: bv32, font: seq<Glyph>)
    requires |font| == 95 && StringFits(fb.Length, width, x, y, |text|)
    requires x + 8 * |text| < U64_LIMIT
    modifies fb
    ensures fb[..] == DrawString(old(fb[..]), width, x, y, text, color, font)
  {
    var curX: nat := x;
    for i := 0 to |text|
      invariant curX == x + 8 * i
      invariant DrawString(old(fb[..]), width, x, y, text, color, font) ==
        DrawString(fb[..], width, curX, y, text[i..], color, font)
    {
      assert text[i..][0] == text[i] && text[i..][1..] == text[i + 1..];
      DrawCharInto(fb, width, curX, y, text[i], color, font);
      curX := curX + 8;
    }
  }
}
