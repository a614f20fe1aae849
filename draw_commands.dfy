// What each draw command does, kernel/src/graphics/compositor.rs
// `render_commands_to`: the pixels it draws into the shadow buffer with the
// kernel's drawing routines, and the rectangle it marks dirty.  The
// compositor's methods are proved against these functions.

module DrawCommands {
  import opened Base
  import opened Regions
  import opened Framebuffer
  import opened WriterBuffers
  import opened ShadowBuffers
  import KernelGraphics

  // ---- render_commands_to ---------------------------------------------------

  /**
   * The `u32` sums `render_commands_to` makes for a command do not overflow
   * (a debug build panics on them): the global position `region + (x, y)`,
   * `len * 8` for a string, and the far corner of the marked rectangle.
   */
  predicate CommandDefined(region: Region, cmd: DrawCommand)
  {
    match cmd
    case Clear(_) => NoOverflow(region)
    case DrawChar(x, y, _, _) => region.x + x + 8 < U32_LIMIT && region.y + y + 8 < U32_LIMIT
    case DrawString(x, y, text, _) =>
      |text| * 8 < U32_LIMIT && region.x + x + |text| * 8 < U32_LIMIT && region.y + y + 8 < U32_LIMIT
    case FillRect(x, y, w, h, _) => region.x + x + w < U32_LIMIT && region.y + y + h < U32_LIMIT
  }

  /**
   * The rectangle `render_commands_to` marks dirty for a command: the whole
   * region for `Clear`, the 8x8 cell for `DrawChar`, `len * 8` by 8 for
   * `DrawString` and the rectangle itself for `FillRect`, each at the
   * region's origin plus the command's offset.
   */
  function DirtyOf(region: Region, cmd: DrawCommand): (d: Region)
    requires CommandDefined(region, cmd)
    ensures NoOverflow(d)
  {
    match cmd
    case Clear(_) => region
    case DrawChar(x, y, _, _) => Region(region.x + x, region.y + y, 8, 8)
    case DrawString(x, y, text, _) => Region(region.x + x, region.y + y, |text| * 8, 8)
    case FillRect(x, y, w, h, _) => Region(region.x + x, region.y + y, w, h)
  }

  /**
   * The command is defined and its drawing stays inside a buffer of `len`
   * pixels; the drawing routines do not clip rows, so this is the caller's
   * duty.
   */
  ghost predicate CommandOk(len: nat, stride: U32, region: Region, cmd: DrawCommand)
  {
    CommandDefined(region, cmd) &&
    match cmd
    case Clear(_) => KernelGraphics.RectFits(len, stride, region.x, region.y, region.width, region.height)
    case DrawChar(x, y, ch, _) => KernelGraphics.CharFits(len, stride, region.x + x, region.y + y, ch)
    case DrawString(x, y, text, _) => KernelGraphics.StringFits(len, stride, region.x + x, region.y + y, text)
    case FillRect(x, y, w, h, _) => KernelGraphics.RectFits(len, stride, region.x + x, region.y + y, w, h)
  }

  ghost predicate CommandsOk(len: nat, stride: U32, region: Region, cmds: seq<DrawCommand>)
  {
    forall i :: 0 <= i < |cmds| ==> CommandOk(len, stride, region, cmds[i])
  }

  /** Pixel `p` of a `stride`-wide buffer lies in rectangle `d`, left of the edge. */
  ghost predicate InRect(stride: nat, d: Region, p: nat)
  {
    KernelGraphics.Footprint(stride, d.x, d.y, d.width, d.height, p)
  }

  /** The kernel's `draw_rect`; it changes only pixels of its box. */
  function RectAt(s: seq<bv32>, stride: U32, x: U32, y: U32, w: U32, h: U32, color: bv32): (r: seq<bv32>)
    requires KernelGraphics.RectFits(|s|, stride, x, y, w, h)
    ensures |r| == |s|
    ensures forall p :: 0 <= p < |s| && r[p] != s[p] ==> InRect(stride, Region(x, y, w, h), p)
  {
    KernelGraphics.RectChangesWithin(s, stride, x, y, w, h, color);
    KernelGraphics.DrawRect(s, stride, x, y, w, h, color)
  }

  /** The kernel's `draw_char`; it changes only pixels of its 8x8 cell. */
  function CharAt(s: seq<bv32>, stride: U32, x: U32, y: U32, ch: bv8, color: bv32, font: seq<Glyph>): (r: seq<bv32>)
    requires |font| == 95 && KernelGraphics.CharFits(|s|, stride, x, y, ch)
    ensures |r| == |s|
    ensures forall p :: 0 <= p < |s| && r[p] != s[p] ==> InRect(stride, Region(x, y, 8, 8), p)
  {
    KernelGraphics.CharChangesWithin(s, stride, x, y, ch, color, font);
    KernelGraphics.DrawChar(s, stride, x, y, ch, color, font)
  }

  /** The kernel's `draw_string`; it changes only pixels of its `|text| * 8` by 8 box. */
  function StringAt(s: seq<bv32>, stride: U32, x: U32, y: U32, text: seq<bv8>, color: bv32, font: seq<Glyph>): (r: seq<bv32>)
    requires |font| == 95 && KernelGraphics.StringFits(|s|, stride, x, y, text) && |text| * 8 < U32_LIMIT
    ensures |r| == |s|
    ensures forall p :: 0 <= p < |s| && r[p] != s[p] ==> InRect(stride, Region(x, y, |text| * 8, 8), p)
  {
    KernelGraphics.StringChangesWithin(s, stride, x, y, text, color, font);
    assert 8 * |text| == |text| * 8;
    KernelGraphics.DrawString(s, stride, x, y, text, color, font)
  }

  /**
   * The shadow pixels after one command, drawn with the kernel's routines
   * in screen coordinates.  Every pixel it changes lies in the rectangle
   * `render_commands_to` marks for it.
   */
  function Apply(s: seq<bv32>, stride: U32, region: Region, cmd: DrawCommand, font: seq<Glyph>): (r: seq<bv32>)
    requires |font| == 95 && CommandOk(|s|, stride, region, cmd)
    ensures |r| == |s|
    ensures forall p :: 0 <= p < |s| && r[p] != s[p] ==> InRect(stride, DirtyOf(region, cmd), p)
  {
    match cmd
    case Clear(color) => RectAt(s, stride, region.x, region.y, region.width, region.height, color)
    case DrawChar(x, y, ch, color) => CharAt(s, stride, region.x + x, region.y + y, ch, color, font)
    case DrawString(x, y, text, color) => StringAt(s, stride, region.x + x, region.y + y, text, color, font)
    case FillRect(x, y, w, h, color) => RectAt(s, stride, region.x + x, region.y + y, w, h, color)
  }

  /** The shadow pixels after the commands, oldest first. */
  function Render(s: seq<bv32>, stride: U32, region: Region, cmds: seq<DrawCommand>, font: seq<Glyph>): (r: seq<bv32>)
    requires |font| == 95 && CommandsOk(|s|, stride, region, cmds)
    ensures |r| == |s|
    decreases |cmds|
  {
    if cmds == [] then s
    else
      var n := |cmds| - 1;
      Apply(Render(s, stride, region, cmds[..n], font), stride, region, cmds[n], font)
  }

  /** The dirty rectangle after marking each command's rectangle in turn. */
  function Dirties(dirty: Option<Region>, width: U32, height: U32, region: Region, cmds: seq<DrawCommand>): (r: Option<Region>)
    requires DirtyInBounds(dirty, width, height)
    requires forall i :: 0 <= i < |cmds| ==> CommandDefined(region, cmds[i])
    ensures DirtyInBounds(r, width, height)
    decreases |cmds|
  {
    if cmds == [] then dirty
    else
      var n := |cmds| - 1;
      var d := Dirties(dirty, width, height, region, cmds[..n]);
      MarkDirtyInBounds(d, width, height, DirtyOf(region, cmds[n]));
      MarkDirty(d, width, height, DirtyOf(region, cmds[n]))
  }
}
