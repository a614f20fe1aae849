// The per-task text writer of the compositor, kernel/src/graphics/writer.rs.
// It turns the bytes a task prints into draw commands in its buffer, with
// an 8x8 character cell, 10-pixel lines, wrapping at the right edge of the
// region and a clear-and-restart at the bottom.
//
// `Typeset` says which commands a run of bytes produces and where it leaves
// the cursor; `TaskWriter.WriteStr` is proved to push exactly those.  The
// `u32` cursor arithmetic panics on overflow in a debug build, so
// `TypesetDefined` is a precondition.

module TaskWriters {
  import opened Base
  import opened Regions
  import opened WriterBuffers

  const NEWLINE: bv8 := 0x0A

  datatype Cursor = Cursor(x: U32, y: U32)

  /** The cursor sums one byte evaluates stay in `u32`. */
  predicate StepDefined(c: Cursor, region: Region, ch: bv8)
  {
    if ch == NEWLINE then c.y + 10 < U32_LIMIT
    else
      && c.x + 8 < U32_LIMIT
      && (c.x + 8 > region.width ==> c.y + 18 < U32_LIMIT)
      && c.y + 8 < U32_LIMIT
  }

  /** Where a non-newline byte is drawn: wrapped to a new line if it would cross the right edge, back to the top if it would cross the bottom. */
  function DrawAt(c: Cursor, region: Region): Cursor
    requires c.x + 8 < U32_LIMIT && c.y + 8 < U32_LIMIT
    requires c.x + 8 > region.width ==> c.y + 18 < U32_LIMIT
  {
    var w := if c.x + 8 > region.width then Cursor(0, c.y + 10) else c;
    if w.y + 8 > region.height then Cursor(w.x, 0) else w
  }

  /** A character starts at the left edge or ends by the right edge, and starts at the top or ends by the bottom. */
  lemma DrawAtInRegion(c: Cursor, region: Region)
    requires c.x + 8 < U32_LIMIT && c.y + 8 < U32_LIMIT
    requires c.x + 8 > region.width ==> c.y + 18 < U32_LIMIT
    ensures DrawAt(c, region).x == 0 || DrawAt(c, region).x + 8 <= region.width
    ensures DrawAt(c, region).y == 0 || DrawAt(c, region).y + 8 <= region.height
  {
  }

  /** The cursor after one byte. */
  function NextCursor(c: Cursor, region: Region, ch: bv8): Cursor
    requires StepDefined(c, region, ch)
  {
    if ch == NEWLINE then Cursor(0, c.y + 10)
    else
      var at := DrawAt(c, region);
      Cursor(at.x + 8, at.y)
  }

  /**
   * The commands one byte pushes: nothing for a newline; otherwise a
   * `Clear(0)` when the text ran off the bottom, then one `DrawChar` at the
   * cursor.
   */
  function Emitted(c: Cursor, region: Region, color: bv32, ch: bv8): seq<DrawCommand>
    requires StepDefined(c, region, ch)
  {
    if ch == NEWLINE then []
    else
      var w := if c.x + 8 > region.width then Cursor(0, c.y + 10) else c;
      var at := DrawAt(c, region);
      (if w.y + 8 > region.height then [Clear(0)] else []) + [DrawChar(at.x, at.y, ch, color)]
  }

  /**
   * What one byte pushes: nothing for a newline; otherwise one `DrawChar`
   * ending where the next cursor starts, preceded by a `Clear(0)` exactly
   * when the cursor went back to the top.
   */
  lemma EmittedShape(c: Cursor, region: Region, color: bv32, ch: bv8)
    requires StepDefined(c, region, ch)
    ensures ch == NEWLINE ==> Emitted(c, region, color, ch) == []
    ensures ch != NEWLINE ==>
      var cmds := Emitted(c, region, color, ch);
      && 1 <= |cmds| <= 2
      && cmds[|cmds| - 1] == DrawChar(NextCursor(c, region, ch).x - 8, NextCursor(c, region, ch).y, ch, color)
      && (|cmds| == 2 ==> cmds[0] == Clear(0) && NextCursor(c, region, ch).y == 0)
  {
  }

  predicate TypesetDefined(c: Cursor, region: Region, bytes: seq<bv8>)
    decreases |bytes|
  {
    bytes == [] ||
    (StepDefined(c, region, bytes[0]) && TypesetDefined(NextCursor(c, region, bytes[0]), region, bytes[1..]))
  }

  /** Where `write_str` leaves the cursor after a run of bytes. */
  function FinalCursor(c: Cursor, region: Region, bytes: seq<bv8>): Cursor
    requires TypesetDefined(c, region, bytes)
    decreases |bytes|
  {
    if bytes == [] then c else FinalCursor(NextCursor(c, region, bytes[0]), region, bytes[1..])
  }

  /** `write_str`: the commands a run of bytes pushes, in order. */
  function Typeset(c: Cursor, region: Region, color: bv32, bytes: seq<bv8>): seq<DrawCommand>
    requires TypesetDefined(c, region, bytes)
    decreases |bytes|
  {
    if bytes == [] then []
    else Emitted(c, region, color, bytes[0]) + Typeset(NextCursor(c, region, bytes[0]), region, color, bytes[1..])
  }

  /** `a + b` can be written exactly when `a` can, and then `b` from where `a` left the cursor. */
  lemma {:induction false} TypesetDefinedAppend(c: Cursor, region: Region, a: seq<bv8>, b: seq<bv8>)
    ensures TypesetDefined(c, region, a + b) <==>
      TypesetDefined(c, region, a) && TypesetDefined(FinalCursor(c, region, a), region, b)
    decreases |a|
  {
    if a == [] {
      assert a + b == b;
    } else {
      assert (a + b)[0] == a[0] && (a + b)[1..] == a[1..] + b;
      if StepDefined(c, region, a[0]) {
        TypesetDefinedAppend(NextCursor(c, region, a[0]), region, a[1..], b);
      }
    }
  }

  /** After `a + b` the cursor is where `b` leaves it when started where `a` left it. */
  lemma {:induction false} FinalCursorAppend(c: Cursor, region: Region, a: seq<bv8>, b: seq<bv8>)
    requires TypesetDefined(c, region, a + b)
    ensures TypesetDefined(c, region, a) && TypesetDefined(FinalCursor(c, region, a), region, b)
    ensures FinalCursor(c, region, a + b) == FinalCursor(FinalCursor(c, region, a), region, b)
    decreases |a|
  {
    TypesetDefinedAppend(c, region, a, b);
    if a == [] {
      assert a + b == b;
    } else {
      assert (a + b)[0] == a[0] && (a + b)[1..] == a[1..] + b;
      FinalCursorAppend(NextCursor(c, region, a[0]), region, a[1..], b);
    }
  }

  /** Writing `a + b` pushes what writing `a` pushes, then what `b` pushes from where `a` left the cursor. */
  lemma {:induction false} TypesetAppend(c: Cursor, region: Region, color: bv32, a: seq<bv8>, b: seq<bv8>)
    requires TypesetDefined(c, region, a + b)
    ensures TypesetDefined(c, region, a) && TypesetDefined(FinalCursor(c, region, a), region, b)
    ensures Typeset(c, region, color, a + b) ==
      Typeset(c, region, color, a) + Typeset(FinalCursor(c, region, a), region, color, b)
    decreases |a|
  {
    TypesetDefinedAppend(c, region, a, b);
    if a == [] {
      assert a + b == b;
    } else {
      var next := NextCursor(c, region, a[0]);
      assert (a + b)[0] == a[0] && (a + b)[1..] == a[1..] + b;
      TypesetAppend(next, region, color, a[1..], b);
      var head := Emitted(c, region, color, a[0]);
      var ta := Typeset(next, region, color, a[1..]);
      var tb := Typeset(FinalCursor(next, region, a[1..]), region, color, b);
      assert head + (ta + tb) == (head + ta) + tb;
    }
  }

  /** One more byte of a run: through byte `i` is up to byte `i`, then byte `i` itself. */
  lemma TypesetStep(c: Cursor, region: Region, color: bv32, s: seq<bv8>, i: nat)
    requires i < |s| && TypesetDefined(c, region, s)
    ensures TypesetDefined(c, region, s[..i]) && TypesetDefined(c, region, s[..i + 1])
    ensures StepDefined(FinalCursor(c, region, s[..i]), region, s[i])
    ensures FinalCursor(c, region, s[..i + 1]) == NextCursor(FinalCursor(c, region, s[..i]), region, s[i])
    ensures Typeset(c, region, color, s[..i + 1]) ==
      Typeset(c, region, color, s[..i]) + Emitted(FinalCursor(c, region, s[..i]), region, color, s[i])
  {
    assert s == s[..i + 1] + s[i + 1..];
    TypesetDefinedAppend(c, region, s[..i + 1], s[i + 1..]);
    assert s[..i + 1] == s[..i] + [s[i]];
    FinalCursorAppend(c, region, s[..i], [s[i]]);
    TypesetAppend(c, region, color, s[..i], [s[i]]);
    assert [s[i]][1..] == [];
  }

  /** The number of `DrawChar` commands. */
  function DrawChars(cmds: seq<DrawCommand>): nat
  {
    if cmds == [] then 0 else (if cmds[0].DrawChar? then 1 else 0) + DrawChars(cmds[1..])
  }

  /** The number of bytes other than newline. */
  function Printable(bytes: seq<bv8>): nat
  {
    if bytes == [] then 0 else (if bytes[0] != NEWLINE then 1 else 0) + Printable(bytes[1..])
  }

  lemma {:induction false} DrawCharsAppend(a: seq<DrawCommand>, b: seq<DrawCommand>)
    ensures DrawChars(a + b) == DrawChars(a) + DrawChars(b)
    decreases |a|
  {
    if a == [] {
      assert a + b == b;
    } else {
      assert (a + b)[0] == a[0] && (a + b)[1..] == a[1..] + b;
      DrawCharsAppend(a[1..], b);
    }
  }

  /** Every byte but a newline pushes exactly one `DrawChar`. */
  lemma {:induction false} OneDrawCharPerByte(c: Cursor, region: Region, color: bv32, bytes: seq<bv8>)
    requires TypesetDefined(c, region, bytes)
    ensures DrawChars(Typeset(c, region, color, bytes)) == Printable(bytes)
    decreases |bytes|
  {
    if bytes != [] {
      var e := Emitted(c, region, color, bytes[0]);
      EmittedShape(c, region, color, bytes[0]);
      OneDrawCharPerByte(NextCursor(c, region, bytes[0]), region, color, bytes[1..]);
      DrawCharsAppend(e, Typeset(NextCursor(c, region, bytes[0]), region, color, bytes[1..]));
      if |e| == 2 {
        assert e[1..][1..] == [];
      } else if |e| == 1 {
        assert e[1..] == [];
      }
    }
  }

  /**
   * Commands stay inside the region: a character starts at the left edge or
   * ends by the right edge, and starts at the top or ends by the bottom;
   * the only clear pushed is to color 0.
   */
  predicate InRegion(cmd: DrawCommand, region: Region)
  {
    match cmd
    case DrawChar(x, y, _, _) => (x == 0 || x + 8 <= region.width) && (y == 0 || y + 8 <= region.height)
    case Clear(color) => color == 0
    case _ => false
  }

  lemma {:induction false} TypesetInRegion(c: Cursor, region: Region, color: bv32, bytes: seq<bv8>)
    requires TypesetDefined(c, region, bytes)
    ensures forall k :: 0 <= k < |Typeset(c, region, color, bytes)| ==>
      InRegion(Typeset(c, region, color, bytes)[k], region)
    decreases |bytes|
  {
    if bytes != [] {
      var next := NextCursor(c, region, bytes[0]);
      TypesetInRegion(next, region, color, bytes[1..]);
      var e := Emitted(c, region, color, bytes[0]);
      EmittedShape(c, region, color, bytes[0]);
      var rest := Typeset(next, region, color, bytes[1..]);
      assert forall k :: 0 <= k < |e| ==> InRegion(e[k], region) by {
        if bytes[0] != NEWLINE {
          var at := DrawAt(c, region);
          DrawAtInRegion(c, region);
          assert e[|e| - 1] == DrawChar(at.x, at.y, bytes[0], color);
        }
      }
      assert forall k :: |e| <= k < |e + rest| ==> (e + rest)[k] == rest[k - |e|];
    }
  }

  class TaskWriter {
    /** The shared buffer this writer pushes into. */
    const buffer: WriterBuffer
    var cursorX: U32
    var cursorY: U32
    var color: bv32

    /** `TaskWriter::new`: cursor at the region's origin. */
    constructor (buffer: WriterBuffer, color: bv32)
      ensures this.buffer == buffer && this.color == color
      ensures cursorX == 0 && cursorY == 0
    {
      this.buffer := buffer;
      cursorX := 0;
      cursorY := 0;
      this.color := color;
    }

    /** `set_position`: moves the cursor, nothing else. */
    method SetPosition(x: U32, y: U32)
      modifies this
      ensures cursorX == x && cursorY == y && color == old(color)
    {
      cursorX := x;
      cursorY := y;
    }

    /** `set_color`: changes the color, nothing else. */
    method SetColor(color: bv32)
      modifies this
      ensures this.color == color && cursorX == old(cursorX) && cursorY == old(cursorY)
    {
      this.color := color;
    }

    /** `clear`: pushes one `Clear` and puts the cursor back at the origin. */
    method Clear(bgColor: bv32)
      requires buffer.Valid()
      modifies this, buffer
      ensures buffer.Valid()
      ensures buffer.commands == old(buffer.commands) + [DrawCommand.Clear(bgColor)]
      ensures cursorX == 0 && cursorY == 0 && color == old(color)
    {
      buffer.PushCommand(DrawCommand.Clear(bgColor));
      cursorX := 0;
      cursorY := 0;
    }

    /** One byte of `write_str`'s loop. */
    method PutByte(ch: bv8)
      requires buffer.Valid() && StepDefined(Cursor(cursorX, cursorY), buffer.region, ch)
      modifies this, buffer
      ensures buffer.Valid()
      ensures buffer.commands == old(buffer.commands) + Emitted(Cursor(old(cursorX), old(cursorY)), buffer.region, color, ch)
      ensures Cursor(cursorX, cursorY) == NextCursor(Cursor(old(cursorX), old(cursorY)), buffer.region, ch)
      ensures color == old(color)
    {
      var region := buffer.region;
      if ch == NEWLINE {
        cursorX := 0;
        cursorY := cursorY + 10;
      } else {
        if cursorX + 8 > region.width {
          cursorX := 0;
          cursorY := cursorY + 10;
        }
        if cursorY + 8 > region.height {
          buffer.PushCommand(DrawCommand.Clear(0));
          cursorY := 0;
        }
        buffer.PushCommand(DrawChar(cursorX, cursorY, ch, color));
        cursorX := cursorX + 8;
      }
    }

    /** `write_str` (which always returns `Ok`): pushes what `Typeset` says and moves the cursor to its end. */
    method WriteStr(s: seq<bv8>)
      requires buffer.Valid()
      requires TypesetDefined(Cursor(cursorX, cursorY), buffer.region, s)
      modifies this, buffer
      ensures buffer.Valid()
      ensures buffer.commands == old(buffer.commands) + Typeset(Cursor(old(cursorX), old(cursorY)), buffer.region, old(color), s)
      ensures Cursor(cursorX, cursorY) == FinalCursor(Cursor(old(cursorX), old(cursorY)), buffer.region, s)
      ensures color == old(color)
    {
      ghost var c0 := Cursor(cursorX, cursorY);
      ghost var region := buffer.region;
      ghost var start := buffer.commands;
      ghost var ink := color;
      var i := 0;
      assert s[..0] == [];
      while i < |s|
        invariant i <= |s| && color == ink && region == buffer.region
        invariant buffer.Valid()
        invariant TypesetDefined(c0, region, s) && TypesetDefined(c0, region, s[..i])
        invariant buffer.commands == start + Typeset(c0, region, ink, s[..i])
        invariant Cursor(cursorX, cursorY) == FinalCursor(c0, region, s[..i])
      {
        TypesetStep(c0, region, ink, s, i);
        AppendAssoc(start, Typeset(c0, region, ink, s[..i]), Emitted(Cursor(cursorX, cursorY), region, ink, s[i]));
        PutByte(s[i]);
        i := i + 1;
      }
      assert s[..i] == s;
    }
  }
}
