// The compositor, kernel/src/graphics/compositor.rs: it keeps the list of
// writer buffers (copy-on-write, so a snapshot taken by the compositor task
// never changes under it), replays each dirty buffer's draw commands into
// its shadow buffer while marking the rectangle each command touches, and
// copies the dirty rectangle to the hardware framebuffer once per frame.
//
// The command replay is given by the functions of draw_commands.dfy
// (`Apply`, `Render`, `Dirties`), which the methods are proved against.  The main result is `FrameSyncs`:
// every pixel a frame's commands change lies inside the dirty rectangle the
// same commands mark, so after the blit the hardware framebuffer agrees with
// the shadow buffer wherever they agreed outside the old dirty rectangle.

module Compositors {
  import opened Base
  import opened Regions
  import opened Framebuffer
  import opened WriterBuffers
  import opened ShadowBuffers
  import opened DrawCommands
  import KernelGraphics
  import CommonGraphics

  /** `CompositorConfig`: where the hardware framebuffer is and its size. */
  datatype CompositorConfig = CompositorConfig(fbBase: nat, fbWidth: U32, fbHeight: U32, refreshIntervalTicks: nat)

  // ---- the dirty rectangle covers what was drawn ---------------------------

  /** Pixel `p` of a `stride`-wide buffer lies in the dirty rectangle. */
  ghost predicate Covered(stride: nat, dirty: Option<Region>, p: nat)
  {
    dirty.Some? &&
    exists dy: nat, dx: nat :: dy < dirty.value.height && dx < dirty.value.width && p == RectOffset(stride, dirty.value, dy, dx)
  }

  /** A pixel below `width * height` in a column left of `width` is in a row above `height`. */
  lemma RowBelow(row: nat, col: nat, width: nat, height: nat)
    requires col < width && row * width + col < width * height
    ensures row < height
  {
    if row >= height {
      MulMono(height, row, width);
    }
  }

  /** A drawn pixel of a box inside the buffer lies in the box as `mark_dirty` clips it. */
  lemma ClipCovers(r: Region, width: U32, height: U32, p: nat)
    requires NoOverflow(r) && p < width * height
    requires InRect(width, r, p)
    ensures Covered(width, Clip(r, width, height), p)
  {
    var col: nat, row: nat :|
      r.x <= col < r.x + r.width && col < width && r.y <= row < r.y + r.height && p == CommonGraphics.Offset(width, row, col);
    RowBelow(row, col, width, height);
    var c := Clip(r, width, height).value;
    assert c.x == r.x && c.y == r.y;
    assert RectOffset(width, c, row - r.y, col - r.x) == p;
  }

  /** A pixel of a rectangle is a pixel of any rectangle around it. */
  lemma CoveredWithin(stride: nat, a: Region, b: Region, p: nat)
    requires Within(a, b) && Covered(stride, Some(a), p)
    ensures Covered(stride, Some(b), p)
  {
    var dy: nat, dx: nat :| dy < a.height && dx < a.width && p == RectOffset(stride, a, dy, dx);
    assert RectOffset(stride, b, a.y + dy - b.y, a.x + dx - b.x) == p;
  }

  /** `mark_dirty` keeps every pixel of the old rectangle and adds every pixel of the clipped new one. */
  lemma MarkDirtyCovers(dirty: Option<Region>, width: U32, height: U32, r: Region, p: nat)
    requires NoOverflow(r) && DirtyInBounds(dirty, width, height)
    requires Covered(width, dirty, p) || Covered(width, Clip(r, width, height), p)
    ensures Covered(width, MarkDirty(dirty, width, height, r), p)
  {
    var c := Clip(r, width, height);
    if c.Some? && dirty.Some? {
      var m := Merge(dirty.value, c.value);
      MergeIsBoundingBox(dirty.value, c.value, m);
      if Covered(width, dirty, p) {
        CoveredWithin(width, dirty.value, m, p);
      } else {
        CoveredWithin(width, c.value, m, p);
      }
    }
  }

  /** Every pixel a command changes lies in the rectangle it marks, clipped to the buffer. */
  lemma CommandCovers(s: seq<bv32>, width: U32, height: U32, region: Region, cmd: DrawCommand, font: seq<Glyph>, p: nat)
    requires |font| == 95 && |s| == width * height && CommandOk(|s|, width, region, cmd) && p < |s|
    requires Apply(s, width, region, cmd, font)[p] != s[p]
    ensures Covered(width, Clip(DirtyOf(region, cmd), width, height), p)
  {
    ClipCovers(DirtyOf(region, cmd), width, height, p);
  }

  /**
   * After replaying a buffer's commands, the dirty rectangle covers every
   * pixel it covered before and every pixel the commands changed.
   */
  lemma {:induction false} RenderCovers(s: seq<bv32>, width: U32, height: U32, region: Region, cmds: seq<DrawCommand>,
                                        dirty: Option<Region>, font: seq<Glyph>, p: nat)
    requires |font| == 95 && |s| == width * height && CommandsOk(|s|, width, region, cmds)
    requires DirtyInBounds(dirty, width, height) && p < |s|
    requires Render(s, width, region, cmds, font)[p] != s[p] || Covered(width, dirty, p)
    ensures Covered(width, Dirties(dirty, width, height, region, cmds), p)
    decreases |cmds|
  {
    if cmds != [] {
      var n := |cmds| - 1;
      var s1 := Render(s, width, region, cmds[..n], font);
      var d1 := Dirties(dirty, width, height, region, cmds[..n]);
      if s1[p] != s[p] || Covered(width, dirty, p) {
        RenderCovers(s, width, height, region, cmds[..n], dirty, font, p);
      } else {
        CommandCovers(s1, width, height, region, cmds[n], font, p);
      }
      MarkDirtyCovers(d1, width, height, DirtyOf(region, cmds[n]), p);
    }
  }

  // ---- one frame ------------------------------------------------------------

  /** A buffer the frame renders: its region and the commands it held. */
  datatype Job = Job(region: Region, commands: seq<DrawCommand>)

  ghost predicate JobsOk(len: nat, stride: U32, jobs: seq<Job>)
  {
    forall j :: 0 <= j < |jobs| ==> CommandsOk(len, stride, jobs[j].region, jobs[j].commands)
  }

  /** The shadow pixels after replaying the jobs in order. */
  function RenderJobs(s: seq<bv32>, stride: U32, jobs: seq<Job>, font: seq<Glyph>): (r: seq<bv32>)
    requires |font| == 95 && JobsOk(|s|, stride, jobs)
    ensures |r| == |s|
    decreases |jobs|
  {
    if jobs == [] then s
    else
      var n := |jobs| - 1;
      Render(RenderJobs(s, stride, jobs[..n], font), stride, jobs[n].region, jobs[n].commands, font)
  }

  /** The dirty rectangle after the jobs. */
  function DirtiesJobs(dirty: Option<Region>, width: U32, height: U32, jobs: seq<Job>, ghost len: nat): (r: Option<Region>)
    requires DirtyInBounds(dirty, width, height) && JobsOk(len, width, jobs)
    ensures DirtyInBounds(r, width, height)
    decreases |jobs|
  {
    if jobs == [] then dirty
    else
      var n := |jobs| - 1;
      assert CommandsOk(len, width, jobs[n].region, jobs[n].commands);
      Dirties(DirtiesJobs(dirty, width, height, jobs[..n], len), width, height, jobs[n].region, jobs[n].commands)
  }

  /** The dirty rectangle after the jobs covers what it covered before and every pixel they changed. */
  lemma {:induction false} JobsCover(s: seq<bv32>, width: U32, height: U32, jobs: seq<Job>, dirty: Option<Region>, font: seq<Glyph>, p: nat)
    requires |font| == 95 && |s| == width * height && JobsOk(|s|, width, jobs)
    requires DirtyInBounds(dirty, width, height) && p < |s|
    requires RenderJobs(s, width, jobs, font)[p] != s[p] || Covered(width, dirty, p)
    ensures Covered(width, DirtiesJobs(dirty, width, height, jobs, |s|), p)
    decreases |jobs|
  {
    if jobs != [] {
      var n := |jobs| - 1;
      var s1 := RenderJobs(s, width, jobs[..n], font);
      var d1 := DirtiesJobs(dirty, width, height, jobs[..n], |s|);
      if s1[p] != s[p] || Covered(width, dirty, p) {
        JobsCover(s, width, height, jobs[..n], dirty, font, p);
      }
      RenderCovers(s1, width, height, jobs[n].region, jobs[n].commands, d1, font, p);
    }
  }

  /**
   * The hardware framebuffer agrees with the shadow buffer on every shadow
   * pixel outside the dirty rectangle: what the compositor task keeps.
   */
  ghost predicate Synced(hw: seq<bv32>, shadow: seq<bv32>, stride: nat, dirty: Option<Region>)
  {
    |shadow| <= |hw| && forall p :: 0 <= p < |shadow| && !Covered(stride, dirty, p) ==> hw[p] == shadow[p]
  }

  /** `blit_to` on a synced pair leaves the hardware framebuffer equal to the shadow buffer on every shadow pixel. */
  lemma BlitSyncs(hw: seq<bv32>, shadow: seq<bv32>, width: U32, height: U32, dirty: Option<Region>)
    requires |shadow| == width * height && DirtyInBounds(dirty, width, height)
    requires Synced(hw, shadow, width, dirty)
    ensures dirty.Some? ==> Fits(RectGrid(width, dirty.value), |hw|)
    ensures forall p :: 0 <= p < |shadow| ==> Blit(hw, shadow, width, dirty)[p] == shadow[p]
  {
    if dirty.Some? {
      ShadowBuffers.RectFits(width, height, dirty.value, |hw|);
    }
    forall p | 0 <= p < |shadow| ensures Blit(hw, shadow, width, dirty)[p] == shadow[p] {
      BlitCopiesDirtyRect(hw, shadow, width, dirty, p);
    }
  }

  /**
   * One frame keeps the hardware framebuffer in step with the shadow
   * buffer: if they agreed outside the dirty rectangle before the frame,
   * then after replaying the jobs and blitting the new dirty rectangle they
   * agree on every shadow pixel.
   */
  lemma FrameSyncs(hw: seq<bv32>, s: seq<bv32>, width: U32, height: U32, dirty: Option<Region>, jobs: seq<Job>, font: seq<Glyph>)
    requires |font| == 95 && |s| == width * height && JobsOk(|s|, width, jobs)
    requires DirtyInBounds(dirty, width, height) && Synced(hw, s, width, dirty)
    ensures var d := DirtiesJobs(dirty, width, height, jobs, |s|);
      (d.Some? ==> Fits(RectGrid(width, d.value), |hw|)) &&
      forall p :: 0 <= p < |s| ==> Blit(hw, RenderJobs(s, width, jobs, font), width, d)[p] == RenderJobs(s, width, jobs, font)[p]
  {
    var s1 := RenderJobs(s, width, jobs, font);
    var d := DirtiesJobs(dirty, width, height, jobs, |s|);
    forall p | 0 <= p < |s1| && !Covered(width, d, p) ensures hw[p] == s1[p] {
      if s1[p] != s[p] || Covered(width, dirty, p) {
        JobsCover(s, width, height, jobs, dirty, font, p);
      }
    }
    BlitSyncs(hw, s1, width, height, d);
  }

  /** Replaying one more job is replaying it after the others. */
  lemma RenderJobsSnoc(s: seq<bv32>, width: U32, jobs: seq<Job>, job: Job, font: seq<Glyph>)
    requires |font| == 95 && JobsOk(|s|, width, jobs) && CommandsOk(|s|, width, job.region, job.commands)
    ensures JobsOk(|s|, width, jobs + [job])
    ensures RenderJobs(s, width, jobs + [job], font) == Render(RenderJobs(s, width, jobs, font), width, job.region, job.commands, font)
  {
    assert (jobs + [job])[..|jobs|] == jobs && (jobs + [job])[|jobs|] == job;
    assert forall j :: 0 <= j < |jobs| ==> (jobs + [job])[j] == jobs[j];
  }

  /** Marking one more job's rectangles is marking them after the others'. */
  lemma DirtiesJobsSnoc(len: nat, width: U32, height: U32, dirty: Option<Region>, jobs: seq<Job>, job: Job)
    requires DirtyInBounds(dirty, width, height)
    requires JobsOk(len, width, jobs) && CommandsOk(len, width, job.region, job.commands)
    ensures JobsOk(len, width, jobs + [job])
    ensures DirtiesJobs(dirty, width, height, jobs + [job], len) ==
      Dirties(DirtiesJobs(dirty, width, height, jobs, len), width, height, job.region, job.commands)
  {
    assert (jobs + [job])[..|jobs|] == jobs && (jobs + [job])[|jobs|] == job;
    assert forall j :: 0 <= j < |jobs| ==> (jobs + [job])[j] == jobs[j];
  }

  // ---- the methods ------------------------------------------------------------

  /** One command of `render_commands_to`: draw it into the shadow buffer, then mark its rectangle dirty. */
  method RenderCommand(sb: ShadowBuffer, region: Region, cmd: DrawCommand, font: seq<Glyph>)
    requires sb.Valid() && |font| == 95 && CommandOk(sb.buffer.Length, sb.width, region, cmd)
    modifies sb, sb.buffer
    ensures sb.Valid() && sb.buffer == old(sb.buffer) && sb.width == old(sb.width) && sb.height == old(sb.height)
    ensures sb.buffer[..] == Apply(old(sb.buffer[..]), sb.width, region, cmd, font)
    ensures sb.dirtyRect == MarkDirty(old(sb.dirtyRect), sb.width, sb.height, DirtyOf(region, cmd))
  {
    match cmd
    case Clear(color) =>
      KernelGraphics.DrawRectInto(sb.buffer, sb.width, region.x, region.y, region.width, region.height, color);
      sb.MarkDirtyRegion(region);
    case DrawChar(x, y, ch, color) =>
      var globalX := region.x + x;
      var globalY := region.y + y;
      KernelGraphics.DrawCharInto(sb.buffer, sb.width, globalX, globalY, ch, color, font);
      sb.MarkDirtyRegion(Region(globalX, globalY, 8, 8));
    case DrawString(x, y, text, color) =>
      var globalX := region.x + x;
      var globalY := region.y + y;
      KernelGraphics.DrawStringInto(sb.buffer, sb.width, globalX, globalY, text, color, font);
      var textWidth := |text| * 8;
      sb.MarkDirtyRegion(Region(globalX, globalY, textWidth, 8));
    case FillRect(x, y, w, h, color) =>
      var globalX := region.x + x;
      var globalY := region.y + y;
      KernelGraphics.DrawRectInto(sb.buffer, sb.width, globalX, globalY, w, h, color);
      sb.MarkDirtyRegion(Region(globalX, globalY, w, h));
  }

  /** `render_commands_to`: each command in order, drawn and marked. */
  method RenderCommandsTo(sb: ShadowBuffer, region: Region, commands: seq<DrawCommand>, font: seq<Glyph>)
    requires sb.Valid() && |font| == 95 && CommandsOk(sb.buffer.Length, sb.width, region, commands)
    modifies sb, sb.buffer
    ensures sb.Valid() && sb.buffer == old(sb.buffer) && sb.width == old(sb.width) && sb.height == old(sb.height)
    ensures sb.buffer[..] == Render(old(sb.buffer[..]), sb.width, region, commands, font)
    ensures sb.dirtyRect == Dirties(old(sb.dirtyRect), sb.width, sb.height, region, commands)
  {
    ghost var s0, d0 := sb.buffer[..], sb.dirtyRect;
    for i := 0 to |commands|
      invariant sb.Valid() && sb.buffer == old(sb.buffer) && sb.width == old(sb.width) && sb.height == old(sb.height)
      invariant sb.buffer[..] == Render(s0, sb.width, region, commands[..i], font)
      invariant sb.dirtyRect == Dirties(d0, sb.width, sb.height, region, commands[..i])
    {
      assert commands[..i + 1][..i] == commands[..i];
      RenderCommand(sb, region, commands[i], font);
    }
    assert commands[..|commands|] == commands;
  }

  // ---- one frame over the writer buffers ---------------------------------------

  /** What the compositor reads of a writer buffer. */
  datatype BufferState = BufferState(region: Region, commands: seq<DrawCommand>, dirty: bool)

  function StateOf(b: WriterBuffer): BufferState
    reads b
  {
    BufferState(b.region, b.commands, b.dirty)
  }

  /** The states of the buffers of a snapshot, in list order. */
  function States(bs: seq<WriterBuffer>): (r: seq<BufferState>)
    reads bs
    ensures |r| == |bs| && forall i :: 0 <= i < |bs| ==> r[i] == StateOf(bs[i])
    decreases |bs|
  {
    if bs == [] then [] else States(bs[..|bs| - 1]) + [StateOf(bs[|bs| - 1])]
  }

  /** Every queued command of every buffer is defined and fits a `stride`-wide buffer of `len` pixels. */
  ghost predicate StatesOk(len: nat, stride: U32, states: seq<BufferState>)
  {
    forall i :: 0 <= i < |states| ==> CommandsOk(len, stride, states[i].region, states[i].commands)
  }

  /** Whether the frame renders buffer `st`: its lock was taken (`try_lock`) and it is dirty. */
  predicate Rendered(st: BufferState, locked: bool)
  {
    locked && st.dirty
  }

  /** The jobs one frame renders: every buffer it renders, in list order. */
  function FrameJobs(states: seq<BufferState>, locked: seq<bool>): (jobs: seq<Job>)
    requires |locked| == |states|
    decreases |states|
  {
    if states == [] then []
    else
      var n := |states| - 1;
      FrameJobs(states[..n], locked[..n]) +
        if Rendered(states[n], locked[n]) then [Job(states[n].region, states[n].commands)] else []
  }

  /** The buffers after a frame: each rendered one is emptied (`clear_commands`), the rest are as they were. */
  function AfterFrame(states: seq<BufferState>, locked: seq<bool>): (r: seq<BufferState>)
    requires |locked| == |states|
    ensures |r| == |states|
  {
    seq(|states|, i requires 0 <= i < |states| =>
      if Rendered(states[i], locked[i]) then BufferState(states[i].region, [], false) else states[i])
  }

  /** A frame renders one job per rendered buffer, with that buffer's region and commands, and no other. */
  lemma {:induction false} FrameJobsAre(states: seq<BufferState>, locked: seq<bool>)
    requires |locked| == |states|
    ensures forall job :: job in FrameJobs(states, locked) <==>
      exists i :: 0 <= i < |states| && Rendered(states[i], locked[i]) && job == Job(states[i].region, states[i].commands)
    decreases |states|
  {
    if states != [] {
      var n := |states| - 1;
      FrameJobsAre(states[..n], locked[..n]);
      forall job ensures job in FrameJobs(states, locked) <==>
        exists i :: 0 <= i < |states| && Rendered(states[i], locked[i]) && job == Job(states[i].region, states[i].commands)
      {
        if job in FrameJobs(states, locked) && job !in FrameJobs(states[..n], locked[..n]) {
          assert Rendered(states[n], locked[n]) && job == Job(states[n].region, states[n].commands);
        }
        if exists i :: 0 <= i < |states| && Rendered(states[i], locked[i]) && job == Job(states[i].region, states[i].commands) {
          var i :| 0 <= i < |states| && Rendered(states[i], locked[i]) && job == Job(states[i].region, states[i].commands);
          if i < n {
            assert states[..n][i] == states[i] && locked[..n][i] == locked[i];
          }
        }
      }
    }
  }

  /** The next buffer adds its job, if the frame renders it, after the jobs of the buffers before it. */
  lemma FrameJobsStep(states: seq<BufferState>, locked: seq<bool>, j: nat)
    requires |locked| == |states| && j < |states|
    ensures FrameJobs(states[..j + 1], locked[..j + 1]) == NextJobs(FrameJobs(states[..j], locked[..j]), states[j], locked[j])
  {
    assert states[..j + 1][..j] == states[..j] && locked[..j + 1][..j] == locked[..j];
  }

  /** A frame leaves every buffer dirty exactly when it holds commands, if it was so before. */
  lemma AfterFrameValid(states: seq<BufferState>, locked: seq<bool>)
    requires |locked| == |states|
    requires forall i :: 0 <= i < |states| ==> (states[i].dirty <==> states[i].commands != [])
    ensures forall i :: 0 <= i < |states| ==> var r := AfterFrame(states, locked)[i]; r.dirty <==> r.commands != []
  {
  }

  /** With the same locks taken, a second frame renders nothing: every buffer the first rendered is now clean. */
  lemma {:induction false} SecondFrameIdle(states: seq<BufferState>, locked: seq<bool>)
    requires |locked| == |states|
    ensures FrameJobs(AfterFrame(states, locked), locked) == []
    decreases |states|
  {
    if states != [] {
      var n := |states| - 1;
      var after := AfterFrame(states, locked);
      assert after[..n] == AfterFrame(states[..n], locked[..n]);
      SecondFrameIdle(states[..n], locked[..n]);
    }
  }

  /** The jobs of a frame after buffer `st`: its job follows the earlier ones when the frame renders it. */
  function NextJobs(jobs: seq<Job>, st: BufferState, locked: bool): seq<Job>
  {
    jobs + if Rendered(st, locked) then [Job(st.region, st.commands)] else []
  }

  /**
   * Shadow pixels `buf` with dirty rectangle `dirty` are what replaying
   * `jobs` makes of pixels `s0` with dirty rectangle `d0`.
   */
  ghost predicate Replays(buf: seq<bv32>, dirty: Option<Region>, s0: seq<bv32>, d0: Option<Region>,
                          width: U32, height: U32, jobs: seq<Job>, font: seq<Glyph>)
  {
    |font| == 95 && |buf| == |s0| && DirtyInBounds(d0, width, height) && JobsOk(|s0|, width, jobs) &&
    buf == RenderJobs(s0, width, jobs, font) && dirty == DirtiesJobs(d0, width, height, jobs, |s0|)
  }

  /** Rendering one more job after a replay of `jobs` is the replay of `jobs` followed by that job. */
  lemma ReplaysSnoc(buf: seq<bv32>, dirty: Option<Region>, s0: seq<bv32>, d0: Option<Region>,
                    width: U32, height: U32, jobs: seq<Job>, job: Job, font: seq<Glyph>)
    requires Replays(buf, dirty, s0, d0, width, height, jobs, font)
    requires CommandsOk(|s0|, width, job.region, job.commands)
    ensures Replays(Render(buf, width, job.region, job.commands, font),
                    Dirties(dirty, width, height, job.region, job.commands),
                    s0, d0, width, height, jobs + [job], font)
  {
    RenderJobsSnoc(s0, width, jobs, job, font);
    DirtiesJobsSnoc(|s0|, width, height, d0, jobs, job);
  }

  /**
   * One buffer of a frame: when its lock was taken and it is dirty, its
   * commands are rendered into the shadow buffer and then cleared.  If the
   * shadow buffer held the replay of `jobs` from `s0` with dirty rectangle
   * `d0`, it then holds the replay of `jobs` followed by this buffer's job.
   */
  method ProcessBuffer(sb: ShadowBuffer, snapshot: seq<WriterBuffer>, j: nat, locked: bool, font: seq<Glyph>,
                       ghost s0: seq<bv32>, ghost d0: Option<Region>, ghost jobs: seq<Job>)
    requires j < |snapshot| && forall i, k :: 0 <= i < k < |snapshot| ==> snapshot[i] != snapshot[k]
    requires sb.Valid() && CommandsOk(|s0|, sb.width, snapshot[j].region, snapshot[j].commands)
    requires Replays(sb.buffer[..], sb.dirtyRect, s0, d0, sb.width, sb.height, jobs, font)
    modifies sb, sb.buffer, snapshot[j]
    ensures sb.Valid() && sb.buffer == old(sb.buffer) && sb.width == old(sb.width) && sb.height == old(sb.height)
    ensures Replays(sb.buffer[..], sb.dirtyRect, s0, d0, sb.width, sb.height, NextJobs(jobs, old(StateOf(snapshot[j])), locked), font)
    ensures StateOf(snapshot[j]) == if Rendered(old(StateOf(snapshot[j])), locked) then BufferState(snapshot[j].region, [], false) else old(StateOf(snapshot[j]))
    ensures forall i :: 0 <= i < |snapshot| && i != j ==> StateOf(snapshot[i]) == old(StateOf(snapshot[i]))
  {
    var b := snapshot[j];
    if locked && b.dirty {
      ghost var job := Job(b.region, b.commands);
      ReplaysSnoc(sb.buffer[..], sb.dirtyRect, s0, d0, sb.width, sb.height, jobs, job, font);
      RenderCommandsTo(sb, b.region, b.commands, font);
      b.ClearCommands();
      assert NextJobs(jobs, old(StateOf(snapshot[j])), locked) == jobs + [job];
    } else {
      assert NextJobs(jobs, StateOf(b), locked) == jobs;
    }
  }

  /**
   * Phases 2 and 3 of a frame: each buffer of the snapshot in order,
   * rendered and cleared when its lock was taken and it is dirty.
   * `locked[i]` is whether `try_lock` on buffer `i` succeeded.
   */
  method RenderBuffers(sb: ShadowBuffer, snapshot: seq<WriterBuffer>, locked: seq<bool>, font: seq<Glyph>)
    requires sb.Valid() && |font| == 95 && |locked| == |snapshot|
    requires forall i, j :: 0 <= i < j < |snapshot| ==> snapshot[i] != snapshot[j]
    requires StatesOk(sb.buffer.Length, sb.width, States(snapshot))
    modifies sb, sb.buffer, snapshot
    ensures sb.Valid() && sb.buffer == old(sb.buffer) && sb.width == old(sb.width) && sb.height == old(sb.height)
    ensures Replays(sb.buffer[..], sb.dirtyRect, old(sb.buffer[..]), old(sb.dirtyRect), sb.width, sb.height,
                    FrameJobs(old(States(snapshot)), locked), font)
    ensures forall i :: 0 <= i < |snapshot| ==> StateOf(snapshot[i]) == AfterFrame(old(States(snapshot)), locked)[i]
  {
    ghost var st0 := States(snapshot);
    ghost var s0, d0 := sb.buffer[..], sb.dirtyRect;
    ghost var len := sb.buffer.Length;
    ghost var after := AfterFrame(st0, locked);
    ghost var jobs: seq<Job> := [];
    for j := 0 to |snapshot|
      invariant sb.Valid() && sb.buffer == old(sb.buffer) && sb.width == old(sb.width) && sb.height == old(sb.height)
      invariant forall i :: j <= i < |snapshot| ==> StateOf(snapshot[i]) == st0[i]
      invariant forall i :: 0 <= i < j ==> StateOf(snapshot[i]) == after[i]
      invariant jobs == FrameJobs(st0[..j], locked[..j])
      invariant Replays(sb.buffer[..], sb.dirtyRect, s0, d0, sb.width, sb.height, jobs, font)
    {
      FrameJobsStep(st0, locked, j);
      assert StateOf(snapshot[j]) == st0[j];
      assert CommandsOk(len, sb.width, st0[j].region, st0[j].commands);
      ProcessBuffer(sb, snapshot, j, locked[j], font, s0, d0, jobs);
      jobs := NextJobs(jobs, st0[j], locked[j]);
      assert StateOf(snapshot[j]) == after[j];
    }
    assert st0[..|snapshot|] == st0 && locked[..|snapshot|] == locked;
  }

  /**
   * The body of one pass of `compositor_task`'s loop over a snapshot:
   * render and clear every locked dirty buffer, then `blit_to` the
   * hardware framebuffer `hw`.  If `hw` agreed with the shadow buffer
   * outside the dirty rectangle before, it shows every shadow pixel after.
   */
  method CompositeFrame(sb: ShadowBuffer, hw: array<bv32>, snapshot: seq<WriterBuffer>, locked: seq<bool>, font: seq<Glyph>)
    requires sb.Valid() && |font| == 95 && |locked| == |snapshot| && hw != sb.buffer
    requires forall i, j :: 0 <= i < j < |snapshot| ==> snapshot[i] != snapshot[j]
    requires forall i :: 0 <= i < |snapshot| ==> snapshot[i].Valid()
    requires StatesOk(sb.buffer.Length, sb.width, States(snapshot))
    requires Synced(hw[..], sb.buffer[..], sb.width, sb.dirtyRect)
    modifies sb, sb.buffer, hw, snapshot
    ensures sb.Valid() && sb.buffer == old(sb.buffer) && sb.width == old(sb.width) && sb.height == old(sb.height)
    ensures JobsOk(sb.buffer.Length, sb.width, FrameJobs(old(States(snapshot)), locked))
    ensures sb.buffer[..] == RenderJobs(old(sb.buffer[..]), sb.width, FrameJobs(old(States(snapshot)), locked), font)
    ensures sb.dirtyRect.None?
    ensures forall p :: 0 <= p < sb.buffer.Length ==> hw[p] == sb.buffer[p]
    ensures forall i :: 0 <= i < |snapshot| ==> StateOf(snapshot[i]) == AfterFrame(old(States(snapshot)), locked)[i]
    ensures forall i :: 0 <= i < |snapshot| ==> snapshot[i].Valid()
  {
    AfterFrameValid(States(snapshot), locked);
    ghost var s0, d0, hw0 := sb.buffer[..], sb.dirtyRect, hw[..];
    RenderBuffers(sb, snapshot, locked, font);
    FrameSyncs(hw0, s0, sb.width, sb.height, d0, FrameJobs(old(States(snapshot)), locked), font);
    sb.BlitTo(hw);
  }

  // ---- the compositor and its globals ----------------------------------------

  /** `Compositor`: the configuration and the registered writer buffers. */
  class Compositor {
    const config: CompositorConfig
    /**
     * The registered buffers, oldest first.  The source keeps them in an
     * `Arc<Vec<_>>` that registration replaces rather than mutates; a
     * Dafny sequence is a value, so a snapshot is that value.
     */
    var buffers: seq<WriterBuffer>

    /** No buffer is registered twice, and each is dirty exactly when it holds commands. */
    ghost predicate Valid()
      reads this, buffers
    {
      (forall i, j :: 0 <= i < j < |buffers| ==> buffers[i] != buffers[j]) &&
      forall i :: 0 <= i < |buffers| ==> buffers[i].Valid()
    }

    /** `Compositor::new`: no buffers yet. */
    constructor (config: CompositorConfig)
      ensures Valid() && this.config == config && buffers == []
    {
      this.config := config;
      buffers := [];
    }

    /** `register_writer`: a new empty buffer for `region`, added after the others. */
    method RegisterWriter(region: Region) returns (b: WriterBuffer)
      requires Valid()
      modifies this
      ensures Valid() && fresh(b)
      ensures buffers == old(buffers) + [b]
      ensures b.region == region && b.commands == [] && !b.dirty
    {
      b := new WriterBuffer(region);
      buffers := buffers + [b];
    }

    /** `get_buffers_snapshot`: the list as it is now; later registrations do not change it. */
    method Snapshot() returns (snapshot: seq<WriterBuffer>)
      ensures snapshot == buffers
    {
      snapshot := buffers;
    }
  }

  /** `FRAME_COUNT`: the number of frames the compositor task has finished. */
  class FrameCounter {
    var count: U64

    constructor ()
      ensures count == 0
    {
      count := 0;
    }

    /** `fetch_add(1)` at the end of each pass: a `u64` that wraps around. */
    method Increment()
      modifies this
      ensures count == WrappingAdd(old(count), 1)
    {
      count := WrappingAdd(count, 1);
    }
  }

  /**
   * The module's statics: the `COMPOSITOR` singleton (`None` until
   * `init_compositor`), `SCREEN_WIDTH`, `SCREEN_HEIGHT` and `FRAME_COUNT`.
   */
  class CompositorGlobals {
    var compositor: Option<Compositor>
    var screenWidth: U32
    var screenHeight: U32
    const frames: FrameCounter

    /** The statics before `init_compositor`. */
    constructor ()
      ensures compositor.None? && screenWidth == 0 && screenHeight == 0 && fresh(frames) && frames.count == 0
    {
      compositor := None;
      screenWidth := 0;
      screenHeight := 0;
      frames := new FrameCounter();
    }

    /** `init_compositor`: records the screen size and installs a fresh compositor, replacing any earlier one. */
    method InitCompositor(config: CompositorConfig)
      modifies this
      ensures screenWidth == config.fbWidth && screenHeight == config.fbHeight
      ensures compositor.Some? && fresh(compositor.value) && compositor.value.Valid()
      ensures compositor.value.config == config && compositor.value.buffers == []
    {
      screenWidth := config.fbWidth;
      screenHeight := config.fbHeight;
      var c := new Compositor(config);
      compositor := Some(c);
    }

    /** `register_writer`: `None` before `init_compositor`, else the compositor's new buffer. */
    method RegisterWriter(region: Region) returns (r: Option<WriterBuffer>)
      requires compositor.Some? ==> compositor.value.Valid()
      modifies if compositor.Some? then {compositor.value} else {}
      ensures r.Some? <==> compositor.Some?
      ensures compositor.Some? ==>
        compositor.value.Valid() && fresh(r.value) &&
        compositor.value.buffers == old(compositor.value.buffers) + [r.value] &&
        r.value.region == region && r.value.commands == [] && !r.value.dirty
    {
      if compositor.None? {
        return None;
      }
      var b := compositor.value.RegisterWriter(region);
      return Some(b);
    }

    /**
     * One pass of `compositor_task`'s loop, without its sleeps.  With no
     * compositor there is no snapshot and nothing changes (the task sleeps
     * and tries again).  Otherwise every buffer of the snapshot whose lock
     * the task got (`locked[i]`) and that is dirty is rendered and
     * cleared, and the dirty rectangle is copied to the hardware
     * framebuffer `hw`, which then shows every shadow pixel.  The task
     * then counts the frame with `frames.Increment()`.
     */
    method Frame(sb: ShadowBuffer, hw: array<bv32>, locked: seq<bool>, font: seq<Glyph>)
      requires |font| == 95 && sb.Valid() && hw != sb.buffer
      requires Synced(hw[..], sb.buffer[..], sb.width, sb.dirtyRect)
      requires compositor.Some? ==>
        compositor.value.Valid() && |locked| == |compositor.value.buffers| &&
        StatesOk(sb.buffer.Length, sb.width, States(compositor.value.buffers))
      modifies sb, sb.buffer, hw, if compositor.Some? then compositor.value.buffers else []
      ensures sb.Valid() && sb.buffer == old(sb.buffer) && sb.width == old(sb.width) && sb.height == old(sb.height)
      ensures compositor.None? ==> hw[..] == old(hw[..]) && sb.buffer[..] == old(sb.buffer[..]) && sb.dirtyRect == old(sb.dirtyRect)
      ensures compositor.Some? ==>
        var c := compositor.value;
        var jobs := FrameJobs(old(States(c.buffers)), locked);
        c.Valid() && JobsOk(sb.buffer.Length, sb.width, jobs) &&
        sb.buffer[..] == RenderJobs(old(sb.buffer[..]), sb.width, jobs, font) &&
        sb.dirtyRect.None? &&
        (forall p :: 0 <= p < sb.buffer.Length ==> hw[p] == sb.buffer[p]) &&
        (forall i :: 0 <= i < |c.buffers| ==> StateOf(c.buffers[i]) == AfterFrame(old(States(c.buffers)), locked)[i])
    {
      if compositor.None? {
        return;
      }
      var snapshot := compositor.value.Snapshot();
      assert this as object !in snapshot;
      CompositeFrame(sb, hw, snapshot, locked, font);
    }
  }
}
