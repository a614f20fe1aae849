// The per-writer command buffer of the compositor,
// kernel/src/graphics/buffer.rs: tasks queue high-level draw commands in
// local coordinates of their region, and the compositor replays and then
// clears them.  The buffer is shared between a task and the compositor
// behind a mutex; here it is one object that both hold a reference to, and
// the locking is not modelled.

module WriterBuffers {
  import opened Base
  import opened Regions

  /** A draw command; `x`/`y` are relative to the buffer's region, text is its bytes. */
  datatype DrawCommand =
    | DrawChar(x: U32, y: U32, ch: bv8, color: bv32)
    | DrawString(x: U32, y: U32, text: seq<bv8>, color: bv32)
    | FillRect(x: U32, y: U32, width: U32, height: U32, color: bv32)
    | Clear(color: bv32)

  class WriterBuffer {
    /** The queued commands, oldest first. */
    var commands: seq<DrawCommand>
    var dirty: bool
    /** The drawing region; no operation changes it. */
    const region: Region

    /** The buffer is dirty exactly when it holds commands not yet rendered. */
    ghost predicate Valid()
      reads this
    {
      dirty <==> commands != []
    }

    /** `WriterBuffer::new`: no commands, not dirty. */
    constructor (region: Region)
      ensures Valid()
      ensures commands == [] && !dirty && this.region == region
    {
      commands := [];
      dirty := false;
      this.region := region;
    }

    /** `push_command`: the command goes at the end and the buffer is dirty. */
    method PushCommand(cmd: DrawCommand)
      requires Valid()
      modifies this
      ensures Valid()
      ensures commands == old(commands) + [cmd] && dirty
    {
      commands := commands + [cmd];
      dirty := true;
    }

    /** `extend_commands`: appends all, and marks dirty only if something was appended. */
    method ExtendCommands(cmds: seq<DrawCommand>)
      requires Valid()
      modifies this
      ensures Valid()
      ensures commands == old(commands) + cmds
      ensures dirty == (old(dirty) || cmds != [])
    {
      var oldLen := |commands|;
      commands := commands + cmds;
      if |commands| > oldLen {
        dirty := true;
      }
    }

    /** `clear_commands`: nothing queued, not dirty. */
    method ClearCommands()
      modifies this
      ensures Valid()
      ensures commands == [] && !dirty
    {
      commands := [];
      dirty := false;
    }
  }
}
