// The initial CPU context of a new task (kernel/src/sched/context.rs).
//
// `Context::new` lays out, below the top of a fresh stack, the frame that
// `switch_context` pops when the task first runs: the entry point as the
// return address, six zeroed callee-saved registers, an RFLAGS image with
// interrupts enabled, and a zeroed 16-byte aligned FXSAVE area whose last
// word remembers the stack pointer before the area was reserved.  Stack
// memory is a map from addresses to 64-bit words that the method receives
// and returns.

module SchedContext {
  import opened Base

  /** The task error type (declared in task.rs; the context needs it first). */
  datatype TaskError =
    | InvalidPriority
    | StackAllocationFailed
    | InvalidStackAddress
    | ContextInitFailed
    | QueueFull

  /** A saved context is only the stack pointer; the registers live on the stack. */
  datatype Context = Context(rsp: nat)

  const FXSAVE_SIZE: nat := 512
  const FXSAVE_ALIGN: nat := 16
  const MIN_REQUIRED_STACK: nat := 1024
  /** RFLAGS image: reserved bit 1 and IF (bit 9). */
  const INITIAL_RFLAGS: nat := 0x202
  /** Eight saved words: return address, six registers, RFLAGS. */
  const FRAME_BYTES: nat := 64

  /**
   * Stack memory at word granularity: the 64-bit word stored at each byte
   * address.  Every store `Context::new` makes is a whole word, and any two
   * of its stores are either at the same address or at least 8 bytes apart,
   * so no store ever overlaps another one partially.
   */
  type Memory = map<int, nat>

  ghost predicate WordAt(m: Memory, addr: int, v: nat)
  {
    addr in m && m[addr] == v
  }

  /** The stack pointer `Context::new` returns for a valid stack top. */
  function InitialRsp(stackTop: nat): (rsp: nat)
    requires stackTop >= MIN_REQUIRED_STACK
    ensures rsp > 0 && rsp % FXSAVE_ALIGN == 0
    ensures rsp + FXSAVE_SIZE <= stackTop - FRAME_BYTES < rsp + FXSAVE_SIZE + FXSAVE_ALIGN
  {
    ((stackTop - FRAME_BYTES - FXSAVE_SIZE) / FXSAVE_ALIGN) * FXSAVE_ALIGN
  }

  /**
   * The outcome of `Context::new`: the three validations in source order,
   * then the aligned stack pointer.  The final `rsp == 0 || rsp % 16 != 0`
   * validation of the source can never fire (see InitialRsp's contract).
   */
  function ContextInit(entryPoint: nat, stackTop: nat): (r: Result<Context, TaskError>)
    ensures r.Err? <==> stackTop < MIN_REQUIRED_STACK || entryPoint == 0
    ensures stackTop == 0 ==> r == Err(InvalidStackAddress)
    ensures stackTop != 0 && entryPoint == 0 ==> r == Err(ContextInitFailed)
    ensures entryPoint != 0 && stackTop < MIN_REQUIRED_STACK ==> r == Err(InvalidStackAddress)
    ensures r.Ok? ==> r.value.rsp > 0 && r.value.rsp % FXSAVE_ALIGN == 0
    ensures r.Ok? ==> r.value.rsp + FXSAVE_SIZE <= stackTop - FRAME_BYTES
  {
    if stackTop == 0 then Err(InvalidStackAddress)
    else if entryPoint == 0 then Err(ContextInitFailed)
    else if stackTop < MIN_REQUIRED_STACK then Err(InvalidStackAddress)
    else Ok(Context(InitialRsp(stackTop)))
  }

  /** `Context::empty`: the placeholder context of a task that never ran. */
  function Empty(): (c: Context)
    ensures c.rsp == 0
    ensures ContextInit(0, 0) != Ok(c)
  {
    Context(0)
  }

  /** The eight words pushed below the stack top. */
  ghost predicate RegisterFrame(m: Memory, entryPoint: nat, stackTop: int)
  {
    WordAt(m, stackTop - 8, entryPoint) &&
    WordAt(m, stackTop - 16, 0) && WordAt(m, stackTop - 24, 0) &&
    WordAt(m, stackTop - 32, 0) && WordAt(m, stackTop - 40, 0) &&
    WordAt(m, stackTop - 48, 0) && WordAt(m, stackTop - 56, 0) &&
    WordAt(m, stackTop - 64, INITIAL_RFLAGS)
  }

  /** The FXSAVE area: 63 zero words, then the saved pre-alignment stack pointer. */
  ghost predicate FxsaveArea(m: Memory, rsp: int, savedRsp: nat)
  {
    (forall a :: rsp <= a < rsp + 504 && (a - rsp) % 8 == 0 ==> a in m && m[a] == 0) &&
    WordAt(m, rsp + 504, savedRsp)
  }

  /** The words `Context::new` stores: the FXSAVE area and the register frame. */
  ghost predicate Written(stackTop: nat, a: int)
    requires stackTop >= MIN_REQUIRED_STACK
  {
    var rsp := InitialRsp(stackTop);
    (rsp <= a < rsp + FXSAVE_SIZE && (a - rsp) % 8 == 0) ||
    (stackTop - FRAME_BYTES <= a < stackTop && (stackTop - a) % 8 == 0)
  }

  /** Pushes the entry point, six zeroed registers and RFLAGS below `stackTop`, one word at a time. */
  method PushFrame(mem: Memory, entryPoint: nat, stackTop: nat) returns (m: Memory, rsp: nat)
    requires stackTop >= MIN_REQUIRED_STACK
    ensures rsp == stackTop - FRAME_BYTES
    ensures RegisterFrame(m, entryPoint, stackTop)
    ensures forall a :: !(stackTop - FRAME_BYTES <= a < stackTop && (stackTop - a) % 8 == 0) ==>
      (a in m <==> a in mem) && (a in mem ==> m[a] == mem[a])
  {
    m := mem;
    rsp := stackTop;
    // The return address for switch_context's `ret`.
    rsp := rsp - 8;
    // The source re-checks `rsp == 0` here; a stack top of at least 1024 rules it out.
    assert rsp != 0;
    m := m[rsp := entryPoint];
    // rbp, rbx, r12, r13, r14, r15 in switch_context's push order.
    rsp := rsp - 8;
    m := m[rsp := 0];
    rsp := rsp - 8;
    m := m[rsp := 0];
    rsp := rsp - 8;
    m := m[rsp := 0];
    rsp := rsp - 8;
    m := m[rsp := 0];
    rsp := rsp - 8;
    m := m[rsp := 0];
    rsp := rsp - 8;
    m := m[rsp := 0];
    // RFLAGS with interrupts enabled, popped by popfq.
    rsp := rsp - 8;
    m := m[rsp := INITIAL_RFLAGS];
  }

  /** Zeroes the words of the 512-byte area at `rsp`, eight bytes at a time. */
  method ZeroFxsave(mem: Memory, rsp: nat) returns (m: Memory)
    ensures forall a :: rsp <= a < rsp + FXSAVE_SIZE && (a - rsp) % 8 == 0 ==> a in m && m[a] == 0
    ensures forall a :: !(rsp <= a < rsp + FXSAVE_SIZE && (a - rsp) % 8 == 0) ==>
      (a in m <==> a in mem) && (a in mem ==> m[a] == mem[a])
  {
    m := mem;
    var i := 0;
    while i < FXSAVE_SIZE
      invariant 0 <= i <= FXSAVE_SIZE && i % 8 == 0
      invariant forall a :: rsp <= a < rsp + i && (a - rsp) % 8 == 0 ==> a in m && m[a] == 0
      invariant forall a :: !(rsp <= a < rsp + i && (a - rsp) % 8 == 0) ==>
        (a in m <==> a in mem) && (a in mem ==> m[a] == mem[a])
    {
      m := m[rsp + i := 0];
      i := i + 8;
    }
  }

  /**
   * `Context::new(entry_point, stack_top)`: validates, pushes the initial
   * frame word by word, reserves and zeroes the aligned FXSAVE area, and
   * returns the final stack pointer.  On error the memory is untouched.
   */
  method NewContext(entryPoint: nat, stackTop: nat, mem: Memory)
    returns (res: Result<Context, TaskError>, m: Memory)
    requires entryPoint < U64_LIMIT && stackTop < U64_LIMIT
    ensures res == ContextInit(entryPoint, stackTop)
    ensures res.Err? ==> m == mem
    ensures res.Ok? ==> RegisterFrame(m, entryPoint, stackTop)
    ensures res.Ok? ==> FxsaveArea(m, res.value.rsp, stackTop - FRAME_BYTES)
    ensures res.Ok? ==> forall a :: !Written(stackTop, a) ==>
      (a in m <==> a in mem) && (a in mem ==> m[a] == mem[a])
  {
    m := mem;
    if stackTop == 0 {
      return Err(InvalidStackAddress), m;
    }
    if entryPoint == 0 {
      return Err(ContextInitFailed), m;
    }
    if stackTop < MIN_REQUIRED_STACK {
      return Err(InvalidStackAddress), m;
    }
    var rsp;
    m, rsp := PushFrame(m, entryPoint, stackTop);
    var rspBeforeFxsave := rsp;
    rsp := rsp - FXSAVE_SIZE;
    rsp := (rsp / FXSAVE_ALIGN) * FXSAVE_ALIGN;
    assert rsp == InitialRsp(stackTop);
    // The source re-validates here; InitialRsp's contract shows the check cannot fail.
    assert rsp != 0 && rsp % FXSAVE_ALIGN == 0;
    m := ZeroFxsave(m, rsp);
    assert RegisterFrame(m, entryPoint, stackTop);
    m := m[rsp + 504 := rspBeforeFxsave];
    res := Ok(Context(rsp));
  }
}
