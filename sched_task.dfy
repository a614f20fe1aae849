// Tasks of the scheduler generation under kernel/src/sched/ (task.rs):
// scheduling classes, nice values and their CFS weights, the three task
// constructors, the virtual-runtime update and the task-id counter.
//
// A task is an owned value that the scheduler moves between its queues, so
// it is a datatype here; `update_vruntime` and `set_state`, which take
// `&mut self` on the sole owner, become functions returning the new value.

module SchedTask {
  import opened Base
  import opened SchedContext

  const NICE_MIN: int := -20
  const NICE_DEFAULT: int := 0
  const NICE_MAX: int := 19
  const RT_PRIORITY_MIN: nat := 1
  const RT_PRIORITY_DEFAULT: nat := 50
  const RT_PRIORITY_MAX: nat := 99
  /** The weight of nice 0; vruntime advances at wall-clock rate at this weight. */
  const BASE_WEIGHT: nat := 1024

  datatype SchedulingClass = Realtime | Normal | Idle

  datatype TaskState = Running | Ready | Blocked | Terminated

  datatype Task = Task(
    id: nat,
    name: string,
    schedClass: SchedulingClass,
    nice: int,
    rtPriority: nat,
    weight: nat,
    vruntime: nat,
    context: Context,
    state: TaskState)

  /** Linux's sched_prio_to_weight: index 0 is nice -20, index 39 is nice 19. */
  const PRIO_TO_WEIGHT: seq<nat> := [
    88761, 71755, 56483, 46273, 36291, 29154, 23254, 18705, 14949, 11916, 9548, 7620, 6100,
    4904, 3906, 3121, 2501, 1991, 1586, 1277, 1024, 820, 655, 526, 423, 335, 272, 215, 172,
    137, 110, 87, 70, 56, 45, 36, 29, 23, 18, 15]

  /** `nice.clamp(nice::MIN, nice::MAX)`. */
  function ClampNice(nice: int): (c: int)
    ensures NICE_MIN <= c <= NICE_MAX
    ensures NICE_MIN <= nice <= NICE_MAX ==> c == nice
    ensures nice < NICE_MIN ==> c == NICE_MIN
    ensures nice > NICE_MAX ==> c == NICE_MAX
  {
    if nice < NICE_MIN then NICE_MIN else if nice > NICE_MAX then NICE_MAX else nice
  }

  /** `nice_to_weight`: the table entry of the clamped nice value. */
  function NiceToWeight(nice: int): (w: nat)
    ensures nice <= NICE_MIN ==> w == 88761
    ensures nice >= NICE_MAX ==> w == 15
    ensures nice == NICE_DEFAULT ==> w == BASE_WEIGHT
    ensures 15 <= w <= 88761
  {
    assert |PRIO_TO_WEIGHT| == 40;
    PRIO_TO_WEIGHT[ClampNice(nice) - NICE_MIN]
  }

  ghost predicate StrictlyDecreasing(s: seq<nat>)
  {
    forall i, j :: 0 <= i < j < |s| ==> s[i] > s[j]
  }

  ghost predicate AdjacentDecreasing(s: seq<nat>)
  {
    forall i :: 0 <= i < |s| - 1 ==> s[i] > s[i + 1]
  }

  lemma {:induction false} AdjacentToStrict(s: seq<nat>)
    requires AdjacentDecreasing(s)
    ensures StrictlyDecreasing(s)
    decreases |s|
  {
    if |s| > 1 {
      AdjacentToStrict(s[1..]);
      forall j | 1 <= j < |s| ensures s[0] > s[j] {
        assert s[1..][0] >= s[1..][j - 1];
      }
    }
  }

  /** The table steps down at each entry, checked a few entries at a time. */
  lemma WeightSteps0()
    ensures forall i | 0 <= i < 5 :: PRIO_TO_WEIGHT[i] > PRIO_TO_WEIGHT[i + 1]
  {
    var t := PRIO_TO_WEIGHT;
    assert t[0] > t[1] && t[1] > t[2] && t[2] > t[3] && t[3] > t[4] && t[4] > t[5];
  }

  lemma WeightSteps1()
    ensures forall i | 5 <= i < 10 :: PRIO_TO_WEIGHT[i] > PRIO_TO_WEIGHT[i + 1]
  {
    var t := PRIO_TO_WEIGHT;
    assert t[5] > t[6] && t[6] > t[7] && t[7] > t[8] && t[8] > t[9] && t[9] > t[10];
  }

  lemma WeightSteps2()
    ensures forall i | 10 <= i < 15 :: PRIO_TO_WEIGHT[i] > PRIO_TO_WEIGHT[i + 1]
  {
    var t := PRIO_TO_WEIGHT;
    assert t[10] > t[11] && t[11] > t[12] && t[12] > t[13] && t[13] > t[14] && t[14] > t[15];
  }

  lemma WeightSteps3()
    ensures forall i | 15 <= i < 20 :: PRIO_TO_WEIGHT[i] > PRIO_TO_WEIGHT[i + 1]
  {
    var t := PRIO_TO_WEIGHT;
    assert t[15] > t[16] && t[16] > t[17] && t[17] > t[18] && t[18] > t[19] && t[19] > t[20];
  }

  lemma WeightSteps4()
    ensures forall i | 20 <= i < 30 :: PRIO_TO_WEIGHT[i] > PRIO_TO_WEIGHT[i + 1]
  {
    var t := PRIO_TO_WEIGHT;
    assert t[20] > t[21] && t[21] > t[22] && t[22] > t[23] && t[23] > t[24] && t[24] > t[25] && t[25] > t[26] && t[26] > t[27] && t[27] > t[28] && t[28] > t[29] && t[29] > t[30];
  }

  lemma WeightSteps5()
    ensures forall i | 30 <= i < 39 :: PRIO_TO_WEIGHT[i] > PRIO_TO_WEIGHT[i + 1]
  {
    var t := PRIO_TO_WEIGHT;
    assert t[30] > t[31] && t[31] > t[32] && t[32] > t[33] && t[33] > t[34] && t[34] > t[35] && t[35] > t[36] && t[36] > t[37] && t[37] > t[38] && t[38] > t[39];
  }

  /** Every step of the weight table is a strict decrease. */
  lemma WeightTableStrictlyDecreasing()
    ensures StrictlyDecreasing(PRIO_TO_WEIGHT)
  {
    WeightSteps0();
    WeightSteps1();
    WeightSteps2();
    WeightSteps3();
    WeightSteps4();
    WeightSteps5();
    AdjacentToStrict(PRIO_TO_WEIGHT);
  }

  /**
   * A nicer (larger) nice value never gets a larger weight, and a strictly
   * larger clamped nice value gets a strictly smaller one.
   */
  lemma NiceToWeightAntitone(a: int, b: int)
    requires a <= b
    ensures NiceToWeight(b) <= NiceToWeight(a)
    ensures ClampNice(a) < ClampNice(b) ==> NiceToWeight(b) < NiceToWeight(a)
  {
    var i, j := ClampNice(a) - NICE_MIN, ClampNice(b) - NICE_MIN;
    ClampMono(a, b);
    WeightAt(i, j);
    NiceToWeightAt(a);
    NiceToWeightAt(b);
  }

  lemma ClampMono(a: int, b: int)
    requires a <= b
    ensures ClampNice(a) <= ClampNice(b)
  {
  }

  /** The weight of a nice value is the table entry of its clamped value. */
  lemma NiceToWeightAt(n: int)
    ensures 0 <= ClampNice(n) - NICE_MIN < 40 && |PRIO_TO_WEIGHT| == 40
    ensures NiceToWeight(n) == PRIO_TO_WEIGHT[ClampNice(n) - NICE_MIN]
  {
  }

  /** A later entry of the weight table is no larger, and smaller if strictly later. */
  lemma WeightAt(i: nat, j: nat)
    requires i <= j < 40
    ensures |PRIO_TO_WEIGHT| == 40
    ensures PRIO_TO_WEIGHT[j] <= PRIO_TO_WEIGHT[i]
    ensures i < j ==> PRIO_TO_WEIGHT[j] < PRIO_TO_WEIGHT[i]
  {
    WeightTableStrictlyDecreasing();
  }

  /** The per-class field invariants every constructor establishes. */
  ghost predicate WellFormed(t: Task)
  {
    t.id < U64_LIMIT && t.vruntime < U64_LIMIT &&
    match t.schedClass
    case Normal =>
      NICE_MIN <= t.nice <= NICE_MAX && t.weight == NiceToWeight(t.nice) && t.rtPriority == 0
    case Realtime =>
      RT_PRIORITY_MIN <= t.rtPriority <= RT_PRIORITY_MAX && t.weight == 0 && t.nice == 0
    case Idle =>
      t.nice == NICE_MAX && t.weight == NiceToWeight(NICE_MAX) && t.rtPriority == 0
  }

  /**
   * `Task::new(name, nice, entry)`: a Ready Normal task with the clamped
   * nice value and its weight.  `id` is the value `TaskId::new` hands out;
   * a failing context leaves the constructor before it is drawn.
   */
  function NewTask(id: nat, name: string, nice: int, entryPoint: nat, stackTop: nat)
    : (r: Result<Task, TaskError>)
    ensures r.Err? <==> ContextInit(entryPoint, stackTop).Err?
    ensures r.Err? ==> r.error == ContextInit(entryPoint, stackTop).error
    ensures r.Ok? ==> r.value.schedClass == Normal && r.value.state == Ready
    ensures r.Ok? ==> r.value.nice == ClampNice(nice) && r.value.weight == NiceToWeight(nice)
    ensures r.Ok? ==> r.value.rtPriority == 0 && r.value.vruntime == 0 && r.value.id == id
    ensures r.Ok? ==> r.value.context == ContextInit(entryPoint, stackTop).value
    ensures r.Ok? && id < U64_LIMIT ==> WellFormed(r.value)
  {
    match ContextInit(entryPoint, stackTop)
    case Err(e) => Err(e)
    case Ok(context) =>
      var clamped := ClampNice(nice);
      Ok(Task(id, name, Normal, clamped, 0, NiceToWeight(clamped), 0, context, Ready))
  }

  /**
   * `Task::new_realtime(name, rt_priority, entry)`: priority 0 is refused
   * before the stack is touched; larger priorities are capped at 99.
   */
  function NewRealtime(id: nat, name: string, rtPriority: nat, entryPoint: nat, stackTop: nat)
    : (r: Result<Task, TaskError>)
    ensures rtPriority < RT_PRIORITY_MIN ==> r == Err(InvalidPriority)
    ensures rtPriority >= RT_PRIORITY_MIN ==>
      (r.Err? <==> ContextInit(entryPoint, stackTop).Err?) &&
      (r.Err? ==> r.error == ContextInit(entryPoint, stackTop).error)
    ensures r.Ok? ==> r.value.schedClass == Realtime && r.value.state == Ready
    ensures r.Ok? ==> r.value.rtPriority == Min(rtPriority, RT_PRIORITY_MAX)
    ensures r.Ok? ==> r.value.weight == 0 && r.value.nice == 0 && r.value.vruntime == 0
    ensures r.Ok? ==> r.value.id == id && r.value.context == ContextInit(entryPoint, stackTop).value
    ensures r.Ok? && id < U64_LIMIT ==> WellFormed(r.value)
  {
    if rtPriority < RT_PRIORITY_MIN then Err(InvalidPriority)
    else match ContextInit(entryPoint, stackTop)
      case Err(e) => Err(e)
      case Ok(context) =>
        Ok(Task(id, name, Realtime, 0, Min(rtPriority, RT_PRIORITY_MAX), 0, 0, context, Ready))
  }

  /** `Task::new_idle(name, entry)`: an Idle task at nice 19 with weight 15. */
  function NewIdle(id: nat, name: string, entryPoint: nat, stackTop: nat)
    : (r: Result<Task, TaskError>)
    ensures r.Err? <==> ContextInit(entryPoint, stackTop).Err?
    ensures r.Err? ==> r.error == ContextInit(entryPoint, stackTop).error
    ensures r.Ok? ==> r.value.schedClass == Idle && r.value.state == Ready
    ensures r.Ok? ==> r.value.nice == NICE_MAX && r.value.weight == 15
    ensures r.Ok? ==> r.value.rtPriority == 0 && r.value.vruntime == 0 && r.value.id == id
    ensures r.Ok? && id < U64_LIMIT ==> WellFormed(r.value)
  {
    match ContextInit(entryPoint, stackTop)
    case Err(e) => Err(e)
    case Ok(context) =>
      Ok(Task(id, name, Idle, NICE_MAX, 0, NiceToWeight(NICE_MAX), 0, context, Ready))
  }

  /**
   * `update_vruntime(delta)`: a weightless (Realtime) task is unchanged;
   * otherwise vruntime grows by `delta * 1024 / weight`, saturating at
   * `u64::MAX`.  Only vruntime ever changes.
   */
  function UpdateVruntime(t: Task, delta: nat): (r: Task)
    requires t.vruntime < U64_LIMIT && (t.weight > 0 ==> delta * BASE_WEIGHT < U64_LIMIT)
    ensures r == t.(vruntime := r.vruntime)
    ensures t.vruntime <= r.vruntime < U64_LIMIT
    ensures t.weight == 0 ==> r == t
    ensures t.weight > 0 && t.vruntime + delta * BASE_WEIGHT / t.weight < U64_LIMIT ==>
      r.vruntime * t.weight <= t.vruntime * t.weight + delta * BASE_WEIGHT
    ensures t.weight > 0 && t.vruntime * t.weight + delta * BASE_WEIGHT < U64_LIMIT * t.weight ==>
      r.vruntime * t.weight <= t.vruntime * t.weight + delta * BASE_WEIGHT < (r.vruntime + 1) * t.weight
    ensures t.weight > 0 && t.vruntime * t.weight + delta * BASE_WEIGHT >= U64_LIMIT * t.weight ==>
      r.vruntime == U64_MAX
    ensures WellFormed(t) ==> WellFormed(r)
  {
    if t.weight == 0 then t
    else
      ChargeBracket(t.vruntime, delta * BASE_WEIGHT, t.weight);
      t.(vruntime := SaturatingAdd(t.vruntime, delta * BASE_WEIGHT / t.weight))
  }

  /**
   * Charging `d / w` to a vruntime `v` gives the `u` with
   * `u * w <= v * w + d < (u + 1) * w`: in weighted units the task is
   * charged exactly `d`, rounded down.  That `u` fits in `u64` exactly
   * when `v * w + d < 2^64 * w`.
   */
  lemma ChargeBracket(v: nat, d: nat, w: nat)
    requires w > 0
    ensures (v + d / w) * w <= v * w + d < (v + d / w + 1) * w
    ensures v + d / w < U64_LIMIT <==> v * w + d < U64_LIMIT * w
  {
    var q := d / w;
    assert d == q * w + d % w;
    assert (v + q) * w == v * w + q * w;
    assert (v + q + 1) * w == v * w + q * w + w;
    if v + q < U64_LIMIT {
      MulMono(v + q + 1, U64_LIMIT, w);
    } else {
      MulMono(U64_LIMIT, v + q, w);
    }
  }

  lemma DivisorAntitone(a: nat, b: nat, c: nat)
    requires 0 < b <= c
    ensures a / c <= a / b
  {
    var q, d := a / c, a / b;
    assert q * c + a % c == a && a % c >= 0;
    assert d * b + a % b == a && a % b < b;
    MulMono(b, c, q);
    assert (d + 1) * b == d * b + b;
    ScaleCancel(q, d + 1, b);
  }

  /** A strict order of multiples by a positive natural is the order of the factors. */
  lemma ScaleCancel(x: nat, y: nat, k: nat)
    requires k > 0 && x * k < y * k
    ensures x < y
  {
    if x >= y {
      MulMono(y, x, k);
    }
  }

  /**
   * The fairness intent of CFS weights: over the same runtime, a heavier
   * task's vruntime advances no further than a lighter one's.
   */
  lemma HeavierAdvancesLess(t1: Task, t2: Task, delta: nat)
    requires t1.vruntime == t2.vruntime < U64_LIMIT && delta * BASE_WEIGHT < U64_LIMIT
    requires t1.weight >= t2.weight > 0
    ensures UpdateVruntime(t1, delta).vruntime <= UpdateVruntime(t2, delta).vruntime
  {
    DivisorAntitone(delta * BASE_WEIGHT, t2.weight, t1.weight);
  }

  /**
   * `TaskId::new`: a global `AtomicU64` counter starting at 0, advanced by
   * `fetch_add(1)`, which wraps from `u64::MAX` to 0.  The kernel's two
   * schedulers each keep such a counter (kernel/src/task.rs and
   * kernel/src/sched/task.rs); this class stands for either.  The ghost set
   * of issued ids shows every id is fresh until the counter has wrapped.
   */
  class TaskIdAllocator {
    var next: nat
    ghost var issued: set<nat>
    ghost var wrapped: bool

    ghost predicate Valid()
      reads this
    {
      next < U64_LIMIT && (!wrapped ==> forall x :: x in issued ==> x < next)
    }

    constructor ()
      ensures Valid() && next == 0 && issued == {} && !wrapped
    {
      next := 0;
      issued := {};
      wrapped := false;
    }

    method NewId() returns (id: nat)
      requires Valid()
      modifies this
      ensures Valid()
      ensures id == old(next) && next == WrappingAdd(old(next), 1)
      ensures wrapped <==> old(wrapped) || old(next) == U64_MAX
      ensures !old(wrapped) ==> id !in old(issued)
      ensures issued == old(issued) + {id}
    {
      id := next;
      if next == U64_MAX {
        next := 0;
        wrapped := true;
      } else {
        next := next + 1;
      }
      issued := issued + {id};
    }
  }
}
