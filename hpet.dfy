// The High Precision Event Timer, kernel/src/hpet.rs.
// The HPET's General Capabilities and ID register carries the counter
// period in femtoseconds in its upper 32 bits (section 2.3.4 of the IA-PC
// HPET Specification 1.0a); bit 0 of the General Configuration register
// starts the main counter (section 2.3.5).  The kernel keeps the base
// address, period, frequency, start counter and an availability flag in
// globals, modelled as the fields of one object.  The register reads are
// oracle inputs: the capabilities value and each main-counter reading are
// parameters, and the configuration register is a field of the object
// because `init` reads it back and writes it.

module Hpet {
  import opened Base
  import Paging

  const FS_PER_SECOND: nat := 1_000_000_000_000_000
  const FS_PER_NS: nat := 1_000_000
  const NS_PER_US: nat := 1_000
  const NS_PER_MS: nat := 1_000_000
  const NS_PER_SECOND: nat := 1_000_000_000

  // ---- arithmetic used by the period and elapsed-time formulas -------------------

  lemma Regroup(q: nat, b: nat, r: nat, a: nat)
    ensures (q * b + r) * a == q * (a * b) + r * a
  {
  }

  /** Dividing twice is dividing once by the product. */
  lemma DivDiv(x: nat, a: nat, b: nat)
    requires 0 < a && 0 < b
    ensures x / a / b == x / (a * b)
  {
    var q1, r1 := x / a, x % a;
    var q2, r2 := q1 / b, q1 % b;
    Regroup(q2, b, r2, a);
    MulMono(r2, b - 1, a);
    assert (b - 1) * a + a == a * b;
    DivUnique(x, a * b, q2, r2 * a + r1);
  }

  /**
   * The overflow-avoiding split `(c / M) * p + (c % M) * p / M` is exactly
   * the floor of `c * p / M`.
   */
  lemma SplitProductDiv(c: nat, p: nat, m: nat)
    requires 0 < m
    ensures (c / m) * p + (c % m) * p / m == c * p / m
  {
    var q, r := c / m, c % m;
    var q2, r2 := (r * p) / m, (r * p) % m;
    Regroup(q, m, r, p);
    assert c * p == (q * p) * m + r * p;
    Regroup(q * p, 1, q2, m);
    assert c * p == (q * p + q2) * m + r2;
    DivUnique(c * p, m, q * p + q2, r2);
  }

  // ---- period and frequency -------------------------------------------------------

  /** Bits 63:32 of the capabilities register: the counter period in femtoseconds. */
  function PeriodOf(capId: U64): (p: U64)
    ensures p < U32_LIMIT
    ensures capId == p * U32_LIMIT + capId % U32_LIMIT
  {
    capId / U32_LIMIT
  }

  /** `10^15 / period`, or 0 for a zero period. */
  function FrequencyOf(periodFs: nat): nat
  {
    if periodFs > 0 then FS_PER_SECOND / periodFs else 0
  }

  /**
   * The frequency is the number of whole periods in one second: `f`
   * periods fit, `f + 1` do not.  A zero period gives frequency 0.
   */
  lemma FrequencyMeaning(periodFs: nat)
    ensures periodFs == 0 ==> FrequencyOf(periodFs) == 0
    ensures periodFs > 0 ==>
      FrequencyOf(periodFs) * periodFs <= FS_PER_SECOND < (FrequencyOf(periodFs) + 1) * periodFs
  {
  }

  /** `config | 1` on a u64. */
  function WithEnable(config: U64): (r: U64)
    ensures r % 2 == 1
    ensures r / 2 == config / 2
  {
    if config % 2 == 1 then config else config + 1
  }

  // ---- delays ---------------------------------------------------------------------

  /** `ns * 10^6 / period`: the counts a delay of `ns` nanoseconds waits for. */
  function DelayTarget(ns: nat, periodFs: nat): nat
    requires periodFs > 0
  {
    ns * FS_PER_NS / periodFs
  }

  /** The target is the largest whole number of periods inside the delay. */
  lemma DelayTargetMeaning(ns: nat, periodFs: nat)
    requires periodFs > 0
    ensures DelayTarget(ns, periodFs) * periodFs <= ns * FS_PER_NS
    ensures ns * FS_PER_NS < (DelayTarget(ns, periodFs) + 1) * periodFs
  {
  }

  /**
   * Reading `n` (counted after the start reading `readings[0]`) is the
   * first whose wrapping distance from the start reaches `target`.
   */
  predicate FirstReached(readings: seq<U64>, target: nat, n: nat)
  {
    1 <= n < |readings| &&
    WrappingSub(readings[n], readings[0]) >= target &&
    forall j :: 1 <= j < n ==> WrappingSub(readings[j], readings[0]) < target
  }

  /** Some reading after the start reaches `target`: the delay ends. */
  predicate EventuallyReached(readings: seq<U64>, target: nat)
  {
    1 <= |readings| &&
    exists k :: 1 <= k < |readings| && WrappingSub(readings[k], readings[0]) >= target
  }

  /** The number of polls a delay makes is determined by the counter readings. */
  lemma FirstReachedUnique(readings: seq<U64>, target: nat, n: nat, m: nat)
    requires FirstReached(readings, target, n) && FirstReached(readings, target, m)
    ensures n == m
  {
  }

  // ---- the HPET globals --------------------------------------------------------------

  class Hpet {
    var available: bool
    var base: U64
    var frequency: U64
    var periodFs: U64
    var startCounter: U64
    /** The device's General Configuration register. */
    var config: U64

    /** The period came from the capabilities register and the frequency from the period. */
    predicate Valid()
      reads this
    {
      periodFs < U32_LIMIT &&
      frequency == FrequencyOf(periodFs) &&
      (available ==> base != 0)
    }

    /** The globals before `init`: everything 0, not available. */
    constructor (config: U64)
      ensures Valid()
      ensures !available && base == 0 && periodFs == 0 && frequency == 0 && startCounter == 0
      ensures this.config == config
    {
      available := false;
      base := 0;
      frequency := 0;
      periodFs := 0;
      startCounter := 0;
      this.config := config;
    }

    /** `read_hpet_reg`: 0 while no base address is set, the device's value otherwise. */
    function ReadRegister(deviceValue: U64): (r: U64)
      reads this
      ensures base == 0 ==> r == 0
      ensures base != 0 ==> r == deviceValue
    {
      if base == 0 then 0 else deviceValue
    }

    /** `write_hpet_reg` of the configuration register: ignored while no base address is set. */
    method WriteConfig(value: U64)
      modifies this
      ensures base == old(base) && available == old(available) && frequency == old(frequency)
      ensures periodFs == old(periodFs) && startCounter == old(startCounter)
      ensures config == if base == 0 then old(config) else value
    {
      if base == 0 {
        return;
      }
      config := value;
    }

    /**
     * `init`: the base is the physical address in the high-half mapping;
     * the period is read from the capabilities register, the frequency
     * derived from it, bit 0 of the configuration register set with the
     * other bits kept, and the current counter stored as the start point.
     */
    method Init(basePhys: U64, capId: U64, counterNow: U64)
      requires basePhys + Paging.KERNEL_VIRTUAL_BASE as nat < U64_LIMIT
      modifies this
      ensures Valid()
      ensures base == basePhys + Paging.KERNEL_VIRTUAL_BASE as nat
      ensures periodFs == PeriodOf(capId) && frequency == FrequencyOf(PeriodOf(capId))
      ensures config % 2 == 1 && config / 2 == old(config) / 2
      ensures startCounter == counterNow && available
    {
      base := Paging.KERNEL_VIRTUAL_BASE as nat + basePhys;
      var cap := ReadRegister(capId);
      periodFs := PeriodOf(cap);
      FrequencyMeaning(periodFs);
      frequency := FrequencyOf(periodFs);
      var current := ReadRegister(config);
      WriteConfig(WithEnable(current));
      startCounter := ReadRegister(counterNow);
      available := true;
    }

    /**
     * `delay_ns`: nothing happens while the HPET is unavailable or its
     * period is 0; otherwise the counter is read once as the start and then
     * polled until its wrapping distance from the start reaches
     * `DelayTarget`.  `readings` are the counter values the device
     * returns; `polls` is how many were taken after the start.
     */
    method DelayNs(ns: U64, readings: seq<U64>) returns (polls: nat)
      requires Valid()
      requires available && periodFs > 0 ==>
        ns * FS_PER_NS < U64_LIMIT && EventuallyReached(readings, DelayTarget(ns, periodFs))
      ensures !available || periodFs == 0 ==> polls == 0
      ensures available && periodFs > 0 ==> FirstReached(readings, DelayTarget(ns, periodFs), polls)
    {
      if !available {
        return 0;
      }
      if periodFs == 0 {
        return 0;
      }
      var target := (ns * FS_PER_NS) / periodFs;
      var start := ReadRegister(readings[0]);
      ghost var k :| 1 <= k < |readings| && WrappingSub(readings[k], readings[0]) >= target;
      polls := 1;
      while WrappingSub(ReadRegister(readings[polls]), start) < target
        invariant 1 <= polls <= k
        invariant forall j :: 1 <= j < polls ==> WrappingSub(readings[j], readings[0]) < target
        decreases k - polls
      {
        polls := polls + 1;
      }
    }

    /** `delay_us`: a delay of `us * 1000` nanoseconds. */
    method DelayUs(us: U64, readings: seq<U64>) returns (polls: nat)
      requires Valid()
      requires us * NS_PER_US < U64_LIMIT
      requires available && periodFs > 0 ==>
        us * NS_PER_US * FS_PER_NS < U64_LIMIT && EventuallyReached(readings, DelayTarget(us * NS_PER_US, periodFs))
      ensures !available || periodFs == 0 ==> polls == 0
      ensures available && periodFs > 0 ==> FirstReached(readings, DelayTarget(us * NS_PER_US, periodFs), polls)
    {
      polls := DelayNs(us * NS_PER_US, readings);
    }

    /** `delay_ms`: a delay of `ms * 10^6` nanoseconds. */
    method DelayMs(ms: U64, readings: seq<U64>) returns (polls: nat)
      requires Valid()
      requires ms * NS_PER_MS < U64_LIMIT
      requires available && periodFs > 0 ==>
        ms * NS_PER_MS * FS_PER_NS < U64_LIMIT && EventuallyReached(readings, DelayTarget(ms * NS_PER_MS, periodFs))
      ensures !available || periodFs == 0 ==> polls == 0
      ensures available && periodFs > 0 ==> FirstReached(readings, DelayTarget(ms * NS_PER_MS, periodFs), polls)
    {
      polls := DelayNs(ms * NS_PER_MS, readings);
    }

    // ---- elapsed time since init ---------------------------------------------------

    /** `elapsed_counts`: the wrapping distance of the counter from its value at `init`. */
    function ElapsedCounts(counterNow: U64): U64
      reads this
    {
      WrappingSub(ReadRegister(counterNow), startCounter)
    }

    /** The exact elapsed time in femtoseconds, `counts * period`. */
    function ElapsedFs(counterNow: U64): nat
      reads this
    {
      if available && periodFs > 0 then ElapsedCounts(counterNow) * periodFs else 0
    }

    /** The nanosecond result fits a u64 (the source's arithmetic would overflow otherwise). */
    predicate ElapsedFits(counterNow: U64)
      reads this
    {
      ElapsedFs(counterNow) / FS_PER_NS < U64_LIMIT
    }

    /**
     * `elapsed_ns`: 0 while unavailable or with a zero period; otherwise
     * the split formula, which is exactly the floor of the elapsed
     * femtoseconds over 10^6.
     */
    function ElapsedNs(counterNow: U64): (r: U64)
      reads this
      requires Valid() && ElapsedFits(counterNow)
      ensures r == ElapsedFs(counterNow) / FS_PER_NS
      ensures !available || periodFs == 0 ==> r == 0
    {
      if !available then 0
      else if periodFs == 0 then 0
      else
        var counts := ElapsedCounts(counterNow);
        SplitProductDiv(counts, periodFs, FS_PER_NS);
        (counts / FS_PER_NS) * periodFs + (counts % FS_PER_NS) * periodFs / FS_PER_NS
    }

    /** `elapsed_us`: whole microseconds elapsed, the floor of the femtoseconds over 10^9. */
    function ElapsedUs(counterNow: U64): (r: U64)
      reads this
      requires Valid() && ElapsedFits(counterNow)
      ensures r == ElapsedFs(counterNow) / (FS_PER_NS * NS_PER_US)
    {
      DivDiv(ElapsedFs(counterNow), FS_PER_NS, NS_PER_US);
      ElapsedNs(counterNow) / NS_PER_US
    }

    /** `elapsed_ms`: whole milliseconds elapsed, the floor of the femtoseconds over 10^12. */
    function ElapsedMs(counterNow: U64): (r: U64)
      reads this
      requires Valid() && ElapsedFits(counterNow)
      ensures r == ElapsedFs(counterNow) / (FS_PER_NS * NS_PER_MS)
    {
      DivDiv(ElapsedFs(counterNow), FS_PER_NS, NS_PER_MS);
      ElapsedNs(counterNow) / NS_PER_MS
    }

    /** `elapsed_secs`: whole seconds elapsed, the floor of the femtoseconds over 10^15. */
    function ElapsedSecs(counterNow: U64): (r: U64)
      reads this
      requires Valid() && ElapsedFits(counterNow)
      ensures r == ElapsedFs(counterNow) / FS_PER_SECOND
    {
      DivDiv(ElapsedFs(counterNow), FS_PER_NS, NS_PER_SECOND);
      ElapsedNs(counterNow) / NS_PER_SECOND
    }
  }
}
