// The local APIC and its timer, kernel/src/apic.rs.
// `read_msr`/`write_msr` move IA32_APIC_BASE through EDX:EAX; `enable_apic`
// sets its global-enable bit 11 and programs the spurious-interrupt vector
// register.  The timer is calibrated by letting it count down from
// 0xFFFFFFFF for 50 ms against the HPET (one measurement) or the PIT (five
// measurements, median taken), then programmed in periodic mode with an
// initial count of one interrupt period (section 10.5.4 of Intel SDM Vol. 3A).
// The object holds the IA32_APIC_BASE MSR, the last value written to each
// memory-mapped APIC register and the calibrated frequency; the current-count
// register read at the end of each measurement is an oracle input.

module Apic {
  import opened Base

  datatype ApicError = NotCalibrated | CalibrationFailed | InitFailed | InvalidFrequency

  // register offsets
  const SPURIOUS_INTERRUPT_VECTOR: nat := 0xF0
  const EOI: nat := 0xB0
  const TIMER_LVT: nat := 0x320
  const TIMER_DIVIDE_CONFIG: nat := 0x3E0
  const TIMER_INITIAL_COUNT: nat := 0x380

  const TIMER_INTERRUPT_VECTOR: bv32 := 32
  /** Divide configuration 0x3: divide by 16. */
  const DIVIDE_BY_16: bv32 := 0x3
  /** LVT during a measurement: one-shot, masked. */
  const LVT_MASKED: bv32 := 1 << 16
  /** LVT after `init_timer`: periodic (bit 17), not masked (bit 16 clear), vector 32. */
  const LVT_PERIODIC: bv32 := (1 << 17) | (0 << 16) | TIMER_INTERRUPT_VECTOR
  const COUNT_START: nat := 0xFFFF_FFFF
  /** Both calibration paths wait 50 ms, so a measurement times 20 is ticks per second. */
  const CALIBRATION_MS: nat := 50
  const MULTIPLIER: nat := 1000 / CALIBRATION_MS
  const MEASUREMENTS: nat := 5

  // ---- MSR access ----------------------------------------------------------------

  /** `write_msr`'s EAX half. */
  function MsrLow(value: bv64): bv32
  {
    (value & 0xFFFF_FFFF) as bv32
  }

  /** `write_msr`'s EDX half. */
  function MsrHigh(value: bv64): bv32
  {
    ((value >> 32) & 0xFFFF_FFFF) as bv32
  }

  /** `read_msr`: EDX:EAX recombined. */
  function MsrJoin(high: bv32, low: bv32): bv64
  {
    ((high as bv64) << 32) | (low as bv64)
  }

  /** Splitting a value for `wrmsr` and joining what `rdmsr` returns gives the value back. */
  lemma MsrSplitJoin(value: bv64)
    ensures MsrJoin(MsrHigh(value), MsrLow(value)) == value
  {
  }

  /** Joining two halves and splitting again gives the halves back. */
  lemma MsrJoinSplit(high: bv32, low: bv32)
    ensures MsrHigh(MsrJoin(high, low)) == high && MsrLow(MsrJoin(high, low)) == low
  {
  }

  /** `apic_base | (1 << 11)`: bit 11 is set and every other bit kept. */
  lemma EnableBit(value: bv64)
    ensures (value | 0x800) & 0x800 == 0x800
    ensures (value | 0x800) & !0x800 == value & !0x800
  {
  }

  /** The timer LVT value: periodic mode, unmasked, vector 32, nothing else set. */
  lemma LvtPeriodicBits()
    ensures LVT_PERIODIC & (1 << 17) != 0
    ensures LVT_PERIODIC & (1 << 16) == 0
    ensures LVT_PERIODIC & 0xFF == TIMER_INTERRUPT_VECTOR
    ensures LVT_PERIODIC & !((1 << 17) | 0xFF) == 0
  {
  }

  // ---- the median of the PIT measurements -------------------------------------------

  /** How many elements of `s` are at most `x` (`below`), or at least `x`. */
  function Count(s: seq<nat>, x: nat, below: bool): (n: nat)
    ensures n <= |s|
  {
    if |s| == 0 then 0
    else (if (if below then s[0] <= x else s[0] >= x) then 1 else 0) + Count(s[1..], x, below)
  }

  /** A median of `s`: more than half of the elements lie on each side of it. */
  predicate IsMedian(s: seq<nat>, m: nat)
  {
    2 * Count(s, m, true) > |s| && 2 * Count(s, m, false) > |s|
  }

  lemma {:induction false} CountAppend(a: seq<nat>, b: seq<nat>, x: nat, below: bool)
    ensures Count(a + b, x, below) == Count(a, x, below) + Count(b, x, below)
  {
    if |a| == 0 {
      assert a + b == b;
    } else {
      assert (a + b)[1..] == a[1..] + b;
      CountAppend(a[1..], b, x, below);
    }
  }

  /** Taking out element `k` lowers the count by exactly that element's share. */
  lemma CountRemove(t: seq<nat>, k: nat, x: nat, below: bool)
    requires k < |t|
    ensures Count(t, x, below) ==
      Count([t[k]], x, below) + Count(t[..k] + t[k + 1..], x, below)
  {
    assert t == t[..k] + ([t[k]] + t[k + 1..]);
    CountAppend(t[..k], [t[k]] + t[k + 1..], x, below);
    CountAppend([t[k]], t[k + 1..], x, below);
    CountAppend(t[..k], t[k + 1..], x, below);
  }

  /** Removing the same element from two permutations of each other leaves permutations. */
  lemma RemoveMatching(s: seq<nat>, t: seq<nat>, k: nat)
    requires multiset(s) == multiset(t) && 0 < |s| && k < |t| && t[k] == s[0]
    ensures multiset(s[1..]) == multiset(t[..k] + t[k + 1..])
  {
    assert s == [s[0]] + s[1..];
    assert multiset(s) == multiset{s[0]} + multiset(s[1..]);
    assert t == t[..k] + [t[k]] + t[k + 1..];
    assert multiset(t) == multiset(t[..k]) + multiset{t[k]} + multiset(t[k + 1..]);
    assert multiset(t[..k] + t[k + 1..]) == multiset(t[..k]) + multiset(t[k + 1..]);
    assert multiset(s[1..]) == multiset(s) - multiset{s[0]};
    assert multiset(t[..k] + t[k + 1..]) == multiset(t) - multiset{t[k]};
  }

  /** Counting does not depend on the order of the elements. */
  lemma {:induction false} CountPermutation(s: seq<nat>, t: seq<nat>, x: nat, below: bool)
    requires multiset(s) == multiset(t)
    ensures Count(s, x, below) == Count(t, x, below)
    decreases |s|
  {
    if |s| == 0 {
      assert |t| == |multiset(t)| == 0;
    } else {
      assert s[0] in multiset(t);
      var k :| 0 <= k < |t| && t[k] == s[0];
      RemoveMatching(s, t, k);
      CountPermutation(s[1..], t[..k] + t[k + 1..], x, below);
      CountRemove(t, k, x, below);
    }
  }

  /** No element is both at most `a` and at least `b` when `a < b`. */
  lemma {:induction false} CountDisjoint(s: seq<nat>, a: nat, b: nat)
    requires a < b
    ensures Count(s, a, true) + Count(s, b, false) <= |s|
  {
    if |s| > 0 {
      CountDisjoint(s[1..], a, b);
    }
  }

  /** The median value is unique. */
  lemma MedianUnique(s: seq<nat>, a: nat, b: nat)
    requires IsMedian(s, a) && IsMedian(s, b)
    ensures a == b
  {
    if a < b {
      CountDisjoint(s, a, b);
    } else if b < a {
      CountDisjoint(s, b, a);
    }
  }

  predicate Sorted(s: seq<nat>)
  {
    forall i, j :: 0 <= i < j < |s| ==> s[i] <= s[j]
  }

  /** The middle element of five sorted values is their median. */
  lemma SortedMiddleIsMedian(s: seq<nat>)
    requires |s| == MEASUREMENTS && Sorted(s)
    ensures IsMedian(s, s[2])
  {
    assert s[2..][1..] == s[3..] && s[3..][1..] == s[4..] && s[4..][1..] == [];
    assert s[1..][1..] == s[2..] && s[1..][1..][1..] == s[3..];
    assert Count(s[2..], s[2], true) >= 1;
    assert Count(s, s[2], true) >= 3;
    assert Count(s[4..], s[2], false) == 1;
    assert Count(s[3..], s[2], false) == 2;
    assert Count(s[2..], s[2], false) == 3;
  }

  /** `s[..i + 1]` is sorted except that `s[j]` may be smaller than the elements before it. */
  predicate SortedExcept(s: seq<nat>, i: nat, j: nat)
    requires i < |s|
  {
    forall p, q :: 0 <= p < q <= i && q != j ==> s[p] <= s[q]
  }

  /** Swapping the out-of-place element one step down keeps the rest in order. */
  lemma SwapKeepsOrder(s: seq<nat>, i: nat, j: nat)
    requires 0 < j <= i < |s| && SortedExcept(s, i, j) && s[j - 1] > s[j]
    ensures SortedExcept(s[j - 1 := s[j]][j := s[j - 1]], i, j - 1)
  {
  }

  /** Once the element is no smaller than its left neighbour, the prefix is sorted. */
  lemma InsertDone(s: seq<nat>, i: nat, j: nat)
    requires j <= i < |s| && SortedExcept(s, i, j) && (j == 0 || s[j - 1] <= s[j])
    ensures Sorted(s[..i + 1])
  {
    forall p, q | 0 <= p < q <= i
      ensures s[p] <= s[q]
    {
      if q == j {
        assert p <= j - 1;
        assert p < j - 1 ==> s[p] <= s[j - 1];
      }
    }
  }

  /** Exchanges `a[j - 1]` and `a[j]`. */
  method SwapDown(a: array<nat>, j: nat)
    requires 0 < j < a.Length
    modifies a
    ensures a[..] == old(a[..])[j - 1 := old(a[j])][j := old(a[j - 1])]
    ensures multiset(a[..]) == multiset(old(a[..]))
  {
    a[j - 1], a[j] := a[j], a[j - 1];
  }

  /** `sort_unstable` on the measurements: ascending, same elements. */
  method SortMeasurements(a: array<nat>)
    modifies a
    ensures Sorted(a[..])
    ensures multiset(a[..]) == multiset(old(a[..]))
  {
    if a.Length == 0 {
      return;
    }
    var i := 1;
    while i < a.Length
      invariant 1 <= i <= a.Length
      invariant Sorted(a[..i])
      invariant multiset(a[..]) == multiset(old(a[..]))
    {
      var j := i;
      assert SortedExcept(a[..], i, j);
      while j > 0 && a[j - 1] > a[j]
        invariant 0 <= j <= i
        invariant multiset(a[..]) == multiset(old(a[..]))
        invariant SortedExcept(a[..], i, j)
      {
        SwapKeepsOrder(a[..], i, j);
        SwapDown(a, j);
        j := j - 1;
      }
      InsertDone(a[..], i, j);
      assert a[..i + 1] == a[..][..i + 1];
      i := i + 1;
    }
    assert a[..] == a[..a.Length];
  }

  /** The median of the measurements: sorted in place, the middle one taken. */
  method MedianOf(ticks: seq<nat>) returns (median: nat)
    requires |ticks| == MEASUREMENTS
    ensures IsMedian(ticks, median) && median in ticks
  {
    var measurements := new nat[MEASUREMENTS](i requires 0 <= i < MEASUREMENTS => ticks[i]);
    assert measurements[..] == ticks;
    SortMeasurements(measurements);
    median := measurements[MEASUREMENTS / 2];
    SortedMiddleIsMedian(measurements[..]);
    CountPermutation(measurements[..], ticks, median, true);
    CountPermutation(measurements[..], ticks, median, false);
    assert measurements[..][2] in multiset(measurements[..]);
    assert median in multiset(ticks);
  }

  /** Ticks per second over the multiplier give the measured ticks back. */
  lemma ScaleBack(ticks: nat)
    ensures (ticks * MULTIPLIER) % MULTIPLIER == 0 && (ticks * MULTIPLIER) / MULTIPLIER == ticks
  {
  }

  /** The tick counts the five PIT measurements report. */
  function TicksOf(counts: seq<U32>): seq<nat>
  {
    seq(|counts|, i requires 0 <= i < |counts| => COUNT_START - counts[i])
  }

  // ---- the APIC -----------------------------------------------------------------------

  class LocalApic {
    /** The IA32_APIC_BASE MSR. */
    var apicBaseMsr: bv64
    /** The last value written to each memory-mapped register, by offset. */
    var regs: map<nat, bv32>
    /** APIC_TIMER_FREQUENCY: calibrated ticks per second, 0 until calibrated. */
    var timerFrequency: U32

    constructor (apicBaseMsr: bv64)
      ensures this.apicBaseMsr == apicBaseMsr && regs == map[] && timerFrequency == 0
    {
      this.apicBaseMsr := apicBaseMsr;
      regs := map[];
      timerFrequency := 0;
    }

    /**
     * `enable_apic`: IA32_APIC_BASE is read, bit 11 set and written back;
     * the spurious-interrupt vector register gets 0x1FF (software enable,
     * vector 0xFF).
     */
    method EnableApic()
      modifies this
      ensures apicBaseMsr == old(apicBaseMsr) | 0x800
      ensures regs == old(regs)[SPURIOUS_INTERRUPT_VECTOR := 0x1FF]
      ensures timerFrequency == old(timerFrequency)
    {
      var apicBase := MsrJoin(MsrHigh(apicBaseMsr), MsrLow(apicBaseMsr));
      MsrSplitJoin(apicBaseMsr);
      apicBase := apicBase | 0x800;
      var low, high := MsrLow(apicBase), MsrHigh(apicBase);
      MsrSplitJoin(apicBase);
      apicBaseMsr := MsrJoin(high, low);
      regs := regs[SPURIOUS_INTERRUPT_VECTOR := 0x1FF];
    }

    /**
     * `measure_apic_ticks_hpet` / `measure_apic_ticks_pit`: divide by 16,
     * mask the timer, start it at 0xFFFFFFFF, wait, read the current count,
     * stop the timer; the result is how far it counted down.
     */
    method MeasureTicks(currentCount: U32) returns (ticks: nat)
      modifies this
      ensures ticks + currentCount == COUNT_START
      ensures regs == old(regs)[TIMER_DIVIDE_CONFIG := DIVIDE_BY_16][TIMER_LVT := LVT_MASKED][TIMER_INITIAL_COUNT := 0]
      ensures apicBaseMsr == old(apicBaseMsr) && timerFrequency == old(timerFrequency)
    {
      regs := regs[TIMER_DIVIDE_CONFIG := DIVIDE_BY_16];
      regs := regs[TIMER_LVT := LVT_MASKED];
      regs := regs[TIMER_INITIAL_COUNT := 0xFFFF_FFFF];
      regs := regs[TIMER_INITIAL_COUNT := 0];
      ticks := COUNT_START - currentCount;
    }

    /** The five PIT measurements, in order. */
    method MeasurePit(pitCounts: seq<U32>) returns (ticks: seq<nat>)
      requires |pitCounts| > 0
      modifies this
      ensures ticks == TicksOf(pitCounts)
      ensures regs == old(regs)[TIMER_DIVIDE_CONFIG := DIVIDE_BY_16][TIMER_LVT := LVT_MASKED][TIMER_INITIAL_COUNT := 0]
      ensures apicBaseMsr == old(apicBaseMsr) && timerFrequency == old(timerFrequency)
    {
      ticks := [];
      var first := MeasureTicks(pitCounts[0]);
      ticks := [first];
      var i := 1;
      while i < |pitCounts|
        invariant 1 <= i <= |pitCounts|
        invariant ticks == TicksOf(pitCounts)[..i]
        invariant regs == old(regs)[TIMER_DIVIDE_CONFIG := DIVIDE_BY_16][TIMER_LVT := LVT_MASKED][TIMER_INITIAL_COUNT := 0]
        invariant apicBaseMsr == old(apicBaseMsr) && timerFrequency == old(timerFrequency)
      {
        var t := MeasureTicks(pitCounts[i]);
        ticks := ticks + [t];
        i := i + 1;
      }
    }

    /**
     * `calibrate_timer`: one HPET measurement, or the median of five PIT
     * measurements, times 20 is stored as the frequency, even when it is 0;
     * CalibrationFailed is returned exactly when it is 0.
     */
    method CalibrateTimer(hpetAvailable: bool, hpetCount: U32, pitCounts: seq<U32>) returns (r: Result<(), ApicError>)
      requires hpetAvailable ==> (COUNT_START - hpetCount) * MULTIPLIER < U32_LIMIT
      requires !hpetAvailable ==> (|pitCounts| == MEASUREMENTS &&
        forall i :: 0 <= i < MEASUREMENTS ==> (COUNT_START - pitCounts[i]) * MULTIPLIER < U32_LIMIT)
      modifies this
      ensures hpetAvailable ==> timerFrequency == (COUNT_START - hpetCount) * MULTIPLIER
      ensures !hpetAvailable ==>
        timerFrequency % MULTIPLIER == 0 && IsMedian(TicksOf(pitCounts), timerFrequency / MULTIPLIER)
      ensures r == (if timerFrequency == 0 then Err(CalibrationFailed) else Ok(()))
      ensures regs == old(regs)[TIMER_DIVIDE_CONFIG := DIVIDE_BY_16][TIMER_LVT := LVT_MASKED][TIMER_INITIAL_COUNT := 0]
      ensures apicBaseMsr == old(apicBaseMsr)
    {
      var ticksPerSecond: nat;
      if hpetAvailable {
        var ticks := MeasureTicks(hpetCount);
        ticksPerSecond := ticks * MULTIPLIER;
      } else {
        var measurements := MeasurePit(pitCounts);
        var median := MedianOf(measurements);
        var k :| 0 <= k < MEASUREMENTS && measurements[k] == median;
        assert median == COUNT_START - pitCounts[k];
        ScaleBack(median);
        ticksPerSecond := median * MULTIPLIER;
      }
      timerFrequency := ticksPerSecond;
      if ticksPerSecond == 0 {
        return Err(CalibrationFailed);
      }
      return Ok(());
    }

    /**
     * `init_timer`: a zero rate is refused before any register is touched,
     * and an uncalibrated timer after reading the frequency; otherwise the
     * timer runs periodically on vector 32 with an initial count of the
     * calibrated ticks per interrupt period.
     */
    method InitTimer(frequencyHz: U32) returns (r: Result<(), ApicError>)
      modifies this
      ensures frequencyHz == 0 ==> r == Err(InvalidFrequency) && regs == old(regs)
      ensures frequencyHz != 0 && timerFrequency == 0 ==> r == Err(NotCalibrated) && regs == old(regs)
      ensures frequencyHz != 0 && timerFrequency != 0 ==>
        r == Ok(()) &&
        regs == old(regs)[TIMER_DIVIDE_CONFIG := DIVIDE_BY_16][TIMER_LVT := LVT_PERIODIC]
                         [TIMER_INITIAL_COUNT := InitialCount(timerFrequency, frequencyHz) as bv32]
      ensures timerFrequency == old(timerFrequency) && apicBaseMsr == old(apicBaseMsr)
    {
      if frequencyHz == 0 {
        return Err(InvalidFrequency);
      }
      var apicFreq := timerFrequency;
      if apicFreq == 0 {
        return Err(NotCalibrated);
      }
      regs := regs[TIMER_DIVIDE_CONFIG := DIVIDE_BY_16];
      regs := regs[TIMER_LVT := LVT_PERIODIC];
      var initialCount := apicFreq / frequencyHz;
      regs := regs[TIMER_INITIAL_COUNT := initialCount as bv32];
      return Ok(());
    }

    /** `send_eoi`: a write of 0 to the EOI register. */
    method SendEoi()
      modifies this
      ensures regs == old(regs)[EOI := 0]
      ensures timerFrequency == old(timerFrequency) && apicBaseMsr == old(apicBaseMsr)
    {
      regs := regs[EOI := 0];
    }
  }

  /** `apic_freq / frequency_hz`: timer ticks per interrupt. */
  function InitialCount(apicFreq: U32, frequencyHz: U32): (count: U32)
    requires frequencyHz > 0
  {
    DivBelow(apicFreq, frequencyHz);
    apicFreq / frequencyHz
  }

  /**
   * The initial count is the number of whole interrupt periods' worth of
   * ticks: `count` intervals of `frequencyHz` fit in the calibrated rate,
   * `count + 1` do not.
   */
  lemma InitialCountMeaning(apicFreq: U32, frequencyHz: U32)
    requires frequencyHz > 0
    ensures InitialCount(apicFreq, frequencyHz) * frequencyHz <= apicFreq
    ensures apicFreq < (InitialCount(apicFreq, frequencyHz) + 1) * frequencyHz
  {
  }
}
