// The address helpers of kernel/src/addr.rs: alignment checks and
// rounding by bit masks on `u64`, and the null/alignment checks made
// before a physical or virtual address is turned into a reference.
//
// The masks are modelled bit by bit on naturals (`And`) so that the
// rounding they perform can be proved to be the arithmetic one.

module Addr {
  import opened Base

  // ---- bits -------------------------------------------------------------

  /** 2 to the power `n`. */
  function Pow2(n: nat): (r: nat)
    ensures r >= 1
  {
    if n == 0 then 1 else 2 * Pow2(n - 1)
  }

  /** `u64::is_power_of_two`. */
  predicate PowerOfTwo(a: nat)
    decreases a
  {
    a == 1 || (a >= 2 && a % 2 == 0 && PowerOfTwo(a / 2))
  }

  /** The exponent of a power of two. */
  function Log2(a: nat): (k: nat)
    requires PowerOfTwo(a)
    ensures Pow2(k) == a
    decreases a
  {
    if a == 1 then 0 else 1 + Log2(a / 2)
  }

  lemma {:induction false} Pow2Mono(m: nat, n: nat)
    requires m <= n
    ensures Pow2(m) <= Pow2(n)
    decreases n
  {
    if m < n {
      Pow2Mono(m, n - 1);
    }
  }

  lemma {:induction false} Pow2Add(a: nat, b: nat)
    ensures Pow2(a + b) == Pow2(a) * Pow2(b)
    decreases b
  {
    if b > 0 {
      Pow2Add(a, b - 1);
      assert Pow2(a + b) == 2 * (Pow2(a) * Pow2(b - 1));
    }
  }

  lemma Pow2Is16()
    ensures Pow2(16) == 0x1_0000
  {
    Pow2Add(8, 8);
  }

  lemma Pow2Is32()
    ensures Pow2(32) == 0x1_0000_0000
  {
    Pow2Is16();
    Pow2Add(16, 16);
  }

  lemma Pow2Is64()
    ensures Pow2(64) == U64_LIMIT
  {
    Pow2Is32();
    Pow2Add(32, 32);
  }

  /** Bitwise AND of two naturals, least significant bit first. */
  function And(a: nat, b: nat): nat
    decreases a
  {
    if a == 0 then 0 else 2 * And(a / 2, b / 2) + (if a % 2 == 1 && b % 2 == 1 then 1 else 0)
  }

  /** `!m` on `u64`. */
  function Not64(m: U64): U64
  {
    U64_MAX - m
  }

  /** Masking with `n` low one bits keeps a value below `2^n`. */
  lemma {:induction false} AndLowOnes(v: nat, n: nat)
    requires v < Pow2(n)
    ensures And(v, Pow2(n) - 1) == v
    decreases n
  {
    if v > 0 {
      assert n > 0;
      assert (Pow2(n) - 1) / 2 == Pow2(n - 1) - 1 && (Pow2(n) - 1) % 2 == 1;
      AndLowOnes(v / 2, n - 1);
    }
  }

  lemma MulStrict(d: nat, a: nat, b: nat)
    requires a < b
    ensures d * a + d <= d * b
  {
    MulMono(a + 1, b, d);
    assert d * (a + 1) == d * a + d;
  }

  lemma ModOfHalf(v: nat, p: nat)
    requires p >= 1
    ensures v % (2 * p) == 2 * ((v / 2) % p) + v % 2
  {
    var q := v / 2;
    assert q == p * (q / p) + q % p;
    assert v == (2 * p) * (q / p) + (2 * (q % p) + v % 2);
    DivUnique(v, 2 * p, q / p, 2 * (q % p) + v % 2);
  }

  /** Ones in bits `k .. n - 1`. */
  function HighMask(k: nat, n: nat): nat
    requires k <= n
  {
    Pow2Mono(k, n);
    Pow2(n) - Pow2(k)
  }

  /** One step of the mask: its lowest bit is clear and the rest is the mask one bit shorter. */
  lemma HighMaskHalf(k: nat, n: nat)
    requires 1 <= k <= n
    ensures HighMask(k, n) == 2 * HighMask(k - 1, n - 1)
  {
  }

  /** `v` with its low `k` bits cleared, by shifting them out and back in. */
  function ClearLow(v: nat, k: nat): nat
  {
    if k == 0 || v == 0 then v else 2 * ClearLow(v / 2, k - 1)
  }

  lemma AndEvenMask(v: nat, m: nat)
    requires v > 0 && m % 2 == 0
    ensures And(v, m) == 2 * And(v / 2, m / 2)
  {
  }

  /** Masking with ones in bits `k .. n - 1` clears the low `k` bits of a value below `2^n`. */
  lemma {:induction false} AndHighMask(v: nat, k: nat, n: nat)
    requires k <= n && v < Pow2(n)
    ensures And(v, HighMask(k, n)) == ClearLow(v, k)
    decreases n
  {
    if k == 0 {
      AndLowOnes(v, n);
    } else if v > 0 {
      HighMaskHalf(k, n);
      AndEvenMask(v, HighMask(k, n));
      AndHighMask(v / 2, k - 1, n - 1);
    }
  }

  /** Clearing the low `k` bits is rounding down to a multiple of `2^k`. */
  lemma {:induction false} ClearLowRoundsDown(v: nat, k: nat)
    ensures ClearLow(v, k) == v - v % Pow2(k)
    decreases k
  {
    if k == 0 {
      assert Pow2(0) == 1;
    } else if v == 0 {
      assert ClearLow(0, k) == 0;
    } else {
      var h, p := v / 2, Pow2(k - 1);
      ClearLowRoundsDown(h, k - 1);
      ModOfHalf(v, p);
      HalvingStep(v, h, v % 2, h % p, ClearLow(v, k), v % Pow2(k));
    }
  }

  /** One halving step of ClearLowRoundsDown, over plain integers. */
  lemma HalvingStep(v: int, h: int, b: int, r: int, c: int, m: int)
    requires v == 2 * h + b && c == 2 * (h - r) && m == 2 * r + b
    ensures c == v - m
  {
  }

  /** `addr & !(align - 1)` rounds a `u64` down to a multiple of the power of two `align`. */
  lemma MaskRoundsDown(v: nat, align: U64)
    requires PowerOfTwo(align) && v < U64_LIMIT
    ensures And(v, Not64(align - 1)) == v - v % align
  {
    var k := Log2(align);
    if k > 64 {
      Pow2Mono(64, k);
      Pow2Is64();
      assert false;
    }
    Pow2Is64();
    assert Not64(align - 1) == HighMask(k, 64);
    AndHighMask(v, k, 64);
    ClearLowRoundsDown(v, k);
  }

  /** `v - v % align` is a multiple of `align`. */
  lemma RoundedIsMultiple(v: nat, align: nat)
    requires align >= 1
    ensures (v - v % align) % align == 0
  {
    assert v - v % align == align * (v / align) + 0;
    DivUnique(v - v % align, align, v / align, 0);
  }

  /** Two different multiples of `align` are at least `align` apart. */
  lemma MultiplesApart(m: nat, r: nat, align: nat)
    requires align >= 1 && m % align == 0 && r % align == 0 && m < r
    ensures m + align <= r
  {
    var i, j := m / align, r / align;
    assert m == align * i && r == align * j;
    if j <= i {
      MulMono(j, i, align);
      assert false;
    }
    MulMono(i + 1, j, align);
    assert align * (i + 1) == align * i + align;
  }

  // ---- is_aligned, align_up, align_down ----------------------------------

  /** `is_aligned`: `addr % align == 0`. */
  predicate IsAligned(addr: U64, align: U64)
    requires PowerOfTwo(align)
  {
    addr % align == 0
  }

  /** `align_down`: `addr & !(align - 1)`, the multiple of `align` at or just below `addr`. */
  function AlignDown(addr: U64, align: U64): (r: U64)
    requires PowerOfTwo(align)
    ensures r % align == 0 && r <= addr < r + align
  {
    MaskRoundsDown(addr, align);
    RoundedIsMultiple(addr, align);
    And(addr, Not64(align - 1))
  }

  /**
   * `align_up`: `(addr + align - 1) & !(align - 1)`, the multiple of
   * `align` at or just above `addr`.  The sum overflows for addresses in
   * the last `align - 1` bytes of the address space (a panic in a debug
   * build), hence the precondition.
   */
  function AlignUp(addr: U64, align: U64): (r: U64)
    requires PowerOfTwo(align) && addr + align - 1 < U64_LIMIT
    ensures r % align == 0 && addr <= r < addr + align
  {
    var w := addr + align - 1;
    MaskRoundsDown(w, align);
    RoundedIsMultiple(w, align);
    And(w, Not64(align - 1))
  }

  /** No multiple of `align` lies between `align_down(addr)` and `addr`: it is the largest one not above `addr`. */
  lemma AlignDownIsGreatest(addr: U64, align: U64, m: nat)
    requires PowerOfTwo(align) && m % align == 0 && m <= addr
    ensures m <= AlignDown(addr, align)
  {
    var r := AlignDown(addr, align);
    if r < m {
      MultiplesApart(r, m, align);
    }
  }

  /** `align_up(addr)` is the smallest multiple of `align` not below `addr`. */
  lemma AlignUpIsLeast(addr: U64, align: U64, m: nat)
    requires PowerOfTwo(align) && addr + align - 1 < U64_LIMIT && m % align == 0 && addr <= m
    ensures AlignUp(addr, align) <= m
  {
    var r := AlignUp(addr, align);
    if m < r {
      MultiplesApart(m, r, align);
    }
  }

  /** Both roundings are the identity exactly on aligned addresses. */
  lemma AlignedIffFixed(addr: U64, align: U64)
    requires PowerOfTwo(align)
    ensures IsAligned(addr, align) <==> AlignDown(addr, align) == addr
    ensures addr + align - 1 < U64_LIMIT ==> (IsAligned(addr, align) <==> AlignUp(addr, align) == addr)
  {
    if IsAligned(addr, align) {
      AlignDownIsGreatest(addr, align, addr);
      if addr + align - 1 < U64_LIMIT {
        AlignUpIsLeast(addr, align, addr);
      }
    }
  }

  lemma DoublePowerOfTwo(a: nat)
    requires PowerOfTwo(a)
    ensures PowerOfTwo(2 * a)
  {
  }

  /** 1, 2, 4, ..., 4096 are powers of two. */
  lemma SmallPowersOfTwo()
    ensures PowerOfTwo(1) && PowerOfTwo(2) && PowerOfTwo(4) && PowerOfTwo(8) && PowerOfTwo(16) && PowerOfTwo(32) && PowerOfTwo(64)
    ensures PowerOfTwo(128) && PowerOfTwo(256) && PowerOfTwo(512) && PowerOfTwo(1024) && PowerOfTwo(2048) && PowerOfTwo(4096)
  {
    DoublePowerOfTwo(1);
    DoublePowerOfTwo(2);
    DoublePowerOfTwo(4);
    DoublePowerOfTwo(8);
    DoublePowerOfTwo(16);
    DoublePowerOfTwo(32);
    DoublePowerOfTwo(64);
    DoublePowerOfTwo(128);
    DoublePowerOfTwo(256);
    DoublePowerOfTwo(512);
    DoublePowerOfTwo(1024);
    DoublePowerOfTwo(2048);
  }

  /** The unit test of `is_aligned`. */
  lemma IsAlignedExamples()
    ensures PowerOfTwo(0x1000)
    ensures IsAligned(0x1000, 0x1000) && IsAligned(0x2000, 0x1000) && !IsAligned(0x1001, 0x1000) && IsAligned(0, 0x1000)
  {
    SmallPowersOfTwo();
  }

  // ---- references from addresses -------------------------------------------

  datatype AddressError = Null | Unaligned | OutOfRange | ConversionFailed

  /** The errors of `phys_to_virt`, which is not part of this model; the last stands for any further variant. */
  datatype PagingError = InvalidAddress | AddressConversionFailed | OtherPagingError(code: nat)

  /** `From<PagingError>`: an invalid address is a null one, every other failure a failed conversion. */
  function FromPagingError(e: PagingError): (r: AddressError)
    ensures r == Null <==> e.InvalidAddress?
    ensures r == ConversionFailed <==> !e.InvalidAddress?
  {
    match e
    case InvalidAddress => Null
    case AddressConversionFailed => ConversionFailed
    case OtherPagingError(_) => ConversionFailed
  }

  /**
   * `phys_to_ref` / `phys_to_mut`, returning the virtual address of the
   * reference.  `toVirt` stands for `phys_to_virt`; address 0 is refused
   * before it is consulted.
   */
  function PhysToRef(phys: U64, toVirt: U64 -> Result<U64, PagingError>): (r: Result<U64, AddressError>)
    ensures phys == 0 ==> r == Err(Null)
    ensures phys != 0 && toVirt(phys).Ok? ==> r == Ok(toVirt(phys).value)
    ensures phys != 0 && toVirt(phys).Err? ==> r.Err? && (r.error == Null <==> toVirt(phys).error.InvalidAddress?)
    ensures phys != 0 && toVirt(phys).Err? && toVirt(phys).error.InvalidAddress? ==> r == Err(Null)
    ensures phys != 0 && toVirt(phys).Err? && !toVirt(phys).error.InvalidAddress? ==> r == Err(ConversionFailed)
  {
    if phys == 0 then Err(Null)
    else
      match toVirt(phys)
      case Ok(virt) => Ok(virt)
      case Err(e) => Err(FromPagingError(e))
  }

  /**
   * `virt_to_ref` / `virt_to_mut` for a type of alignment `align`: null
   * first, then alignment; the address itself is the reference.
   */
  function VirtToRef(virt: U64, align: U64): (r: Result<U64, AddressError>)
    requires PowerOfTwo(align)
    ensures r == Err(Null) <==> virt == 0
    ensures r == Err(Unaligned) <==> virt != 0 && AlignDown(virt, align) != virt
    ensures r.Ok? <==> virt != 0 && AlignDown(virt, align) == virt
    ensures r.Ok? ==> r.value == virt
  {
    AlignedIffFixed(virt, align);
    if virt == 0 then Err(Null)
    else if !IsAligned(virt, align) then Err(Unaligned)
    else Ok(virt)
  }
}
