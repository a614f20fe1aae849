// Shared vocabulary for the whole model: optional values, results,
// fixed-width integer limits and the saturating/clamping helpers the
// Rust sources use.

module Base {

  const U8_LIMIT: nat := 0x100
  const U16_LIMIT: nat := 0x1_0000
  const U32_LIMIT: nat := 0x1_0000_0000
  const U64_LIMIT: nat := 0x1_0000_0000_0000_0000
  const U32_MAX: nat := U32_LIMIT - 1
  const U64_MAX: nat := U64_LIMIT - 1

  /** The values of Rust's `u8`: one byte of memory or of a file. */
  type Byte = b: int | 0 <= b < 256

  /** The values of Rust's `u16`. */
  type U16 = n: nat | n < 0x1_0000

  /** The values of Rust's `u32`. */
  type U32 = n: nat | n < 0x1_0000_0000

  /** The values of Rust's `u64`. */
  type U64 = n: nat | n < 0x1_0000_0000_0000_0000

  datatype Option<T> = None | Some(value: T)

  datatype Result<T, E> = Ok(value: T) | Err(error: E)

  function Min(a: int, b: int): int { if a <= b then a else b }

  function Max(a: int, b: int): int { if a >= b then a else b }

  /** Rust's `u64::saturating_add`. */
  function SaturatingAdd(a: nat, b: nat): nat
  {
    if a + b < U64_LIMIT then a + b else U64_MAX
  }

  /** Rust's `u64::wrapping_sub`. */
  function WrappingSub(a: nat, b: nat): nat
    requires a < U64_LIMIT && b < U64_LIMIT
  {
    if a >= b then a - b else a + U64_LIMIT - b
  }

  /** Rust's `u64::wrapping_add` (and the atomics' `fetch_add`). */
  function WrappingAdd(a: nat, b: nat): nat
    requires a < U64_LIMIT && b < U64_LIMIT
  {
    if a + b < U64_LIMIT then a + b else a + b - U64_LIMIT
  }

  /** Rust's `u64::checked_add` on `usize`. */
  function CheckedAdd(a: nat, b: nat): Option<nat>
  {
    if a + b < U64_LIMIT then Some(a + b) else None
  }

  /** Rust's `u64::checked_mul` on `usize`. */
  function CheckedMul(a: nat, b: nat): Option<nat>
  {
    if a * b < U64_LIMIT then Some(a * b) else None
  }

  /** Multiplying by a natural keeps the order. */
  lemma MulMono(a: nat, b: nat, m: nat)
    requires a <= b
    ensures a * m <= b * m
  {
    assert b * m == a * m + (b - a) * m;
  }

  /** Division is determined by any quotient/remainder pair. */
  lemma DivUnique(n: nat, m: nat, q: nat, r: nat)
    requires 0 < m && r < m && n == q * m + r
    ensures n / m == q && n % m == r
  {
    var q0 := n / m;
    if q0 < q {
      MulMono(q0 + 1, q, m);
    } else if q < q0 {
      MulMono(q + 1, q0, m);
    }
  }

  /** A quotient by a positive divisor is at most the dividend. */
  lemma DivBelow(x: nat, d: nat)
    requires d > 0
    ensures x / d <= x
  {
    MulMono(1, d, x / d);
  }

  /** Concatenation regroups; called where a loop appends to a sequence it tracks in pieces. */
  lemma AppendAssoc<T>(a: seq<T>, b: seq<T>, c: seq<T>)
    ensures a + (b + c) == (a + b) + c
  {
  }
}
