/** Fixed-width integers of the modelled program and their saturating operations. */
module Machine {

  const U64_MAX := 0xFFFF_FFFF_FFFF_FFFF
  const I64_MAX := 0x7FFF_FFFF_FFFF_FFFF
  const I64_MIN := -0x8000_0000_0000_0000

  type u64 = x: int | 0 <= x <= 0xFFFF_FFFF_FFFF_FFFF
  type u32 = x: int | 0 <= x <= 0xFFFF_FFFF
  type i64 = x: int | -0x8000_0000_0000_0000 <= x <= 0x7FFF_FFFF_FFFF_FFFF

  function Min(a: int, b: int): int {
    if a <= b then a else b
  }

  function Max(a: int, b: int): int {
    if a >= b then a else b
  }

  /** `u64::saturating_add`, `saturating_sub` and `saturating_mul`. */
  function SatAdd(a: u64, b: u64): u64 {
    Min(a + b, U64_MAX)
  }

  function SatSub(a: u64, b: u64): u64 {
    Max(a - b, 0)
  }

  function SatMul(a: u64, b: u64): (r: u64)
  {
    assert 0 <= a * b;
    Min(a * b, U64_MAX)
  }

  /** `i64::saturating_add` and `i64::saturating_sub`. */
  function SatAddI(a: i64, b: i64): i64 {
    Min(Max(a + b, I64_MIN), I64_MAX)
  }

  function SatSubI(a: i64, b: i64): i64 {
    Min(Max(a - b, I64_MIN), I64_MAX)
  }

  datatype Option<+T> = None | Some(value: T)
}

/** The few facts about products and floor division that the proofs lean on. */
module Arithmetic {

  lemma FloorBounds(x: int, d: int)
    requires d > 0
    ensures x / d * d <= x < x / d * d + d
  {
    assert x == x / d * d + x % d;
  }

  lemma MulMono(a: int, b: int, k: int)
    requires a <= b && 0 <= k
    ensures a * k <= b * k
  {
  }

  lemma OneMore(n: int, k: int)
    ensures n * k == (n - 1) * k + k
    ensures 1 <= n && 0 <= k ==> 0 <= (n - 1) * k
  {
    if 1 <= n && 0 <= k {
      MulMono(0, n - 1, k);
    }
  }

  /** The accrual of two adjoining spans of time. */
  lemma SpanSplits(r: int, t0: int, t1: int, t2: int)
    ensures (t1 - t0) * r + (t2 - t1) * r == (t2 - t0) * r
  {
  }

  lemma FloorAtLeast(q: int, x: int, d: int)
    requires d > 0 && q * d <= x
    ensures q <= x / d
  {
    FloorBounds(x, d);
    if x / d + 1 <= q {
      MulMono(x / d + 1, q, d);
      assert false;
    }
  }

  lemma FloorBelow(q: int, x: int, d: int)
    requires d > 0 && x < q * d
    ensures x / d < q
  {
    FloorBounds(x, d);
    if q <= x / d {
      MulMono(q, x / d, d);
      assert false;
    }
  }

  lemma FloorExactly(q: int, x: int, d: int)
    requires d > 0 && q * d <= x < q * d + d
    ensures x / d == q
  {
    FloorAtLeast(q, x, d);
    assert q * d + d == (q + 1) * d;
    FloorBelow(q + 1, x, d);
  }

  lemma FloorMono(x: int, y: int, d: int)
    requires d > 0 && x <= y
    ensures x / d <= y / d
  {
    FloorBounds(x, d);
    FloorAtLeast(x / d, y, d);
  }

  /** Adding a whole multiple of the divisor moves the quotient by that many. */
  lemma FloorShift(k: int, x: int, d: int)
    requires d > 0
    ensures (k * d + x) / d == k + x / d
  {
    FloorBounds(x, d);
    assert (k + x / d) * d == k * d + x / d * d;
    FloorExactly(k + x / d, k * d + x, d);
  }
}
