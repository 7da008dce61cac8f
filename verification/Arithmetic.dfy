/** Fixed-width integers as the program uses them, rounding division, and finite sums. */
module Arithmetic {

  const Q64: int := 0x1_0000_0000_0000_0000
  const Q127: int := 0x8000_0000_0000_0000_0000_0000_0000_0000
  const Q128: int := 0x1_0000_0000_0000_0000_0000_0000_0000_0000
  const Q256: int := 0x1_0000_0000_0000_0000_0000_0000_0000_0000_0000_0000_0000_0000_0000_0000_0000_0000

  type u64 = x: int | 0 <= x < Q64
  type u128 = x: int | 0 <= x < Q128
  type i128 = x: int | -Q127 <= x < Q127

  /** Reduction modulo 2^128, in [0, 2^128) for negative numbers too. */
  function Wrap(x: int): u128 { x % Q128 }

  /** `wrapping_add` and `wrapping_sub` on u128. */
  function WrapAdd(x: u128, y: int): u128 { Wrap(x + y) }

  function WrapSub(x: u128, y: u128): u128 { Wrap(x - y) }

  /** Reduction modulo 2^64. */
  function Wrap64(x: int): u64 { x % Q64 }

  /** `wrapping_add` on u64. */
  function WrapAdd64(x: u64, y: u64): u64 { Wrap64(x + y) }

  lemma WrapSmall(x: u128)
    ensures Wrap(x) == x
  {
  }

  lemma Wrap64Small(x: nat)
    ensures x < Q64 ==> Wrap64(x) == x
  {
  }

  function Min(x: int, y: int): int { if x < y then x else y }

  function Max(x: int, y: int): int { if x < y then y else x }

  /** Quotient rounded toward zero, for a non-negative dividend. */
  function FloorDiv(n: nat, d: int): (q: nat)
    requires d > 0
    ensures q * d <= n < q * d + d
  {
    assert n == (n / d) * d + n % d;
    n / d
  }

  /** Quotient rounded up. */
  function CeilDiv(n: nat, d: int): (q: nat)
    requires d > 0
    ensures q * d - d < n <= q * d
  {
    var q := FloorDiv(n, d);
    if n % d > 0 then
      assert n == q * d + n % d;
      assert (q + 1) * d == q * d + d;
      q + 1
    else
      assert n == q * d + n % d;
      q
  }

  /** Division of a non-negative dividend, in the requested direction. */
  function DivRound(n: nat, d: int, roundUp: bool): nat
    requires d > 0
  {
    if roundUp then CeilDiv(n, d) else FloorDiv(n, d)
  }

  lemma DivRoundAtMost(n: nat, d: int, roundUp: bool)
    requires d > 0
    ensures DivRound(n, d, roundUp) <= n
  {
    MulMono(1, d, n);
    CeilLeast(n, d, n);
    var q := FloorDiv(n, d);
    MulMono(1, d, q);
  }

  lemma MulMono(x: int, y: int, z: int)
    requires x <= y && 0 <= z
    ensures x * z <= y * z
  {
  }

  lemma MulCancel(x: int, y: int, z: int)
    requires x * z < y * z && 0 < z
    ensures x < y
  {
    if y <= x { MulMono(y, x, z); }
  }

  /** The floor is the greatest multiplier that fits. */
  lemma FloorGreatest(n: nat, d: int, x: int)
    requires d > 0
    ensures x * d <= n <==> x <= FloorDiv(n, d)
  {
    var q := FloorDiv(n, d);
    if x <= q {
      MulMono(x, q, d);
    } else {
      MulMono(q + 1, x, d);
    }
  }

  /** The ceiling is the least multiplier that covers. */
  lemma CeilLeast(n: nat, d: int, x: int)
    requires d > 0
    ensures n <= x * d <==> CeilDiv(n, d) <= x
  {
    var q := CeilDiv(n, d);
    if q <= x {
      MulMono(q, x, d);
    } else {
      MulMono(x, q - 1, d);
    }
  }

  /** Reducing an operand first does not change a sum or difference modulo 2^128. */
  lemma ModAdd(x: int, y: int)
    ensures Wrap(Wrap(x) + y) == Wrap(x + y)
    ensures Wrap(y - Wrap(x)) == Wrap(y - x)
  {
    var q := x / Q128;
    assert x == q * Q128 + x % Q128;
    ModShift(x + y, q);
    ModShift(y - x, -q);
  }

  lemma ModShift(x: int, q: int)
    ensures (x - q * Q128) % Q128 == x % Q128
  {
  }

  /** Sum of `f` over `0 .. n`. */
  ghost function Sum(f: int -> int, n: nat): int {
    if n == 0 then 0 else Sum(f, n - 1) + f(n - 1)
  }

  lemma {:induction false} SumEqual(f: int -> int, g: int -> int, n: nat)
    requires forall i | 0 <= i < n :: f(i) == g(i)
    ensures Sum(f, n) == Sum(g, n)
  {
    if n > 0 { SumEqual(f, g, n - 1); }
  }

  lemma {:induction false} SumOneChanged(f: int -> int, g: int -> int, n: nat, j: int)
    requires 0 <= j < n
    requires forall i | 0 <= i < n && i != j :: f(i) == g(i)
    ensures Sum(g, n) == Sum(f, n) - f(j) + g(j)
  {
    if j == n - 1 {
      SumEqual(f, g, n - 1);
    } else {
      SumOneChanged(f, g, n - 1, j);
    }
  }

  lemma {:induction false} SumAffine(f: int -> int, g: int -> int, h: int -> int, c: int, n: nat)
    requires forall i | 0 <= i < n :: g(i) == f(i) + c * h(i)
    ensures Sum(g, n) == Sum(f, n) + c * Sum(h, n)
  {
    if n > 0 {
      SumAffine(f, g, h, c, n - 1);
      assert c * (Sum(h, n - 1) + h(n - 1)) == c * Sum(h, n - 1) + c * h(n - 1);
    }
  }

  lemma {:induction false} SumBoundsTerm(f: int -> int, n: nat)
    requires forall i | 0 <= i < n :: 0 <= f(i)
    ensures 0 <= Sum(f, n)
    ensures forall i | 0 <= i < n :: f(i) <= Sum(f, n)
  {
    if n > 0 { SumBoundsTerm(f, n - 1); }
  }

  lemma {:induction false} SumOrdered(f: int -> int, g: int -> int, n: nat)
    requires forall i | 0 <= i < n :: f(i) <= g(i)
    ensures Sum(f, n) <= Sum(g, n)
  {
    if n > 0 { SumOrdered(f, g, n - 1); }
  }

  /** Sum of real terms over `0 .. n`. */
  ghost function RealSum(f: int -> real, n: nat): real {
    if n == 0 then 0.0 else RealSum(f, n - 1) + f(n - 1)
  }

  lemma {:induction false} RealSumEqual(f: int -> real, g: int -> real, n: nat)
    requires forall i | 0 <= i < n :: f(i) == g(i)
    ensures RealSum(f, n) == RealSum(g, n)
  {
    if n > 0 { RealSumEqual(f, g, n - 1); }
  }

  lemma {:induction false} RealSumOneChanged(f: int -> real, g: int -> real, n: nat, j: int)
    requires 0 <= j < n
    requires forall i | 0 <= i < n && i != j :: f(i) == g(i)
    ensures RealSum(g, n) == RealSum(f, n) - f(j) + g(j)
  {
    if j == n - 1 {
      RealSumEqual(f, g, n - 1);
    } else {
      RealSumOneChanged(f, g, n - 1, j);
    }
  }

  /** Terms that move by `c` times an integer weight move the sum by `c` times the weights' sum. */
  lemma {:induction false} RealSumAffine(f: int -> real, g: int -> real, h: int -> int, c: real, n: nat)
    requires forall i | 0 <= i < n :: g(i) == f(i) + c * h(i) as real
    ensures RealSum(g, n) == RealSum(f, n) + c * Sum(h, n) as real
  {
    if n > 0 {
      RealSumAffine(f, g, h, c, n - 1);
      assert Sum(h, n) as real == Sum(h, n - 1) as real + h(n - 1) as real;
    }
  }

  lemma {:induction false} RealSumBoundsTerm(f: int -> real, n: nat)
    requires forall i | 0 <= i < n :: 0.0 <= f(i)
    ensures 0.0 <= RealSum(f, n)
    ensures forall i | 0 <= i < n :: f(i) <= RealSum(f, n)
  {
    if n > 0 { RealSumBoundsTerm(f, n - 1); }
  }
}
