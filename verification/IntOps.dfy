/** Integer helpers: shifts, logarithms, clipping and the conversions between signed and unsigned
    32-bit integers. */
module IntOps {

  function Min(a: int, b: int): int { if a < b then a else b }

  function Max(a: int, b: int): int { if a < b then b else a }

  function Abs(a: int): nat { if a < 0 then -a else a }

  function Clip(v: int, lo: int, hi: int): int {
    if v < lo then lo else if v > hi then hi else v
  }

  /** Clipping gives the nearest value in the range. */
  lemma ClipIsNearest(v: int, lo: int, hi: int, w: int)
    requires lo <= w <= hi
    ensures lo <= Clip(v, lo, hi) <= hi && Abs(Clip(v, lo, hi) - v) <= Abs(w - v)
  {
  }

  function Pow2(n: nat): (p: nat)
    ensures p >= 1
  {
    if n == 0 then 1 else 2 * Pow2(n - 1)
  }

  /** A right shift: rounds towards minus infinity, also for negative operands. */
  function Shr(v: int, n: nat): int { v / Pow2(n) }

  lemma ShrFloors(v: int, n: nat)
    ensures Shr(v, n) * Pow2(n) <= v < (Shr(v, n) + 1) * Pow2(n)
  {
    var d := Pow2(n);
    assert v == v / d * d + v % d && (v / d + 1) * d == v / d * d + d;
  }

  function Log2(n: nat): nat {
    if n < 2 then 0 else 1 + Log2(n / 2)
  }

  lemma {:induction false} Log2Bounds(n: nat)
    requires n > 0
    ensures Pow2(Log2(n)) <= n < 2 * Pow2(Log2(n))
  {
    if n >= 2 {
      Log2Bounds(n / 2);
    }
  }

  lemma {:induction false} Pow2Monotonic(a: nat, b: nat)
    requires a <= b
    ensures Pow2(a) <= Pow2(b)
  {
    if a < b {
      Pow2Monotonic(a, b - 1);
    }
  }

  lemma {:induction false} Pow2Sum(a: nat, b: nat)
    ensures Pow2(a + b) == Pow2(a) * Pow2(b)
  {
    if a > 0 {
      Pow2Sum(a - 1, b);
    }
  }

  lemma Pow2Less(a: nat, b: nat)
    ensures a < b ==> 2 * Pow2(a) <= Pow2(b)
  {
    if a < b {
      Pow2Monotonic(a + 1, b);
    }
  }

  lemma Log2Unique(n: nat, k: nat)
    requires Pow2(k) <= n < 2 * Pow2(k)
    ensures Log2(n) == k
  {
    Log2Bounds(n);
    Pow2Less(Log2(n), k);
    Pow2Less(k, Log2(n));
  }

  lemma Multiples(a: int, b: int, d: nat)
    ensures a <= b ==> a * d <= b * d
  {
  }

  lemma QuotientAtLeast(n: nat, d: nat, q: nat)
    requires d > 0 && q * d <= n
    ensures q <= n / d
  {
    assert n < (n / d + 1) * d by { assert n == n / d * d + n % d; }
    Multiples(n / d + 1, q, d);
  }

  lemma QuotientIs(n: nat, d: nat, q: nat, r: nat)
    requires 0 < d && n == q * d + r && r < d
    ensures n / d == q && n % d == r
  {
    QuotientAtLeast(n, d, q);
    assert n == n / d * d + n % d;
    Multiples(q + 1, n / d, d);
    assert (q + 1) * d == q * d + d;
  }

  type byte = b: nat | b < 256
  newtype int32 = x: int | -0x8000_0000 <= x < 0x8000_0000
  newtype uint32 = x: int | 0 <= x < 0x1_0000_0000

  const TWO_TO_31: int := 0x8000_0000
  const TWO_TO_32: int := 0x1_0000_0000

  function AsUint(v: int): int { v % TWO_TO_32 }

  function AsInt(v: int): int { if v < TWO_TO_31 then v else v - TWO_TO_32 }

  /** The sides a block can have, in cells of 4x4 pixels. */
  predicate IsSize(n: nat) { n == 1 || n == 2 || n == 4 || n == 8 || n == 16 || n == 32 }
}
