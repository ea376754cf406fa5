/**
 * C++ numeric conventions the kernels rely on: 32-bit unsigned integers,
 * float-to-int conversion (truncation toward zero), and the integer facts the
 * proofs about them use.
 */
module Numbers {

  /** The C++ `unsigned int`. */
  type u32 = x: int | 0 <= x < 0x1_0000_0000

  const TWO_TO_THE_32: int := 0x1_0000_0000

  /** `int(x)` for a floating-point `x`: truncation toward zero. */
  function Trunc(x: real): (r: int)
    ensures 0.0 <= x ==> 0 <= r && r as real <= x < r as real + 1.0
    ensures x < 0.0 ==> r <= 0 && r as real - 1.0 < x <= r as real
  {
    if x >= 0.0 then x.Floor else -((-x).Floor)
  }

  lemma MulMono(x: int, y: int, m: int)
    requires m >= 0
    ensures x <= y ==> x * m <= y * m
  {
    assert y * m - x * m == (y - x) * m;
  }

  /** Division by a positive `m` recovers the quotient and remainder of q * m + r. */
  lemma DivModOf(q: int, m: int, r: int)
    requires m > 0 && 0 <= r < m
    ensures (q * m + r) / m == q && (q * m + r) % m == r
  {
    var n := q * m + r;
    var q', r' := n / m, n % m;
    assert (q' - q) * m == r - r';
    MulMono(1, q' - q, m);
    MulMono(1, q - q', m);
  }

  /** Adding whole periods does not change a remainder. */
  lemma ModPeriod(x: int, q: int, m: int)
    requires m > 0
    ensures (x + q * m) % m == x % m
  {
    DivModOf(x / m + q, m, x % m);
    assert x + q * m == (x / m + q) * m + x % m;
  }
}
