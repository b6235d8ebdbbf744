/** Integer and bit arithmetic of Java's `long`, as the sampling histogram uses it. */
module Bits {

  /** 2^n. */
  function Pow2(n: nat): (r: nat)
    ensures r >= 1
  {
    if n == 0 then 1 else 2 * Pow2(n - 1)
  }

  const LongLimit: int := 0x8000_0000_0000_0000  // 2^63

  /** The values of a Java `long`. */
  type Long = x: int | -LongLimit <= x < LongLimit

  /** Number of significant bits of a nonnegative number: 64 - Long.numberOfLeadingZeros(n). */
  function BitLength(n: nat): nat
  {
    if n == 0 then 0 else 1 + BitLength(n / 2)
  }

  /** The low 64 bits of x read as a signed `long`, which is what `<<` on a `long` leaves. */
  function WrapLong(x: int): (r: Long)
    ensures (r - x) % (2 * LongLimit) == 0
    ensures -LongLimit <= x < LongLimit ==> r == x
  {
    (x + LongLimit) % (2 * LongLimit) - LongLimit
  }

  lemma {:induction false} Pow2Add(a: nat, b: nat)
    ensures Pow2(a + b) == Pow2(a) * Pow2(b)
  {
    if a > 0 {
      Pow2Add(a - 1, b);
    }
  }

  lemma {:induction false} Pow2Monotone(a: nat, b: nat)
    requires a <= b
    ensures Pow2(a) <= Pow2(b)
  {
    if a < b {
      Pow2Monotone(a, b - 1);
    }
  }

  lemma Pow2Small()
    ensures Pow2(9) == 512 && Pow2(10) == 1024
  {
    assert Pow2(2) == 4;
    assert Pow2(4) == 16;
    assert Pow2(8) == 256;
  }

  lemma Pow2Large()
    ensures Pow2(53) == 0x20_0000_0000_0000
    ensures Pow2(54) == 0x40_0000_0000_0000
    ensures Pow2(63) == LongLimit
  {
    Pow2Small();
    Pow2Add(10, 10);
    Pow2Add(20, 20);
    Pow2Add(40, 10);
    Pow2Add(50, 3);
    Pow2Add(53, 10);
  }

  /** The bit length brackets the number: 2^(L-1) <= n < 2^L. */
  lemma {:induction false} BitLengthBounds(n: nat)
    ensures n < Pow2(BitLength(n))
    ensures n > 0 ==> Pow2(BitLength(n) - 1) <= n
  {
    if n > 0 {
      BitLengthBounds(n / 2);
    }
  }

  /** A nonnegative `long` has at most 63 significant bits. */
  lemma LongBitLength(n: nat)
    requires n < LongLimit
    ensures BitLength(n) <= 63
  {
    BitLengthBounds(n);
    Pow2Large();
    if BitLength(n) > 63 {
      Pow2Monotone(63, BitLength(n) - 1);
    }
  }

  /** Division by a positive divisor against a multiple of it. */
  lemma DivBounds(n: int, d: int, k: int)
    requires d > 0
    ensures n < k * d ==> n / d < k
    ensures k * d <= n ==> k <= n / d
  {
    var q, m := n / d, n % d;
    assert n == q * d + m && 0 <= m < d;
    if n < k * d && q >= k {
      MulMonotone(k, q, d);
    }
    if k * d <= n && q < k {
      MulMonotone(q + 1, k, d);
    }
  }

  /** The quotient times the divisor is the dividend less the remainder. */
  lemma QuotientTimesDivisor(n: nat, d: nat)
    requires d >= 1
    ensures 0 <= (n / d) * d <= n
    ensures n - (n / d) * d == n % d
  {
    var q, r := n / d, n % d;
    assert n == q * d + r;
    MulMonotone(0, q, d);
  }

  lemma MulMonotone(a: int, b: int, d: int)
    requires a <= b && d >= 0
    ensures a * d <= b * d
  {
  }
}
