/**
 * The fixed-width C integer types the watch face computes with, and the
 * conversions and division C applies to them. Dafny's `int` is unbounded and
 * its `/` is Euclidean, so each of these is written out.
 */
module CInts {

  type uint16 = x: int | 0 <= x < 0x1_0000
  type int16 = x: int | -0x8000 <= x < 0x8000
  type uint32 = x: int | 0 <= x < 0x1_0000_0000
  type int32 = x: int | -0x8000_0000 <= x < 0x8000_0000

  /** The value an unsigned 32-bit result holds: `x` modulo 2^32. */
  function Wrap32(x: int): (r: uint32)
    ensures (r - x) % 0x1_0000_0000 == 0
    ensures 0 <= x < 0x1_0000_0000 ==> r == x
  {
    x % 0x1_0000_0000
  }

  /** Two's-complement reading of the low 32 bits of `x` (a conversion to `int32_t`). */
  function ToInt32(x: int): (r: int32)
    ensures (r - x) % 0x1_0000_0000 == 0
    ensures -0x8000_0000 <= x < 0x8000_0000 ==> r == x
  {
    var w := x % 0x1_0000_0000;
    if w < 0x8000_0000 then w else w - 0x1_0000_0000
  }

  /** Two's-complement reading of the low 16 bits of `x` (a cast to `int16_t`). */
  function ToInt16(x: int): (r: int16)
    ensures (r - x) % 0x1_0000 == 0
    ensures -0x8000 <= x < 0x8000 ==> r == x
  {
    var w := x % 0x1_0000;
    if w < 0x8000 then w else w - 0x1_0000
  }

  /** C's integer division, which truncates toward zero. */
  function TruncDiv(x: int, y: int): (q: int)
    requires y > 0
  {
    if x >= 0 then x / y else -((-x) / y)
  }

  /** Truncating division is odd-symmetric, which Euclidean division is not. */
  lemma TruncDivNegate(x: int, y: int)
    requires y > 0
    ensures TruncDiv(-x, y) == -TruncDiv(x, y)
  {
  }

  /** A quotient is no larger in magnitude than the dividend's bound over the divisor. */
  lemma TruncDivBound(x: int, y: int, n: int)
    requires y > 0 && n >= 0
    requires -y * n <= x <= y * n
    ensures -n <= TruncDiv(x, y) <= n
  {
    if x >= 0 {
      QuotientBound(x, y, n);
    } else {
      QuotientBound(-x, y, n);
    }
  }

  lemma QuotientBound(a: int, y: int, n: int)
    requires y > 0 && n >= 0
    requires 0 <= a <= y * n
    ensures 0 <= a / y <= n
  {
    var q := a / y;
    assert y * q <= a;
    if q > n {
      MulMonotone(y, n + 1, q);
    }
  }

  lemma DivMonotone(a: int, b: int, y: int)
    requires 0 <= a <= b && y > 0
    ensures a / y <= b / y
  {
    var qa, qb := a / y, b / y;
    assert y * qa <= a && b < y * qb + y;
    if qa > qb {
      MulMonotone(y, qb + 1, qa);
    }
  }

  lemma NegateProduct(a: int, b: int)
    ensures (-a) * b == -(a * b)
  {
  }

  lemma MulMonotone(y: int, m: int, n: int)
    requires y >= 0 && m <= n
    ensures y * m <= y * n
  {
    assert y * n - y * m == y * (n - m);
  }
}
