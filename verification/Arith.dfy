/** Facts about quotients and remainders by a variable modulus. */
module Arith {
  lemma MulAtLeast(m: int, d: int)
    requires d > 0 && -m < m
    ensures m * d >= m
  {
    assert m * d == m + m * (d - 1);
  }

  lemma SmallMultiple(d: int, m: int)
    requires -m < m * d < m
    ensures d == 0
  {
    if d > 0 { MulAtLeast(m, d); }
    if d < 0 { MulAtLeast(m, -d); }
  }

  /** Quotient and remainder are unique. */
  lemma Remainder(v: int, q: int, m: int, r: int)
    requires m > 0 && v == q * m + r && 0 <= r < m
    ensures v % m == r && v / m == q
  {
    var d := v / m - q;
    assert v == (v / m) * m + v % m;
    assert m * d == (v / m) * m - q * m;
    SmallMultiple(d, m);
  }
}
