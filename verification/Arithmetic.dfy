/** Quotients and remainders, the arithmetic behind shifts and masks. */
module Arithmetic {

  lemma Multiple(m: int, z: int)
    requires m > 0 && z > 0
    ensures m <= m * z
  {
    assert m * (z - 1) >= 0;
  }

  lemma Divided(x: int, m: int)
    requires m > 0
    ensures x == m * (x / m) + x % m && 0 <= x % m < m
  {
  }

  /** A number written with a quotient and a remainder determines both. */
  lemma Quotient(q: int, r: int, m: int)
    requires 0 <= r < m
    ensures (m * q + r) / m == q && (m * q + r) % m == r
  {
    var x := m * q + r;
    Divided(x, m);
    var k := x / m;
    assert m * (q - k) == m * q - m * k;
    assert m * (k - q) == m * k - m * q;
    if q > k {
      Multiple(m, q - k);
    } else if k > q {
      Multiple(m, k - q);
    }
  }
}
