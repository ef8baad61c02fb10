/** Division and multiplication, in the order of the integers. */
module Arithmetic {
  lemma Quotient(a: int, d: int)
    requires d > 0
    ensures a / d * d <= a < a / d * d + d && a == a / d * d + a % d
  {
  }

  lemma QuotientAtLeast(a: int, d: int, q: int)
    requires d > 0
    ensures a / d >= q <==> a >= q * d
  {
    var m := a / d;
    assert m * d <= a < (m + 1) * d;
    if m >= q {
      Multiplied(q, m, d);
    } else {
      Multiplied(m + 1, q, d);
    }
  }

  lemma Multiplied(a: int, b: int, c: int)
    requires a <= b && c >= 0
    ensures a * c <= b * c
  {
  }

  lemma Divided(a: int, d: int, q: int, r: int)
    requires d > 0 && a == q * d + r && 0 <= r < d
    ensures a / d == q && a % d == r
  {
    assert (q + 1) * d == q * d + d;
    QuotientAtLeast(a, d, q);
    QuotientAtLeast(a, d, q + 1);
    assert a == a / d * d + a % d;
  }
}
