/** Uniqueness of quotient and remainder. */
module Arithmetic {

  lemma MultipleAtLeast(d: int, k: int)
    requires d > 0 && k != 0
    ensures d * k >= d || d * k <= -d
  {
    if k >= 1 {
      PositiveMultiple(d, k);
    } else {
      PositiveMultiple(d, -k);
      assert d * k == -(d * -k);
    }
  }

  lemma {:induction false} PositiveMultiple(d: int, k: int)
    requires d > 0 && k >= 1
    ensures d * k >= d
    decreases k
  {
    if k == 1 {
    } else {
      PositiveMultiple(d, k - 1);
      assert d * k == d * (k - 1) + d;
    }
  }

  /** A quotient and a remainder below the divisor are unique. */
  lemma DivModUnique(n: int, d: int, q: int, r: int)
    requires d > 0 && 0 <= r < d && n == d * q + r
    ensures n / d == q && n % d == r
  {
    var q', r' := n / d, n % d;
    assert n == d * q' + r';
    assert d * (q - q') == r' - r;
    if q != q' { MultipleAtLeast(d, q - q'); }
  }
}
