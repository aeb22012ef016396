/** The few facts about products, quotients and remainders the other modules need. */
module Arithmetic {

  lemma MulMonotone(a: int, b: int, m: int)
    requires a <= b && 0 <= m
    ensures a * m <= b * m
  {
  }

  /** Quotient and remainder are determined by the equation that defines them. */
  lemma DivModUnique(x: int, q: int, r: int, m: int)
    requires 0 <= r < m && x == q * m + r
    ensures x / m == q && x % m == r
  {
    var q', r' := x / m, x % m;
    assert x == q' * m + r';
    assert (q - q') * m == r' - r by {
      assert (q - q') * m == q * m - q' * m;
    }
    if q > q' {
      MulMonotone(1, q - q', m);
    } else if q < q' {
      MulMonotone(q - q', -1, m);
    }
  }

  lemma ModAddMultiple(x: int, k: int, m: int)
    requires 0 < m
    ensures (x + k * m) % m == x % m
    ensures (x + k * m) / m == x / m + k
  {
    assert x == (x / m) * m + x % m;
    assert (x / m + k) * m == (x / m) * m + k * m;
    DivModUnique(x + k * m, x / m + k, x % m, m);
  }

  lemma MultipleMod(k: int, m: int)
    requires 0 < m
    ensures (k * m) % m == 0
  {
    DivModUnique(k * m, k, 0, m);
  }

  lemma ModAddLeft(x: int, c: int, m: int)
    requires 0 < m
    ensures (x % m + c) % m == (x + c) % m
  {
    assert x == (x / m) * m + x % m;
    ModAddMultiple(x % m + c, x / m, m);
  }

  lemma SameResidue(x: int, y: int, m: int)
    requires 0 < m && x % m == y % m
    ensures (y - x) % m == 0
  {
    var a, b := x / m, y / m;
    assert x == a * m + x % m && y == b * m + y % m;
    assert (b - a) * m == b * m - a * m;
    MultipleMod(b - a, m);
  }

  /** A remainder that needs at most one subtraction. */
  lemma ModWrap(x: int, m: int)
    requires 0 < m && 0 <= x < 2 * m
    ensures x % m == if x < m then x else x - m
  {
    if x < m {
      DivModUnique(x, 0, x, m);
    } else {
      DivModUnique(x, 1, x - m, m);
    }
  }
}
