/** The facts about quotient and remainder that the seed requests turn on. */
module Modular {
  lemma {:induction false} NonzeroMultiple(d: int, m: int)
    requires m > 0 && d != 0
    ensures d * m >= m || d * m <= -m
  {
    if d >= 1 {
      assert d * m >= 1 * m;
    } else {
      assert (-d) * m >= 1 * m;
    }
  }

  lemma {:induction false} NoMultipleBetween(d: int, m: int)
    requires m > 0 && -m < d * m < m
    ensures d == 0
  {
    if d != 0 {
      NonzeroMultiple(d, m);
    }
  }

  /** Quotient and remainder are determined by what they add up to. */
  lemma {:induction false} Unique(x: int, q: int, r: int, m: int)
    requires m > 0 && x == q * m + r && 0 <= r < m
    ensures x / m == q && x % m == r
  {
    var p := x / m;
    assert x == p * m + x % m;
    assert (p - q) * m == p * m - q * m;
    NoMultipleBetween(p - q, m);
  }

  lemma {:induction false} Shift(x: int, k: int, m: int)
    requires m > 0
    ensures (x + k * m) % m == x % m
  {
    var q := x / m;
    assert x == q * m + x % m;
    assert (q + k) * m == q * m + k * m;
    Unique(x + k * m, q + k, x % m, m);
  }

  lemma {:induction false} Inside(x: nat, m: int)
    requires x < m
    ensures x % m == x
  {
    Unique(x, 0, x, m);
  }

  /** Taking the remainder early does no harm. */
  lemma {:induction false} Early(x: int, i: int, m: int)
    requires m > 0
    ensures (x % m + i) % m == (x + i) % m
  {
    var q := x / m;
    assert x + i == (x % m + i) + q * m;
    Shift(x % m + i, q, m);
  }

  /** Fewer than `m` consecutive numbers have distinct remainders. */
  lemma {:induction false} Distinct(x: int, y: int, m: int)
    requires m > 0 && x % m == y % m && -m < x - y < m
    ensures x == y
  {
    var p, q := x / m, y / m;
    assert x == p * m + x % m && y == q * m + y % m;
    assert (p - q) * m == p * m - q * m;
    NoMultipleBetween(p - q, m);
  }
}
