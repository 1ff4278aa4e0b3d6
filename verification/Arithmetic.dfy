/**
 Integer arithmetic shared by the other modules.
 */
module Arithmetic {

  function Max(a: int, b: int): int { if a >= b then a else b }
  function Min(a: int, b: int): int { if a <= b then a else b }

  /** The distance between two times. */
  function Apart(a: int, b: int): int {
    if a < b then b - a else a - b
  }

  /** n units, one after the other. */
  function Times(n: nat, unit: nat): nat {
    if n == 0 then 0 else Times(n - 1, unit) + unit
  }

  lemma {:induction false} TimesIsProduct(n: nat, unit: nat)
    ensures Times(n, unit) == n * unit
  {
    if n > 0 {
      TimesIsProduct(n - 1, unit);
      assert n * unit == (n - 1) * unit + unit;
    }
  }

  lemma ProductMonotone(a: nat, b: nat, unit: nat)
    requires a <= b
    ensures a * unit <= b * unit
  {
  }

  lemma QuotientAtLeast(x: nat, n: nat, unit: nat)
    requires unit > 0 && x >= Times(n, unit)
    ensures x / unit >= n
  {
    TimesIsProduct(n, unit);
    var q: nat := x / unit;
    assert x < (q + 1) * unit;
  }

  lemma QuotientBetween(x: nat, m: nat, size: nat)
    requires size > 0 && m * size <= x < m * size + size
    ensures x / size == m
  {
    var q := x / size;
    assert q * size <= x < q * size + size;
    if q < m {
      ProductMonotone(q + 1, m, size);
    } else if q > m {
      ProductMonotone(m + 1, q, size);
    }
  }
}
