/** Remainders of sums and of multiples. */
module Multiples {

  lemma SameRemainder(r: int, k: int, unit: int)
    requires 0 <= r < unit
    ensures (k * unit + r) % unit == r
  {
    var t := k * unit + r;
    OnlyZero(t / unit - k, r - t % unit, unit);
  }

  lemma OnlyZero(q: int, d: int, unit: int)
    requires -unit < d < unit && q * unit == d
    ensures q == 0 && d == 0
  {
  }

  lemma AddMultiple(r: int, k: int, unit: int)
    requires unit > 0
    ensures (r + k * unit) % unit == r % unit
  {
    SameRemainder(r % unit, r / unit + k, unit);
    assert r + k * unit == (r / unit + k) * unit + r % unit;
  }
}
