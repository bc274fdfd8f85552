/** Division facts the solver needs pointed out. */
module Arith {
  lemma ZeroMultiple(k: int, d: int)
    requires -d < k * d < d
    ensures k == 0
  {
  }

  lemma DivModUnique(n: int, d: int, q: int, r: int)
    requires 0 <= r < d && n == q * d + r
    ensures n / d == q && n % d == r
  {
    assert (n / d - q) * d == r - n % d;
    ZeroMultiple(n / d - q, d);
  }

  /** A sum of floors never exceeds the floor of the sum. */
  lemma FloorsAddUp(a: int, b: int, d: int)
    requires d > 0
    ensures a / d + b / d <= (a + b) / d
  {
    var r := a % d + b % d;
    if r < d {
      DivModUnique(a + b, d, a / d + b / d, r);
    } else {
      DivModUnique(a + b, d, a / d + b / d + 1, r - d);
    }
  }

  lemma FloorMonotone(a: int, b: int, d: int)
    requires d > 0 && a <= b
    ensures a / d <= b / d
  {
    FloorsAddUp(a, b - a, d);
  }
}
