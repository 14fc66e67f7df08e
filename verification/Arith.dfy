// Uniqueness of quotient and remainder.
module Arith {
  lemma DivMod(a: int, n: int, q: int, r: int)
    requires 0 <= r < n && a == n * q + r
    ensures a / n == q && a % n == r
  {
    var d := a / n - q;
    assert n * d == n * (a / n) - n * q == r - a % n;
    MultipleIsFar(n, d);
  }

  lemma MultipleIsFar(n: int, d: int)
    requires n > 0
    ensures d == 0 || n * d >= n || n * d <= -n
  {
    if d > 0 {
      assert n * (d - 1) >= 0;
    } else if d < 0 {
      assert n * (-d - 1) >= 0;
    }
  }
}
