/** The few facts about products and quotients that turn-taking and polling rest on. */
module Arithmetic {

  lemma Multiples(d: int, n: int)
    requires n > 0
    ensures d >= 1 ==> d * n >= n
    ensures d <= -1 ==> d * n <= -n
  {
    if d >= 1 {
      assert (d - 1) * n >= 0;
    } else if d <= -1 {
      assert (-d - 1) * n >= 0;
    }
  }

  lemma QuotientIsUnique(a: int, n: int, q: int, r: int)
    requires n > 0 && a == q * n + r && 0 <= r < n
    ensures q == a / n && r == a % n
  {
    var d := a / n - q;
    assert d * n == r - a % n by {
      assert (a / n) * n + a % n == a;
      assert d * n == (a / n) * n - q * n;
    }
    Multiples(d, n);
  }

  lemma WithinQuotient(n: nat, d: real, x: real)
    requires d > 0.0 && n as real * d <= x
    ensures n <= (x / d).Floor
  {
    assert n as real <= x / d;
  }
}
