/** Products and quotients the solver does not find by itself. */
module Arithmetic {
  lemma DivTwice(n: nat, p: nat)
    requires p > 0
    ensures n / (2 * p) == n / 2 / p && n % (2 * p) == 2 * (n / 2 % p) + n % 2
  {
    var q, r := n / 2 / p, n / 2 % p;
    assert n / 2 == q * p + r && n == 2 * (n / 2) + n % 2;
    assert n == q * (2 * p) + (2 * r + n % 2) && 2 * r + n % 2 < 2 * p;
    QuotientIs(n, 2 * p, q, 2 * r + n % 2);
  }

  /** Cutting below `2 * p` keeps the parity, and cuts the half below `p`. */
  lemma CutHalves(n: nat, p: nat)
    requires p > 0
    ensures n % (2 * p) % 2 == n % 2 && n % (2 * p) / 2 == n / 2 % p
  {
    DivTwice(n, p);
    var cut, half: nat := n % (2 * p), n / 2 % p;
    assert cut == 2 * half + n % 2;
  }

  lemma QuotientIs(n: nat, d: nat, q: nat, r: nat)
    requires d > 0 && n == q * d + r && r < d
    ensures n / d == q && n % d == r
  {
    var other := n / d;
    assert other * d <= n < other * d + d;
    assert (other + 1) * d == other * d + d && (q + 1) * d == q * d + d;
    if other < q { MulGrows(q, other + 1, d); }
    if q < other { MulGrows(other, q + 1, d); }
  }

  lemma {:induction false} MulGrows(a: nat, b: nat, c: nat)
    requires a >= b
    ensures a * c >= b * c
  {
    if c > 0 {
      MulGrows(a, b, c - 1);
      assert a * c == a * (c - 1) + a && b * c == b * (c - 1) + b;
    }
  }
}
