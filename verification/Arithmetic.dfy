/** The few facts about products and integer division that the other modules need. */
module Arithmetic {

  lemma Product(x: nat, y: nat, d: nat)
    requires x <= y
    ensures x * d <= y * d
  {
  }

  /** Quotient and remainder are the only numbers of their kind. */
  lemma DivIsUnique(n: nat, d: nat, q: nat, r: nat)
    requires n == q * d + r && r < d
    ensures n / d == q && n % d == r
  {
    var q', r' := n / d, n % d;
    assert n == q' * d + r';
    assert (q + 1) * d == q * d + d && (q' + 1) * d == q' * d + d;
    if q' > q {
      Product(q + 1, q', d);
    } else if q' < q {
      Product(q' + 1, q, d);
    }
  }

  lemma DivMonotone(x: nat, y: nat, d: nat)
    requires x <= y && d > 0
    ensures x / d <= y / d
  {
    var q, q' := x / d, y / d;
    assert x == q * d + x % d && y == q' * d + y % d;
    assert (q' + 1) * d == q' * d + d;
    if q > q' {
      Product(q' + 1, q, d);
    }
  }

  lemma DivStep(n: nat, d: nat)
    requires 0 < d <= n
    ensures n / d == (n - d) / d + 1 && n % d == (n - d) % d
  {
    var q, r := (n - d) / d, (n - d) % d;
    assert n - d == q * d + r;
    assert (q + 1) * d == q * d + d;
    DivIsUnique(n, d, q + 1, r);
  }

  lemma DivTwice(n: nat, c: nat, d: nat)
    requires c > 0 && d > 0
    ensures c * d > 0 && n / c / d == n / (c * d)
  {
    var m, r := n / c, n % c;
    var q, t := m / d, m % d;
    assert n == m * c + r && m == q * d + t;
    Product(t + 1, d, c);
    assert n == q * (c * d) + (t * c + r) by {
      assert m * c == q * d * c + t * c;
      assert q * d * c == q * (c * d);
    }
    assert (t + 1) * c == t * c + c;
    DivIsUnique(n, c * d, q, t * c + r);
  }
}
