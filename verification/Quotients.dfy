/** Facts about quotients and remainders of natural numbers. */
module Quotients {
  lemma Remainder(n: nat, d: nat)
    requires d > 0
    ensures n == d * (n / d) + n % d && 0 <= n % d < d
  {
  }

  lemma Distribute(d: nat, a: nat, b: nat)
    ensures d * (a + b) == d * a + d * b
  {
  }

  lemma Associate(a: nat, b: nat, c: nat)
    ensures a * (b * c) == (a * b) * c
  {
  }

  lemma Positive(a: nat, b: nat)
    requires a > 0 && b > 0
    ensures a * b > 0
  {
  }

  lemma Larger(d: nat, a: nat, b: nat)
    requires a < b
    ensures d * a + d <= d * b
  {
    Distribute(d, a + 1, b - a - 1);
    Distribute(d, a, 1);
  }

  /** Quotient and remainder are unique. */
  lemma Quotient(n: nat, d: nat, q: nat, r: nat)
    requires d > 0 && n == d * q + r && r < d
    ensures n / d == q && n % d == r
  {
    var q', r' := n / d, n % d;
    Remainder(n, d);
    if q < q' {
      Larger(d, q, q');
    } else if q' < q {
      Larger(d, q', q);
    }
  }

  /** Dividing twice is dividing by the product. */
  lemma DivTwice(n: nat, a: nat, b: nat)
    requires a > 0 && b > 0
    ensures a * b > 0 && n / a / b == n / (a * b)
  {
    var q, r := n / a, n % a;
    var p, s := q / b, q % b;
    Remainder(n, a);
    Remainder(q, b);
    Distribute(a, b * p, s);
    Associate(a, b, p);
    Larger(a, s, b);
    Positive(a, b);
    Quotient(n, a * b, p, a * s + r);
  }
}
