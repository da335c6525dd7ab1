/** The few facts about products that the solver needs spelled out. Nonlinear arithmetic is kept in these lemmas, so
    that the proofs of the printed price, of the shared-memory image and of the priority fields can use its laws one at
    a time: a product distributes over a sum, quotient and remainder determine each other, and dividing by one factor
    after the other is dividing by their product. */
module Arithmetic {

  lemma Distribute(m: int, a: int, b: int)
    ensures m * (a + b) == m * a + m * b
    ensures m * (a - b) == m * a - m * b
  {
  }

  lemma Associate(k: int, p: int, v: int)
    ensures k * (p * v) == (k * p) * v
  {
  }

  lemma ProductAtLeast(m: nat, d: nat)
    requires d >= 1
    ensures m * d >= m
  {
  }

  lemma DivMod(n: nat, u: nat)
    requires u >= 1
    ensures n == u * (n / u) + n % u && n % u < u
  {
  }

  /** Quotient and remainder are the only ones. */
  lemma QuotientOf(x: nat, a: nat, m: nat, q: nat)
    requires a < m && x == a + m * q
    ensures x / m == q && x % m == a
  {
    var d := x / m;
    DivMod(x, m);
    Distribute(m, q, d);
    if q > d {
      ProductAtLeast(m, q - d);
    } else if d > q {
      Distribute(m, d, q);
      ProductAtLeast(m, d - q);
    }
  }

  lemma DivideTwice(n: nat, a: nat, b: nat)
    requires a >= 1 && b >= 1 && a * b >= 1
    ensures n / a / b == n / (a * b)
  {
    var q, r := n / a, n % a;
    var p, s := q / b, q % b;
    DivMod(n, a);
    DivMod(q, b);
    Nested(n, a, b, q, r, p, s);
    ProductBelow(a, b, s, r);
    QuotientOf(n, a * s + r, a * b, p);
  }

  lemma Nested(n: nat, a: nat, b: nat, q: nat, r: nat, p: nat, s: nat)
    requires n == a * q + r && q == b * p + s
    ensures n == (a * s + r) + (a * b) * p
  {
    Distribute(a, b * p, s);
    Associate(a, b, p);
  }

  lemma ProductBelow(a: nat, b: nat, s: nat, r: nat)
    requires s < b && r < a
    ensures 0 <= a * s + r < a * b
  {
    Distribute(a, b, s);
    ProductAtLeast(a, b - s);
  }
}
