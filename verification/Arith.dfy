/** Division and remainder by products. */
module Arith {
  lemma MultipleMod(m: nat, c: nat)
    requires m > 0
    ensures (m * c) % m == 0
  {
    DivModUnique(m * c, m, c, 0);
  }

  lemma DivModUnique(n: nat, m: nat, q: nat, r: nat)
    requires m > 0 && r < m && n == m * q + r
    ensures n / m == q && n % m == r
  {
    var k := n / m;
    assert n == m * k + n % m;
    if k < q {
      MulMono(m, k + 1, q);
      Distribute(m, k, 1);
    } else if q < k {
      MulMono(m, q + 1, k);
      Distribute(m, q, 1);
    }
  }

  lemma Distribute(a: nat, c: nat, d: nat)
    ensures a * (c + d) == a * c + a * d
  {
  }

  lemma Associate(a: nat, b: nat, c: nat)
    ensures (a * b) * c == a * (b * c)
  {
  }

  lemma MulMono(a: nat, d: nat, b: nat)
    requires d <= b
    ensures a * d <= a * b
  {
  }

  lemma Spread(a: nat, q: nat, x: nat, d: nat)
    requires q == x + d
    ensures a * q == a * x + a * d
  {
    Distribute(a, x, d);
  }

  /** The digits r < a and d < b of n in the mixed base a, b. */
  lemma TwoDigits(n: nat, a: nat, b: nat, m: nat, q: nat, c: nat, d: nat, r: nat)
    requires r < a && d < b && n == a * q + r && q == b * c + d && m == a * b
    ensures n == m * c + (a * d + r) && a * d + r < m
  {
    Spread(a, q, b * c, d);
    Associate(a, b, c);
    MulMono(a, d + 1, b);
    Distribute(a, d, 1);
  }

  lemma DigitsOf(n: nat, a: nat, b: nat, m: nat, q: nat, c: nat, d: nat, r: nat)
    requires r < a && d < b && n == a * q + r && q == b * c + d && m == a * b
    ensures m > 0 && n / m == c && n % m / a == d && n % m % a == r
  {
    TwoDigits(n, a, b, m, q, c, d, r);
    var low := a * d + r;
    DivModUnique(n, m, c, low);
    DivModUnique(low, a, d, r);
  }

  /** Dividing by m = a * b is dividing by a and then by b; the remainder by m
      keeps the lower digit and the b-digit of the rest. */
  lemma DivDiv(n: nat, a: nat, b: nat, m: nat)
    requires a > 0 && b > 0 && m == a * b
    ensures m > 0 && n / m == n / a / b && n % m / a == n / a % b && n % m % a == n % a
  {
    var q, r := n / a, n % a;
    var c, d := q / b, q % b;
    DigitsOf(n, a, b, m, q, c, d, r);
  }

  lemma DivMono(x: nat, y: nat, n: nat)
    requires x <= y && n > 0
    ensures x / n <= y / n
  {
    if y / n < x / n {
      MulMono(n, y / n + 1, x / n);
    }
  }
}
