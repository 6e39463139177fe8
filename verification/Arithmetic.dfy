// Products, quotients and remainders of natural numbers.

module Arithmetic {

  lemma CancelRight(a: nat, b: nat, c: nat)
    requires c > 0
    ensures a * c <= b * c ==> a <= b
    ensures a * c < b * c ==> a < b
    ensures a * c == b * c ==> a == b
  {
    if a > b { SmallerTimes(b, a, c); }
    if a < b { SmallerTimes(a, b, c); }
  }

  lemma SmallerTimes(a: nat, b: nat, c: nat)
    requires a < b && c > 0
    ensures a * c < b * c
  {
    Spread(a, b - a, c);
    Positive(b - a, c);
  }

  lemma Spread(a: nat, d: nat, c: nat)
    ensures (a + d) * c == a * c + d * c
  {
  }

  lemma Positive(d: nat, c: nat)
    requires d > 0 && c > 0
    ensures d * c > 0
  {
  }

  lemma Group(x: nat, y: nat, z: nat)
    ensures x * (y * z) == (x * y) * z
  {
  }

  lemma NotBetween(d: nat, q: nat, unit: nat, r: nat)
    requires d < q && r < unit
    ensures q * unit > d * unit + r
  {
    assert (d + 1) * unit == d * unit + unit;
    if d + 1 < q { SmallerTimes(d + 1, q, unit); }
  }

  /** Division with remainder is unique. */
  lemma QuotientIs(n: nat, d: nat, q: nat, r: nat)
    requires r < d && n == q * d + r
    ensures n / d == q && n % d == r
  {
    assert n == (n / d) * d + n % d;
    if n / d < q { NotBetween(n / d, q, d, n % d); }
    if n / d > q { NotBetween(q, n / d, d, r); }
  }

  /** Dividing twice is dividing by the product. */
  lemma DivideTwice(n: nat, a: nat, b: nat)
    requires a > 0 && b > 0
    ensures a * b > 0 && (n / a) / b == n / (a * b)
  {
    var q, r := n / a, n % a;
    var p, s := q / b, q % b;
    assert n == q * a + r;
    assert q == p * b + s;
    Positive(a, b);
    Rejoin(p, a, b, s);
    NotBetween(s, b, a, r);
    assert a * b == b * a;
    QuotientIs(n, a * b, p, s * a + r);
  }

  lemma Rejoin(p: nat, a: nat, b: nat, s: nat)
    ensures (p * b + s) * a == p * (a * b) + s * a
  {
    Spread(p * b, s, a);
    Group(p, b, a);
  }
}
