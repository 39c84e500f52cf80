/** Facts about Euclidean division by an arbitrary positive number. */
module Division {

  lemma {:induction false} Scale(a: nat, b: nat, n: nat)
    requires a < b
    ensures a * n + n <= b * n
  {
    if a + 1 < b { Scale(a, b - 1, n); }
  }

  lemma {:induction false} DivUnique(p: nat, n: nat, q: nat, r: nat)
    requires n >= 1 && r < n && p == q * n + r
    ensures p / n == q && p % n == r
  {
    var d := p / n;
    assert p == d * n + p % n;
    if d < q { Scale(d, q, n); }
    if q < d { Scale(q, d, n); }
  }

  /** `x / p` is the only quotient: `q * p <= x < (q + 1) * p`. */
  lemma {:induction false} Quotient(x: nat, p: nat, q: nat)
    requires p >= 1
    ensures q * p <= x < q * p + p <==> x / p == q
  {
    var d := x / p;
    assert x == d * p + x % p;
    if d < q { Scale(d, q, p); }
    if q < d { Scale(q, d, p); }
  }

  lemma {:induction false} QuotientLess(x: nat, p: nat, q: nat)
    requires p >= 1
    ensures x < q * p <==> x / p < q
  {
    var d := x / p;
    assert x == d * p + x % p;
    if d < q { Scale(d, q, p); }
    if q < d { Scale(q, d, p); }
  }

  lemma {:induction false} DivDiv(v: nat, a: nat, b: nat)
    requires a >= 1 && b >= 1
    ensures a * b >= 1 && v / a / b == v / (a * b)
  {
    var q := v / (a * b);
    Scale(0, a, b);
    Quotient(v, a * b, q);
    assert q * (a * b) == (q * b) * a;
    assert q * (a * b) + a * b == (q * b + b) * a;
    QuotientLess(v, a, q * b);
    QuotientLess(v, a, q * b + b);
    Quotient(v / a, b, q);
  }
}
