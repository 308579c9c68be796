/** Facts about quotients and remainders. */
module Arithmetic {
  lemma MulMono(a: nat, b: nat, d: nat)
    requires a <= b
    ensures a * d <= b * d
  {
    assert (b - a) * d >= 0;
    assert b * d == (b - a) * d + a * d;
  }

  lemma Quotients(q: nat, d: nat, r: nat, p: nat, s: nat)
    requires r < d && s < d && q * d + r == p * d + s
    ensures r == s && q == p
  {
    assert (q + 1) * d == q * d + d && (p + 1) * d == p * d + d;
    if q < p {
      MulMono(q + 1, p, d);
    } else if p < q {
      MulMono(p + 1, q, d);
    }
  }

  lemma DivUnique(q: nat, d: nat, r: nat)
    requires r < d
    ensures (q * d + r) / d == q
  {
    var n := q * d + r;
    assert n == n / d * d + n % d;
    Quotients(q, d, r, n / d, n % d);
  }

  lemma ModUnique(q: nat, d: nat, r: nat)
    requires r < d
    ensures (q * d + r) % d == r
  {
    var n := q * d + r;
    assert n == n / d * d + n % d;
    Quotients(q, d, r, n / d, n % d);
  }
}
