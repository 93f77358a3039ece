/** Quotients and remainders. */
module Division {

  lemma TimesMore(a: int, q: int, p: int)
    requires a > 0
    ensures q < p ==> a * q + a <= a * p
  {
    if q < p {
      var d := p - q - 1;
      assert a * d >= 0;
      assert a * (q + 1 + d) == a * q + a + a * d;
    }
  }

  lemma DivUnique(n: int, d: int, q: int, r: int)
    requires d > 0 && n == d * q + r && 0 <= r < d
    ensures n / d == q && n % d == r
  {
    var q', r' := n / d, n % d;
    assert n == d * q' + r';
    TimesMore(d, q, q');
    TimesMore(d, q', q);
  }

  lemma ModSplit(n: int, a: int, p: int)
    requires a > 0 && p > 0
    ensures a * p > 0 && n % (a * p) == a * ((n / a) % p) + n % a
  {
    var m := n / a;
    var q, r := m / p, m % p;
    assert n == a * m + n % a && m == p * q + r;
    assert a * m == a * (p * q) + a * r;
    assert a * (p * q) == (a * p) * q;
    TimesMore(a, r, p);
    DivUnique(n, a * p, q, a * r + n % a);
  }
}
