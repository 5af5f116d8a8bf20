/** Quotients and remainders. */
module Division {
  lemma RemainderIs(x: nat, d: nat, q: nat, r: nat)
    requires d > 0 && r < d && x == d * q + r
    ensures x % d == r && x / d == q
  {
    var q', r' := x / d, x % d;
    assert x == d * q' + r';
    MulStep(d, q', q);
    MulStep(d, q, q');
  }

  lemma MulStep(d: nat, a: int, b: int)
    ensures a < b ==> d * a + d <= d * b
  {
    if a < b {
      assert d * b == d * a + d * (b - a);
      MulAtLeast(d, b - a);
    }
  }

  lemma MulAtLeast(d: nat, c: nat)
    requires c >= 1
    ensures d * c >= d
  {
    assert d * c == d * (c - 1) + d;
  }

  lemma SmallRemainder(n: nat, m: nat)
    requires m >= 1
    ensures n % m == n <==> n < m
  {}

  /** Taking a remainder digit by digit. */
  lemma SplitRemainder(n: nat, radix: nat, p: nat)
    requires radix >= 1 && p >= 1
    ensures radix * p >= 1 && n % (radix * p) == n / radix % p * radix + n % radix
  {
    Divides(n, radix);
    Divides(n / radix, p);
    SplitParts(n, radix, p, n / radix, n % radix, n / radix / p, n / radix % p);
  }

  lemma Divides(n: nat, m: nat)
    requires m >= 1
    ensures n == m * (n / m) + n % m && 0 <= n % m < m && n / m >= 0
  {}

  lemma SplitParts(n: nat, radix: nat, p: nat, q: nat, d: nat, h: nat, l: nat)
    requires n == radix * q + d && q == p * h + l && d < radix && l < p
    ensures radix * p >= 1 && n % (radix * p) == l * radix + d
  {
    Regroup(n, radix, p, q, d, h, l);
    MulStep(radix, l, p);
    MulAtLeast(radix, p);
    assert l * radix + d < radix * p;
    RemainderIs(n, radix * p, h, l * radix + d);
  }

  lemma Regroup(n: int, radix: int, p: int, q: int, d: int, h: int, l: int)
    requires n == radix * q + d && q == p * h + l
    ensures n == (radix * p) * h + (l * radix + d)
  {
    assert radix * q == radix * (p * h) + radix * l;
    assert radix * (p * h) == (radix * p) * h;
  }
}
