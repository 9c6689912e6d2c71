/** Facts about division that several modules use. */
module Numbers {

  lemma TimesAtLeast(d: int, n: nat)
    ensures d >= 1 ==> d * n >= n
    ensures d <= -1 ==> d * n + n <= 0
  {
    if d >= 1 {
      assert (d - 1) * n >= 0;
    } else if d <= -1 {
      assert (-d - 1) * n >= 0;
    }
  }

  lemma ModUnique(x: nat, n: nat, q: nat, r: nat)
    requires x == q * n + r && r < n
    ensures x % n == r
  {
    var d := x / n;
    assert (d - q) * n == d * n - q * n;
    TimesAtLeast(d - q, n);
  }

  lemma QuotientUnique(x: nat, n: nat, q: nat, r: nat)
    requires x == q * n + r && r < n
    ensures x / n == q
  {
    var d := x / n;
    assert x == d * n + x % n;
    assert (d - q) * n == d * n - q * n;
    TimesAtLeast(d - q, n);
  }

  lemma HalfThenQuotient(x: nat, n: nat)
    requires n > 0
    ensures x / 2 / n == x / (2 * n)
  {
    var q, r := x / 2 / n, x / 2 % n;
    assert x / 2 == q * n + r;
    TwiceProduct(q, n);
    QuotientUnique(x, 2 * n, q, 2 * r + x % 2);
  }

  lemma TwiceProduct(x: nat, p: nat)
    ensures x * (2 * p) == 2 * (x * p)
  {
  }
}
