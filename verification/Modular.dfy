/** Quotients and remainders of natural numbers. */
module Modular {
  lemma NextIndex(k: nat, n: nat)
    requires n > 0
    ensures (k % n + 1) % n == (k + 1) % n
  {
    NextIndexAt(k / n, k % n, n);
    assert (k / n) * n + k % n == k;
  }

  lemma NextIndexAt(q: nat, r: nat, n: nat)
    requires r < n
    ensures (r + 1) % n == (q * n + r + 1) % n
  {
    if r + 1 == n {
      NextMultiple(q, n);
      MultipleMod(q + 1, n, 0);
      assert (q + 1) * n + 0 == q * n + r + 1;
      MultipleMod(1, n, 0);
      assert 1 * n + 0 == r + 1;
    } else {
      MultipleMod(q, n, r + 1);
      assert q * n + (r + 1) == q * n + r + 1;
    }
  }

  lemma MultipleMod(q: nat, n: nat, r: nat)
    requires r < n
    ensures (q * n + r) % n == r
  {
    var x := q * n + r;
    var d := q - x / n;
    assert n * (x / n) + x % n == x;
    assert n * d == x % n - r by {
      assert n * d == n * q - n * (x / n);
    }
    TimesAtLeast(n, d);
  }

  lemma TimesAtLeast(n: nat, d: int)
    ensures d >= 1 ==> n * d >= n
    ensures d <= -1 ==> n * d <= 0 - n
  {
  }

  lemma SameMultiple(p: nat, q: nat, d: nat)
    requires d > 0 && p * d == q * d
    ensures p == q
  {
    TimesAtLeast(d, p - q);
    assert d * (p - q) == p * d - q * d;
  }

  lemma NextQuotient(h: nat, d: nat)
    requires d > 0
    ensures (h + 1) / d == h / d + (if (h + 1) % d == 0 then 1 else 0)
  {
    NextQuotientAt(h / d, h % d, d);
    assert (h / d) * d + h % d + 1 == h + 1;
  }

  lemma NextQuotientAt(q: nat, r: nat, d: nat)
    requires r < d
    ensures (q * d + r + 1) / d == q + (if (q * d + r + 1) % d == 0 then 1 else 0)
  {
    if r + 1 == d {
      NextMultiple(q, d);
      MultipleMod(q + 1, d, 0);
      Quotient(q + 1, d, 0);
      assert (q + 1) * d + 0 == q * d + r + 1;
    } else {
      MultipleMod(q, d, r + 1);
      Quotient(q, d, r + 1);
      assert q * d + (r + 1) == q * d + r + 1;
    }
  }

  lemma NextMultiple(q: nat, d: nat)
    ensures (q + 1) * d == q * d + d
  {
  }

  lemma Quotient(q: nat, d: nat, r: nat)
    requires r < d
    ensures (q * d + r) / d == q
  {
    MultipleMod(q, d, r);
    var x := q * d + r;
    var e := x / d - q;
    assert d * e == 0 by {
      assert d * (x / d) + x % d == x;
      assert d * e == d * (x / d) - d * q;
    }
    TimesAtLeast(d, e);
  }

  lemma {:induction false} QuotientMonotone(a: nat, b: nat, d: nat)
    requires a <= b && d > 0
    ensures a / d <= b / d
    decreases b - a
  {
    if a < b {
      NextQuotient(a, d);
      QuotientMonotone(a + 1, b, d);
    }
  }
}
