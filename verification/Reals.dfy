/** Facts about products and quotients of reals. Products are passed under a name of their own,
    which keeps each fact linear for its users. */
module Reals {
  function Abs(x: real): real { if x < 0.0 then -x else x }

  function Square(x: real): real { x * x }

  lemma ProductPositive(a: real, b: real)
    requires a > 0.0 && b > 0.0
    ensures a * b > 0.0
  {
  }

  lemma ProductNonNegative(a: real, b: real)
    requires a >= 0.0 && b >= 0.0
    ensures a * b >= 0.0
  {
  }

  lemma SquareNonNegative(d: real)
    ensures d * d >= 0.0
  {
  }

  lemma TimesStrict(a: real, b: real, c: real)
    requires a < b && c > 0.0
    ensures a * c < b * c
  {
    ProductPositive(b - a, c);
  }

  lemma TimesWeak(a: real, b: real, c: real)
    requires a <= b && c >= 0.0
    ensures a * c <= b * c
  {
    ProductNonNegative(b - a, c);
  }

  lemma SquareAtLeastOne(k: real)
    requires k >= 1.0
    ensures k * k >= 1.0
  {
    TimesWeak(1.0, k, k);
  }

  lemma SquareExceeds(d: real, t: real)
    requires Abs(d) > t >= 0.0
    ensures d * d > t * t
  {
    if d > t {
      ProductPositive(d - t, d + t);
      assert (d - t) * (d + t) == d * d - t * t;
    } else {
      ProductPositive(-d - t, -d + t);
      assert (-d - t) * (-d + t) == d * d - t * t;
    }
  }

  /** `n` times `x`, as a sum of `n` terms. */
  function Times(n: nat, x: real): real {
    if n == 0 then 0.0 else Times(n - 1, x) + x
  }

  lemma {:induction false} TimesIsProduct(n: nat, x: real)
    ensures Times(n, x) == n as real * x
  {
    if n > 0 {
      TimesIsProduct(n - 1, x);
      var y := (n - 1) as real;
      assert n as real == y + 1.0;
      assert (y + 1.0) * x == y * x + x;
    }
  }

  lemma {:induction false} TimesAtLeast(n: nat, x: real)
    requires x >= 0.0
    ensures Times(n, x) >= 0.0
    ensures n > 0 ==> Times(n, x) >= x
    ensures x >= 1.0 ==> Times(n, x) >= n as real
  {
    if n > 0 {
      TimesAtLeast(n - 1, x);
    }
  }

  /** A common factor sigma^2 cancels. */
  lemma CancelSquare(n: real, r: real, k: real, sigma: real, t: real, q: real, p: real)
    requires t == k * sigma && q == sigma * sigma && p == t * t
    requires n * q > r * p
    ensures r * (k * k) < n
  {
    assert q >= 0.0;
    ProductSquare(k, sigma, t);
    CancelFactor(n, r, p, k * k, q);
  }

  lemma ProductSquare(k: real, sigma: real, t: real)
    requires t == k * sigma
    ensures t * t == (k * k) * (sigma * sigma)
  {
  }

  lemma CancelFactor(n: real, r: real, p: real, kk: real, q: real)
    requires n * q > r * p && p == kk * q && q >= 0.0
    ensures r * kk < n
  {
    var y := r * kk - n;
    assert y * q == r * (kk * q) - n * q;
    if y >= 0.0 {
      ProductNonNegative(y, q);
    }
  }

  lemma DivideBounds(sum: real, total: real, lo: real, hi: real)
    requires total > 0.0 && lo * total <= sum <= hi * total
    ensures lo <= sum / total <= hi
  {
    var q := sum / total;
    assert q * total == sum;
    if q < lo {
      TimesStrict(q, lo, total);
    }
    if q > hi {
      TimesStrict(hi, q, total);
    }
  }

  lemma QuotientExceeds(d: real, m: real, bound: real)
    requires m > 0.0
    ensures d / m > bound <==> d > bound * m
  {
    var q := d / m;
    assert q * m == d;
    if q > bound {
      TimesStrict(bound, q, m);
    } else {
      TimesWeak(q, bound, m);
    }
  }

  lemma TimesQuotient(x: real, n: real)
    requires n > 0.0
    ensures n * (x / n) == x
  {
  }

  lemma QuotientTimes(x: real, n: real)
    requires n != 0.0
    ensures x / n * n == x
  {
  }

  lemma RootsEqual(a: real, b: real, n: real, x: real)
    requires a >= 0.0 && b >= 0.0 && n > 0.0 && a * a * n == x && b * b * n == x
    ensures a == b
  {
    if a < b {
      SquareGrows(a, b);
      TimesStrict(a * a, b * b, n);
    } else if b < a {
      SquareGrows(b, a);
      TimesStrict(b * b, a * a, n);
    }
  }

  lemma SquareGrows(a: real, b: real)
    requires 0.0 <= a < b
    ensures a * a < b * b
  {
    ProductPositive(b - a, b + a);
    assert (b - a) * (b + a) == b * b - a * a;
  }

  lemma OneOfItself(n: real)
    requires n != 0.0
    ensures n / n == 1.0
  {
  }

  lemma QuotientOfProduct(v: real, w: real)
    requires w != 0.0
    ensures v * w / w == v
  {
  }

  /** One more weighted term keeps a weighted sum between its bounds. */
  lemma WeightedStep(total: real, sum: real, v: real, w: real, lo: real, hi: real)
    requires w > 0.0 && lo <= v <= hi
    requires lo * total <= sum <= hi * total
    ensures lo * (total + w) <= sum + v * w <= hi * (total + w)
  {
    TimesWeak(lo, v, w);
    TimesWeak(v, hi, w);
    assert lo * (total + w) == lo * total + lo * w;
    assert hi * (total + w) == hi * total + hi * w;
  }
}
