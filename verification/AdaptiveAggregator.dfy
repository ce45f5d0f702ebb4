/** Rejection of quotes more than k standard deviations from the median: pkg/server/aggregator/adaptive.go. */
module AdaptiveAggregator {
  import opened Wrappers
  import opened Sorting
  import opened Quotes
  import opened Medians
  import opened Averages
  import opened Reals

  datatype FinalMode = ModeMedian | ModeAverage

  /** The unweighted median of a sorted list. */
  function SimpleMedian(s: seq<Entry>): real {
    if |s| == 0 then 0.0
    else if |s| % 2 == 0 then (s[|s| / 2 - 1].value + s[|s| / 2].value) / 2.0
    else s[|s| / 2].value
  }

  function Squared(m: real): Entry -> real {
    (e: Entry) => (e.value - m) * (e.value - m)
  }

  /** The mean squared deviation from `m`. */
  function Variance(s: seq<Entry>, m: real): real {
    if |s| < 2 then 0.0 else Sum(s, Squared(m)) / |s| as real
  }

  /** Not rejected at threshold `t`. */
  function Near(m: real, t: real): Entry -> bool {
    (e: Entry) => !(Abs(e.value - m) > t)
  }

  function Far(m: real, t: real): Entry -> bool {
    (e: Entry) => Abs(e.value - m) > t
  }

  /** `sqrt` is an exact square root. */
  ghost predicate IsSqrt(sqrt: real -> real) {
    forall x :: x >= 0.0 ==> sqrt(x) >= 0.0 && Square(sqrt(x)) == x
  }

  function Middle(s: seq<Entry>): real {
    SimpleMedian(SortedOf(s))
  }

  /** `sigma` is the standard deviation of the prices from their median. */
  ghost predicate IsDeviation(s: seq<Entry>, sigma: real) {
    sigma >= 0.0 && Square(sigma) == Variance(s, Middle(s))
  }

  /** The deviation from `m` as computed; a single quote has none. */
  function StdDev(s: seq<Entry>, m: real, sqrt: real -> real): real {
    if |s| < 2 then 0.0 else sqrt(Variance(s, m))
  }

  function Threshold(k: real, sigma: real): real { k * sigma }

  /** The entries that the filter keeps, or all of them if it keeps none. */
  function Kept(s: seq<Entry>, m: real, t: real): seq<Entry> {
    var filtered := Filter(s, Near(m, t));
    if filtered == [] then s else filtered
  }

  function Combine(s: seq<Entry>, mode: FinalMode): real {
    if mode == ModeMedian then WeightedMedian(SortedOf(s))
    else if |s| == 1 then s[0].value
    else WeightedAverage(s)
  }

  /** The price of a group of quotes; `sigma` is the standard deviation of their prices from the median. */
  function AdaptivePrice(s: seq<Entry>, k: real, sigma: real, mode: FinalMode): real {
    if |s| == 1 then s[0].value else Combine(Kept(s, Middle(s), Threshold(k, sigma)), mode)
  }

  // ---------- what the price is ----------

  function Unweighted(s: seq<Entry>): (r: seq<Entry>)
    ensures |r| == |s| && forall i :: 0 <= i < |s| ==> r[i] == Entry(s[i].value, 1.0)
  {
    Map(s, (e: Entry) => Entry(e.value, 1.0))
  }

  /** `sigma` is the root of the mean squared deviation from `m`. */
  ghost predicate IsDeviationFrom(s: seq<Entry>, m: real, sigma: real) {
    sigma >= 0.0 && sigma * sigma * |s| as real == Sum(s, (e: Entry) => (e.value - m) * (e.value - m))
  }

  /** `price` is what the final mode makes of the entries that `keep` keeps, or of all if there are none. */
  ghost predicate IsPriceOfKept(s: seq<Entry>, keep: Entry -> bool, mode: FinalMode, price: real) {
    var used := if Filter(s, keep) == [] then s else Filter(s, keep);
    match mode
    case ModeMedian => IsMedian(used, price)
    case ModeAverage => Total(used) != 0.0 ==> IsAverage(used, price)
  }

  lemma StdDevExactly(s: seq<Entry>, m: real, sqrt: real -> real)
    requires |s| >= 2 && IsSqrt(sqrt)
    ensures IsDeviationFrom(s, m, StdDev(s, m, sqrt))
  {
    VarianceNonNegative(s, m);
    RootOfMean(Sum(s, Squared(m)), |s| as real, StdDev(s, m, sqrt));
    SumSame(s, Squared(m), (e: Entry) => (e.value - m) * (e.value - m));
  }

  lemma DeviationUnique(s: seq<Entry>, m: real, sigma: real, sigma': real)
    requires s != [] && IsDeviationFrom(s, m, sigma) && IsDeviationFrom(s, m, sigma')
    ensures sigma == sigma'
  {
    RootsEqual(sigma, sigma', |s| as real, sigma * sigma * |s| as real);
    SumSame(s, (e: Entry) => (e.value - m) * (e.value - m), (e: Entry) => (e.value - m) * (e.value - m));
  }

  lemma RootOfMean(sum: real, n: real, sigma: real)
    requires n != 0.0 && Square(sigma) == sum / n
    ensures sigma * sigma * n == sum
  {
    QuotientTimes(sum, n);
  }

  lemma {:induction false} UnitWeights(s: seq<Entry>)
    ensures Total(Unweighted(s)) == |s| as real
  {
    if s != [] {
      UnitWeights(s[..|s| - 1]);
      assert Unweighted(s)[..|s| - 1] == Unweighted(s[..|s| - 1]);
    }
  }

  /** The simple median is the median of the prices without their weights. */
  lemma MiddleExactly(s: seq<Entry>)
    requires s != []
    ensures IsMedian(Unweighted(s), Middle(s))
  {
    var sorted := SortedOf(s);
    SameLength(s, sorted);
    SimpleMedianExactly(sorted);
    MapPermutes(s, sorted, (e: Entry) => Entry(e.value, 1.0));
    IsMedianPermutes(Unweighted(sorted), Unweighted(s), Middle(s));
  }

  lemma SimpleMedianExactly(sorted: seq<Entry>)
    requires sorted != [] && Sorted(sorted, ByValue)
    ensures IsMedian(Unweighted(sorted), SimpleMedian(sorted))
  {
    var u, h := Unweighted(sorted), |sorted| / 2;
    forall i, j | 0 <= i < j < |u| ensures ByValue(u[i], u[j]) {
      assert ByValue(sorted[i], sorted[j]);
    }
    UnitWeights(sorted);
    if |sorted| % 2 == 0 {
      UnitPrefix(sorted, h - 1);
      UnitPrefix(sorted, h);
      HalfReached(u, h - 1);
      assert LowerMedian(u, u[h - 1].value) && UpperMedian(u, u[h].value);
    } else {
      UnitPrefix(sorted, h);
      UnitPrefix(sorted, h + 1);
      HalfReached(u, h);
      assert LowerMedian(u, u[h].value) && UpperMedian(u, u[h].value);
    }
  }

  lemma UnitPrefix(s: seq<Entry>, i: nat)
    requires i <= |s|
    ensures Sum(Unweighted(s)[..i], WeightOf) == i as real
  {
    UnitWeights(s[..i]);
    assert Unweighted(s)[..i] == Unweighted(s[..i]);
  }

  /** Which quotes make the price: those within t, that is k standard deviations, of the median, or all if
      there are none; and what is made of them. */
  lemma AdaptivePriceExactly(s: seq<Entry>, k: real, sigma: real, t: real, mode: FinalMode)
    requires |s| >= 2 && (mode == ModeMedian ==> Weighted(s)) && t == k * sigma
    ensures IsPriceOfKept(s, Within(Middle(s) - t, Middle(s) + t), mode, AdaptivePrice(s, k, sigma, mode))
  {
    KeptExactly(s, Middle(s), t, mode);
    PriceAt(s, k, sigma, t, mode);
  }

  lemma PriceAt(s: seq<Entry>, k: real, sigma: real, t: real, mode: FinalMode)
    requires |s| >= 2 && t == k * sigma
    ensures AdaptivePrice(s, k, sigma, mode) == Combine(Kept(s, Middle(s), t), mode)
  {
    assert Threshold(k, sigma) == t;
  }

  lemma KeptExactly(s: seq<Entry>, m: real, t: real, mode: FinalMode)
    requires s != [] && (mode == ModeMedian ==> Weighted(s))
    ensures IsPriceOfKept(s, Within(m - t, m + t), mode, Combine(Kept(s, m, t), mode))
  {
    forall e | e in s ensures Near(m, t)(e) == Within(m - t, m + t)(e) {
    }
    FilterSame(s, Near(m, t), Within(m - t, m + t));
    CombineExactly(Kept(s, m, t), mode);
  }

  lemma CombineExactly(used: seq<Entry>, mode: FinalMode)
    requires used != [] && (mode == ModeMedian ==> Weighted(used))
    ensures mode == ModeMedian ==> IsMedian(used, Combine(used, mode))
    ensures mode == ModeAverage && Total(used) != 0.0 ==> IsAverage(used, Combine(used, mode))
  {
    if mode == ModeMedian {
      WeightedPermutes(used, SortedOf(used));
      SameLength(used, SortedOf(used));
      WeightedMedianIsMedian(SortedOf(used));
      IsMedianPermutes(SortedOf(used), used, Combine(used, mode));
    } else if Total(used) != 0.0 {
      if |used| == 1 {
        AverageOfSingle(used);
      } else {
        AverageExactly(used);
      }
    }
  }

  lemma AverageOfSingle(s: seq<Entry>)
    requires |s| == 1
    ensures IsAverage(s, s[0].value)
  {
    SumOfSingle(s, WeightOf);
    SumOfSingle(s, ValueTimesWeight);
  }

  lemma SumOfSingle(s: seq<Entry>, f: Entry -> real)
    requires |s| == 1
    ensures Sum(s, f) == f(s[0])
  {
    assert s == [] + [s[0]] && s[..0] == [];
  }

  // ---------- the algorithm ----------

  class AdaptiveAggregator {
    const sensitivity: real
    const finalMode: FinalMode
    const sqrt: real -> real

    /** A sensitivity that is not positive becomes 1.5, an unknown mode becomes the average. */
    constructor (sensitivity: real, finalMode: Option<FinalMode>, sqrt: real -> real)
      ensures this.sensitivity > 0.0
      ensures this.sensitivity == if sensitivity <= 0.0 then 1.5 else sensitivity
      ensures this.finalMode == if finalMode.None? then ModeAverage else finalMode.value
      ensures this.sqrt == sqrt
    {
      this.sensitivity := if sensitivity <= 0.0 then 1.5 else sensitivity;
      this.finalMode := if finalMode.None? then ModeAverage else finalMode.value;
      this.sqrt := sqrt;
    }

    method ComputeSimpleMedian(sortedPrices: seq<Quote>) returns (m: real)
      ensures m == SimpleMedian(Entries(sortedPrices))
    {
      var n := |sortedPrices|;
      if n == 0 {
        return 0.0;
      }
      if n == 1 {
        return sortedPrices[0].price.value;
      }
      if n % 2 == 0 {
        var mid1 := sortedPrices[n / 2 - 1].price.value;
        var mid2 := sortedPrices[n / 2].price.value;
        return (mid1 + mid2) / 2.0;
      }
      return sortedPrices[n / 2].price.value;
    }

    method ComputeStdDev(prices: seq<Quote>, median: real) returns (sigma: real)
      ensures sigma == StdDev(Entries(prices), median, sqrt)
      ensures |prices| < 2 ==> sigma == 0.0
      ensures |prices| >= 2 && IsSqrt(sqrt) ==> IsDeviationFrom(Entries(prices), median, sigma)
    {
      ghost var s := Entries(prices);
      if |prices| >= 2 && IsSqrt(sqrt) {
        StdDevExactly(s, median, sqrt);
      }
      if |prices| < 2 {
        return 0.0;
      }
      var sumSquaredDev := 0.0;
      for i := 0 to |prices|
        invariant sumSquaredDev == Sum(s[..i], Squared(median))
      {
        SumOneMore(s, Squared(median), i);
        var deviation := prices[i].price.value - median;
        sumSquaredDev := sumSquaredDev + deviation * deviation;
      }
      assert s[..|s|] == s;
      var variance := sumSquaredDev / |prices| as real;
      return sqrt(variance);
    }

    method FilterByThreshold(prices: seq<Quote>, median: real, threshold: real) returns (filtered: seq<Quote>)
      ensures Entries(filtered) == Filter(Entries(prices), Near(median, threshold))
    {
      ghost var s := Entries(prices);
      filtered := [];
      for i := 0 to |prices|
        invariant Entries(filtered) == Filter(s[..i], Near(median, threshold))
      {
        assert s[..i + 1][..i] == s[..i];
        var deviation := Abs(prices[i].price.value - median);
        if deviation > threshold {
          continue;
        }
        filtered := filtered + [prices[i]];
      }
      assert s[..|s|] == s;
    }

    /** The median, from a sorted copy. */
    method MedianOf(prices: seq<Quote>) returns (m: real)
      ensures m == Middle(Entries(prices))
    {
      var sortedPrices := new Quote[|prices|](i requires 0 <= i < |prices| => prices[i]);
      assert sortedPrices[..] == prices;
      SortQuotes(sortedPrices);
      SimpleMedianPermutes(Entries(sortedPrices[..]), SortedOf(Entries(prices)));
      m := ComputeSimpleMedian(sortedPrices[..]);
    }

    /** In median mode the kept quotes are sorted where they are. */
    method FinalPrice(filtered: array<Quote>) returns (p: real)
      requires filtered.Length > 0 && (finalMode == ModeMedian ==> Weighted(Entries(filtered[..])))
      modifies filtered
      ensures multiset(filtered[..]) == multiset(old(filtered[..]))
      ensures p == Combine(Entries(old(filtered[..])), finalMode)
    {
      ghost var group := Entries(filtered[..]);
      if finalMode == ModeMedian {
        SortQuotes(filtered);
        WeightedPermutes(group, Entries(filtered[..]));
        MedianPermutes(Entries(filtered[..]), SortedOf(group));
        p := ComputeWeightedMedian(filtered[..]);
      } else {
        p := ComputeShortcutAverage(filtered[..]);
      }
    }

    /** The quotes within the threshold; an empty list when there are none. */
    method FilterOutliers(prices: seq<Quote>) returns (kept: seq<Quote>)
      requires |prices| >= 2
      ensures var s := Entries(prices);
              Entries(kept) == Filter(s, Near(Middle(s), Threshold(sensitivity, StdDev(s, Middle(s), sqrt))))
    {
      var median := MedianOf(prices);
      var stdDev := ComputeStdDev(prices, median);
      var threshold := Threshold(sensitivity, stdDev);
      kept := FilterByThreshold(prices, median, threshold);
    }

    /** When the filter keeps nothing, the caller's own list is used, and in median mode sorted. */
    method ComputeAdaptivePrice(prices: array<Quote>) returns (r: Option<real>)
      requires finalMode == ModeMedian ==> Weighted(Entries(prices[..]))
      modifies prices
      ensures multiset(prices[..]) == multiset(old(prices[..]))
      ensures prices.Length == 0 <==> r.None?
      ensures var s := Entries(old(prices[..]));
              r.Some? ==> r.value == AdaptivePrice(s, sensitivity, StdDev(s, Middle(s), sqrt), finalMode)
      ensures prices.Length == 1 ==> r == Some(old(prices[0]).price.value)
    {
      var quotes := prices[..];
      ghost var s := Entries(quotes);
      if prices.Length == 0 {
        return None;
      }
      if prices.Length == 1 {
        return Some(prices[0].price.value);
      }
      var kept := FilterOutliers(quotes);
      assert forall e :: e in Entries(kept) ==> e in s;
      var finalPrice := PriceOfKept(prices, kept);
      r := Some(finalPrice);
    }

    /** The final step, on a list of the kept quotes, or on the caller's list if none is kept. */
    method PriceOfKept(prices: array<Quote>, kept: seq<Quote>) returns (p: real)
      requires prices.Length > 0
      requires finalMode == ModeMedian ==> Weighted(Entries(prices[..])) && Weighted(Entries(kept))
      modifies prices
      ensures multiset(prices[..]) == multiset(old(prices[..]))
      ensures p == Combine(if kept == [] then Entries(old(prices[..])) else Entries(kept), finalMode)
    {
      var filtered := prices;
      if |kept| != 0 {
        filtered := new Quote[|kept|](i requires 0 <= i < |kept| => kept[i]);
        assert filtered[..] == kept;
      }
      p := FinalPrice(filtered);
    }

    /** The weighted average with its shortcut for a single quote. */
    method ComputeShortcutAverage(prices: seq<Quote>) returns (avg: real)
      requires |prices| > 0
      ensures avg == Combine(Entries(prices), ModeAverage)
    {
      if |prices| == 1 {
        return prices[0].price.value;
      }
      avg := ComputeWeightedAverage(prices);
    }
  }

  lemma {:induction false} SquaresNonNegative(s: seq<Entry>, m: real)
    ensures Sum(s, Squared(m)) >= 0.0
  {
    if s != [] {
      SquaresNonNegative(s[..|s| - 1], m);
      SquareNonNegative(s[|s| - 1].value - m);
    }
  }

  lemma VarianceNonNegative(s: seq<Entry>, m: real)
    ensures Variance(s, m) >= 0.0
  {
    SquaresNonNegative(s, m);
  }

  /** The computed deviation is the non-negative root of the mean squared deviation from the median. */
  lemma DeviationIsRoot(s: seq<Entry>, sqrt: real -> real)
    requires IsSqrt(sqrt)
    ensures IsDeviation(s, StdDev(s, Middle(s), sqrt))
  {
    VarianceNonNegative(s, Middle(s));
  }

  // ---------- order independence ----------

  const RealLeq: (real, real) -> bool := (x: real, y: real) => x <= y
  const ValueOf: Entry -> real := (e: Entry) => e.value

  /** The values of a sorted arrangement do not depend on the arrangement. */
  lemma SimpleMedianPermutes(s: seq<Entry>, t: seq<Entry>)
    requires multiset(s) == multiset(t) && Sorted(s, ByValue) && Sorted(t, ByValue)
    ensures SimpleMedian(s) == SimpleMedian(t)
  {
    SameLength(s, t);
    MapPermutes(s, t, ValueOf);
    var vs, vt := Map(s, ValueOf), Map(t, ValueOf);
    assert Sorted(vs, RealLeq) by {
      forall i, j | 0 <= i < j < |s| ensures RealLeq(vs[i], vs[j]) {
        assert ByValue(s[i], s[j]);
      }
    }
    assert Sorted(vt, RealLeq) by {
      forall i, j | 0 <= i < j < |t| ensures RealLeq(vt[i], vt[j]) {
        assert ByValue(t[i], t[j]);
      }
    }
    SortedUnique(vs, vt, RealLeq);
    assert forall i :: 0 <= i < |s| ==> s[i].value == vs[i] && t[i].value == vt[i];
  }

  /** The price depends only on which (price, weight) pairs there are; so does the deviation. */
  lemma AdaptiveOrderIndependent(s: seq<Entry>, t: seq<Entry>, k: real, sigma: real, mode: FinalMode)
    requires (mode == ModeMedian ==> Weighted(s)) && multiset(s) == multiset(t)
    ensures Middle(s) == Middle(t) && Variance(s, Middle(s)) == Variance(t, Middle(t))
    ensures AdaptivePrice(s, k, sigma, mode) == AdaptivePrice(t, k, sigma, mode)
  {
    SameLength(s, t);
    SimpleMedianPermutes(SortedOf(s), SortedOf(t));
    var m, near := Middle(s), Near(Middle(s), k * sigma);
    SumPermutes(s, t, Squared(m));
    FilterPermutes(s, t, near);
    SameLength(Filter(s, near), Filter(t, near));
    CombinePermutes(Kept(s, m, k * sigma), Kept(t, m, k * sigma), mode);
    if |s| == 1 {
      assert s[0] in multiset(t);
    }
  }

  lemma CombinePermutes(s: seq<Entry>, t: seq<Entry>, mode: FinalMode)
    requires (mode == ModeMedian ==> Weighted(s)) && multiset(s) == multiset(t)
    ensures Combine(s, mode) == Combine(t, mode)
  {
    SameLength(s, t);
    if mode == ModeMedian {
      WeightedPermutes(s, SortedOf(s));
      MedianPermutes(SortedOf(s), SortedOf(t));
    }
    AveragePermutes(s, t);
    if |s| == 1 {
      assert s[0] in multiset(t);
    }
  }

  // ---------- how many quotes the filter can reject ----------

  lemma {:induction false} SumExceeds(s: seq<Entry>, f: Entry -> real, bound: real)
    requires forall e :: e in s ==> f(e) > bound
    ensures s != [] ==> Sum(s, f) > Times(|s|, bound)
  {
    if s != [] {
      var n := |s| - 1;
      assert s[n] in s;
      SumExceeds(s[..n], f, bound);
      if n == 0 {
        assert s[..n] == [];
      }
    }
  }

  /** Entries whose terms exceed `bound` account for more than their number times `bound`. */
  lemma GroupExceeds(s: seq<Entry>, group: Entry -> bool, f: Entry -> real, bound: real)
    requires forall e :: e in s ==> f(e) >= 0.0 && (group(e) ==> f(e) > bound)
    requires Filter(s, group) != []
    ensures Sum(s, f) > Times(|Filter(s, group)|, bound)
  {
    SumOfFilter(s, group, f);
    SumAtMost(s, OnlyIf(group, f), f);
    SumExceeds(Filter(s, group), f, bound);
  }

  /** The quotes rejected at sensitivity `k`. */
  function Rejected(s: seq<Entry>, k: real, sigma: real): seq<Entry> {
    Filter(s, Far(Middle(s), k * sigma))
  }

  lemma RejectionCount(s: seq<Entry>, k: real, sigma: real, kk: real)
    requires |s| >= 2 && k > 0.0 && IsDeviation(s, sigma) && kk == k * k
    ensures Rejected(s, k, sigma) != [] ==> Times(|Rejected(s, k, sigma)|, kk) < |s| as real
  {
    if Rejected(s, k, sigma) != [] {
      var m, t := Middle(s), k * sigma;
      var p := t * t;
      ProductNonNegative(k, sigma);
      forall e ensures Squared(m)(e) >= 0.0 && (Far(m, t)(e) ==> Squared(m)(e) > p) {
        SquareNonNegative(e.value - m);
        if Far(m, t)(e) {
          SquareExceeds(e.value - m, t);
        }
      }
      GroupExceeds(s, Far(m, t), Squared(m), p);
      BoundFromSum(Sum(s, Squared(m)), |s|, |Rejected(s, k, sigma)|, k, sigma, t, p, kk);
    }
  }

  lemma BoundFromSum(sum: real, n: nat, r: nat, k: real, sigma: real, t: real, p: real, kk: real)
    requires n > 0 && sigma * sigma == sum / n as real
    requires t == k * sigma && p == t * t && kk == k * k && sum > Times(r, p)
    ensures Times(r, kk) < n as real
  {
    TimesIsProduct(r, p);
    TimesIsProduct(r, kk);
    TimesQuotient(sum, n as real);
    CancelSquare(n as real, r as real, k, sigma, t, sum / n as real, p);
  }

  /** At sensitivity k fewer than n / k^2 of n quotes are rejected. */
  lemma RejectionBound(s: seq<Entry>, k: real, sigma: real)
    requires |s| >= 2 && k > 0.0 && IsDeviation(s, sigma)
    ensures var r := |Rejected(s, k, sigma)|; r > 0 ==> r as real * (k * k) < |s| as real
  {
    RejectionCount(s, k, sigma, k * k);
    TimesIsProduct(|Rejected(s, k, sigma)|, k * k);
  }

  lemma {:induction false} NearOrFar(s: seq<Entry>, m: real, t: real)
    ensures |Filter(s, Near(m, t))| + |Filter(s, Far(m, t))| == |s|
  {
    if s != [] {
      NearOrFar(s[..|s| - 1], m, t);
    }
  }

  /** An odd number of quotes has its median among them, and that one is kept. */
  lemma MiddleKept(s: seq<Entry>, t: real)
    requires |s| % 2 == 1 && t >= 0.0
    ensures Filter(s, Near(Middle(s), t)) != []
  {
    var sorted := SortedOf(s);
    var e := sorted[|s| / 2];
    assert e in multiset(sorted) && e in s;
    assert Near(Middle(s), t)(e);
  }

  /** With k at least 1, or an odd number of quotes, some quote is kept: the fallback does not apply. */
  lemma SomethingKept(s: seq<Entry>, k: real, sigma: real)
    requires |s| >= 2 && k > 0.0 && IsDeviation(s, sigma)
    requires k >= 1.0 || |s| % 2 == 1
    ensures Filter(s, Near(Middle(s), k * sigma)) != []
  {
    ProductNonNegative(k, sigma);
    if |s| % 2 == 1 {
      MiddleKept(s, k * sigma);
    } else {
      KeptAtLargeK(s, k, sigma);
    }
  }

  lemma KeptAtLargeK(s: seq<Entry>, k: real, sigma: real)
    requires |s| >= 2 && k >= 1.0 && IsDeviation(s, sigma)
    ensures Filter(s, Near(Middle(s), k * sigma)) != []
  {
    var kk := k * k;
    SquareAtLeastOne(k);
    RejectionCount(s, k, sigma, kk);
    FewerThanAll(s, Middle(s), k * sigma, kk);
  }

  lemma FewerThanAll(s: seq<Entry>, m: real, t: real, factor: real)
    requires s != [] && factor >= 1.0
    requires Filter(s, Far(m, t)) != [] ==> Times(|Filter(s, Far(m, t))|, factor) < |s| as real
    ensures Filter(s, Near(m, t)) != []
  {
    NearOrFar(s, m, t);
    TimesAtLeast(|Filter(s, Far(m, t))|, factor);
  }

  lemma NoneRejected(s: seq<Entry>, m: real, t: real, factor: real)
    requires factor >= |s| as real
    requires Filter(s, Far(m, t)) != [] ==> Times(|Filter(s, Far(m, t))|, factor) < |s| as real
    ensures Filter(s, Near(m, t)) == s
  {
    TimesAtLeast(|Filter(s, Far(m, t))|, factor);
    assert |Filter(s, Far(m, t))| == 0;
    forall e | e in s ensures Near(m, t)(e) {
      assert e !in Filter(s, Far(m, t));
    }
    FilterAll(s, Near(m, t));
  }

  lemma {:induction false} SumOfOnes(s: seq<Entry>, f: Entry -> real)
    requires forall e :: e in s ==> f(e) == 1.0
    ensures Sum(s, f) == |s| as real
  {
    if s != [] {
      var n := |s| - 1;
      assert s[n] in s;
      SumOfOnes(s[..n], f);
    }
  }

  /** As many quotes at 1 as at 3. */
  ghost predicate OnesAndThrees(s: seq<Entry>) {
    && |s| >= 2 && |s| % 2 == 0
    && forall i :: 0 <= i < |s| ==> s[i] == Entry(if i < |s| / 2 then 1.0 else 3.0, 1.0)
  }

  lemma OnesAndThreesValues(s: seq<Entry>)
    requires OnesAndThrees(s)
    ensures Positive(s) && Sorted(s, ByValue) && SimpleMedian(s) == 2.0
    ensures forall e :: e in s ==> e.value == 1.0 || e.value == 3.0
  {
  }

  lemma OnesAndThreesDeviation(s: seq<Entry>)
    requires OnesAndThrees(s)
    ensures Middle(s) == 2.0 && IsDeviation(s, 1.0)
  {
    OnesAndThreesValues(s);
    SimpleMedianPermutes(s, SortedOf(s));
    SumOfOnes(s, Squared(2.0));
    OneOfItself(|s| as real);
  }

  /** With k below 1 every even number of quotes can be rejected as a whole: half of them at 1 and
      half at 3 deviate by one standard deviation each. */
  lemma AllRejected(n: nat, k: real) returns (s: seq<Entry>, sigma: real)
    requires 0.0 < k < 1.0 && n >= 2 && n % 2 == 0
    ensures |s| == n && RejectsAll(s, k, sigma)
  {
    s := MakeOnesAndThrees(n);
    sigma := 1.0;
    RejectedAtOne(s, k, k * sigma);
  }

  lemma MakeOnesAndThrees(n: nat) returns (s: seq<Entry>)
    requires n >= 2 && n % 2 == 0
    ensures |s| == n && OnesAndThrees(s)
  {
    s := seq(n, i requires 0 <= i < n => Entry(if i < n / 2 then 1.0 else 3.0, 1.0));
  }

  lemma RejectedAtOne(s: seq<Entry>, k: real, t: real)
    requires OnesAndThrees(s) && t == k < 1.0
    ensures Positive(s) && IsDeviation(s, 1.0) && Filter(s, Near(Middle(s), t)) == []
  {
    OnesAndThreesValues(s);
    OnesAndThreesDeviation(s);
    NoneNear(s, t);
  }

  lemma NoneNear(s: seq<Entry>, t: real)
    requires t < 1.0 && forall e :: e in s ==> e.value == 1.0 || e.value == 3.0
    ensures Filter(s, Near(2.0, t)) == []
  {
    FirstIsIn(Filter(s, Near(2.0, t)));
  }

  /** All of the quotes are rejected. */
  ghost predicate RejectsAll(s: seq<Entry>, k: real, sigma: real) {
    Positive(s) && IsDeviation(s, sigma) && Filter(s, Near(Middle(s), k * sigma)) == []
  }

  /** The exact condition for the fallback: n quotes can all be rejected at sensitivity k exactly if
      k is below 1 and n is even. */
  lemma AdaptiveFallbackExactly(n: nat, k: real)
    requires n >= 2 && k > 0.0
    ensures (exists s, sigma :: |s| == n && RejectsAll(s, k, sigma)) <==> k < 1.0 && n % 2 == 0
  {
    if k < 1.0 && n % 2 == 0 {
      var s, sigma := AllRejected(n, k);
    } else {
      forall s, sigma | |s| == n ensures !RejectsAll(s, k, sigma) {
        if RejectsAll(s, k, sigma) {
          SomethingKept(s, k, sigma);
        }
      }
    }
  }

  /** The distance of the two middle prices of an even number of quotes. */
  function MiddleGap(s: seq<Entry>): real
    requires |s| >= 2
  {
    var sorted := SortedOf(s);
    sorted[|s| / 2].value - sorted[|s| / 2 - 1].value
  }

  /** For given quotes the fallback applies exactly if their number is even and the two middle prices
      are more than twice the threshold apart. */
  lemma FallbackOfQuotes(s: seq<Entry>, t: real)
    requires |s| >= 2 && t >= 0.0
    ensures Filter(s, Near(Middle(s), t)) == [] <==> |s| % 2 == 0 && MiddleGap(s) > 2.0 * t
  {
    if |s| % 2 == 1 {
      MiddleKept(s, t);
    } else {
      MiddlePair(s, t);
    }
  }

  lemma MiddlePair(s: seq<Entry>, t: real)
    requires |s| >= 2 && |s| % 2 == 0
    ensures Filter(s, Near(Middle(s), t)) == [] <==> MiddleGap(s) > 2.0 * t
  {
    var sorted, h, m := SortedOf(s), |s| / 2, Middle(s);
    MiddleOfEven(s, h);
    MiddlePairAt(s, sorted, h, m, t);
  }

  lemma MiddleOfEven(s: seq<Entry>, h: nat)
    requires h > 0 && |s| == 2 * h
    ensures Middle(s) == (SortedOf(s)[h - 1].value + SortedOf(s)[h].value) / 2.0
    ensures MiddleGap(s) == SortedOf(s)[h].value - SortedOf(s)[h - 1].value
  {
  }

  lemma MiddlePairAt(s: seq<Entry>, sorted: seq<Entry>, h: nat, m: real, t: real)
    requires multiset(s) == multiset(sorted) && Sorted(sorted, ByValue) && 0 < h < |sorted|
    requires m == (sorted[h - 1].value + sorted[h].value) / 2.0
    ensures Filter(s, Near(m, t)) == [] <==> sorted[h].value - sorted[h - 1].value > 2.0 * t
  {
    NoneNearSorted(s, sorted, m, t);
    NearMiddlePair(sorted, h, m, t);
  }

  lemma NoneNearSorted(s: seq<Entry>, sorted: seq<Entry>, m: real, t: real)
    requires multiset(s) == multiset(sorted)
    ensures Filter(s, Near(m, t)) == [] <==> forall e :: e in sorted ==> !Near(m, t)(e)
  {
    FirstIsIn(Filter(s, Near(m, t)));
    forall e ensures e in s <==> e in sorted {
      assert e in s <==> e in multiset(s);
      assert e in sorted <==> e in multiset(sorted);
    }
  }

  lemma NearMiddlePair(sorted: seq<Entry>, h: nat, m: real, t: real)
    requires Sorted(sorted, ByValue) && 0 < h < |sorted|
    requires m == (sorted[h - 1].value + sorted[h].value) / 2.0
    ensures (forall e :: e in sorted ==> !Near(m, t)(e)) <==> sorted[h].value - sorted[h - 1].value > 2.0 * t
  {
    var lo, hi := sorted[h - 1].value, sorted[h].value;
    SortedAround(sorted, h - 1);
    SortedAround(sorted, h);
    if hi - lo > 2.0 * t {
      forall e | e in sorted ensures !Near(m, t)(e) {
        var i :| 0 <= i < |sorted| && sorted[i] == e;
        assert e.value <= lo || e.value >= hi;
      }
    } else {
      assert sorted[h - 1] in sorted && Near(m, t)(sorted[h - 1]);
    }
  }

  /** Unless all quotes are rejected, the final price is within k standard deviations of the median, in
      both final modes; with k at least 1 or an odd number of quotes it always is. */
  lemma AdaptiveBound(s: seq<Entry>, k: real, sigma: real, t: real, mode: FinalMode)
    requires Weighted(s) && |s| >= 2 && k > 0.0 && IsDeviation(s, sigma) && t == k * sigma
    ensures !(|s| % 2 == 0 && MiddleGap(s) > 2.0 * t) || k >= 1.0 || |s| % 2 == 1 ==>
              Middle(s) - t <= AdaptivePrice(s, k, sigma, mode) <= Middle(s) + t
  {
    KeptAt(s, k, sigma, t);
    BoundAt(s, t, mode);
    PriceAt(s, k, sigma, t, mode);
  }

  lemma KeptAt(s: seq<Entry>, k: real, sigma: real, t: real)
    requires |s| >= 2 && k > 0.0 && IsDeviation(s, sigma) && t == k * sigma
    ensures t >= 0.0
    ensures k >= 1.0 || |s| % 2 == 1 ==> Filter(s, Near(Middle(s), t)) != []
  {
    ProductNonNegative(k, sigma);
    if k >= 1.0 || |s| % 2 == 1 {
      SomethingKept(s, k, sigma);
    }
  }

  lemma BoundAt(s: seq<Entry>, t: real, mode: FinalMode)
    requires Weighted(s) && |s| >= 2 && t >= 0.0
    ensures !(|s| % 2 == 0 && MiddleGap(s) > 2.0 * t) || Filter(s, Near(Middle(s), t)) != [] ==>
              Middle(s) - t <= Combine(Kept(s, Middle(s), t), mode) <= Middle(s) + t
  {
    FallbackOfQuotes(s, t);
    if Filter(s, Near(Middle(s), t)) != [] {
      KeptWithinBounds(s, Middle(s), t, mode);
    }
  }

  lemma KeptWithinBounds(s: seq<Entry>, m: real, t: real, mode: FinalMode)
    requires Weighted(s) && Filter(s, Near(m, t)) != []
    ensures m - t <= Combine(Kept(s, m, t), mode) <= m + t
  {
    var kept := Kept(s, m, t);
    forall e | e in kept ensures m - t <= e.value <= m + t {
      assert Near(m, t)(e);
    }
    CombineWithinBounds(kept, m - t, m + t, mode);
  }

  lemma CombineWithinBounds(s: seq<Entry>, lo: real, hi: real, mode: FinalMode)
    requires Weighted(s) && s != [] && forall e :: e in s ==> lo <= e.value <= hi
    ensures lo <= Combine(s, mode) <= hi
  {
    var sorted := SortedOf(s);
    WeightedPermutes(s, sorted);
    assert forall e :: e in sorted <==> e in multiset(s);
    MedianWithinBounds(sorted, lo, hi);
    AverageWithinBounds(s, lo, hi);
  }

  /** Where k^2 reaches the number of quotes nothing is rejected. */
  lemma AllKept(s: seq<Entry>, k: real, sigma: real)
    requires |s| >= 2 && k > 0.0 && IsDeviation(s, sigma) && k * k >= |s| as real
    ensures Filter(s, Near(Middle(s), k * sigma)) == s
  {
    var kk := k * k;
    RejectionCount(s, k, sigma, kk);
    NoneRejected(s, Middle(s), k * sigma, kk);
  }

  lemma PriceOfAll(s: seq<Entry>, k: real, sigma: real, mode: FinalMode)
    requires |s| >= 2 && Filter(s, Near(Middle(s), Threshold(k, sigma))) == s
    ensures AdaptivePrice(s, k, sigma, mode) == Combine(s, mode)
  {
  }

  lemma CombineAll(s: seq<Entry>)
    requires Weighted(s) && s != []
    ensures Combine(s, ModeAverage) == WeightedAverage(s)
    ensures Combine(s, ModeMedian) == WeightedMedian(SortedOf(s))
    ensures |s| == 1 ==> WeightedMedian(SortedOf(s)) == s[0].value
  {
    if |s| == 1 {
      assert s[0] in s && s == [s[0]];
      AverageOfOne(s[0]);
      assert SortedOf(s)[0] in SortedOf(s);
    }
  }

  /** Where k^2 reaches the number of quotes the aggregators coincide: in average mode the price is the
      average aggregator's, in median mode it is the weighted median of all quotes. */
  lemma AggregatorsCoincide(s: seq<Entry>, k: real, sigma: real)
    requires Weighted(s) && s != [] && k > 0.0 && IsDeviation(s, sigma)
    requires k * k >= |s| as real
    ensures AdaptivePrice(s, k, sigma, ModeAverage) == WeightedAverage(s)
    ensures AdaptivePrice(s, k, sigma, ModeMedian) == WeightedMedian(SortedOf(s))
  {
    CombineAll(s);
    if |s| > 1 {
      AllKept(s, k, sigma);
      PriceOfAll(s, k, sigma, ModeAverage);
      PriceOfAll(s, k, sigma, ModeMedian);
    }
  }
}
