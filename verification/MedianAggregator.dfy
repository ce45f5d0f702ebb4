/** Weighted median with rejection of quotes more than 10% away: pkg/server/aggregator/median.go. */
module MedianAggregator {
  import opened Wrappers
  import opened Sorting
  import opened Quotes
  import opened Medians
  import opened Reals

  const OUTLIER_THRESHOLD: real := 0.10

  /** Not an outlier with respect to the initial median `m`. */
  function Close(m: real): Entry -> bool {
    (e: Entry) => m != 0.0 && !(Abs(e.value - m) / m > OUTLIER_THRESHOLD)
  }

  /** The two passes over a sorted list. */
  function TwoPass(s: seq<Entry>): real {
    if |s| == 1 then s[0].value
    else
      var m := WeightedMedian(s);
      var filtered := Filter(s, Close(m));
      WeightedMedian(if filtered == [] then s else filtered)
  }

  /** The price of a group of quotes, in whatever order they were collected. */
  function MedianPrice(s: seq<Entry>): real {
    TwoPass(SortedOf(s))
  }

  /** Sorts the quotes in place. Positive prices keep the median, the divisor, away from zero. */
  method ComputeMedianWithOutlierRejection(prices: array<Quote>) returns (r: Option<real>)
    requires Positive(Entries(prices[..]))
    modifies prices
    ensures multiset(prices[..]) == multiset(old(prices[..]))
    ensures prices.Length == 0 <==> r.None?
    ensures r.Some? ==> r.value == MedianPrice(Entries(old(prices[..])))
    ensures r.Some? ==>
              var s := Entries(old(prices[..]));
              exists m :: IsMedian(s, m)
                          && var kept := Filter(s, Within(0.9 * m, 1.1 * m));
                             IsMedian(if kept == [] then s else kept, r.value)
  {
    ghost var given := Entries(prices[..]);
    if given != [] {
      var m := PriceExactly(given);
      assert IsMedian(given, m);
    }
    if prices.Length == 0 {
      return None;
    }
    if prices.Length == 1 {
      MedianOfOne(given);
      return Some(prices[0].price.value);
    }
    SortQuotes(prices);
    ghost var sortedPrices := prices[..];
    ghost var s := Entries(sortedPrices);
    WeightedPermutes(given, s);
    var initialMedian := ComputeWeightedMedian(prices[..]);
    PositiveMedian(s);

    var filtered := RejectOutliers(prices[..], initialMedian);
    if |filtered| == 0 {
      filtered := prices[..];
    }
    var finalMedian := ComputeWeightedMedian(filtered);
    TwoPassPermutes(s, SortedOf(given));
    return Some(finalMedian);
  }

  /** The filter loop. */
  method RejectOutliers(prices: seq<Quote>, initialMedian: real) returns (filtered: seq<Quote>)
    requires initialMedian != 0.0
    ensures Entries(filtered) == Filter(Entries(prices), Close(initialMedian))
  {
    ghost var s := Entries(prices);
    filtered := [];
    for i := 0 to |prices|
      invariant Entries(filtered) == Filter(s[..i], Close(initialMedian))
    {
      assert s[..i + 1][..i] == s[..i];
      var p := prices[i];
      var deviation := Abs(p.price.value - initialMedian);
      var deviationPct := deviation / initialMedian;
      if deviationPct > OUTLIER_THRESHOLD {
        continue;
      }
      filtered := filtered + [p];
    }
    assert s[..|s|] == s;
  }

  lemma MedianOfOne(s: seq<Entry>)
    requires |s| == 1
    ensures MedianPrice(s) == s[0].value
  {
    var a := SortedOf(s);
    assert a[0] in multiset(s);
  }

  // ---------- the 10% band ----------

  lemma PositiveMedian(s: seq<Entry>)
    requires Positive(s) && Sorted(s, ByValue) && s != []
    ensures WeightedMedian(s) > 0.0
  {
    var lo, hi, k := MedianFindsMedians(s);
    assert s[k] in s;
    LowerNotAboveUpper(s, lo, hi);
  }

  /** For a positive median the test is a band around it. */
  lemma CloseIsBand(m: real, e: Entry)
    requires m > 0.0
    ensures Close(m)(e) <==> 0.9 * m <= e.value <= 1.1 * m
  {
    QuotientExceeds(Abs(e.value - m), m, OUTLIER_THRESHOLD);
  }

  /** `price` is the median of the entries that `keep` keeps, or of all if there are none. */
  ghost predicate IsMedianOfKept(s: seq<Entry>, keep: Entry -> bool, price: real) {
    IsMedian(if Filter(s, keep) == [] then s else Filter(s, keep), price)
  }

  lemma MedianOfKept(s: seq<Entry>, keep: Entry -> bool)
    requires Weighted(s) && Sorted(s, ByValue) && s != []
    ensures IsMedianOfKept(s, keep, WeightedMedian(if Filter(s, keep) == [] then s else Filter(s, keep)))
  {
    FilterSorted(s, keep);
    WeightedMedianIsMedian(if Filter(s, keep) == [] then s else Filter(s, keep));
  }

  lemma MedianOfKeptPermutes(s: seq<Entry>, t: seq<Entry>, keep: Entry -> bool, price: real)
    requires multiset(s) == multiset(t) && IsMedianOfKept(s, keep, price)
    ensures IsMedianOfKept(t, keep, price)
  {
    FilterPermutes(s, t, keep);
    SameLength(Filter(s, keep), Filter(t, keep));
    IsMedianPermutes(if Filter(s, keep) == [] then s else Filter(s, keep),
                     if Filter(t, keep) == [] then t else Filter(t, keep), price);
  }

  lemma CloseFilter(s: seq<Entry>, m: real)
    requires m > 0.0
    ensures Filter(s, Close(m)) == Filter(s, Within(0.9 * m, 1.1 * m))
  {
    forall e | e in s ensures Close(m)(e) == Within(0.9 * m, 1.1 * m)(e) {
      CloseIsBand(m, e);
    }
    FilterSame(s, Close(m), Within(0.9 * m, 1.1 * m));
  }

  lemma TwoPassKeeps(s: seq<Entry>, m: real)
    requires Positive(s) && Sorted(s, ByValue) && s != [] && m == WeightedMedian(s)
    ensures IsMedianOfKept(s, Close(m), TwoPass(s))
  {
    MedianOfKept(s, Close(m));
    if |s| == 1 {
      CloseIsBand(m, s[0]);
      assert s[0] in s && s[0].value > 0.0;
      FilterAll(s, Close(m));
    }
  }

  lemma TwoPassExactly(s: seq<Entry>, m: real)
    requires Positive(s) && Sorted(s, ByValue) && s != [] && m == WeightedMedian(s)
    ensures IsMedian(s, m) && IsMedianOfKept(s, Within(0.9 * m, 1.1 * m), TwoPass(s))
  {
    WeightedMedianIsMedian(s);
    PositiveMedian(s);
    TwoPassKeeps(s, m);
    CloseFilter(s, m);
  }

  /** The price, whatever the order of the quotes: the median of the entries within 10% of the median of
      all, or of all if there are none. */
  lemma PriceExactly(s: seq<Entry>) returns (m: real)
    requires Positive(s) && s != []
    ensures IsMedian(s, m) && IsMedianOfKept(s, Within(0.9 * m, 1.1 * m), MedianPrice(s))
  {
    var sorted := SortedOf(s);
    WeightedPermutes(s, sorted);
    SameLength(s, sorted);
    m := WeightedMedian(sorted);
    TwoPassExactly(sorted, m);
    IsMedianPermutes(sorted, s, m);
    MedianOfKeptPermutes(sorted, s, Within(0.9 * m, 1.1 * m), MedianPrice(s));
  }

  /** The result is within 10% of the initial median. If every quote is rejected the initial median
      was the mean of two different neighbouring quotes, and it is the result. */
  lemma TwoPassBound(s: seq<Entry>)
    requires Positive(s) && Sorted(s, ByValue) && s != []
    ensures var m := WeightedMedian(s); 0.9 * m <= TwoPass(s) <= 1.1 * m
    ensures Filter(s, Close(WeightedMedian(s))) == [] ==>
              && TwoPass(s) == WeightedMedian(s)
              && exists k :: 0 <= k < |s| - 1 && s[k].value < s[k + 1].value
                             && WeightedMedian(s) == (s[k].value + s[k + 1].value) / 2.0
  {
    var m := WeightedMedian(s);
    PositiveMedian(s);
    var filtered := Filter(s, Close(m));
    FilterSorted(s, Close(m));
    if filtered == [] {
      var lo, hi, k := MedianFindsMedians(s);
      LowerNotAboveUpper(s, lo, hi);
      CloseIsBand(m, s[k]);
      assert s[k] !in filtered;
    } else {
      forall e | e in filtered ensures 0.9 * m <= e.value <= 1.1 * m {
        CloseIsBand(m, e);
      }
      MedianWithinBounds(filtered, 0.9 * m, 1.1 * m);
    }
  }

  /** Nothing is quoted strictly between the lower and the upper median. */
  lemma NothingBetween(s: seq<Entry>, lo: real, hi: real)
    requires Positive(s) && Sorted(s, ByValue) && s != []
    requires LowerMedian(s, lo) && UpperMedian(s, hi)
    ensures WeightedMedian(s) == (lo + hi) / 2.0 && 0.0 < lo <= hi
    ensures forall e :: e in s ==> e.value <= lo || e.value >= hi
    ensures exists e :: e in s && e.value == lo
  {
    var a, b, k := MedianFindsMedians(s);
    LowerMedianUnique(s, lo, a);
    UpperMedianUnique(s, hi, b);
    LowerNotAboveUpper(s, lo, hi);
    SortedAround(s, k);
    assert s[k] in s;
    if k + 1 < |s| {
      SortedAround(s, k + 1);
    }
  }

  /** The exact condition for the fallback: every quote is rejected exactly if the upper median exceeds
      the lower one by more than the factor 11/9. */
  lemma MedianFallbackExactly(s: seq<Entry>, lo: real, hi: real)
    requires Positive(s) && Sorted(s, ByValue) && s != []
    requires LowerMedian(s, lo) && UpperMedian(s, hi)
    ensures Filter(s, Close(WeightedMedian(s))) == [] <==> 9.0 * hi > 11.0 * lo
  {
    var m := WeightedMedian(s);
    NothingBetween(s, lo, hi);
    var filtered := Filter(s, Close(m));
    if 9.0 * hi > 11.0 * lo {
      forall e | e in s ensures !Close(m)(e) {
        CloseIsBand(m, e);
      }
      FirstIsIn(filtered);
    } else {
      var e :| e in s && e.value == lo;
      CloseIsBand(m, e);
    }
  }

  /** Quotes that reach the fallback. */
  lemma MedianFallbackReached() returns (s: seq<Entry>)
    ensures Positive(s) && Sorted(s, ByValue) && |s| == 2
    ensures Filter(s, Close(WeightedMedian(s))) == [] && TwoPass(s) == 10.5
  {
    var a, b := Entry(9.0, 1.0), Entry(12.0, 1.0);
    s := [a, b];
    assert s[..0] == [] && s[..2] == s;
    SumOneMore(s, WeightOf, 0);
    SumOneMore(s, WeightOf, 1);
    HalfReached(s, 0);
    MedianFallbackExactly(s, 9.0, 12.0);
    TwoPassBound(s);
    NothingBetween(s, 9.0, 12.0);
  }

  /** If sources with more than half of the weight quote within [lo, hi], and hi is at most 10% above
      lo, none of them is rejected and the price is within [lo, hi], whatever the others send. */
  lemma MajorityRobust(s: seq<Entry>, lo: real, hi: real)
    requires Positive(s) && Sorted(s, ByValue)
    requires 0.0 < lo <= hi <= 1.1 * lo
    requires 2.0 * WeightWhere(s, Within(lo, hi)) > Total(s)
    ensures s != [] && forall e :: e in s && lo <= e.value <= hi ==> e in Filter(s, Close(WeightedMedian(s)))
    ensures lo <= TwoPass(s) <= hi
  {
    var m := WeightedMedian(s);
    MedianWithinMajority(s, lo, hi);
    var close := Close(m);
    forall e | e in s && lo <= e.value <= hi ensures close(e) {
      CloseIsBand(m, e);
    }
    var filtered := Filter(s, close);
    FilterSorted(s, close);
    KeptMajority(s, close, Within(lo, hi));
    assert filtered != [];
    MedianWithinMajority(filtered, lo, hi);
    if |s| == 1 {
      MedianWithinMajority(s, lo, hi);
    }
  }

  /** Entries that all survive a filter keep their majority among what survives. */
  lemma KeptMajority(s: seq<Entry>, keep: Entry -> bool, group: Entry -> bool)
    requires Weighted(s) && forall e :: e in s && group(e) ==> keep(e)
    requires 2.0 * WeightWhere(s, group) > Total(s)
    ensures 2.0 * WeightWhere(Filter(s, keep), group) > Total(Filter(s, keep))
  {
    SumOfFilter(s, keep, OnlyIf(group, WeightOf));
    SumOfFilter(s, keep, WeightOf);
    SumAtMost(s, OnlyIf(group, WeightOf), OnlyIf(keep, OnlyIf(group, WeightOf)));
    SumAtMost(s, OnlyIf(keep, WeightOf), WeightOf);
  }

  /** The same for quotes in any order. */
  lemma MajorityDecides(s: seq<Entry>, lo: real, hi: real)
    requires Positive(s) && 0.0 < lo <= hi <= 1.1 * lo
    requires 2.0 * WeightWhere(s, Within(lo, hi)) > Total(s)
    ensures lo <= MedianPrice(s) <= hi
    ensures forall e :: e in s && lo <= e.value <= hi ==> e in Filter(s, Close(WeightedMedian(SortedOf(s))))
  {
    SumPermutes(s, SortedOf(s), OnlyIf(Within(lo, hi), WeightOf));
    SumPermutes(s, SortedOf(s), WeightOf);
    MajorityRobust(SortedOf(s), lo, hi);
  }

  // ---------- order independence ----------

  lemma TwoPassPermutes(s: seq<Entry>, t: seq<Entry>)
    requires Weighted(s) && multiset(s) == multiset(t)
    requires Sorted(s, ByValue) && Sorted(t, ByValue)
    ensures TwoPass(s) == TwoPass(t)
  {
    SameLength(s, t);
    MedianPermutes(s, t);
    var close := Close(WeightedMedian(s));
    FilterPermutes(s, t, close);
    SameLength(Filter(s, close), Filter(t, close));
    FilterSorted(s, close);
    FilterSorted(t, close);
    MedianPermutes(Filter(s, close), Filter(t, close));
    if |s| == 1 {
      assert s[0] in multiset(t);
    }
  }

  /** The price depends only on which (price, weight) pairs there are: neither the order in which they
      were collected nor the order in which the sort leaves equal prices matters. */
  lemma MedianOrderIndependent(s: seq<Entry>, t: seq<Entry>)
    requires Weighted(s) && multiset(s) == multiset(t)
    ensures MedianPrice(s) == MedianPrice(t)
    ensures Sorted(t, ByValue) ==> MedianPrice(s) == TwoPass(t)
  {
    WeightedPermutes(s, SortedOf(s));
    TwoPassPermutes(SortedOf(s), SortedOf(t));
    if Sorted(t, ByValue) {
      TwoPassPermutes(SortedOf(s), t);
    }
  }
}
