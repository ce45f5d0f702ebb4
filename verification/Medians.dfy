/** The weighted median of a sorted list, as both aggregators compute it, and what it means. */
module Medians {
  import opened Sorting
  import opened Quotes

  /** The scan from index `i`, with the weight `cum` of the entries before it. */
  function Scan(s: seq<Entry>, target: real, i: nat, cum: real): real
    requires i <= |s| && s != []
    decreases |s| - i
  {
    if i == |s| then s[|s| / 2].value
    else
      var c := cum + s[i].weight;
      if c >= target then
        if c == target && i + 1 < |s| then (s[i].value + s[i + 1].value) / 2.0 else s[i].value
      else Scan(s, target, i + 1, c)
  }

  function WeightedMedian(s: seq<Entry>): real {
    if |s| == 0 then 0.0
    else if |s| == 1 then s[0].value
    else Scan(s, Total(s) / 2.0, 0, 0.0)
  }

  /** The loop in median.go and in adaptive.go. */
  method ComputeWeightedMedian(prices: seq<Quote>) returns (m: real)
    ensures m == WeightedMedian(Entries(prices))
  {
    ghost var s := Entries(prices);
    var n := |prices|;
    if n == 0 {
      return 0.0;
    }
    if n == 1 {
      return prices[0].price.value;
    }
    var totalWeight := 0.0;
    for i := 0 to n
      invariant totalWeight == Sum(s[..i], WeightOf)
    {
      SumOneMore(s, WeightOf, i);
      totalWeight := totalWeight + prices[i].weight;
    }
    assert s[..n] == s;
    var targetWeight := totalWeight / 2.0;
    var cumulativeWeight := 0.0;
    for i := 0 to n
      invariant WeightedMedian(s) == Scan(s, targetWeight, i, cumulativeWeight)
    {
      cumulativeWeight := cumulativeWeight + prices[i].weight;
      if cumulativeWeight >= targetWeight {
        if cumulativeWeight == targetWeight && i + 1 < n {
          return (prices[i].price.value + prices[i + 1].price.value) / 2.0;
        }
        return prices[i].price.value;
      }
    }
    return prices[n / 2].price.value;
  }

  // ---------- meaning ----------

  /** The smallest value with at least half of the weight at or below it. */
  ghost predicate LowerMedian(s: seq<Entry>, x: real) {
    2.0 * WeightWhere(s, AtMost(x)) >= Total(s) > 2.0 * WeightWhere(s, Below(x))
  }

  /** The smallest value with more than half of the weight at or below it. */
  ghost predicate UpperMedian(s: seq<Entry>, x: real) {
    2.0 * WeightWhere(s, AtMost(x)) > Total(s) >= 2.0 * WeightWhere(s, Below(x))
  }

  /** `m` is the mean of the lower and the upper median; this does not depend on the order of the entries. */
  ghost predicate IsMedian(s: seq<Entry>, m: real) {
    exists lo, hi :: LowerMedian(s, lo) && UpperMedian(s, hi) && m == (lo + hi) / 2.0
  }

  lemma MediansPermute(s: seq<Entry>, t: seq<Entry>, x: real)
    requires multiset(s) == multiset(t)
    ensures LowerMedian(s, x) == LowerMedian(t, x) && UpperMedian(s, x) == UpperMedian(t, x)
  {
    SumPermutes(s, t, WeightOf);
    SumPermutes(s, t, OnlyIf(AtMost(x), WeightOf));
    SumPermutes(s, t, OnlyIf(Below(x), WeightOf));
  }

  lemma IsMedianPermutes(s: seq<Entry>, t: seq<Entry>, m: real)
    requires multiset(s) == multiset(t) && IsMedian(s, m)
    ensures IsMedian(t, m)
  {
    var lo, hi :| LowerMedian(s, lo) && UpperMedian(s, hi) && m == (lo + hi) / 2.0;
    MediansPermute(s, t, lo);
    MediansPermute(s, t, hi);
  }

  /** There is only one. */
  lemma IsMedianUnique(s: seq<Entry>, m: real, m': real)
    requires Weighted(s) && IsMedian(s, m) && IsMedian(s, m')
    ensures m == m'
  {
    var lo, hi :| LowerMedian(s, lo) && UpperMedian(s, hi) && m == (lo + hi) / 2.0;
    var lo', hi' :| LowerMedian(s, lo') && UpperMedian(s, hi') && m' == (lo' + hi') / 2.0;
    LowerMedianUnique(s, lo, lo');
    UpperMedianUnique(s, hi, hi');
  }

  /** From index `i` on nothing is below `x`: the weight below `x` is at most that of the first `i` entries. */
  lemma WeightBelowPrefix(s: seq<Entry>, i: nat, x: real)
    requires Weighted(s) && i <= |s|
    requires forall j :: i <= j < |s| ==> s[j].value >= x
    ensures WeightWhere(s, Below(x)) <= Sum(s[..i], WeightOf)
  {
    var below := OnlyIf(Below(x), WeightOf);
    assert s == s[..i] + s[i..];
    SumConcat(s[..i], s[i..], below);
    SumAtMost(s[..i], below, WeightOf);
    SumAtMost(s[i..], below, OnlyIf((e: Entry) => false, WeightOf));
    NothingCounted(s[i..]);
  }

  lemma {:induction false} NothingCounted(s: seq<Entry>)
    ensures WeightWhere(s, (e: Entry) => false) == 0.0
  {
    if s != [] {
      NothingCounted(s[..|s| - 1]);
    }
  }

  /** The first `i` entries are at or below `x`: they are part of the weight at or below `x`. */
  lemma WeightAtMostPrefix(s: seq<Entry>, i: nat, x: real)
    requires Weighted(s) && i <= |s|
    requires forall j :: 0 <= j < i ==> s[j].value <= x
    ensures WeightWhere(s, AtMost(x)) >= Sum(s[..i], WeightOf)
  {
    var atMost := OnlyIf(AtMost(x), WeightOf);
    assert s == s[..i] + s[i..];
    SumConcat(s[..i], s[i..], atMost);
    SumAtMost(s[..i], WeightOf, atMost);
    NothingCounted(s[i..]);
    SumAtMost(s[i..], OnlyIf((e: Entry) => false, WeightOf), atMost);
  }

  /** Where the cumulative weight first reaches half, the value is the lower median; it is the upper
      median too if half is passed, and otherwise the next value is. */
  lemma HalfReached(s: seq<Entry>, i: nat)
    requires Weighted(s) && Sorted(s, ByValue) && i < |s|
    requires 2.0 * Sum(s[..i], WeightOf) < Total(s) <= 2.0 * Sum(s[..i + 1], WeightOf)
    ensures LowerMedian(s, s[i].value)
    ensures 2.0 * Sum(s[..i + 1], WeightOf) > Total(s) ==> UpperMedian(s, s[i].value)
    ensures 2.0 * Sum(s[..i + 1], WeightOf) == Total(s) ==> i + 1 < |s| && UpperMedian(s, s[i + 1].value)
  {
    SortedAround(s, i);
    WeightBelowPrefix(s, i, s[i].value);
    WeightAtMostPrefix(s, i + 1, s[i].value);
    if 2.0 * Sum(s[..i + 1], WeightOf) == Total(s) {
      assert s[..|s|] == s;
      TotalPositive(s);
      SortedAround(s, i + 1);
      SumOneMore(s, WeightOf, i + 1);
      assert s[i + 1] in s;
      WeightBelowPrefix(s, i + 1, s[i + 1].value);
      WeightAtMostPrefix(s, i + 2, s[i + 1].value);
    }
  }

  lemma SortedAround(s: seq<Entry>, i: nat)
    requires Sorted(s, ByValue) && i < |s|
    ensures forall j :: i <= j < |s| ==> s[j].value >= s[i].value
    ensures forall j :: 0 <= j <= i ==> s[j].value <= s[i].value
  {
    assert forall j :: i < j < |s| ==> ByValue(s[i], s[j]);
    assert forall j :: 0 <= j < i ==> ByValue(s[j], s[i]);
  }

  /** The scan stops before the end, at the lower median; on an exact half it averages lower and upper. */
  lemma {:induction false} ScanFindsMedians(s: seq<Entry>, i: nat, cum: real) returns (lo: real, hi: real, k: nat)
    requires Weighted(s) && Sorted(s, ByValue) && s != [] && i <= |s|
    requires cum == Sum(s[..i], WeightOf) && 2.0 * cum < Total(s)
    ensures LowerMedian(s, lo) && UpperMedian(s, hi)
    ensures Scan(s, Total(s) / 2.0, i, cum) == (lo + hi) / 2.0
    ensures k < |s| && lo == s[k].value && (hi == lo || (k + 1 < |s| && hi == s[k + 1].value))
    decreases |s| - i
  {
    TotalPositive(s);
    assert s[..|s|] == s;
    SumOneMore(s, WeightOf, i);
    var c := cum + s[i].weight;
    if 2.0 * c < Total(s) {
      lo, hi, k := ScanFindsMedians(s, i + 1, c);
    } else {
      HalfReached(s, i);
      k := i;
      lo := s[i].value;
      hi := if 2.0 * c > Total(s) then lo else s[i + 1].value;
    }
  }

  /** The weighted median is the mean of the lower and the upper median. */
  lemma MedianFindsMedians(s: seq<Entry>) returns (lo: real, hi: real, k: nat)
    requires Weighted(s) && Sorted(s, ByValue) && s != []
    ensures LowerMedian(s, lo) && UpperMedian(s, hi)
    ensures WeightedMedian(s) == (lo + hi) / 2.0
    ensures k < |s| && lo == s[k].value && (hi == lo || (k + 1 < |s| && hi == s[k + 1].value))
  {
    TotalPositive(s);
    assert s[..0] == [];
    lo, hi, k := ScanFindsMedians(s, 0, 0.0);
  }

  lemma WeightedMedianIsMedian(s: seq<Entry>)
    requires Weighted(s) && Sorted(s, ByValue) && s != []
    ensures IsMedian(s, WeightedMedian(s))
  {
    var lo, hi, k := MedianFindsMedians(s);
  }

  lemma LowerMedianUnique(s: seq<Entry>, x: real, y: real)
    requires Weighted(s) && LowerMedian(s, x) && LowerMedian(s, y)
    ensures x == y
  {
    if x < y {
      WeightMonotone(s, AtMost(x), Below(y));
    } else if y < x {
      WeightMonotone(s, AtMost(y), Below(x));
    }
  }

  lemma UpperMedianUnique(s: seq<Entry>, x: real, y: real)
    requires Weighted(s) && UpperMedian(s, x) && UpperMedian(s, y)
    ensures x == y
  {
    if x < y {
      WeightMonotone(s, AtMost(x), Below(y));
    } else if y < x {
      WeightMonotone(s, AtMost(y), Below(x));
    }
  }

  lemma LowerNotAboveUpper(s: seq<Entry>, lo: real, hi: real)
    requires Weighted(s) && LowerMedian(s, lo) && UpperMedian(s, hi)
    ensures lo <= hi
  {
    if hi < lo {
      WeightMonotone(s, AtMost(hi), Below(lo));
    }
  }

  /** At most half of the weight lies strictly below the weighted median and at most half strictly above. */
  lemma MedianHalves(s: seq<Entry>)
    requires Weighted(s) && Sorted(s, ByValue) && s != []
    ensures 2.0 * WeightWhere(s, Below(WeightedMedian(s))) <= Total(s)
    ensures 2.0 * WeightWhere(s, Above(WeightedMedian(s))) <= Total(s)
  {
    var lo, hi, k := MedianFindsMedians(s);
    var m := WeightedMedian(s);
    LowerNotAboveUpper(s, lo, hi);
    WeightMonotone(s, Below(m), Below(hi));
    ComplementWeights(s, AtMost(m), Above(m));
    WeightMonotone(s, AtMost(lo), AtMost(m));
  }

  /** If more than half of the weight lies within [lo, hi], so does the weighted median. */
  lemma MedianWithinMajority(s: seq<Entry>, lo: real, hi: real)
    requires Weighted(s) && Sorted(s, ByValue) && s != []
    requires 2.0 * WeightWhere(s, Within(lo, hi)) > Total(s)
    ensures lo <= WeightedMedian(s) <= hi
  {
    var a, b, k := MedianFindsMedians(s);
    LowerNotAboveUpper(s, a, b);
    if a < lo {
      DisjointWeights(s, AtMost(a), Within(lo, hi));
    }
    if hi < b {
      WeightMonotone(s, Within(lo, hi), Below(b));
    }
  }

  /** The weighted median lies between any bounds on all the values. */
  lemma MedianWithinBounds(s: seq<Entry>, lo: real, hi: real)
    requires Weighted(s) && Sorted(s, ByValue) && s != []
    requires forall e :: e in s ==> lo <= e.value <= hi
    ensures lo <= WeightedMedian(s) <= hi
  {
    TotalPositive(s);
    SumAtMost(s, WeightOf, OnlyIf(Within(lo, hi), WeightOf));
    MedianWithinMajority(s, lo, hi);
  }

  /** The weighted median is the same for every sorted arrangement of the same entries. */
  lemma MedianPermutes(s: seq<Entry>, t: seq<Entry>)
    requires Weighted(s) && multiset(s) == multiset(t)
    requires Sorted(s, ByValue) && Sorted(t, ByValue)
    ensures WeightedMedian(s) == WeightedMedian(t)
  {
    SameLength(s, t);
    WeightedPermutes(s, t);
    if s != [] {
      var lo, hi, k := MedianFindsMedians(s);
      var lo', hi', k' := MedianFindsMedians(t);
      SumPermutes(s, t, WeightOf);
      SumPermutes(s, t, OnlyIf(AtMost(lo'), WeightOf));
      SumPermutes(s, t, OnlyIf(Below(lo'), WeightOf));
      SumPermutes(s, t, OnlyIf(AtMost(hi'), WeightOf));
      SumPermutes(s, t, OnlyIf(Below(hi'), WeightOf));
      LowerMedianUnique(s, lo, lo');
      UpperMedianUnique(s, hi, hi');
    }
  }

  lemma WeightedPermutes(s: seq<Entry>, t: seq<Entry>)
    requires multiset(s) == multiset(t)
    ensures Weighted(s) == Weighted(t)
    ensures Positive(s) == Positive(t)
  {
    assert forall e :: e in s <==> e in multiset(s);
    assert forall e :: e in t <==> e in multiset(t);
  }

  /** With a zero weight the order in which the sort leaves equal prices shows in the result. */
  lemma ZeroWeightBreaksOrderIndependence() returns (s: seq<Entry>, t: seq<Entry>)
    ensures multiset(s) == multiset(t) && Sorted(s, ByValue) && Sorted(t, ByValue)
    ensures forall e :: e in s ==> e.value > 0.0 && e.weight >= 0.0
    ensures WeightedMedian(s) == 6.0 && WeightedMedian(t) == 5.0
  {
    var a, b, c := Entry(5.0, 0.0), Entry(5.0, 1.0), Entry(7.0, 1.0);
    s, t := [a, b, c], [b, a, c];
    TotalOfThree(a, b, c);
    TotalOfThree(b, a, c);
    assert Scan(s, 1.0, 0, 0.0) == Scan(s, 1.0, 1, 0.0);
  }

  lemma TotalOfThree(a: Entry, b: Entry, c: Entry)
    ensures Total([a, b, c]) == a.weight + b.weight + c.weight
  {
    var s := [a, b, c];
    assert s[..0] == [] && s[..3] == s;
    SumOneMore(s, WeightOf, 0);
    SumOneMore(s, WeightOf, 1);
    SumOneMore(s, WeightOf, 2);
  }
}
