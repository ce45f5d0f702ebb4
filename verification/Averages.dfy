/** The weighted average: pkg/server/aggregator/average.go and the final step of adaptive.go. */
module Averages {
  import opened Quotes
  import opened Reals

  const ValueTimesWeight: Entry -> real := (e: Entry) => e.value * e.weight

  function WeightedAverage(s: seq<Entry>): real {
    if Total(s) == 0.0 then 0.0 else Sum(s, ValueTimesWeight) / Total(s)
  }

  /** The average times the total weight is the sum of the values times their weights. */
  ghost predicate IsAverage(s: seq<Entry>, avg: real) {
    avg * Total(s) == Sum(s, ValueTimesWeight)
  }

  lemma TermExactly(e: Entry)
    ensures ValueTimesWeight(e) == e.value * e.weight
  {
  }

  lemma AverageExactly(s: seq<Entry>)
    requires Total(s) != 0.0
    ensures IsAverage(s, WeightedAverage(s))
  {
    var sum, total := Sum(s, ValueTimesWeight), Total(s);
    assert WeightedAverage(s) == sum / total;
    QuotientTimes(sum, total);
  }

  /** The average aggregator's loop. */
  method ComputeWeightedAverage(prices: seq<Quote>) returns (avg: real)
    ensures avg == WeightedAverage(Entries(prices))
  {
    ghost var s := Entries(prices);
    if |prices| == 0 {
      return 0.0;
    }
    var weightedSum, totalWeight := 0.0, 0.0;
    for i := 0 to |prices|
      invariant weightedSum == Sum(s[..i], ValueTimesWeight)
      invariant totalWeight == Sum(s[..i], WeightOf)
    {
      SumOneMore(s, ValueTimesWeight, i);
      SumOneMore(s, WeightOf, i);
      weightedSum := weightedSum + prices[i].price.value * prices[i].weight;
      totalWeight := totalWeight + prices[i].weight;
    }
    assert s[..|s|] == s;
    if totalWeight == 0.0 {
      return 0.0;
    }
    return weightedSum / totalWeight;
  }

  lemma AverageOfOne(e: Entry)
    requires e.weight > 0.0
    ensures WeightedAverage([e]) == e.value
  {
    var s := [e];
    assert s[..0] == [] && s[..1] == s;
    SumOneMore(s, ValueTimesWeight, 0);
    SumOneMore(s, WeightOf, 0);
    QuotientOfProduct(e.value, e.weight);
  }

  lemma AveragePermutes(s: seq<Entry>, t: seq<Entry>)
    requires multiset(s) == multiset(t)
    ensures WeightedAverage(s) == WeightedAverage(t)
  {
    SumPermutes(s, t, ValueTimesWeight);
    SumPermutes(s, t, WeightOf);
  }

  lemma {:induction false} WeightedSumBounds(s: seq<Entry>, lo: real, hi: real)
    requires Weighted(s) && forall e :: e in s ==> lo <= e.value <= hi
    ensures lo * Total(s) <= Sum(s, ValueTimesWeight) <= hi * Total(s)
  {
    if s != [] {
      var front, e := s[..|s| - 1], s[|s| - 1];
      assert e in s;
      WeightedSumBounds(front, lo, hi);
      WeightedStep(Total(front), Sum(front, ValueTimesWeight), e.value, e.weight, lo, hi);
    }
  }

  /** The weighted average lies between any bounds on all the values. */
  lemma AverageWithinBounds(s: seq<Entry>, lo: real, hi: real)
    requires Weighted(s) && s != [] && forall e :: e in s ==> lo <= e.value <= hi
    ensures lo <= WeightedAverage(s) <= hi
  {
    TotalPositive(s);
    WeightedSumBounds(s, lo, hi);
    DivideBounds(Sum(s, ValueTimesWeight), Total(s), lo, hi);
  }
}
