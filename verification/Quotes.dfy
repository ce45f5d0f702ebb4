/** Quotes with weights, and sums over them. Prices and weights are exact reals. */
module Quotes {
  import opened Sorting

  /** A source's price for a symbol. */
  datatype Price = Price(symbol: string, value: real, source: string)

  /** priceWithSource and priceWithWeight. */
  datatype Quote = Quote(price: Price, source: string, weight: real)

  /** All of a quote that the arithmetic looks at. */
  datatype Entry = Entry(value: real, weight: real)

  const EntryOf: Quote -> Entry := (q: Quote) => Entry(q.price.value, q.weight)

  function Entries(qs: seq<Quote>): (r: seq<Entry>)
    ensures |r| == |qs| && forall i :: 0 <= i < |qs| ==> r[i] == Entry(qs[i].price.value, qs[i].weight)
  {
    Map(qs, EntryOf)
  }

  ghost predicate Positive(s: seq<Entry>) {
    forall e :: e in s ==> e.value > 0.0 && e.weight > 0.0
  }

  /** Positive weights; main replaces a weight of 0 by 1 and the configuration refuses negative ones. */
  ghost predicate Weighted(s: seq<Entry>) {
    forall e :: e in s ==> e.weight > 0.0
  }

  // ---------- sums ----------

  function Sum(s: seq<Entry>, f: Entry -> real): real {
    if s == [] then 0.0 else Sum(s[..|s| - 1], f) + f(s[|s| - 1])
  }

  lemma SumOneMore(s: seq<Entry>, f: Entry -> real, i: nat)
    requires i < |s|
    ensures Sum(s[..i + 1], f) == Sum(s[..i], f) + f(s[i])
  {
    assert s[..i + 1][..i] == s[..i];
  }

  lemma {:induction false} SumConcat(s: seq<Entry>, t: seq<Entry>, f: Entry -> real)
    ensures Sum(s + t, f) == Sum(s, f) + Sum(t, f)
  {
    if t == [] {
      assert s + t == s;
    } else {
      assert (s + t)[..|s + t| - 1] == s + t[..|t| - 1];
      SumConcat(s, t[..|t| - 1], f);
    }
  }

  /** A sum does not depend on the order of its terms. */
  lemma {:induction false} SumPermutes(s: seq<Entry>, t: seq<Entry>, f: Entry -> real)
    requires multiset(s) == multiset(t)
    ensures Sum(s, f) == Sum(t, f)
  {
    SameLength(s, t);
    if s != [] {
      var j := Locate(s, t);
      SumPermutes(s[..|s| - 1], t[..j] + t[j + 1..], f);
      SumConcat(t[..j], t[j + 1..], f);
      SumConcat(t[..j], t[j..], f);
      SumConcat([t[j]], t[j + 1..], f);
      assert t == t[..j] + t[j..] && t[j..] == [t[j]] + t[j + 1..];
    }
  }

  lemma {:induction false} SumAtMost(s: seq<Entry>, f: Entry -> real, g: Entry -> real)
    requires forall e :: e in s ==> f(e) <= g(e)
    ensures Sum(s, f) <= Sum(s, g)
  {
    if s != [] {
      SumAtMost(s[..|s| - 1], f, g);
      assert s[|s| - 1] in s;
    }
  }

  lemma {:induction false} SumSame(s: seq<Entry>, f: Entry -> real, g: Entry -> real)
    requires forall e :: e in s ==> f(e) == g(e)
    ensures Sum(s, f) == Sum(s, g)
  {
    if s != [] {
      SumSame(s[..|s| - 1], f, g);
      assert s[|s| - 1] in s;
    }
  }

  lemma {:induction false} SumSplits(s: seq<Entry>, f: Entry -> real, g: Entry -> real, h: Entry -> real)
    requires forall e :: e in s ==> f(e) == g(e) + h(e)
    ensures Sum(s, f) == Sum(s, g) + Sum(s, h)
  {
    if s != [] {
      SumSplits(s[..|s| - 1], f, g, h);
      assert s[|s| - 1] in s;
    }
  }

  /** A sum over the kept entries is a sum over all with the others counted as zero. */
  lemma {:induction false} SumOfFilter(s: seq<Entry>, keep: Entry -> bool, f: Entry -> real)
    ensures Sum(Filter(s, keep), f) == Sum(s, OnlyIf(keep, f))
  {
    if s != [] {
      SumOfFilter(s[..|s| - 1], keep, f);
      SumConcat(Filter(s[..|s| - 1], keep), if keep(s[|s| - 1]) then [s[|s| - 1]] else [], f);
      assert keep(s[|s| - 1]) ==> Sum([s[|s| - 1]], f) == f(s[|s| - 1]) by {
        assert [s[|s| - 1]][..0] == [];
      }
    }
  }

  function OnlyIf(keep: Entry -> bool, f: Entry -> real): Entry -> real {
    (e: Entry) => if keep(e) then f(e) else 0.0
  }

  // ---------- weights ----------

  const WeightOf: Entry -> real := (e: Entry) => e.weight

  function Total(s: seq<Entry>): real { Sum(s, WeightOf) }

  function WeightWhere(s: seq<Entry>, keep: Entry -> bool): real { Sum(s, OnlyIf(keep, WeightOf)) }

  function AtMost(x: real): Entry -> bool { (e: Entry) => e.value <= x }
  function Below(x: real): Entry -> bool { (e: Entry) => e.value < x }
  function Above(x: real): Entry -> bool { (e: Entry) => e.value > x }
  function Within(lo: real, hi: real): Entry -> bool { (e: Entry) => lo <= e.value <= hi }

  /** What the sums are: each entry adds its term, its weight, or its weight if it is counted. */
  lemma SumsExactly(s: seq<Entry>, e: Entry, keep: Entry -> bool, f: Entry -> real)
    ensures Sum([], f) == 0.0 && Sum(s + [e], f) == Sum(s, f) + f(e)
    ensures Total(s + [e]) == Total(s) + e.weight
    ensures WeightWhere(s + [e], keep) == WeightWhere(s, keep) + (if keep(e) then e.weight else 0.0)
    ensures Total([]) == 0.0 && WeightWhere([], keep) == 0.0
    ensures Total(s + [e]) == Total(s) + e.weight
    ensures WeightWhere(s + [e], keep) == WeightWhere(s, keep) + (if keep(e) then e.weight else 0.0)
  {
    assert (s + [e])[..|s|] == s;
  }

  lemma {:induction false} TotalPositive(s: seq<Entry>)
    requires Weighted(s) && s != []
    ensures Total(s) > 0.0
  {
    assert s[|s| - 1] in s;
    if |s| > 1 {
      TotalPositive(s[..|s| - 1]);
    } else {
      assert s[..0] == [];
      SumOneMore(s, WeightOf, 0);
      assert s[..1] == s;
    }
  }

  /** More entries counted, more weight. */
  lemma WeightMonotone(s: seq<Entry>, small: Entry -> bool, large: Entry -> bool)
    requires Weighted(s) && forall e :: e in s && small(e) ==> large(e)
    ensures WeightWhere(s, small) <= WeightWhere(s, large)
  {
    SumAtMost(s, OnlyIf(small, WeightOf), OnlyIf(large, WeightOf));
  }

  /** Entries counted in neither of two disjoint groups weigh what is left. */
  lemma DisjointWeights(s: seq<Entry>, a: Entry -> bool, b: Entry -> bool)
    requires Weighted(s) && forall e :: e in s ==> !(a(e) && b(e))
    ensures WeightWhere(s, a) + WeightWhere(s, b) <= Total(s)
  {
    var either := (e: Entry) => a(e) || b(e);
    SumSplits(s, OnlyIf(either, WeightOf), OnlyIf(a, WeightOf), OnlyIf(b, WeightOf));
    SumAtMost(s, OnlyIf(either, WeightOf), WeightOf);
  }

  /** Complementary groups weigh the total together. */
  lemma ComplementWeights(s: seq<Entry>, a: Entry -> bool, b: Entry -> bool)
    requires forall e :: e in s ==> (a(e) <==> !b(e))
    ensures WeightWhere(s, a) + WeightWhere(s, b) == Total(s)
  {
    SumSplits(s, WeightOf, OnlyIf(a, WeightOf), OnlyIf(b, WeightOf));
  }

  // ---------- order ----------

  const ByValue: (Entry, Entry) -> bool := (a: Entry, b: Entry) => a.value <= b.value

  const ByPrice: (Quote, Quote) -> bool := (p: Quote, q: Quote) => p.price.value <= q.price.value

  lemma ByValueIsTotal()
    ensures TotalPreorder(ByValue)
  {
  }

  lemma ByPriceIsTotal()
    ensures TotalPreorder(ByPrice)
  {
  }

  /** A sorted arrangement of the entries. */
  function SortedOf(s: seq<Entry>): (r: seq<Entry>)
    ensures Sorted(r, ByValue) && multiset(r) == multiset(s) && |r| == |s|
    ensures forall e :: e in r <==> e in s
  {
    ByValueIsTotal();
    var r := Arrange(s, ByValue);
    assert forall e :: (e in r <==> e in multiset(r)) && (e in s <==> e in multiset(s));
    r
  }

  /** Sorting the quotes sorts their entries. */
  method SortQuotes(prices: array<Quote>)
    modifies prices
    ensures multiset(prices[..]) == multiset(old(prices[..]))
    ensures Sorted(Entries(prices[..]), ByValue)
    ensures multiset(Entries(prices[..])) == multiset(Entries(old(prices[..])))
  {
    ByPriceIsTotal();
    ghost var before := prices[..];
    SortSlice(prices, ByPrice);
    SortedEntries(prices[..]);
    MapPermutes(prices[..], before, EntryOf);
  }

  lemma SortedEntries(qs: seq<Quote>)
    requires Sorted(qs, ByPrice)
    ensures Sorted(Entries(qs), ByValue)
  {
    forall i, j | 0 <= i < j < |qs| ensures ByValue(Entries(qs)[i], Entries(qs)[j]) {
      assert ByPrice(qs[i], qs[j]);
    }
  }

  lemma {:induction false} FilterSorted(s: seq<Entry>, keep: Entry -> bool)
    requires Sorted(s, ByValue)
    ensures Sorted(Filter(s, keep), ByValue)
  {
    if s != [] {
      var n := |s| - 1;
      FilterSorted(s[..n], keep);
      var f := Filter(s[..n], keep);
      forall i | 0 <= i < |f| ensures ByValue(f[i], s[n]) {
        assert f[i] in f;
        var k :| 0 <= k < n && s[k] == f[i];
      }
    }
  }

  lemma {:induction false} FilterEntries(qs: seq<Quote>, keep: Entry -> bool, keepQuote: Quote -> bool)
    requires forall q :: q in qs ==> keepQuote(q) == keep(EntryOf(q))
    ensures Entries(Filter(qs, keepQuote)) == Filter(Entries(qs), keep)
  {
    if qs != [] {
      FilterEntries(qs[..|qs| - 1], keep, keepQuote);
      assert Entries(qs)[..|qs| - 1] == Entries(qs[..|qs| - 1]);
      assert qs[|qs| - 1] in qs;
    }
  }
}
