/** Regrouping the sources' prices by canonical symbol, and one price per symbol: the Aggregate
    methods of the three aggregators, which differ only in the price they compute for a group. */
module Aggregators {
  import opened Wrappers
  import opened Sorting
  import opened Quotes
  import opened Symbols
  import opened Medians
  import opened MedianAggregator
  import opened Averages
  import opened AdaptiveAggregator

  type SourcePrices = map<string, map<string, Price>>

  /** One price of one source. */
  datatype Key = Key(source: string, symbol: string)

  datatype AggregateError = NoSourcePrices | NoPricesComputed

  function Keys(sourcePrices: SourcePrices): set<Key> {
    set source, symbol | source in sourcePrices && symbol in sourcePrices[source] :: Key(source, symbol)
  }

  function WeightFor(source: string, weights: map<string, real>): real {
    if source in weights then weights[source] else 1.0
  }

  function QuoteOf(sourcePrices: SourcePrices, weights: map<string, real>): Key -> Quote {
    (k: Key) =>
      if k.source in sourcePrices && k.symbol in sourcePrices[k.source]
      then Quote(sourcePrices[k.source][k.symbol], k.source, WeightFor(k.source, weights))
      else Quote(Price("", 0.0, ""), "", 0.0)
  }

  function InGroup(group: string): Key -> bool {
    (k: Key) => NormalizeSymbol(k.symbol) == group
  }

  /** The quotes of one canonical symbol, in the order in which the maps were visited. */
  function GroupOf(order: seq<Key>, sourcePrices: SourcePrices, weights: map<string, real>, group: string): seq<Quote> {
    Map(Filter(order, InGroup(group)), QuoteOf(sourcePrices, weights))
  }

  function Groups(order: seq<Key>): set<string> {
    set k | k in order :: NormalizeSymbol(k.symbol)
  }

  // ---------- regrouping ----------

  /** The groups hold the quotes of the keys visited so far, each in the group of its canonical symbol. */
  ghost predicate Grouped(groups: map<string, seq<Quote>>, order: seq<Key>, sourcePrices: SourcePrices,
                          weights: map<string, real>)
  {
    && groups.Keys == Groups(order)
    && forall g :: g in groups ==> groups[g] == GroupOf(order, sourcePrices, weights, g)
  }

  lemma GroupOfOneMore(order: seq<Key>, sourcePrices: SourcePrices, weights: map<string, real>, k: Key, g: string)
    ensures GroupOf(order + [k], sourcePrices, weights, g)
         == GroupOf(order, sourcePrices, weights, g)
            + (if InGroup(g)(k) then [QuoteOf(sourcePrices, weights)(k)] else [])
  {
    assert (order + [k])[..|order|] == order;
  }

  lemma GroupsOneMore(order: seq<Key>, k: Key)
    ensures Groups(order + [k]) == Groups(order) + {NormalizeSymbol(k.symbol)}
  {
    assert forall j :: j in order + [k] <==> j in order || j == k;
  }

  lemma NoGroup(order: seq<Key>, sourcePrices: SourcePrices, weights: map<string, real>, g: string)
    requires g !in Groups(order)
    ensures GroupOf(order, sourcePrices, weights, g) == []
  {
    assert forall k :: k in order ==> NormalizeSymbol(k.symbol) in Groups(order);
    FirstIsIn(Filter(order, InGroup(g)));
  }

  /** Appending a quote to the group of its canonical symbol. */
  lemma GroupOneMore(groups: map<string, seq<Quote>>, order: seq<Key>, sourcePrices: SourcePrices,
                     weights: map<string, real>, k: Key, g: string, groups': map<string, seq<Quote>>)
    requires Grouped(groups, order, sourcePrices, weights) && g == NormalizeSymbol(k.symbol)
    requires groups' == groups[g := (if g in groups then groups[g] else []) + [QuoteOf(sourcePrices, weights)(k)]]
    ensures Grouped(groups', order + [k], sourcePrices, weights)
  {
    GroupsOneMore(order, k);
    forall h | h in groups' ensures groups'[h] == GroupOf(order + [k], sourcePrices, weights, h) {
      GroupOfOneMore(order, sourcePrices, weights, k, h);
      if h !in groups {
        NoGroup(order, sourcePrices, weights, h);
      }
    }
  }

  /** The quote of a key: the price its source sent, with the source's configured weight, or 1 if it has none. */
  ghost predicate IsQuoteOf(quote: Quote, k: Key, sourcePrices: SourcePrices, weights: map<string, real>) {
    && k.source in sourcePrices && k.symbol in sourcePrices[k.source]
    && quote.price == sourcePrices[k.source][k.symbol] && quote.source == k.source
    && quote.weight == if k.source in weights then weights[k.source] else 1.0
  }

  ghost predicate AreQuotesOf(quotes: seq<Quote>, keys: seq<Key>, sourcePrices: SourcePrices, weights: map<string, real>) {
    |quotes| == |keys| && forall i :: 0 <= i < |keys| ==> IsQuoteOf(quotes[i], keys[i], sourcePrices, weights)
  }

  /** What the groups hold: for each canonical symbol the quotes of exactly the keys that normalise to it, in
      the order in which the keys were visited. */
  lemma GroupsExactly(groups: map<string, seq<Quote>>, order: seq<Key>, sourcePrices: SourcePrices,
                      weights: map<string, real>, g: string)
    requires Enumerates(order, Keys(sourcePrices)) && Grouped(groups, order, sourcePrices, weights)
    ensures g in groups <==> exists k :: k in order && NormalizeSymbol(k.symbol) == g
    ensures g in groups ==>
              AreQuotesOf(groups[g], Filter(order, (k: Key) => NormalizeSymbol(k.symbol) == g), sourcePrices, weights)
  {
    if g in groups {
      FilterSame(order, InGroup(g), (k: Key) => NormalizeSymbol(k.symbol) == g);
      QuotesOfKeys(Filter(order, InGroup(g)), sourcePrices, weights);
    }
  }

  lemma QuotesOfKeys(keys: seq<Key>, sourcePrices: SourcePrices, weights: map<string, real>)
    requires forall k :: k in keys ==> k in Keys(sourcePrices)
    ensures AreQuotesOf(Map(keys, QuoteOf(sourcePrices, weights)), keys, sourcePrices, weights)
  {
    forall i | 0 <= i < |keys| ensures IsQuoteOf(QuoteOf(sourcePrices, weights)(keys[i]), keys[i], sourcePrices, weights) {
      assert keys[i] in keys && keys[i] in Keys(sourcePrices);
    }
  }

  /** The keys of the sources in `sources`. */
  function KeysOf(sourcePrices: SourcePrices, sources: set<string>): set<Key> {
    set source, symbol | source in sources && source in sourcePrices && symbol in sourcePrices[source] :: Key(source, symbol)
  }

  /** The nested loops over the sources and their prices, which visit every key once in some order. */
  method GroupByCanonicalSymbol(sourcePrices: SourcePrices, weights: map<string, real>)
    returns (groups: map<string, seq<Quote>>)
    ensures Regrouped(groups, sourcePrices, weights)
  {
    groups := map[];
    ghost var order: seq<Key> := [];
    var sources := sourcePrices.Keys;
    while sources != {}
      invariant sources <= sourcePrices.Keys
      invariant Enumerates(order, KeysOf(sourcePrices, sourcePrices.Keys - sources))
      invariant Grouped(groups, order, sourcePrices, weights)
      decreases sources
    {
      var source :| source in sources;
      ghost var done := KeysOf(sourcePrices, sourcePrices.Keys - sources);
      groups, order := GroupSource(sourcePrices, weights, source, groups, order, done);
      sources := sources - {source};
      assert KeysOf(sourcePrices, sourcePrices.Keys - sources)
          == done + (set symbol | symbol in sourcePrices[source] :: Key(source, symbol));
    }
    assert KeysOf(sourcePrices, sourcePrices.Keys - sources) == Keys(sourcePrices);
  }

  /** The inner loop, over the prices of one source. */
  method GroupSource(sourcePrices: SourcePrices, weights: map<string, real>, source: string,
                     before: map<string, seq<Quote>>, ghost visited: seq<Key>, ghost done: set<Key>)
    returns (groups: map<string, seq<Quote>>, ghost order: seq<Key>)
    requires source in sourcePrices && Grouped(before, visited, sourcePrices, weights)
    requires Enumerates(visited, done) && forall k :: k in done ==> k.source != source
    ensures Grouped(groups, order, sourcePrices, weights)
    ensures Enumerates(order, done + (set symbol | symbol in sourcePrices[source] :: Key(source, symbol)))
  {
    groups, order := before, visited;
    var weight := 1.0;
    if source in weights {
      weight := weights[source];
    }
    var prices := sourcePrices[source];
    var symbols := prices.Keys;
    ghost var now := done;
    while symbols != {}
      invariant symbols <= prices.Keys
      invariant now == done + (set symbol | symbol in prices && symbol !in symbols :: Key(source, symbol))
      invariant Enumerates(order, now)
      invariant Grouped(groups, order, sourcePrices, weights)
      decreases symbols
    {
      var originalSymbol :| originalSymbol in symbols;
      ghost var k := Key(source, originalSymbol);
      var quote := Quote(prices[originalSymbol], source, weight);
      assert quote == QuoteOf(sourcePrices, weights)(k);
      EnumerateOneMore(order, now, k);
      groups := AppendQuote(groups, NormalizeSymbol(originalSymbol), quote, sourcePrices, weights, order, k);
      order, now := order + [k], now + {k};
      symbols := symbols - {originalSymbol};
    }
  }

  method AppendQuote(before: map<string, seq<Quote>>, normalizedSymbol: string, quote: Quote,
                     ghost sourcePrices: SourcePrices, ghost weights: map<string, real>, ghost order: seq<Key>, ghost k: Key)
    returns (groups: map<string, seq<Quote>>)
    requires Grouped(before, order, sourcePrices, weights)
    requires normalizedSymbol == NormalizeSymbol(k.symbol) && quote == QuoteOf(sourcePrices, weights)(k)
    ensures Grouped(groups, order + [k], sourcePrices, weights)
  {
    var group := if normalizedSymbol in before then before[normalizedSymbol] else [];
    groups := before[normalizedSymbol := group + [quote]];
    GroupOneMore(before, order, sourcePrices, weights, k, normalizedSymbol, groups);
  }

  // ---------- aggregating ----------

  datatype Mode =
    | Median
    | Average
    | Adaptive(sensitivity: real, finalMode: FinalMode, sqrt: real -> real)

  /** The price of a group of quotes. */
  function PriceOf(mode: Mode, s: seq<Entry>): real {
    match mode
    case Median => MedianPrice(s)
    case Average => WeightedAverage(s)
    case Adaptive(k, finalMode, sqrt) => AdaptivePrice(s, k, StdDev(s, Middle(s), sqrt), finalMode)
  }

  /** What each aggregator needs: the median divides by a price, its scan and the adaptive one's in median
      mode rely on positive weights, averages take anything. */
  ghost predicate Suitable(mode: Mode, s: seq<Entry>) {
    match mode
    case Median => Positive(s)
    case Average => true
    case Adaptive(_, finalMode, _) => finalMode == ModeMedian ==> Weighted(s)
  }

  /** What each aggregator makes of a group. The median aggregator: the median of the quotes within 10% of
      the median of all, or of all if there are none. */
  lemma MedianModeExactly(s: seq<Entry>) returns (m: real)
    requires Positive(s) && s != []
    ensures IsMedian(s, m) && IsMedianOfKept(s, Within(0.9 * m, 1.1 * m), PriceOf(Median, s))
  {
    m := PriceExactly(s);
  }

  /** The average aggregator: the weighted average. */
  lemma AverageModeExactly(s: seq<Entry>)
    requires Total(s) != 0.0
    ensures IsAverage(s, PriceOf(Average, s))
  {
    AverageExactly(s);
  }

  /** The adaptive aggregator: the median or the average of the quotes within t, that is k standard
      deviations, of the simple median, or of all if there are none. */
  lemma AdaptiveModeExactly(s: seq<Entry>, k: real, sqrt: real -> real, sigma: real, t: real, finalMode: FinalMode)
    requires |s| >= 2 && (finalMode == ModeMedian ==> Weighted(s)) && IsSqrt(sqrt)
    requires IsDeviationFrom(s, Middle(s), sigma) && t == k * sigma
    ensures IsPriceOfKept(s, Within(Middle(s) - t, Middle(s) + t), finalMode, PriceOf(Adaptive(k, finalMode, sqrt), s))
  {
    StdDevExactly(s, Middle(s), sqrt);
    DeviationUnique(s, Middle(s), sigma, StdDev(s, Middle(s), sqrt));
    AdaptivePriceExactly(s, k, sigma, t, finalMode);
  }

  /** No aggregator's price depends on the order of the quotes. */
  lemma PriceOrderIndependent(mode: Mode, s: seq<Entry>, t: seq<Entry>)
    requires Suitable(mode, s) && multiset(s) == multiset(t)
    ensures PriceOf(mode, s) == PriceOf(mode, t)
  {
    match mode
    case Median => MedianOrderIndependent(s, t);
    case Average => AveragePermutes(s, t);
    case Adaptive(k, finalMode, sqrt) =>
      SameLength(s, t);
      AdaptiveOrderIndependent(s, t, k, StdDev(s, Middle(s), sqrt), finalMode);
  }

  /** The final step scans for a weighted median. */
  predicate Scans(mode: Mode) {
    mode.Median? || (mode.Adaptive? && mode.finalMode == ModeMedian)
  }

  /** Positive weights where a weighted median is taken, and for the median aggregator positive prices. */
  ghost predicate SuitableInputs(mode: Mode, sourcePrices: SourcePrices, weights: map<string, real>) {
    && (mode.Median? ==> forall n, s :: n in sourcePrices && s in sourcePrices[n] ==> sourcePrices[n][s].value > 0.0)
    && (Scans(mode) ==> forall n :: n in weights ==> weights[n] > 0.0)
  }

  lemma GroupSuitable(mode: Mode, order: seq<Key>, sourcePrices: SourcePrices, weights: map<string, real>, group: string)
    requires SuitableInputs(mode, sourcePrices, weights)
    requires forall k :: k in order ==> k in Keys(sourcePrices)
    ensures Suitable(mode, Entries(GroupOf(order, sourcePrices, weights, group)))
  {
    var kept := Filter(order, InGroup(group));
    var s := Entries(GroupOf(order, sourcePrices, weights, group));
    if Scans(mode) {
      forall e | e in s ensures e.weight > 0.0 && (mode.Median? ==> e.value > 0.0) {
        var i :| 0 <= i < |s| && s[i] == e;
        assert kept[i] in kept && kept[i] in Keys(sourcePrices);
      }
    }
  }

  /** Two visiting orders of the same maps give the same groups up to order. */
  lemma GroupPermutes(order: seq<Key>, order': seq<Key>, sourcePrices: SourcePrices, weights: map<string, real>, group: string)
    requires Enumerates(order, Keys(sourcePrices)) && Enumerates(order', Keys(sourcePrices))
    ensures multiset(Entries(GroupOf(order, sourcePrices, weights, group)))
         == multiset(Entries(GroupOf(order', sourcePrices, weights, group)))
    ensures Groups(order) == Groups(order')
  {
    EnumerationsPermute(order, order', Keys(sourcePrices));
    FilterPermutes(order, order', InGroup(group));
    MapPermutes(Filter(order, InGroup(group)), Filter(order', InGroup(group)), QuoteOf(sourcePrices, weights));
    MapPermutes(GroupOf(order, sourcePrices, weights, group), GroupOf(order', sourcePrices, weights, group), EntryOf);
  }

  /** One price for each canonical symbol: the aggregate of all quotes that normalise to it, the same
      for every order in which the maps are visited. */
  ghost predicate Aggregated(result: map<string, Price>, mode: Mode, sourcePrices: SourcePrices, weights: map<string, real>)
  {
    forall order :: Enumerates(order, Keys(sourcePrices)) ==>
      result.Keys == Groups(order) && Computed(result, mode, order, sourcePrices, weights)
  }

  method Aggregate(mode: Mode, sourcePrices: SourcePrices, weights: map<string, real>)
    returns (r: Result<map<string, Price>, AggregateError>)
    requires SuitableInputs(mode, sourcePrices, weights)
    requires mode.Adaptive? ==> mode.sensitivity > 0.0
    ensures r == Err(NoSourcePrices) <==> sourcePrices == map[]
    ensures r == Err(NoPricesComputed) <==> sourcePrices != map[] && Keys(sourcePrices) == {}
    ensures r.Ok? ==> r.value != map[] && Aggregated(r.value, mode, sourcePrices, weights)
  {
    if |sourcePrices| == 0 {
      return Err(NoSourcePrices);
    }
    var groups := GroupByCanonicalSymbol(sourcePrices, weights);
    GroupedPriceable(mode, groups, sourcePrices, weights);
    r := AggregateGroups(mode, groups);
    if r.Ok? {
      PricedForAll(r.value, mode, groups, sourcePrices, weights);
    }
  }

  method AggregateGroups(mode: Mode, groups: map<string, seq<Quote>>) returns (r: Result<map<string, Price>, AggregateError>)
    requires Priceable(mode, groups)
    requires mode.Adaptive? ==> mode.sensitivity > 0.0
    ensures groups.Keys == {} ==> r == Err(NoPricesComputed)
    ensures groups.Keys != {} ==> r.Ok? && r.value != map[] && Priced(r.value, mode, groups)
  {
    var result := PriceGroups(mode, groups);
    r := if |result| == 0 then Err(NoPricesComputed) else Ok(result);
  }

  lemma NoGroupsNoKeys(order: seq<Key>)
    ensures order == [] <==> Groups(order) == {}
  {
    if order != [] {
      assert order[0] in order && NormalizeSymbol(order[0].symbol) in Groups(order);
    }
  }

  /** The prices computed from the groups of one visiting order. */
  ghost predicate Computed(result: map<string, Price>, mode: Mode, order: seq<Key>, sourcePrices: SourcePrices,
                           weights: map<string, real>)
  {
    forall g :: g in result ==>
      result[g].symbol == g && result[g].value == PriceOf(mode, Entries(GroupOf(order, sourcePrices, weights, g)))
  }

  /** Groups that can be priced. */
  ghost predicate Priceable(mode: Mode, groups: map<string, seq<Quote>>) {
    forall g :: g in groups ==> groups[g] != [] && Suitable(mode, Entries(groups[g]))
  }

  /** One price for each group. */
  ghost predicate Priced(result: map<string, Price>, mode: Mode, groups: map<string, seq<Quote>>) {
    && result.Keys == groups.Keys
    && forall g :: g in result ==> IsPriceOf(result[g], mode, g, groups[g])
  }

  ghost predicate IsPriceOf(price: Price, mode: Mode, symbol: string, group: seq<Quote>) {
    price.symbol == symbol && price.value == PriceOf(mode, Entries(group))
  }

  /** The loop over the groups. */
  method PriceGroups(mode: Mode, groups: map<string, seq<Quote>>) returns (result: map<string, Price>)
    requires Priceable(mode, groups)
    requires mode.Adaptive? ==> mode.sensitivity > 0.0
    ensures Priced(result, mode, groups)
  {
    result := map[];
    var remaining := groups.Keys;
    while remaining != {}
      invariant remaining <= groups.Keys && result.Keys == groups.Keys - remaining
      invariant forall g :: g in result ==> IsPriceOf(result[g], mode, g, groups[g])
      decreases remaining
    {
      var symbol :| symbol in remaining;
      assert groups[symbol] != [] && Suitable(mode, Entries(groups[symbol]));
      var price := ComputePrice(mode, groups[symbol]);
      result := result[symbol := Price(symbol, price, "aggregator")];
      remaining := remaining - {symbol};
    }
  }

  /** The groups of some visiting order. */
  ghost predicate Regrouped(groups: map<string, seq<Quote>>, sourcePrices: SourcePrices, weights: map<string, real>) {
    exists order :: Enumerates(order, Keys(sourcePrices)) && Grouped(groups, order, sourcePrices, weights)
  }

  lemma GroupedPriceable(mode: Mode, groups: map<string, seq<Quote>>, sourcePrices: SourcePrices,
                         weights: map<string, real>)
    requires SuitableInputs(mode, sourcePrices, weights) && Regrouped(groups, sourcePrices, weights)
    ensures Priceable(mode, groups)
    ensures groups.Keys == {} <==> Keys(sourcePrices) == {}
  {
    var order :| Enumerates(order, Keys(sourcePrices)) && Grouped(groups, order, sourcePrices, weights);
    NoGroupsNoKeys(order);
    forall g | g in groups ensures groups[g] != [] && Suitable(mode, Entries(groups[g])) {
      GroupSuitable(mode, order, sourcePrices, weights, g);
      GroupNonEmpty(order, sourcePrices, weights, g);
    }
  }

  lemma PricedForAll(result: map<string, Price>, mode: Mode, groups: map<string, seq<Quote>>, sourcePrices: SourcePrices,
                     weights: map<string, real>)
    requires SuitableInputs(mode, sourcePrices, weights) && Regrouped(groups, sourcePrices, weights)
    requires Priced(result, mode, groups)
    ensures Aggregated(result, mode, sourcePrices, weights)
  {
    var order :| Enumerates(order, Keys(sourcePrices)) && Grouped(groups, order, sourcePrices, weights);
    AggregatedForAll(result, mode, order, sourcePrices, weights);
  }

  lemma GroupNonEmpty(order: seq<Key>, sourcePrices: SourcePrices, weights: map<string, real>, group: string)
    requires group in Groups(order)
    ensures GroupOf(order, sourcePrices, weights, group) != []
  {
    var k :| k in order && NormalizeSymbol(k.symbol) == group;
    assert k in Filter(order, InGroup(group));
  }

  /** The aggregator's own computation for one group. */
  method ComputePrice(mode: Mode, group: seq<Quote>) returns (price: real)
    requires group != [] && Suitable(mode, Entries(group))
    requires mode.Adaptive? ==> mode.sensitivity > 0.0
    ensures price == PriceOf(mode, Entries(group))
  {
    var prices := new Quote[|group|](i requires 0 <= i < |group| => group[i]);
    assert prices[..] == group;
    var computed;
    match mode
    case Median =>
      computed := ComputeMedianWithOutlierRejection(prices);
      price := computed.value;
    case Average =>
      price := ComputeWeightedAverage(group);
    case Adaptive(sensitivity, finalMode, sqrt) =>
      var aggregator := new AdaptiveAggregator(sensitivity, Some(finalMode), sqrt);
      computed := aggregator.ComputeAdaptivePrice(prices);
      price := computed.value;
  }

  lemma AggregatedForAll(result: map<string, Price>, mode: Mode, order: seq<Key>, sourcePrices: SourcePrices,
                         weights: map<string, real>)
    requires SuitableInputs(mode, sourcePrices, weights) && Enumerates(order, Keys(sourcePrices))
    requires result.Keys == Groups(order)
    requires Computed(result, mode, order, sourcePrices, weights)
    ensures Aggregated(result, mode, sourcePrices, weights)
  {
    forall order' | Enumerates(order', Keys(sourcePrices))
      ensures result.Keys == Groups(order') && Computed(result, mode, order', sourcePrices, weights)
    {
      GroupPermutes(order, order', sourcePrices, weights, "");
      forall g | g in result
        ensures result[g].value == PriceOf(mode, Entries(GroupOf(order', sourcePrices, weights, g)))
      {
        GroupPermutes(order, order', sourcePrices, weights, g);
        GroupSuitable(mode, order, sourcePrices, weights, g);
        PriceOrderIndependent(mode, Entries(GroupOf(order, sourcePrices, weights, g)),
                              Entries(GroupOf(order', sourcePrices, weights, g)));
      }
    }
  }

  /** Every price of every source ends up in exactly one group, once. */
  lemma RegroupingPartitions(order: seq<Key>, sourcePrices: SourcePrices, weights: map<string, real>, k: Key)
    requires Enumerates(order, Keys(sourcePrices)) && k in Keys(sourcePrices)
    ensures forall g :: multiset(Filter(order, InGroup(g)))[k] == if g == NormalizeSymbol(k.symbol) then 1 else 0
    ensures NormalizeSymbol(k.symbol) in Groups(order)
  {
    Multiplicity(order, k);
    forall g ensures multiset(Filter(order, InGroup(g)))[k] == if g == NormalizeSymbol(k.symbol) then 1 else 0 {
      FilterMultiplicity(order, InGroup(g), k);
    }
  }

  // ---------- trusted sources ----------

  /** The weight that the sources in `from` carry for a canonical symbol. */
  function WeightFrom(order: seq<Key>, weights: map<string, real>, group: string, from: set<string>): real {
    if order == [] then 0.0
    else
      var k := order[|order| - 1];
      WeightFrom(order[..|order| - 1], weights, group, from)
      + (if NormalizeSymbol(k.symbol) == group && k.source in from
         then (if k.source in weights then weights[k.source] else 1.0) else 0.0)
  }

  /** The trusted sources quote the canonical symbol within [lo, hi]. */
  ghost predicate QuoteWithin(sourcePrices: SourcePrices, group: string, trusted: set<string>, lo: real, hi: real) {
    forall k :: k in Keys(sourcePrices) && NormalizeSymbol(k.symbol) == group && k.source in trusted ==>
      lo <= sourcePrices[k.source][k.symbol].value <= hi
  }

  lemma {:induction false} WeightsOfGroup(order: seq<Key>, sourcePrices: SourcePrices, weights: map<string, real>,
                                          group: string, trusted: set<string>, lo: real, hi: real)
    requires SuitableInputs(Median, sourcePrices, weights) && QuoteWithin(sourcePrices, group, trusted, lo, hi)
    requires forall k :: k in order ==> k in Keys(sourcePrices)
    ensures Total(Entries(GroupOf(order, sourcePrices, weights, group)))
         == WeightFrom(order, weights, group, sourcePrices.Keys)
    ensures WeightWhere(Entries(GroupOf(order, sourcePrices, weights, group)), Within(lo, hi))
         >= WeightFrom(order, weights, group, trusted)
  {
    if order == [] {
      assert GroupOf(order, sourcePrices, weights, group) == [];
    } else {
      var front, k := order[..|order| - 1], order[|order| - 1];
      assert order == front + [k] && k in order;
      WeightsOfGroup(front, sourcePrices, weights, group, trusted, lo, hi);
      GroupSums(front, sourcePrices, weights, k, group, WeightOf);
      GroupSums(front, sourcePrices, weights, k, group, OnlyIf(Within(lo, hi), WeightOf));
      KeyWeights(sourcePrices, weights, group, trusted, lo, hi, k);
    }
  }

  /** What one more key adds to a sum over its group. */
  lemma GroupSums(front: seq<Key>, sourcePrices: SourcePrices, weights: map<string, real>, k: Key, group: string,
                  f: Entry -> real)
    ensures Sum(Entries(GroupOf(front + [k], sourcePrices, weights, group)), f)
         == Sum(Entries(GroupOf(front, sourcePrices, weights, group)), f)
            + (if InGroup(group)(k) then f(EntryOf(QuoteOf(sourcePrices, weights)(k))) else 0.0)
  {
    GroupOfOneMore(front, sourcePrices, weights, k, group);
    var before, after := GroupOf(front, sourcePrices, weights, group), GroupOf(front + [k], sourcePrices, weights, group);
    if InGroup(group)(k) {
      var e := EntryOf(QuoteOf(sourcePrices, weights)(k));
      assert Entries(after) == Entries(before) + [e];
      SumOfLast(Entries(before), e, f);
    } else {
      assert after == before;
    }
  }

  lemma SumOfLast(s: seq<Entry>, e: Entry, f: Entry -> real)
    ensures Sum(s + [e], f) == Sum(s, f) + f(e)
  {
    assert (s + [e])[..|s|] == s;
  }

  /** The weight of one key, and that it counts as within the bounds if its source is trusted. */
  lemma KeyWeights(sourcePrices: SourcePrices, weights: map<string, real>, group: string, trusted: set<string>,
                   lo: real, hi: real, k: Key)
    requires SuitableInputs(Median, sourcePrices, weights) && QuoteWithin(sourcePrices, group, trusted, lo, hi)
    requires k in Keys(sourcePrices)
    ensures var e := EntryOf(QuoteOf(sourcePrices, weights)(k));
            && e.weight == (if k.source in weights then weights[k.source] else 1.0) > 0.0 && k.source in sourcePrices.Keys
            && (InGroup(group)(k) && k.source in trusted ==> Within(lo, hi)(e))
  {
  }

  /** If sources that carry more than half of the weight for a symbol quote it within [lo, hi], under
      whatever aliases, and hi is at most 1.1 lo, the median aggregator's price is within [lo, hi],
      whatever the other sources send. */
  lemma TrustedMajorityDecides(result: map<string, Price>, sourcePrices: SourcePrices, weights: map<string, real>,
                               order: seq<Key>, group: string, trusted: set<string>, lo: real, hi: real)
    requires SuitableInputs(Median, sourcePrices, weights) && Aggregated(result, Median, sourcePrices, weights)
    requires Enumerates(order, Keys(sourcePrices)) && 0.0 < lo <= hi <= 1.1 * lo
    requires QuoteWithin(sourcePrices, group, trusted, lo, hi)
    requires 2.0 * WeightFrom(order, weights, group, trusted) > WeightFrom(order, weights, group, sourcePrices.Keys)
    ensures group in result && lo <= result[group].value <= hi
  {
    var s := Entries(GroupOf(order, sourcePrices, weights, group));
    WeightsOfGroup(order, sourcePrices, weights, group, trusted, lo, hi);
    GroupSuitable(Median, order, sourcePrices, weights, group);
    MajorityDecides(s, lo, hi);
    if group !in Groups(order) {
      NoGroup(order, sourcePrices, weights, group);
    }
  }

  // ---------- the average over the sources ----------

  /** The price of a key times the weight of its source. */
  function WeightedPrice(k: Key, sourcePrices: SourcePrices, weights: map<string, real>): real {
    if k.source in sourcePrices && k.symbol in sourcePrices[k.source]
    then sourcePrices[k.source][k.symbol].value * (if k.source in weights then weights[k.source] else 1.0) else 0.0
  }

  /** The prices sent for a canonical symbol, each times its source's weight, added up. */
  function WeightedPrices(order: seq<Key>, sourcePrices: SourcePrices, weights: map<string, real>, group: string): real {
    if order == [] then 0.0
    else
      var k := order[|order| - 1];
      WeightedPrices(order[..|order| - 1], sourcePrices, weights, group)
      + (if NormalizeSymbol(k.symbol) == group then WeightedPrice(k, sourcePrices, weights) else 0.0)
  }

  lemma KeyTerms(k: Key, sourcePrices: SourcePrices, weights: map<string, real>)
    requires k in Keys(sourcePrices)
    ensures var e := EntryOf(QuoteOf(sourcePrices, weights)(k));
            && ValueTimesWeight(e) == WeightedPrice(k, sourcePrices, weights)
            && WeightOf(e) == (if k.source in weights then weights[k.source] else 1.0) && k.source in sourcePrices
  {
  }

  lemma {:induction false} SumsOfGroup(order: seq<Key>, sourcePrices: SourcePrices, weights: map<string, real>,
                                       group: string)
    requires forall k :: k in order ==> k in Keys(sourcePrices)
    ensures Total(Entries(GroupOf(order, sourcePrices, weights, group)))
         == WeightFrom(order, weights, group, sourcePrices.Keys)
    ensures Sum(Entries(GroupOf(order, sourcePrices, weights, group)), ValueTimesWeight)
         == WeightedPrices(order, sourcePrices, weights, group)
  {
    if order == [] {
      assert GroupOf(order, sourcePrices, weights, group) == [];
    } else {
      var front, k := order[..|order| - 1], order[|order| - 1];
      assert order == front + [k] && k in order;
      SumsOfGroup(front, sourcePrices, weights, group);
      GroupSums(front, sourcePrices, weights, k, group, WeightOf);
      GroupSums(front, sourcePrices, weights, k, group, ValueTimesWeight);
      KeyTerms(k, sourcePrices, weights);
    }
  }

  /** In average mode a symbol's price times the weights of the sources that sent one is the sum of their
      prices times their weights. */
  lemma AverageOverSources(result: map<string, Price>, sourcePrices: SourcePrices, weights: map<string, real>,
                           order: seq<Key>, group: string, avg: real)
    requires Aggregated(result, Average, sourcePrices, weights) && group in result && avg == result[group].value
    requires Enumerates(order, Keys(sourcePrices)) && WeightFrom(order, weights, group, sourcePrices.Keys) != 0.0
    ensures IsAverageOver(avg, WeightFrom(order, weights, group, sourcePrices.Keys),
                          WeightedPrices(order, sourcePrices, weights, group))
  {
    AveragePriced(result, sourcePrices, weights, order, group);
    AverageOfGroup(order, sourcePrices, weights, group, avg, WeightFrom(order, weights, group, sourcePrices.Keys));
  }

  ghost predicate IsAverageOver(avg: real, total: real, sum: real) { avg * total == sum }

  lemma AverageOfGroup(order: seq<Key>, sourcePrices: SourcePrices, weights: map<string, real>, group: string,
                       avg: real, total: real)
    requires forall k :: k in order ==> k in Keys(sourcePrices)
    requires total == WeightFrom(order, weights, group, sourcePrices.Keys) && total != 0.0
    requires IsWeightedAverage(avg, Entries(GroupOf(order, sourcePrices, weights, group)))
    ensures IsAverageOver(avg, total, WeightedPrices(order, sourcePrices, weights, group))
  {
    var s := Entries(GroupOf(order, sourcePrices, weights, group));
    SumsOfGroup(order, sourcePrices, weights, group);
    ProductOfAverage(s, avg, total, WeightedPrices(order, sourcePrices, weights, group));
  }

  ghost predicate IsWeightedAverage(avg: real, s: seq<Entry>) { avg == WeightedAverage(s) }

  lemma ProductOfAverage(s: seq<Entry>, avg: real, total: real, sum: real)
    requires IsWeightedAverage(avg, s) && total == Total(s) && total != 0.0 && sum == Sum(s, ValueTimesWeight)
    ensures IsAverageOver(avg, total, sum)
  {
    AverageExactly(s);
  }

  lemma AveragePriced(result: map<string, Price>, sourcePrices: SourcePrices, weights: map<string, real>,
                      order: seq<Key>, group: string)
    requires Aggregated(result, Average, sourcePrices, weights) && group in result
    requires Enumerates(order, Keys(sourcePrices))
    ensures IsWeightedAverage(result[group].value, Entries(GroupOf(order, sourcePrices, weights, group)))
  {
  }
}
