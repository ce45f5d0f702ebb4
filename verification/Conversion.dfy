/** From USD prices by symbol to LUNC rates by denom: convertToOraclePrices and symbolToDenom
    in pkg/feeder/voter/voter.go. */
module Conversion {
  import opened Wrappers
  import opened Text
  import opened Sorting
  import opened Oracle
  import opened Tuples
  import opened Numerals

  const UST_META: string := "UST"

  predicate IsSymbolChar(c: char) {
    'A' <= c <= 'Z' || 'a' <= c <= 'z' || c == '/' || c == '-' || c == '_'
  }

  /** The empty string stands for an invalid symbol. */
  function SymbolToDenom(symbol: string): string {
    var trimmed := TrimSpace(symbol);
    if trimmed == "" || exists i :: 0 <= i < |trimmed| && !IsSymbolChar(trimmed[i]) then ""
    else DenomOf(TrimSuffix(TrimSuffix(TrimSuffix(ToUpper(trimmed), "/USD"), "/USDT"), "/USDC"))
  }

  function DenomOf(upper: string): string {
    if upper == "" then ""
    else if upper == "SDR" || upper == "XDR" then "usdr"
    else if upper == "USTC" || upper == "UST" then UST_META
    else if upper == "USD" then "uusd"
    else if upper == "KRW" then "ukrw"
    else if upper == "MNT" then "umnt"
    else "u" + ToLower(upper)
  }

  predicate IsLuncQuote(symbol: string) {
    symbol == "LUNC/USD" || symbol == "LUNC/USDT" || symbol == "LUNC/USDC"
  }

  /** The LUNC price in USD, from the first of the three quotes that is present. */
  function LuncUsd(prices: map<string, real>): Option<real> {
    if "LUNC/USD" in prices then Some(prices["LUNC/USD"])
    else if "LUNC/USDT" in prices then Some(prices["LUNC/USDT"])
    else if "LUNC/USDC" in prices then Some(prices["LUNC/USDC"])
    else None
  }

  /** The symbols that contribute a rate. */
  predicate Contributes(symbol: string, prices: map<string, real>, whitelist: seq<string>) {
    && symbol in prices && prices[symbol] != 0.0
    && !IsLuncQuote(symbol)
    && SymbolToDenom(symbol) != "" && SymbolToDenom(symbol) in whitelist
  }

  /** A contributing symbol quotes `denom`. */
  ghost predicate Priced(denom: string, prices: map<string, real>, whitelist: seq<string>) {
    exists symbol :: symbol in prices && Contributes(symbol, prices, whitelist) && SymbolToDenom(symbol) == denom
  }

  /** Units of a currency for one LUNC, from its USD price and LUNC's. */
  function PerLunc(price: real, lunc: real): real
    requires price != 0.0
  {
    var usdPerUnit := 1.0 / price;
    usdPerUnit * lunc
  }

  function Rate(symbol: string, prices: map<string, real>, lunc: real): Price {
    Price(SymbolToDenom(symbol),
          if symbol in prices && prices[symbol] != 0.0 then PerLunc(prices[symbol], lunc) else 0.0)
  }

  /** The rates of the contributing symbols, in the order in which the price map was visited. */
  function Rates(order: seq<string>, prices: map<string, real>, whitelist: seq<string>, lunc: real): seq<Price> {
    Map(Filter(order, symbol => Contributes(symbol, prices, whitelist)), symbol => Rate(symbol, prices, lunc))
  }

  function DenomsOf(ps: seq<Price>): set<string> {
    set p | p in ps :: p.denom
  }

  lemma DenomsOfOneMore(ps: seq<Price>, p: Price)
    ensures DenomsOf(ps + [p]) == DenomsOf(ps) + {p.denom}
  {
    assert forall q :: q in ps + [p] <==> q in ps || q == p;
  }

  function DefaultUsd(found: set<string>, whitelist: seq<string>, lunc: real): seq<Price> {
    if "uusd" in whitelist && "uusd" !in found then [Price("uusd", lunc)] else []
  }

  function Abstentions(found: set<string>, whitelist: seq<string>): seq<Price> {
    Map(Filter(whitelist, denom => denom !in found && denom != UST_META), denom => Price(denom, 0.0))
  }

  /** The conversion for one visiting order. */
  function Converted(order: seq<string>, prices: map<string, real>, whitelist: seq<string>, lunc: real): seq<Price> {
    var rates := Rates(order, prices, whitelist, lunc);
    var usd := DefaultUsd(DenomsOf(rates), whitelist, lunc);
    rates + usd + Abstentions(DenomsOf(rates + usd), whitelist)
  }

  /** The conversion of the fetched prices, for some visiting order. */
  ghost predicate IsConversion(result: seq<Price>, prices: map<string, real>, whitelist: seq<string>) {
    LuncUsd(prices).Some?
    && exists order :: Enumerates(order, prices.Keys)
                       && result == Converted(order, prices, whitelist, LuncUsd(prices).value)
  }

  /** `order` is the order in which the price map was visited. */
  method ConvertToOraclePrices(prices: map<string, real>, whitelist: seq<string>)
    returns (result: seq<Price>, ghost order: seq<string>)
    ensures LuncUsd(prices).None? ==> result == []
    ensures LuncUsd(prices).Some? ==>
              && Enumerates(order, prices.Keys)
              && result == Converted(order, prices, whitelist, LuncUsd(prices).value)
  {
    result, order := [], [];
    var whitelistSet := set denom | denom in whitelist;
    var luncUSD := 0.0;
    if "LUNC/USD" in prices {
      luncUSD := prices["LUNC/USD"];
    } else if "LUNC/USDT" in prices {
      luncUSD := prices["LUNC/USDT"];
    } else if "LUNC/USDC" in prices {
      luncUSD := prices["LUNC/USDC"];
    } else {
      return;
    }
    var foundDenoms;
    result, foundDenoms, order := ConvertQuotes(prices, whitelist, whitelistSet, luncUSD);
    ghost var rates := result;

    if "uusd" in whitelistSet && "uusd" !in foundDenoms {
      result := result + [Price("uusd", luncUSD)];
      foundDenoms := foundDenoms + {"uusd"};
    }
    assert result == rates + DefaultUsd(DenomsOf(rates), whitelist, luncUSD);
    assert foundDenoms == DenomsOf(result);
    result := AddAbstentions(result, foundDenoms, whitelist);
  }

  /** The loop over the whitelist. */
  method AddAbstentions(prices: seq<Price>, foundDenoms: set<string>, whitelist: seq<string>)
    returns (result: seq<Price>)
    ensures result == prices + Abstentions(foundDenoms, whitelist)
  {
    result := prices;
    for i := 0 to |whitelist|
      invariant result == prices + Abstentions(foundDenoms, whitelist[..i])
    {
      assert whitelist[..i + 1][..i] == whitelist[..i];
      if whitelist[i] !in foundDenoms && whitelist[i] != UST_META {
        result := result + [Price(whitelist[i], 0.0)];
      }
    }
    assert whitelist[..|whitelist|] == whitelist;
  }

  /** The loop over the price map. */
  method ConvertQuotes(prices: map<string, real>, whitelist: seq<string>, whitelistSet: set<string>, luncUSD: real)
    returns (result: seq<Price>, foundDenoms: set<string>, ghost order: seq<string>)
    requires whitelistSet == set denom | denom in whitelist
    ensures Enumerates(order, prices.Keys)
    ensures result == Rates(order, prices, whitelist, luncUSD)
    ensures foundDenoms == DenomsOf(result)
  {
    result, foundDenoms, order := [], {}, [];
    var remaining := prices.Keys;
    while remaining != {}
      invariant remaining <= prices.Keys && Enumerates(order, prices.Keys - remaining)
      invariant result == Rates(order, prices, whitelist, luncUSD)
      invariant foundDenoms == DenomsOf(result)
      decreases remaining
    {
      ghost var visitedSet := prices.Keys - remaining;
      var symbol :| symbol in remaining;
      remaining := remaining - {symbol};
      ghost var visited := order;
      order := order + [symbol];
      EnumerateOneMore(visited, visitedSet, symbol);
      assert visitedSet + {symbol} == prices.Keys - remaining;
      RatesStep(visited, symbol, prices, whitelist, luncUSD);
      var entry := ConvertQuote(symbol, prices, whitelist, whitelistSet, luncUSD);
      if entry.Some? {
        DenomsOfOneMore(result, entry.value);
        result := result + [entry.value];
        foundDenoms := foundDenoms + {entry.value.denom};
      }
    }
    assert prices.Keys - remaining == prices.Keys;
  }

  /** The body of that loop: the rate of one symbol, or None where the loop skips it. */
  method ConvertQuote(symbol: string, prices: map<string, real>, whitelist: seq<string>, whitelistSet: set<string>,
                      luncUSD: real)
    returns (entry: Option<Price>)
    requires symbol in prices && whitelistSet == set denom | denom in whitelist
    ensures entry == if Contributes(symbol, prices, whitelist) then Some(Rate(symbol, prices, luncUSD)) else None
  {
    var denom := SymbolToDenom(symbol);
    if IsLuncQuote(symbol) || denom == "" || denom !in whitelistSet || prices[symbol] == 0.0 {
      return None;
    }
    return Some(Price(denom, PerLunc(prices[symbol], luncUSD)));
  }

  lemma RatesStep(visited: seq<string>, symbol: string, prices: map<string, real>, whitelist: seq<string>, lunc: real)
    ensures Rates(visited + [symbol], prices, whitelist, lunc)
         == Rates(visited, prices, whitelist, lunc)
            + (if Contributes(symbol, prices, whitelist) then [Rate(symbol, prices, lunc)] else [])
  {
    assert (visited + [symbol])[..|visited|] == visited;
  }

  // ---------- what is converted ----------

  /** No two contributing symbols quote the same denom. */
  ghost predicate DistinctSymbols(prices: map<string, real>, whitelist: seq<string>) {
    forall s, t :: s in prices && t in prices && s != t
                   && Contributes(s, prices, whitelist) && Contributes(t, prices, whitelist)
                   ==> SymbolToDenom(s) != SymbolToDenom(t)
  }

  /** `p` is the rate of a contributing symbol: times the symbol's USD price it is the LUNC price. */
  ghost predicate PricedBy(symbol: string, p: Price, prices: map<string, real>, whitelist: seq<string>, lunc: real) {
    Contributes(symbol, prices, whitelist) && SymbolToDenom(symbol) == p.denom && p.rate * prices[symbol] == lunc
  }

  /** Where a vote's rate comes from. */
  ghost predicate Explained(p: Price, prices: map<string, real>, whitelist: seq<string>, lunc: real) {
    if Priced(p.denom, prices, whitelist) then
      exists symbol :: symbol in prices && PricedBy(symbol, p, prices, whitelist, lunc)
    else if p.denom == "uusd" then p.rate == lunc
    else p.denom != UST_META && p.rate == 0.0
  }

  lemma RateTimesPrice(price: real, lunc: real)
    requires price != 0.0
    ensures PerLunc(price, lunc) * price == lunc
  {
    var inverse := 1.0 / price;
    assert inverse * price == 1.0;
    assert inverse * lunc * price == inverse * price * lunc;
  }

  lemma PricedByRate(symbol: string, p: Price, prices: map<string, real>, whitelist: seq<string>, lunc: real, rate: real)
    requires Contributes(symbol, prices, whitelist) && p == Price(SymbolToDenom(symbol), rate)
    requires rate * prices[symbol] == lunc
    ensures PricedBy(symbol, p, prices, whitelist, lunc)
  {
  }

  lemma RateOf(symbol: string, prices: map<string, real>, lunc: real) returns (rate: real)
    requires symbol in prices && prices[symbol] != 0.0
    ensures Rate(symbol, prices, lunc) == Price(SymbolToDenom(symbol), rate)
    ensures rate * prices[symbol] == lunc
  {
    rate := PerLunc(prices[symbol], lunc);
    RateTimesPrice(prices[symbol], lunc);
  }

  lemma RateIsPricedBy(symbol: string, prices: map<string, real>, whitelist: seq<string>, lunc: real)
    requires Contributes(symbol, prices, whitelist)
    ensures PricedBy(symbol, Rate(symbol, prices, lunc), prices, whitelist, lunc)
  {
    var rate := RateOf(symbol, prices, lunc);
    PricedByRate(symbol, Rate(symbol, prices, lunc), prices, whitelist, lunc, rate);
  }

  lemma RateExplained(symbol: string, prices: map<string, real>, whitelist: seq<string>, lunc: real)
    requires Contributes(symbol, prices, whitelist)
    ensures var p := Rate(symbol, prices, lunc);
            p.denom in whitelist && Priced(p.denom, prices, whitelist) && Explained(p, prices, whitelist, lunc)
  {
    RateIsPricedBy(symbol, prices, whitelist, lunc);
  }

  lemma RatesExplained(order: seq<string>, prices: map<string, real>, whitelist: seq<string>, lunc: real)
    requires Enumerates(order, prices.Keys)
    ensures forall p :: p in Rates(order, prices, whitelist, lunc) ==>
              p.denom in whitelist && Priced(p.denom, prices, whitelist) && Explained(p, prices, whitelist, lunc)
    ensures forall d :: Priced(d, prices, whitelist) <==> d in DenomsOf(Rates(order, prices, whitelist, lunc))
  {
    var kept := Filter(order, symbol => Contributes(symbol, prices, whitelist));
    var rates := Rates(order, prices, whitelist, lunc);
    forall p | p in rates
      ensures p.denom in whitelist && Priced(p.denom, prices, whitelist) && Explained(p, prices, whitelist, lunc)
    {
      var i :| 0 <= i < |rates| && rates[i] == p;
      assert kept[i] in kept;
      RateExplained(kept[i], prices, whitelist, lunc);
    }
    forall d | Priced(d, prices, whitelist) ensures d in DenomsOf(rates) {
      var symbol :| symbol in prices && Contributes(symbol, prices, whitelist) && SymbolToDenom(symbol) == d;
      assert symbol in kept;
      var i :| 0 <= i < |kept| && kept[i] == symbol;
      assert rates[i].denom == d && rates[i] in rates;
    }
  }

  lemma RatesDistinct(order: seq<string>, prices: map<string, real>, whitelist: seq<string>, lunc: real)
    requires Enumerates(order, prices.Keys) && DistinctSymbols(prices, whitelist)
    ensures DistinctDenoms(Rates(order, prices, whitelist, lunc))
  {
    var keep := symbol => Contributes(symbol, prices, whitelist);
    FilterKeepsNoDuplicates(order, keep);
    var kept := Filter(order, keep);
    forall i, j | 0 <= i < j < |kept| ensures SymbolToDenom(kept[i]) != SymbolToDenom(kept[j]) {
      assert kept[i] in kept && kept[j] in kept;
    }
  }

  lemma AbstentionsExact(found: set<string>, whitelist: seq<string>)
    ensures var a := Abstentions(found, whitelist);
            && (forall p :: p in a ==> p.rate == 0.0 && p.denom in whitelist && p.denom !in found && p.denom != UST_META)
            && (forall d :: d in whitelist && d !in found && d != UST_META ==> Price(d, 0.0) in a)
            && (NoDuplicates(whitelist) ==> DistinctDenoms(a))
  {
    var keep := (denom: string) => denom !in found && denom != UST_META;
    var kept := Filter(whitelist, keep);
    var a := Abstentions(found, whitelist);
    forall p | p in a ensures p.rate == 0.0 && p.denom in kept {
      var i :| 0 <= i < |a| && a[i] == p;
      assert kept[i] == p.denom;
    }
    forall d | d in kept ensures Price(d, 0.0) in a {
      var i :| 0 <= i < |kept| && kept[i] == d;
      assert a[i] == Price(d, 0.0);
    }
    if NoDuplicates(whitelist) {
      FilterKeepsNoDuplicates(whitelist, keep);
    }
  }

  /** One entry for each whitelisted denom, except an unpriced UST, and nothing else. */
  ghost predicate Covers(result: seq<Price>, prices: map<string, real>, whitelist: seq<string>, lunc: real) {
    && DistinctDenoms(result)
    && (forall p :: p in result ==> p.denom in whitelist && Explained(p, prices, whitelist, lunc))
    && (forall d :: d in whitelist ==>
          ((exists p :: p in result && p.denom == d) <==> (d != UST_META || Priced(d, prices, whitelist))))
  }

  /** One entry for each whitelisted denom, and nothing else: a priced denom gets the rate that
      times its price is the LUNC price, an unpriced uusd gets the LUNC price itself, an unpriced
      UST is left out, and the rest abstain. */
  lemma ConversionCoverage(order: seq<string>, prices: map<string, real>, whitelist: seq<string>, lunc: real)
    requires Enumerates(order, prices.Keys)
    requires NoDuplicates(whitelist) && DistinctSymbols(prices, whitelist)
    ensures Covers(Converted(order, prices, whitelist, lunc), prices, whitelist, lunc)
  {
    RatesExplained(order, prices, whitelist, lunc);
    RatesDistinct(order, prices, whitelist, lunc);
    var rates := Rates(order, prices, whitelist, lunc);
    var usd := DefaultUsd(DenomsOf(rates), whitelist, lunc);
    var found := DenomsOf(rates + usd);
    AbstentionsExact(found, whitelist);
    var rest := Abstentions(found, whitelist);
    var result := Converted(order, prices, whitelist, lunc);
    assert forall p :: p in result <==> p in rates || p in usd || p in rest;
    assert DenomsOf(rates) <= found && forall p :: p in usd ==> p in rates + usd;
    forall i, j | 0 <= i < j < |result| ensures result[i].denom != result[j].denom {
      if j < |rates| {
      } else if i < |rates + usd| <= j {
        assert result[j] == rest[j - |rates + usd|] && result[i] == (rates + usd)[i];
        assert result[j] in rest && result[i] in rates + usd;
      } else if i < |rates| {
        assert result[j] == usd[j - |rates|] && result[i] in rates;
      } else {
        assert result[i] == rest[i - |rates + usd|] && result[j] == rest[j - |rates + usd|];
      }
    }
    forall d | d in whitelist && (d != UST_META || Priced(d, prices, whitelist))
      ensures exists p :: p in result && p.denom == d
    {
      if d in found {
        var p :| p in rates + usd && p.denom == d;
        assert p in result;
      } else {
        assert Price(d, 0.0) in result;
      }
    }
  }

  /** Some entry comes out exactly when some whitelisted denom is not the meta denom or has a price. */
  ghost predicate HasRates(prices: map<string, real>, whitelist: seq<string>) {
    LuncUsd(prices).Some? && exists d :: d in whitelist && (d != UST_META || Priced(d, prices, whitelist))
  }

  lemma ConvertedNonEmpty(order: seq<string>, prices: map<string, real>, whitelist: seq<string>, lunc: real)
    requires Enumerates(order, prices.Keys) && LuncUsd(prices).Some?
    ensures Converted(order, prices, whitelist, lunc) != [] <==> HasRates(prices, whitelist)
  {
    RatesExplained(order, prices, whitelist, lunc);
    var rates := Rates(order, prices, whitelist, lunc);
    var usd := DefaultUsd(DenomsOf(rates), whitelist, lunc);
    AbstentionsExact(DenomsOf(rates + usd), whitelist);
    var result := Converted(order, prices, whitelist, lunc);
    if result != [] {
      var p := result[0];
      assert p in rates || p in usd || p in Abstentions(DenomsOf(rates + usd), whitelist);
      assert p.denom in whitelist;
    }
    if HasRates(prices, whitelist) {
      var d :| d in whitelist && (d != UST_META || Priced(d, prices, whitelist));
      if d in DenomsOf(rates + usd) {
        assert rates + usd != [];
      } else {
        assert Price(d, 0.0) in Abstentions(DenomsOf(rates + usd), whitelist);
      }
    }
  }

  /** The visiting order of the price map does not change which entries come out. */
  lemma ConversionOrderIndependent(order1: seq<string>, order2: seq<string>,
                                   prices: map<string, real>, whitelist: seq<string>, lunc: real)
    requires Enumerates(order1, prices.Keys) && Enumerates(order2, prices.Keys)
    ensures multiset(Converted(order1, prices, whitelist, lunc))
         == multiset(Converted(order2, prices, whitelist, lunc))
  {
    EnumerationsPermute(order1, order2, prices.Keys);
    var keep := symbol => Contributes(symbol, prices, whitelist);
    var rate := symbol => Rate(symbol, prices, lunc);
    FilterPermutes(order1, order2, keep);
    MapPermutes(Filter(order1, keep), Filter(order2, keep), rate);
    var rates1 := Rates(order1, prices, whitelist, lunc);
    var rates2 := Rates(order2, prices, whitelist, lunc);
    assert rates1 == Map(Filter(order1, keep), rate) && rates2 == Map(Filter(order2, keep), rate);
    RatesExplained(order1, prices, whitelist, lunc);
    RatesExplained(order2, prices, whitelist, lunc);
    assert DenomsOf(rates1) == DenomsOf(rates2);
    var usd := DefaultUsd(DenomsOf(rates1), whitelist, lunc);
    assert DenomsOf(rates1 + usd) == DenomsOf(rates1) + DenomsOf(usd);
    assert DenomsOf(rates2 + usd) == DenomsOf(rates2) + DenomsOf(usd);
  }

  /** The vote string is a function of the price map and the whitelist alone: neither the visiting
      order of the map nor the order in which the sort leaves the prices shows in it. */
  lemma VoteStringDeterministic(prices: map<string, real>, whitelist: seq<string>, lunc: real, format: real -> string,
                                order1: seq<string>, sorted1: seq<Price>, order2: seq<string>, sorted2: seq<Price>)
    requires NoDuplicates(whitelist) && DistinctSymbols(prices, whitelist)
    requires Enumerates(order1, prices.Keys) && Enumerates(order2, prices.Keys)
    requires Sorted(sorted1, ByDenom) && multiset(sorted1) == multiset(Converted(order1, prices, whitelist, lunc))
    requires Sorted(sorted2, ByDenom) && multiset(sorted2) == multiset(Converted(order2, prices, whitelist, lunc))
    ensures PriceTuples(sorted1, format) == PriceTuples(sorted2, format)
  {
    ConversionOrderIndependent(order1, order2, prices, whitelist, lunc);
    ConversionCoverage(order1, prices, whitelist, lunc);
    VoteOrderUnique(Converted(order1, prices, whitelist, lunc), sorted1, sorted2);
  }

  /** Some tuple is for `d`. */
  ghost predicate ToldIn(tuples: seq<Option<Tuple>>, d: string) {
    exists t :: t in tuples && t.Some? && t.value.denom == d
  }

  /** The tuples tell exactly these rates: each tuple one of them, each rate's denom once. */
  ghost predicate TellExactly(tuples: seq<Option<Tuple>>, rates: seq<Price>, format: real -> string) {
    && (forall t :: t in tuples ==> exists q :: q in rates && Tells(t, q, format))
    && (forall q :: q in rates ==> ToldIn(tuples, q.denom))
    && forall i, j :: 0 <= i < j < |tuples| ==> tuples[i] != tuples[j]
  }

  lemma TuplesTellExactly(tuples: seq<Option<Tuple>>, order: seq<Price>, rates: seq<Price>, format: real -> string)
    requires |tuples| == |order| && forall i :: 0 <= i < |order| ==> Tells(tuples[i], order[i], format)
    requires multiset(order) == multiset(rates) && DistinctDenoms(order)
    ensures TellExactly(tuples, rates, format)
  {
    SameMembers(order, rates);
    forall t | t in tuples ensures exists q :: q in rates && Tells(t, q, format) {
      var i :| 0 <= i < |tuples| && tuples[i] == t;
      assert order[i] in order;
    }
    forall q | q in rates ensures ToldIn(tuples, q.denom) {
      var i :| 0 <= i < |order| && order[i] == q;
      assert tuples[i] in tuples;
    }
    forall i, j | 0 <= i < j < |tuples| ensures tuples[i] != tuples[j] {
      assert Tells(tuples[i], order[i], format) && Tells(tuples[j], order[j], format);
    }
  }

  lemma SameMembers<T>(s: seq<T>, t: seq<T>)
    requires multiset(s) == multiset(t)
    ensures forall x :: x in s <==> x in t
  {
    assert forall x :: x in s <==> x in multiset(s);
    assert forall x :: x in t <==> x in multiset(t);
  }

  /** A vote string that lists distinct rates splits into exactly these. */
  lemma VoteTellsRates(p: Prevote, rates: seq<Price>, format: real -> string)
    requires Lists(p, rates, format) && DistinctDenoms(rates)
    requires forall q :: q in rates ==> IsOracleDenom(q.denom) && IsNumeral(format(q.rate))
    ensures TellExactly(SplitTuples(p.vote), rates, format)
  {
    var order :| Sorted(order, ByDenom) && multiset(order) == multiset(rates)
                 && p.vote == TuplesText(PriceTuples(order, format));
    DistinctDenomsPermute(rates, order);
    SameMembers(order, rates);
    assert rates[0] in order;
    VoteStringRoundTrip(order, format);
    TuplesTellExactly(SplitTuples(p.vote), order, rates, format);
  }

  /** A whitelist of different oracle denoms, no two symbols for one of them, and numerals for the rates. */
  ghost predicate Votable(rates: seq<Price>, prices: map<string, real>, whitelist: seq<string>, format: real -> string) {
    && NoDuplicates(whitelist) && DistinctSymbols(prices, whitelist)
    && (forall d :: d in whitelist ==> IsOracleDenom(d))
    && forall q :: q in rates ==> IsNumeral(format(q.rate))
  }

  /** The vote string tells the rates, and these are the conversion of the fetched prices. */
  ghost predicate VoteTells(p: Prevote, rates: seq<Price>, prices: map<string, real>, whitelist: seq<string>,
                            format: real -> string) {
    Votable(rates, prices, whitelist, format) ==>
      && LuncUsd(prices).Some?
      && TellExactly(SplitTuples(p.vote), rates, format)
      && Covers(rates, prices, whitelist, LuncUsd(prices).value)
  }

  /** What is committed to, end to end: the vote string made from the conversion of the fetched prices
      splits into exactly the converted rates, truncated, and these are one for each whitelisted denom,
      except an unpriced UST, explained by the fetched prices. */
  lemma VoteTellsFetchedRates(p: Prevote, rates: seq<Price>, prices: map<string, real>, whitelist: seq<string>,
                              format: real -> string)
    requires Lists(p, rates, format) && IsConversion(rates, prices, whitelist)
    requires Votable(rates, prices, whitelist, format)
    ensures TellExactly(SplitTuples(p.vote), rates, format)
    ensures Covers(rates, prices, whitelist, LuncUsd(prices).value)
    ensures VoteTells(p, rates, prices, whitelist, format)
  {
    ConversionCovers(rates, prices, whitelist);
    VoteTellsRates(p, rates, format);
  }

  lemma ConversionCovers(rates: seq<Price>, prices: map<string, real>, whitelist: seq<string>)
    requires IsConversion(rates, prices, whitelist)
    requires NoDuplicates(whitelist) && DistinctSymbols(prices, whitelist)
    ensures Covers(rates, prices, whitelist, LuncUsd(prices).value)
  {
    var visited :| Enumerates(visited, prices.Keys)
                   && rates == Converted(visited, prices, whitelist, LuncUsd(prices).value);
    ConversionCoverage(visited, prices, whitelist, LuncUsd(prices).value);
  }

  // ---------- the conversion by currencies ----------

  /** A currency code, in capital letters. */
  predicate IsBase(b: string) {
    b != "" && forall i :: 0 <= i < |b| ==> 'A' <= b[i] <= 'Z'
  }

  /** The symbol quotes the currency `b`, alone or in US dollars, in any letter case. */
  ghost predicate QuotesBase(symbol: string, b: string) {
    IsBase(b) && ToUpper(symbol) in {b, b + "/USD", b + "/USDT", b + "/USDC"}
  }

  /** The oracle's denom of a currency: its code in small letters after a u, with three codes of their own. */
  function DenomOfBase(b: string): string {
    if b == "SDR" || b == "XDR" then "usdr"
    else if b == "UST" || b == "USTC" then "UST"
    else "u" + ToLower(b)
  }

  lemma NoSpaces(s: string)
    requires forall i :: 0 <= i < |s| ==> !IsSpace(s[i])
    ensures TrimSpace(s) == s
  {
  }

  lemma SuffixChars(s: string, suffix: string, c: char)
    requires HasSuffix(s, suffix) && c in suffix
    ensures c in s
  {
    var i :| 0 <= i < |suffix| && suffix[i] == c;
    assert s[|s| - |suffix|..][i] == s[|s| - |suffix| + i];
  }

  /** A code has no slash, so it ends in none of the suffixes. */
  lemma NoSuffix(b: string, suffix: string)
    requires IsBase(b) && '/' in suffix
    ensures TrimSuffix(b, suffix) == b
  {
    if HasSuffix(b, suffix) {
      SuffixChars(b, suffix, '/');
    }
  }

  lemma NoSuffixes(b: string)
    requires IsBase(b)
    ensures TrimSuffix(b, "/USD") == TrimSuffix(b, "/USDT") == TrimSuffix(b, "/USDC") == b
  {
    assert "/USD"[0] == "/USDT"[0] == "/USDC"[0] == '/';
    NoSuffix(b, "/USD");
    NoSuffix(b, "/USDT");
    NoSuffix(b, "/USDC");
  }

  lemma StripSuffix(b: string, suffix: string)
    requires IsBase(b) && suffix in {"", "/USD", "/USDT", "/USDC"}
    ensures TrimSuffix(TrimSuffix(TrimSuffix(b + suffix, "/USD"), "/USDT"), "/USDC") == b
  {
    var s := b + suffix;
    NoSuffixes(b);
    assert s[|b|..] == suffix;
    if suffix == "" {
      assert s == b;
    } else {
      assert s[|s| - |suffix|..] == suffix && s[..|b|] == b;
      assert suffix != "/USD" ==> s[|s| - 1] != 'D';
      assert HasSuffix(s, "/USD") ==> s[|s| - 4..][3] == 'D';
      assert suffix == "/USDC" ==> s[|s| - 1] == 'C';
      assert HasSuffix(s, "/USDT") ==> s[|s| - 5..][4] == 'T';
    }
  }

  lemma SymbolChars(symbol: string, b: string)
    requires QuotesBase(symbol, b)
    ensures symbol != "" && forall i :: 0 <= i < |symbol| ==> IsSymbolChar(symbol[i]) && !IsSpace(symbol[i])
  {
    var upper := ToUpper(symbol);
    forall i | 0 <= i < |symbol| ensures IsSymbolChar(symbol[i]) && !IsSpace(symbol[i]) {
      assert upper[i] == UpperChar(symbol[i]);
      assert 'A' <= upper[i] <= 'Z' || upper[i] == '/';
    }
  }

  /** Which denom a symbol stands for. */
  lemma DenomExactly(symbol: string, b: string)
    requires QuotesBase(symbol, b)
    ensures SymbolToDenom(symbol) == DenomOfBase(b)
  {
    SymbolChars(symbol, b);
    NoSpaces(symbol);
    SuffixOf(symbol, b);
    SpecialDenoms();
    assert DenomOf(b) == DenomOfBase(b);
  }

  lemma SuffixOf(symbol: string, b: string)
    requires QuotesBase(symbol, b)
    ensures TrimSuffix(TrimSuffix(TrimSuffix(ToUpper(symbol), "/USD"), "/USDT"), "/USDC") == b
  {
    assert b + "" == b;
    if ToUpper(symbol) == b {
      StripSuffix(b, "");
    } else if ToUpper(symbol) == b + "/USD" {
      StripSuffix(b, "/USD");
    } else if ToUpper(symbol) == b + "/USDT" {
      StripSuffix(b, "/USDT");
    } else {
      StripSuffix(b, "/USDC");
    }
  }

  lemma SpecialDenoms()
    ensures "u" + ToLower("USD") == "uusd" && "u" + ToLower("KRW") == "ukrw" && "u" + ToLower("MNT") == "umnt"
  {
    assert ToLower("USD") == "usd";
    assert ToLower("KRW") == "krw";
    assert ToLower("MNT") == "mnt";
  }

  /** The symbol has a price, and it is not one of the quotes that give the LUNC price. */
  ghost predicate Usable(symbol: string, prices: map<string, real>) {
    symbol in prices && prices[symbol] != 0.0 && symbol !in {"LUNC/USD", "LUNC/USDT", "LUNC/USDC"}
  }

  /** Some usable symbol quotes a currency of this denom. */
  ghost predicate Quoted(prices: map<string, real>, denom: string) {
    exists symbol, b :: Usable(symbol, prices) && QuotesBase(symbol, b) && DenomOfBase(b) == denom
  }

  /** All symbols quote currencies, and no two usable ones the same whitelisted denom. */
  ghost predicate QuotesBases(prices: map<string, real>, whitelist: seq<string>) {
    && (forall symbol :: symbol in prices ==> exists b :: QuotesBase(symbol, b))
    && forall s, t, b, c ::
         (Usable(s, prices) && Usable(t, prices) && s != t && QuotesBase(s, b) && QuotesBase(t, c)
          && DenomOfBase(b) in whitelist)
         ==> DenomOfBase(b) != DenomOfBase(c)
  }

  lemma ContributesExactly(symbol: string, b: string, prices: map<string, real>, whitelist: seq<string>)
    requires QuotesBase(symbol, b)
    ensures Contributes(symbol, prices, whitelist) <==> Usable(symbol, prices) && DenomOfBase(b) in whitelist
  {
    DenomExactly(symbol, b);
  }

  lemma QuotedExactly(prices: map<string, real>, whitelist: seq<string>, denom: string)
    requires denom in whitelist && forall symbol :: symbol in prices ==> exists b :: QuotesBase(symbol, b)
    ensures Priced(denom, prices, whitelist) <==> Quoted(prices, denom)
  {
    forall symbol, b | symbol in prices && QuotesBase(symbol, b)
      ensures Contributes(symbol, prices, whitelist) <==> Usable(symbol, prices) && DenomOfBase(b) in whitelist
      ensures SymbolToDenom(symbol) == DenomOfBase(b)
    {
      ContributesExactly(symbol, b, prices, whitelist);
      DenomExactly(symbol, b);
    }
    if Priced(denom, prices, whitelist) {
      var symbol :| symbol in prices && Contributes(symbol, prices, whitelist) && SymbolToDenom(symbol) == denom;
      var b :| QuotesBase(symbol, b);
      assert Usable(symbol, prices);
    }
    if Quoted(prices, denom) {
      var symbol, b :| Usable(symbol, prices) && QuotesBase(symbol, b) && DenomOfBase(b) == denom;
      assert Contributes(symbol, prices, whitelist);
    }
  }

  lemma BasesAreDistinct(prices: map<string, real>, whitelist: seq<string>)
    requires QuotesBases(prices, whitelist)
    ensures DistinctSymbols(prices, whitelist)
  {
    forall s, t | s in prices && t in prices && s != t
                  && Contributes(s, prices, whitelist) && Contributes(t, prices, whitelist)
      ensures SymbolToDenom(s) != SymbolToDenom(t)
    {
      var b :| QuotesBase(s, b);
      var c :| QuotesBase(t, c);
      ContributesExactly(s, b, prices, whitelist);
      ContributesExactly(t, c, prices, whitelist);
      DenomExactly(s, b);
      DenomExactly(t, c);
    }
  }

  /** The conversion by currencies. Each whitelisted denom that is quoted has one entry, whose rate times
      the quoted price is the LUNC price; of the others UST has none, uusd the LUNC price, the rest 0; and
      there is nothing else. */
  lemma CurrenciesCovered(rates: seq<Price>, prices: map<string, real>, whitelist: seq<string>, lunc: real)
    requires IsConversion(rates, prices, whitelist) && LuncUsd(prices) == Some(lunc)
    requires NoDuplicates(whitelist) && QuotesBases(prices, whitelist)
    ensures DistinctDenoms(rates) && forall p :: p in rates ==> p.denom in whitelist
    ensures forall symbol, b, p ::
              (Usable(symbol, prices) && QuotesBase(symbol, b) && p in rates && p.denom == DenomOfBase(b))
              ==> IsRateFor(p, prices[symbol], lunc)
    ensures forall d :: d in whitelist && Quoted(prices, d) ==> HasEntry(rates, d)
    ensures forall p :: p in rates && !Quoted(prices, p.denom) ==>
              p.denom != "UST" && p.rate == if p.denom == "uusd" then lunc else 0.0
    ensures forall d :: d in whitelist && !Quoted(prices, d) ==> (HasEntry(rates, d) <==> d != "UST")
  {
    BasesAreDistinct(prices, whitelist);
    ConversionCovers(rates, prices, whitelist);
    forall d | d in whitelist ensures Priced(d, prices, whitelist) <==> Quoted(prices, d) {
      QuotedExactly(prices, whitelist, d);
    }
    forall symbol, b, p | Usable(symbol, prices) && QuotesBase(symbol, b) && p in rates && p.denom == DenomOfBase(b)
      ensures IsRateFor(p, prices[symbol], lunc)
    {
      RateOfCurrency(rates, prices, whitelist, lunc, symbol, b, p);
    }
  }

  ghost predicate HasEntry(rates: seq<Price>, denom: string) {
    exists p :: p in rates && p.denom == denom
  }

  ghost predicate IsRateFor(p: Price, price: real, lunc: real) { p.rate * price == lunc }

  lemma RateOfCurrency(rates: seq<Price>, prices: map<string, real>, whitelist: seq<string>, lunc: real,
                       symbol: string, b: string, p: Price)
    requires Covers(rates, prices, whitelist, lunc) && QuotesBases(prices, whitelist)
    requires Usable(symbol, prices) && QuotesBase(symbol, b) && p in rates && p.denom == DenomOfBase(b)
    ensures IsRateFor(p, prices[symbol], lunc)
  {
    ContributesExactly(symbol, b, prices, whitelist);
    DenomExactly(symbol, b);
    assert Priced(p.denom, prices, whitelist) && Explained(p, prices, whitelist, lunc);
    var s :| s in prices && PricedBy(s, p, prices, whitelist, lunc);
    var c :| QuotesBase(s, c);
    ContributesExactly(s, c, prices, whitelist);
    DenomExactly(s, c);
    assert s == symbol;
  }

  /** The LUNC price comes from the first of the three quotes that is there. */
  lemma LuncPriceExactly(prices: map<string, real>)
    ensures "LUNC/USD" in prices ==> LuncUsd(prices) == Some(prices["LUNC/USD"])
    ensures "LUNC/USD" !in prices && "LUNC/USDT" in prices ==> LuncUsd(prices) == Some(prices["LUNC/USDT"])
    ensures "LUNC/USD" !in prices && "LUNC/USDT" !in prices && "LUNC/USDC" in prices ==>
              LuncUsd(prices) == Some(prices["LUNC/USDC"])
    ensures LuncUsd(prices).None? <==>
            "LUNC/USD" !in prices && "LUNC/USDT" !in prices && "LUNC/USDC" !in prices
  {
  }
}
