/** Canonical symbols and their aliases: pkg/server/sources/normalize.go. */
module Symbols {
  import opened Text
  import opened Sorting

  const USD: string := "USD"

  const STABLECOIN_ALIASES: map<string, string> := map[
    "USDT" := USD, "USDC" := USD, "BUSD" := USD, "DAI" := USD, "TUSD" := USD, "USDD" := USD, "USDP" := USD]

  const BASE_ALIASES: map<string, string> := map["WBTC" := "BTC", "WETH" := "ETH", "STETH" := "ETH"]

  function CanonicalBase(base: string): string {
    if base in BASE_ALIASES then BASE_ALIASES[base] else base
  }

  function CanonicalQuote(quote: string): string {
    if quote in STABLECOIN_ALIASES then STABLECOIN_ALIASES[quote] else quote
  }

  function Pair(base: string, quote: string): string { base + "/" + quote }

  /** Only a symbol with exactly one slash is normalised. */
  function NormalizeSymbol(symbol: string): string {
    var parts := Split(symbol, '/');
    if |parts| != 2 then symbol
    else Pair(CanonicalBase(ToUpper(parts[0])), CanonicalQuote(ToUpper(parts[1])))
  }

  lemma SplitPair(base: string, quote: string)
    requires Free(base, '/') && Free(quote, '/')
    ensures Split(Pair(base, quote), '/') == [base, quote]
  {
    SplitHead(base, '/', quote);
    SplitFree(quote, '/');
  }

  lemma PairOfSplit(symbol: string)
    requires |Split(symbol, '/')| == 2
    ensures var parts := Split(symbol, '/');
            symbol == Pair(parts[0], parts[1]) && Free(parts[0], '/') && Free(parts[1], '/')
  {
    JoinOfSplit(symbol, '/');
    var parts := Split(symbol, '/');
    assert Join(parts[1..], '/') == parts[1];
  }

  lemma UpperIdempotent(s: string)
    ensures ToUpper(ToUpper(s)) == ToUpper(s)
    ensures Free(s, '/') ==> Free(ToUpper(s), '/')
  {
  }

  predicate IsUpper(s: string) { ToUpper(s) == s }

  /** The names in the alias tables are upper-case, have no slash, and no canonical name is an alias. */
  lemma Tables()
    ensures forall b :: b in BASE_ALIASES ==>
              && IsUpper(b) && Free(b, '/') && IsUpper(BASE_ALIASES[b]) && Free(BASE_ALIASES[b], '/')
              && BASE_ALIASES[b] !in BASE_ALIASES
    ensures forall q :: q in STABLECOIN_ALIASES ==> IsUpper(q) && Free(q, '/') && STABLECOIN_ALIASES[q] == USD
    ensures IsUpper(USD) && Free(USD, '/') && USD !in STABLECOIN_ALIASES
  {
    BaseTable();
    StablecoinTable();
  }

  lemma BaseTable()
    ensures forall b :: b in BASE_ALIASES ==>
              && IsUpper(b) && Free(b, '/') && IsUpper(BASE_ALIASES[b]) && Free(BASE_ALIASES[b], '/')
              && BASE_ALIASES[b] !in BASE_ALIASES
  {
  }

  lemma StablecoinTable()
    ensures forall q :: q in STABLECOIN_ALIASES ==> IsUpper(q) && Free(q, '/') && STABLECOIN_ALIASES[q] == USD
    ensures IsUpper(USD) && Free(USD, '/') && USD !in STABLECOIN_ALIASES
  {
  }

  /** What normalising does: both names in capital letters, wrapped coins by the coin, dollar stablecoins
      by the dollar; a symbol without exactly one slash stays as it is. */
  lemma NormalizeExactly(base: string, quote: string)
    requires Free(base, '/') && Free(quote, '/')
    ensures var b, q := ToUpper(base), ToUpper(quote);
            NormalizeSymbol(base + "/" + quote)
            == (if b == "WBTC" then "BTC" else if b == "WETH" || b == "STETH" then "ETH" else b)
               + "/" + (if q in {"USDT", "USDC", "BUSD", "DAI", "TUSD", "USDD", "USDP"} then "USD" else q)
  {
    SplitPair(base, quote);
  }

  lemma OthersUnchanged(symbol: string)
    requires forall base, quote :: Free(base, '/') && Free(quote, '/') ==> symbol != base + "/" + quote
    ensures NormalizeSymbol(symbol) == symbol
  {
    if |Split(symbol, '/')| == 2 {
      PairOfSplit(symbol);
    }
  }

  /** Normalising twice is normalising once. */
  lemma NormalizeIdempotent(symbol: string)
    ensures NormalizeSymbol(NormalizeSymbol(symbol)) == NormalizeSymbol(symbol)
  {
    var parts := Split(symbol, '/');
    if |parts| == 2 {
      Tables();
      PairOfSplit(symbol);
      UpperIdempotent(parts[0]);
      UpperIdempotent(parts[1]);
      SplitPair(CanonicalBase(ToUpper(parts[0])), CanonicalQuote(ToUpper(parts[1])));
    }
  }

  // ---------- aliases ----------

  /** The base names and the quote names that stand for a canonical name. */
  function BaseNames(base: string): set<string> {
    {base} + set b | b in BASE_ALIASES && BASE_ALIASES[b] == base
  }

  function QuoteNames(quote: string): set<string> {
    {quote} + (if quote == USD then STABLECOIN_ALIASES.Keys else {})
  }

  lemma NamesExactly(name: string, base: string, quote: string)
    ensures name in BaseNames(base) <==>
            name == base || (name == "WBTC" && base == "BTC") || (name in {"WETH", "STETH"} && base == "ETH")
    ensures name in QuoteNames(quote) <==>
            name == quote || (quote == "USD" && name in {"USDT", "USDC", "BUSD", "DAI", "TUSD", "USDD", "USDP"})
  {
  }

  function PairsOf(bases: set<string>, quotes: set<string>): set<string> {
    set b, q | b in bases && q in quotes :: Pair(b, q)
  }

  ghost predicate AllFree(names: set<string>) {
    forall n :: n in names ==> Free(n, '/')
  }

  lemma PairInjective(b: string, q: string, b': string, q': string)
    requires Free(b, '/') && Free(q, '/') && Free(b', '/') && Free(q', '/')
    requires Pair(b, q) == Pair(b', q')
    ensures b == b' && q == q'
  {
    SplitPair(b, q);
    SplitPair(b', q');
  }

  /** A pair with a new part is a new pair. */
  lemma NewPair(b: string, q: string, bases: set<string>, quotes: set<string>)
    requires Free(b, '/') && Free(q, '/') && AllFree(bases) && AllFree(quotes)
    requires b !in bases || q !in quotes
    ensures Pair(b, q) !in PairsOf(bases, quotes)
  {
    forall b', q' | b' in bases && q' in quotes ensures Pair(b, q) != Pair(b', q') {
      if Pair(b, q) == Pair(b', q') {
        PairInjective(b, q, b', q');
      }
    }
  }

  lemma NamesFree(base: string, quote: string)
    requires Free(base, '/') && Free(quote, '/')
    ensures AllFree(BaseNames(base)) && AllFree(QuoteNames(quote))
  {
    Tables();
  }

  /** Appends the pairs of one base with all names of the quote. */
  method AddBase(before: seq<string>, base: string, quote: string, ghost bases: set<string>) returns (aliases: seq<string>)
    requires Free(base, '/') && Free(quote, '/') && AllFree(bases) && base !in bases
    requires Enumerates(before, PairsOf(bases, QuoteNames(quote)))
    ensures Enumerates(aliases, PairsOf(bases + {base}, QuoteNames(quote)))
  {
    NamesFree(base, quote);
    Tables();
    ghost var names := QuoteNames(quote);
    ghost var done := PairsOf(bases, names);
    NewPair(base, quote, bases, names);
    EnumerateOneMore(before, done, Pair(base, quote));
    aliases := before + [Pair(base, quote)];
    ghost var quotes := {quote};
    assert done + {Pair(base, quote)} == done + PairsOf({base}, quotes);
    if quote == USD {
      var remaining := STABLECOIN_ALIASES.Keys;
      while remaining != {}
        invariant remaining <= STABLECOIN_ALIASES.Keys && quotes == names - remaining
        invariant Enumerates(aliases, done + PairsOf({base}, quotes))
        decreases remaining
      {
        var stablecoin :| stablecoin in remaining;
        NewPair(base, stablecoin, bases, names);
        NewPair(base, stablecoin, {base}, quotes);
        EnumerateOneMore(aliases, done + PairsOf({base}, quotes), Pair(base, stablecoin));
        aliases := aliases + [Pair(base, stablecoin)];
        assert PairsOf({base}, quotes + {stablecoin}) == PairsOf({base}, quotes) + {Pair(base, stablecoin)};
        quotes := quotes + {stablecoin};
        remaining := remaining - {stablecoin};
      }
    }
    assert quotes == names;
    assert done + PairsOf({base}, names) == PairsOf(bases + {base}, names);
  }

  /** The aliases of a symbol, each once, in the order in which the tables are visited; a symbol
      without exactly one slash is its own only alias. */
  method GetSymbolAliases(canonicalSymbol: string) returns (aliases: seq<string>)
    ensures var parts := Split(canonicalSymbol, '/');
            Enumerates(aliases, if |parts| == 2 then PairsOf(BaseNames(parts[0]), QuoteNames(parts[1])) else {canonicalSymbol})
  {
    var parts := Split(canonicalSymbol, '/');
    if |parts| != 2 {
      return [canonicalSymbol];
    }
    PairOfSplit(canonicalSymbol);
    var base, quote := parts[0], parts[1];
    NamesFree(base, quote);
    Tables();
    assert PairsOf({}, QuoteNames(quote)) == {};
    aliases := AddBase([], base, quote, {});
    ghost var bases := {base};
    assert {} + {base} == bases;
    var remaining := BASE_ALIASES.Keys;
    while remaining != {}
      invariant remaining <= BASE_ALIASES.Keys && bases == BaseNames(base) - (remaining - {base})
      invariant Enumerates(aliases, PairsOf(bases, QuoteNames(quote)))
      decreases remaining
    {
      var wrapped :| wrapped in remaining;
      remaining := remaining - {wrapped};
      if BASE_ALIASES[wrapped] == base {
        aliases := AddBase(aliases, wrapped, quote, bases);
        bases := bases + {wrapped};
      }
    }
    assert bases == BaseNames(base);
  }

  /** For a canonical symbol with one slash, the aliases are exactly the upper-case symbols that normalise to it. */
  lemma AliasesArePreimages(canonicalSymbol: string, symbol: string)
    requires NormalizeSymbol(canonicalSymbol) == canonicalSymbol && |Split(canonicalSymbol, '/')| == 2
    ensures symbol in PairsOf(BaseNames(Split(canonicalSymbol, '/')[0]), QuoteNames(Split(canonicalSymbol, '/')[1]))
       <==> IsUpper(symbol) && NormalizeSymbol(symbol) == canonicalSymbol
  {
    Tables();
    PairOfSplit(canonicalSymbol);
    var base, quote := Split(canonicalSymbol, '/')[0], Split(canonicalSymbol, '/')[1];
    CanonicalParts(base, quote);
    NamesFree(base, quote);
    if symbol in PairsOf(BaseNames(base), QuoteNames(quote)) {
      var b, q :| b in BaseNames(base) && q in QuoteNames(quote) && symbol == Pair(b, q);
      SplitPair(b, q);
      UpperPair(b, q);
    }
    if IsUpper(symbol) && NormalizeSymbol(symbol) == canonicalSymbol {
      PreimageIsAlias(symbol, base, quote);
    }
  }

  lemma UpperPair(b: string, q: string)
    ensures IsUpper(Pair(b, q)) <==> IsUpper(b) && IsUpper(q)
  {
    var s := Pair(b, q);
    assert ToUpper(s) == ToUpper(b) + ['/'] + ToUpper(q);
    assert s[..|b|] == b && s[|b| + 1..] == q;
    assert ToUpper(s)[..|b|] == ToUpper(b) && ToUpper(s)[|b| + 1..] == ToUpper(q);
  }

  lemma CanonicalParts(base: string, quote: string)
    requires Free(base, '/') && Free(quote, '/') && NormalizeSymbol(Pair(base, quote)) == Pair(base, quote)
    ensures IsUpper(base) && IsUpper(quote)
    ensures CanonicalBase(base) == base && CanonicalQuote(quote) == quote
  {
    Tables();
    SplitPair(base, quote);
    UpperIdempotent(base);
    UpperIdempotent(quote);
    PairInjective(CanonicalBase(ToUpper(base)), CanonicalQuote(ToUpper(quote)), base, quote);
  }

  lemma PreimageIsAlias(symbol: string, base: string, quote: string)
    requires IsUpper(symbol) && Free(base, '/') && Free(quote, '/') && NormalizeSymbol(symbol) == Pair(base, quote)
    ensures symbol in PairsOf(BaseNames(base), QuoteNames(quote))
  {
    Tables();
    SplitPair(base, quote);
    var parts := Split(symbol, '/');
    assert |parts| == 2;
    PairOfSplit(symbol);
    UpperPair(parts[0], parts[1]);
    PairInjective(CanonicalBase(parts[0]), CanonicalQuote(parts[1]), base, quote);
    assert parts[0] in BaseNames(base) && parts[1] in QuoteNames(quote);
  }
}
