/** Exchange-rate strings and vote messages: pkg/feeder/voter/messages.go. */
module Messages {
  import opened Wrappers
  import opened Text
  import opened Sorting
  import opened Numerals
  import opened Tuples
  import opened Oracle

  datatype ExchangeRatePrevote = ExchangeRatePrevote(hash: string, denom: string, feeder: string, validator: string)

  datatype ExchangeRateVote =
    ExchangeRateVote(exchangeRates: string, salt: string, denom: string, feeder: string, validator: string)

  datatype ValidationError =
    | EmptyExchangeRates
    | EmptyPair
    | InvalidPairFormat(pair: string)
    | InvalidRate(pair: string)

  // ---------- the rates string ----------

  const ByText: (string, string) -> bool := (a: string, b: string) => Leq(a, b)

  lemma ByTextIsTotal()
    ensures TotalPreorder(ByText)
  {
    forall a: string, b: string ensures ByText(a, b) || ByText(b, a) {
      LeqTotal(a, b);
    }
    forall a: string, b: string, c: string | ByText(a, b) && ByText(b, c) ensures ByText(a, c) {
      LeqTransitive(a, b, c);
    }
  }

  /** The tuples for the denoms in this order; `format` prints a decimal. */
  function RateTuples(denoms: seq<string>, prices: map<string, real>, format: real -> string): (r: seq<Tuple>)
    requires forall d :: d in denoms ==> d in prices
    ensures |r| == |denoms|
    ensures forall i :: 0 <= i < |denoms| ==> r[i] == Tuple(format(prices[denoms[i]]), denoms[i])
  {
    seq(|denoms|, i requires 0 <= i < |denoms| => Tuple(format(prices[denoms[i]]), denoms[i]))
  }

  /** All prices in the sorted order of the denoms, of which there is one and only one. */
  method BuildExchangeRatesString(prices: map<string, real>, format: real -> string)
    returns (text: string)
    ensures exists denoms :: Enumerates(denoms, prices.Keys) && Sorted(denoms, ByText)
                             && forall i, j :: 0 <= i < j < |denoms| ==> Leq(denoms[i], denoms[j])
    ensures forall denoms :: Enumerates(denoms, prices.Keys) && Sorted(denoms, ByText) ==>
              text == TuplesText(RateTuples(denoms, prices, format))
  {
    var collected := CollectKeys(prices);
    var sorted := new string[|collected|](i requires 0 <= i < |collected| => collected[i]);
    assert sorted[..] == collected;
    ByTextIsTotal();
    SortSlice(sorted, ByText);
    EnumeratesPermutes(collected, sorted[..], prices.Keys);
    text := JoinRates(sorted, prices, format);
    RatesStringOfAny(prices, sorted[..]);
  }

  lemma RatesStringOfAny(prices: map<string, real>, denoms: seq<string>)
    requires Enumerates(denoms, prices.Keys) && Sorted(denoms, ByText)
    ensures forall other :: Enumerates(other, prices.Keys) && Sorted(other, ByText) ==> other == denoms
  {
    forall other | Enumerates(other, prices.Keys) && Sorted(other, ByText) ensures other == denoms {
      RatesStringUnique(prices, other, denoms);
    }
  }

  /** The loop that writes the rates, in the order given. */
  method JoinRates(denoms: array<string>, prices: map<string, real>, format: real -> string) returns (text: string)
    requires forall denom :: denom in denoms[..] ==> denom in prices
    ensures text == TuplesText(RateTuples(denoms[..], prices, format))
  {
    ghost var tuples := RateTuples(denoms[..], prices, format);
    var pairs: seq<string> := [];
    for i := 0 to denoms.Length
      invariant pairs == Map(tuples[..i], TupleText)
    {
      assert tuples[..i + 1] == tuples[..i] + [tuples[i]];
      assert denoms[i] in denoms[..];
      pairs := pairs + [format(prices[denoms[i]]) + denoms[i]];
    }
    assert tuples[..|tuples|] == tuples;
    text := Join(pairs, ',');
  }

  /** The keys in the order in which the map is visited. */
  method CollectKeys(prices: map<string, real>) returns (denoms: seq<string>)
    ensures Enumerates(denoms, prices.Keys)
  {
    denoms := [];
    var remaining := prices.Keys;
    ghost var visited := {};
    while remaining != {}
      invariant remaining + visited == prices.Keys && remaining !! visited
      invariant Enumerates(denoms, visited)
      decreases remaining
    {
      var denom :| denom in remaining;
      EnumerateOneMore(denoms, visited, denom);
      denoms, visited := denoms + [denom], visited + {denom};
      remaining := remaining - {denom};
    }
  }

  // ---------- validation ----------

  function RemovePoint(s: string): string {
    if s == "" then "" else if s[0] == '.' then s[1..] else [s[0]] + RemovePoint(s[1..])
  }

  /** What the decimal library reads as a number, among texts of digits, points and minus signs:
      digits after an optional minus sign once one point, wherever it is, is taken out. */
  predicate ParsesAsDecimal(s: string) {
    var t := RemovePoint(s);
    var digits := if t != "" && t[0] == '-' then t[1..] else t;
    digits != "" && Digits(digits)
  }

  /** A number as the decimal library takes it: an optional minus sign and digits, and at most one point,
      anywhere in it. */
  ghost predicate IsNumber(s: string) {
    exists x, y :: (s == x + y || s == x + "." + y) && IsSigned(x + y)
  }

  predicate IsSigned(s: string) {
    (s != "" && Digits(s)) || (|s| > 1 && s[0] == '-' && Digits(s[1..]))
  }

  lemma {:induction false} RemovePointSplits(s: string) returns (x: string, y: string)
    ensures RemovePoint(s) == x + y && (s == x + y || s == x + "." + y)
  {
    if s == "" {
      x, y := "", "";
    } else if s[0] == '.' {
      x, y := "", s[1..];
    } else {
      x, y := RemovePointSplits(s[1..]);
      x := [s[0]] + x;
    }
  }

  lemma DecimalExactly(s: string)
    ensures ParsesAsDecimal(s) <==> IsNumber(s)
  {
    if ParsesAsDecimal(s) {
      var x, y := RemovePointSplits(s);
      assert IsSigned(x + y);
    } else if IsNumber(s) {
      var x, y :| (s == x + y || s == x + "." + y) && IsSigned(x + y);
      SignedFree(x + y);
      if s == x + y {
        RemovePointFree(s);
      } else {
        assert Free(x, '.') by {
          assert forall c :: c in x ==> c in x + y;
        }
        RemovePointAt(x, y);
      }
    }
  }

  lemma SignedFree(s: string)
    requires IsSigned(s)
    ensures Free(s, '.')
  {
    if !Digits(s) {
      assert s == [s[0]] + s[1..];
    }
  }

  /** A number and a denom that begins with a character no number has. */
  ghost predicate IsPair(pair: string, rate: string, denom: string) {
    && pair == rate + denom && IsNumber(rate) && denom != ""
    && (forall i :: 0 <= i < |rate| ==> '0' <= rate[i] <= '9' || rate[i] == '.' || rate[i] == '-')
    && !('0' <= denom[0] <= '9' || denom[0] == '.' || denom[0] == '-')
  }

  /** Which pairs are in order. */
  lemma PairExactly(pair: string)
    ensures PairError(pair).None? <==> exists rate, denom :: IsPair(pair, rate, denom)
  {
    if PairError(pair).None? {
      var start := DenomStart(pair);
      DenomStartFirst(pair, 0);
      DecimalExactly(pair[..start]);
      assert pair == pair[..start] + pair[start..];
      assert IsPair(pair, pair[..start], pair[start..]);
    }
    forall rate, denom | IsPair(pair, rate, denom) ensures PairError(pair).None? {
      DecimalExactly(rate);
      StartOfPair(pair, rate, denom, 0);
      assert pair[..|rate|] == rate;
    }
  }

  /** Which error a pair has: none of its own for the empty pair, a format error without a number or without
      a denom, and otherwise a number that is none. */
  lemma ErrorExactly(pair: string)
    ensures PairError(pair) == Some(EmptyPair) <==> pair == ""
    ensures PairError(pair) == Some(InvalidPairFormat(pair)) <==>
            pair != "" && (!IsRateChar(pair[0]) || forall i :: 0 <= i < |pair| ==> IsRateChar(pair[i]))
    ensures PairError(pair) in {None, Some(EmptyPair), Some(InvalidPairFormat(pair)), Some(InvalidRate(pair))}
  {
    DenomStartZero(pair, 0);
  }

  lemma {:induction false} DenomStartZero(pair: string, i: nat)
    requires i <= |pair|
    ensures DenomStart(pair, i) == 0 <==>
            (forall j :: i <= j < |pair| ==> IsRateChar(pair[j])) || (i == 0 && pair != "" && !IsRateChar(pair[0]))
    decreases |pair| - i
  {
    if i < |pair| && IsRateChar(pair[i]) {
      DenomStartZero(pair, i + 1);
    }
  }

  lemma {:induction false} DenomStartFirst(pair: string, i: nat)
    requires i <= |pair|
    ensures DenomStart(pair, i) != 0 ==> forall j :: i <= j < DenomStart(pair, i) ==> IsRateChar(pair[j])
    decreases |pair| - i
  {
    if i < |pair| && IsRateChar(pair[i]) {
      DenomStartFirst(pair, i + 1);
    }
  }

  lemma {:induction false} StartOfPair(pair: string, rate: string, denom: string, i: nat)
    requires pair == rate + denom && denom != "" && i <= |rate| && rate != ""
    requires (forall j :: 0 <= j < |rate| ==> IsRateChar(rate[j])) && !IsRateChar(denom[0])
    ensures DenomStart(pair, i) == |rate|
    decreases |rate| - i
  {
    if i < |rate| {
      assert pair[i] == rate[i];
      StartOfPair(pair, rate, denom, i + 1);
    } else {
      assert pair[i] == denom[0];
    }
  }

  /** The error for one pair, in the order of the tests. */
  function PairError(pair: string): Option<ValidationError> {
    if pair == "" then Some(EmptyPair)
    else if SplitPair(pair).None? then Some(InvalidPairFormat(pair))
    else if !ParsesAsDecimal(SplitPair(pair).value.rate) then Some(InvalidRate(pair))
    else None
  }

  /** Accepts exactly the non-empty strings whose pairs are all in order, and otherwise reports the
      first pair that is not. A missing denom cannot be reported: the scan that finds no denom
      leaves the start at 0, which is an invalid format. */
  method ValidateExchangeRates(exchangeRates: string) returns (r: Result<(), ValidationError>)
    ensures exchangeRates == "" <==> r == Err(EmptyExchangeRates)
    ensures r.Ok? <==> exchangeRates != "" && forall pair :: pair in Split(exchangeRates, ',') ==> PairError(pair).None?
    ensures r.Err? && exchangeRates != "" ==>
              exists i :: 0 <= i < |Split(exchangeRates, ',')|
                          && PairError(Split(exchangeRates, ',')[i]) == Some(r.error)
                          && forall j :: 0 <= j < i ==> PairError(Split(exchangeRates, ',')[j]).None?
  {
    if exchangeRates == "" {
      return Err(EmptyExchangeRates);
    }
    var error := ValidatePairs(Split(exchangeRates, ','));
    r := if error.Some? then Err(error.value) else Ok(());
  }

  method ValidatePairs(pairs: seq<string>) returns (error: Option<ValidationError>)
    ensures error.None? ==> forall pair :: pair in pairs ==> PairError(pair).None?
    ensures error.Some? ==> error != Some(EmptyExchangeRates)
                            && exists i :: 0 <= i < |pairs| && PairError(pairs[i]) == error
                                           && forall j :: 0 <= j < i ==> PairError(pairs[j]).None?
  {
    for i := 0 to |pairs|
      invariant forall j :: 0 <= j < i ==> PairError(pairs[j]).None?
    {
      error := ValidatePair(pairs[i]);
      if error.Some? {
        return;
      }
    }
    return None;
  }

  /** The tests of one pair. */
  method ValidatePair(pair: string) returns (error: Option<ValidationError>)
    ensures error == PairError(pair) && error != Some(EmptyExchangeRates)
  {
    if pair == "" {
      return Some(EmptyPair);
    }
    var denomStart := FindDenomStart(pair);
    if denomStart == 0 {
      return Some(InvalidPairFormat(pair));
    }
    var rateStr := pair[..denomStart];
    if !ParsesAsDecimal(rateStr) {
      return Some(InvalidRate(pair));
    }
    return None;
  }

  /** The scan for the first character that cannot belong to the number. */
  method FindDenomStart(pair: string) returns (start: nat)
    ensures start == DenomStart(pair)
  {
    for i := 0 to |pair|
      invariant DenomStart(pair) == DenomStart(pair, i)
    {
      if !IsRateChar(pair[i]) {
        return i;
      }
    }
    return 0;
  }

  /** What the decimal library prints: a numeral with an optional minus sign. */
  predicate IsDecimalText(s: string) {
    IsNumeral(s) || (s != "" && s[0] == '-' && IsNumeral(s[1..]))
  }

  lemma {:induction false} RemovePointFree(s: string)
    requires Free(s, '.')
    ensures RemovePoint(s) == s
  {
    if s != "" {
      RemovePointFree(s[1..]);
    }
  }

  lemma {:induction false} RemovePointAt(a: string, b: string)
    requires Free(a, '.')
    ensures RemovePoint(a + "." + b) == a + b
  {
    var s := a + "." + b;
    if a == "" {
      assert s[1..] == b;
    } else {
      assert s[1..] == a[1..] + "." + b;
      RemovePointAt(a[1..], b);
      assert [a[0]] + (a[1..] + b) == a + b;
    }
  }

  lemma NumeralParses(s: string)
    requires IsNumeral(s)
    ensures ParsesAsDecimal(s) && RemovePoint(s) != "" && IsDigit(RemovePoint(s)[0])
    ensures Digits(RemovePoint(s))
  {
    JoinOfSplit(s, '.');
    var parts := Split(s, '.');
    if |parts| == 1 {
      RemovePointFree(s);
    } else {
      assert Join(parts[1..], '.') == parts[1];
      assert s == parts[0] + "." + parts[1];
      RemovePointAt(parts[0], parts[1]);
    }
  }

  lemma DecimalTextParses(s: string)
    requires IsDecimalText(s)
    ensures ParsesAsDecimal(s)
    ensures s != "" && forall i :: 0 <= i < |s| ==> IsRateChar(s[i])
  {
    if IsNumeral(s) {
      NumeralParses(s);
      NumeralIsRate(s);
    } else {
      NumeralParses(s[1..]);
      NumeralIsRate(s[1..]);
      assert RemovePoint(s) == [s[0]] + RemovePoint(s[1..]);
      assert RemovePoint(s)[1..] == RemovePoint(s[1..]);
    }
  }

  /** Denoms that a reader can tell from the number before and the pair after them. */
  ghost predicate DenomsReadable(prices: map<string, real>) {
    forall d :: d in prices ==> d != "" && !IsRateChar(d[0]) && Free(d, ',')
  }

  /** The validator accepts what the builder builds, and its split into number and denom recovers
      every price, in the order of the denoms. */
  lemma BuildValidateAgree(prices: map<string, real>, format: real -> string, denoms: seq<string>)
    requires Enumerates(denoms, prices.Keys) && prices != map[] && DenomsReadable(prices)
    requires forall d :: d in prices ==> IsDecimalText(format(prices[d]))
    ensures var text := TuplesText(RateTuples(denoms, prices, format));
            && text != "" && (forall pair :: pair in Split(text, ',') ==> PairError(pair).None?)
            && SplitTuples(text) == Map(RateTuples(denoms, prices, format), t => Some(t))
  {
    var ts := RateTuples(denoms, prices, format);
    SomeKey(denoms, prices);
    forall t | t in ts ensures Readable(t) && ParsesAsDecimal(t.rate) {
      var i :| 0 <= i < |ts| && ts[i] == t;
      assert denoms[i] in denoms;
      DecimalTextParses(t.rate);
    }
    ReadableTuplesValidate(ts);
  }

  lemma ReadableTuplesValidate(ts: seq<Tuple>)
    requires ts != [] && forall t :: t in ts ==> Readable(t) && ParsesAsDecimal(t.rate)
    ensures var text := TuplesText(ts);
            && text != "" && (forall pair :: pair in Split(text, ',') ==> PairError(pair).None?)
            && SplitTuples(text) == Map(ts, t => Some(t))
  {
    var text := TuplesText(ts);
    SplitOfTuplesText(ts);
    var pairs := Split(text, ',');
    forall pair | pair in pairs ensures PairError(pair).None? {
      var i :| 0 <= i < |pairs| && pairs[i] == pair;
      assert SplitTuples(text)[i] == Some(ts[i]) && ts[i] in ts;
      assert SplitPair(pair) == Some(ts[i]);
    }
    assert Split("", ',') == [""];
    assert "" in Split("", ',') && PairError("").Some?;
  }

  lemma SomeKey(denoms: seq<string>, prices: map<string, real>)
    requires Enumerates(denoms, prices.Keys) && prices != map[]
    ensures denoms != []
  {
    var d :| d in prices;
    assert d in denoms;
  }

  /** The string is a function of the price map: the visiting order of the map does not show in it. */
  lemma RatesStringUnique(prices: map<string, real>, denoms1: seq<string>, denoms2: seq<string>)
    requires Enumerates(denoms1, prices.Keys) && Sorted(denoms1, ByText)
    requires Enumerates(denoms2, prices.Keys) && Sorted(denoms2, ByText)
    ensures denoms1 == denoms2
  {
    EnumerationsPermute(denoms1, denoms2, prices.Keys);
    forall i, j | 0 <= i < |denoms1| && 0 <= j < |denoms1|
                  && ByText(denoms1[i], denoms1[j]) && ByText(denoms1[j], denoms1[i])
      ensures denoms1[i] == denoms1[j]
    {
      LeqAntisymmetric(denoms1[i], denoms1[j]);
    }
    SortedUnique(denoms1, denoms2, ByText);
  }

  // ---------- commitments ----------

  function BuildPrevote(salt: string, exchangeRates: string, validator: string, feeder: string, hash: string -> string)
    : ExchangeRatePrevote
  {
    ExchangeRatePrevote(Commitment(hash, salt, exchangeRates, validator), "uusd", feeder, validator)
  }

  function BuildVote(salt: string, exchangeRates: string, validator: string, feeder: string): ExchangeRateVote {
    ExchangeRateVote(exchangeRates, salt, "uusd", feeder, validator)
  }

  predicate VoteMatchesPrevote(prevote: ExchangeRatePrevote, vote: ExchangeRateVote, hash: string -> string) {
    Commitment(hash, vote.salt, vote.exchangeRates, vote.validator) == prevote.hash
  }

  ghost predicate Injective(hash: string -> string) {
    forall a, b :: hash(a) == hash(b) ==> a == b
  }

  lemma {:induction false} SplitLast(front: string, c: char, last: string)
    requires Free(last, c)
    ensures Split(front + [c] + last, c) == Split(front, c) + [last]
  {
    var s := front + [c] + last;
    if front == "" {
      assert s[1..] == last;
      SplitFree(last, c);
    } else {
      assert s[1..] == front[1..] + [c] + last;
      SplitLast(front[1..], c, last);
      var rest := Split(front[1..], c);
      assert (rest + [last])[0] == rest[0] && (rest + [last])[1..] == rest[1..] + [last];
    }
  }

  /** The text that is hashed determines salt, rates and validator, if salt and validator have no colon. */
  lemma PreimageInjective(salt: string, rates: string, validator: string, salt': string, rates': string, validator': string)
    requires Free(salt, ':') && Free(salt', ':') && Free(validator, ':') && Free(validator', ':')
    requires salt + ":" + rates + ":" + validator == salt' + ":" + rates' + ":" + validator'
    ensures salt == salt' && rates == rates' && validator == validator'
  {
    var text := salt + ":" + rates + ":" + validator;
    SplitLast(salt + ":" + rates, ':', validator);
    SplitLast(salt' + ":" + rates', ':', validator');
    var parts := Split(text, ':');
    assert validator == parts[|parts| - 1] == validator';
    SplitHead(salt, ':', rates);
    SplitHead(salt', ':', rates');
    assert salt == parts[0] == salt';
    var n := |salt| + 1;
    assert rates == text[n..|text| - |validator| - 1] == rates';
  }

  /** A vote matches a prevote exactly when it reveals what was committed to: the same salt, the same
      rates, for the same validator. */
  lemma CommitmentBinding(salt: string, rates: string, validator: string, feeder: string,
                          vote: ExchangeRateVote, hash: string -> string)
    requires Injective(hash)
    requires Free(salt, ':') && Free(validator, ':') && Free(vote.salt, ':') && Free(vote.validator, ':')
    ensures VoteMatchesPrevote(BuildPrevote(salt, rates, validator, feeder, hash), vote, hash)
       <==> vote.salt == salt && vote.exchangeRates == rates && vote.validator == validator
    ensures VoteMatchesPrevote(BuildPrevote(salt, rates, validator, feeder, hash),
                               BuildVote(salt, rates, validator, feeder), hash)
  {
    if VoteMatchesPrevote(BuildPrevote(salt, rates, validator, feeder, hash), vote, hash) {
      PreimageInjective(vote.salt, vote.exchangeRates, vote.validator, salt, rates, validator);
    }
  }

  lemma {:induction false} CutAtFirst(s: string, c: char) returns (a: string, b: string)
    requires !Free(s, c)
    ensures s == a + [c] + b && Free(a, c)
  {
    if s[0] == c {
      a, b := "", s[1..];
    } else {
      a, b := CutAtFirst(s[1..], c);
      a := [s[0]] + a;
    }
  }

  lemma {:induction false} CutAtLast(s: string, c: char) returns (a: string, b: string)
    requires !Free(s, c)
    ensures s == a + [c] + b && Free(b, c)
  {
    var n := |s| - 1;
    if s[n] == c {
      a, b := s[..n], "";
    } else {
      a, b := CutAtLast(s[..n], c);
      b := b + [s[n]];
    }
  }

  /** With a colon in the salt or in the validator, a vote without such colons opens the prevote in
      another way: the salt ends at its first colon, the validator begins after its last one. */
  lemma ColonBreaksBinding(salt: string, rates: string, validator: string, feeder: string, hash: string -> string)
    returns (vote: ExchangeRateVote)
    requires !Free(salt, ':') || !Free(validator, ':')
    ensures Free(vote.salt, ':') && Free(vote.validator, ':')
    ensures VoteMatchesPrevote(BuildPrevote(salt, rates, validator, feeder, hash), vote, hash)
    ensures vote.salt != salt || vote.validator != validator
  {
    var head, rest, middle, last := salt, rates, rates, validator;
    if !Free(salt, ':') {
      var b;
      head, b := CutAtFirst(salt, ':');
      rest := b + ":" + rates;
      assert salt + ":" + rates == head + ":" + rest;
    }
    middle := rest;
    if !Free(validator, ':') {
      var a;
      a, last := CutAtLast(validator, ':');
      middle := rest + ":" + a;
      assert rest + ":" + validator == middle + ":" + last;
    }
    vote := BuildVote(head, middle, last, feeder);
    SamePreimage(salt, rates, validator, head, rest, middle, last);
  }

  lemma SamePreimage(salt: string, rates: string, validator: string, head: string, rest: string, middle: string,
                     last: string)
    requires salt + ":" + rates == head + ":" + rest
    requires rest + ":" + validator == middle + ":" + last
    ensures salt + ":" + rates + ":" + validator == head + ":" + middle + ":" + last
  {
    var front := head + ":";
    assert salt + ":" + rates + ":" + validator == front + rest + ":" + validator;
    assert front + rest + ":" + validator == front + (rest + ":" + validator);
    assert front + (middle + ":" + last) == front + middle + ":" + last;
  }

  /** A prevote binds its salt, rates and validator, against all votes with colon-free salt and validator,
      exactly if its own salt and validator are colon-free. */
  lemma BindingExactly(salt: string, rates: string, validator: string, feeder: string, hash: string -> string)
    requires Injective(hash)
    ensures (forall vote: ExchangeRateVote ::
               Free(vote.salt, ':') && Free(vote.validator, ':')
               && VoteMatchesPrevote(BuildPrevote(salt, rates, validator, feeder, hash), vote, hash)
               ==> vote.salt == salt && vote.exchangeRates == rates && vote.validator == validator)
            <==> Free(salt, ':') && Free(validator, ':')
  {
    if Free(salt, ':') && Free(validator, ':') {
      forall vote: ExchangeRateVote | Free(vote.salt, ':') && Free(vote.validator, ':')
                                      && VoteMatchesPrevote(BuildPrevote(salt, rates, validator, feeder, hash), vote, hash)
        ensures vote.salt == salt && vote.exchangeRates == rates && vote.validator == validator
      {
        CommitmentBinding(salt, rates, validator, feeder, vote, hash);
      }
    } else {
      var vote := ColonBreaksBinding(salt, rates, validator, feeder, hash);
    }
  }
}
