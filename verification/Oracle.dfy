/** Prevotes and votes: pkg/feeder/oracle/oracle.go. */
module Oracle {
  import opened Wrappers
  import opened Text
  import opened Ledger
  import opened Numerals
  import opened Sorting
  import opened Tuples

  datatype Price = Price(denom: string, rate: real)

  /** The commitment, with the salt and the vote string that open it. */
  datatype Prevote = Prevote(msg: Msg, salt: string, vote: string)

  datatype PrevoteError = NoPricesProvided | SaltUnavailable

  const ByDenom: (Price, Price) -> bool := (p: Price, q: Price) => Leq(p.denom, q.denom)

  lemma ByDenomIsTotal()
    ensures TotalPreorder(ByDenom)
  {
    forall p: Price, q: Price ensures ByDenom(p, q) || ByDenom(q, p) {
      LeqTotal(p.denom, q.denom);
    }
    forall p: Price, q: Price, r: Price | ByDenom(p, q) && ByDenom(q, r) ensures ByDenom(p, r) {
      LeqTransitive(p.denom, q.denom, r.denom);
    }
  }

  /** The hash of "salt:vote:validator"; `hash` is any function on text. */
  function Commitment(hash: string -> string, salt: string, vote: string, validator: string): string {
    hash(salt + ":" + vote + ":" + validator)
  }

  function PrefixDenom(denom: string): string {
    if !HasPrefix(denom, "u") && denom != "UST" then "u" + ToLower(denom) else denom
  }

  /** `format` is the library's shortest decimal text for a number. */
  function PriceTuple(p: Price, format: real -> string): Tuple {
    Tuple(Float64ToDec(format(p.rate)), PrefixDenom(p.denom))
  }

  function PriceTuples(prices: seq<Price>, format: real -> string): (r: seq<Tuple>)
    ensures |r| == |prices|
    ensures forall i :: 0 <= i < |prices| ==> r[i] == PriceTuple(prices[i], format)
  {
    Map(prices, p => PriceTuple(p, format))
  }

  /** A vote message reveals the salt and the vote string of a prevote. */
  function NewVote(p: Prevote, validator: string): Msg {
    VoteMsg(p.salt, p.vote, validator)
  }

  /** The messages of one submission: the reveal of the stored prevote, if any, then the new commitment. */
  function CombinedMessages(stored: Option<Prevote>, p: Prevote, validator: string): seq<Msg> {
    (if stored.Some? then [NewVote(stored.value, validator)] else []) + [p.msg]
  }

  /** `p` commits to its own salt and vote string for `validator`. */
  predicate Opens(p: Prevote, hash: string -> string, validator: string) {
    p.msg == PrevoteMsg(Commitment(hash, p.salt, p.vote, validator), validator)
  }

  /** The vote string lists the prices in some order by denom; `order` says which one was taken. */
  method NewPrevote(prices: seq<Price>, validator: string, salt: Option<string>,
                    format: real -> string, hash: string -> string)
    returns (r: Result<Prevote, PrevoteError>, ghost order: seq<Price>)
    ensures prices == [] ==> r == Err(NoPricesProvided)
    ensures prices != [] && salt.None? ==> r == Err(SaltUnavailable)
    ensures prices != [] && salt.Some? ==>
              && r.Ok? && Opens(r.value, hash, validator) && r.value.salt == salt.value
              && Sorted(order, ByDenom) && multiset(order) == multiset(prices)
              && r.value.vote == TuplesText(PriceTuples(order, format))
              && (forall i, j :: 0 <= i < j < |order| ==> Leq(order[i].denom, order[j].denom))
              && r.value.msg == PrevoteMsg(hash(r.value.salt + ":" + r.value.vote + ":" + validator), validator)
  {
    order := [];
    if prices == [] {
      return Err(NoPricesProvided), order;
    }
    var sortedPrices := new Price[|prices|](i requires 0 <= i < |prices| => prices[i]);
    assert sortedPrices[..] == prices;
    ByDenomIsTotal();
    SortSlice(sortedPrices, ByDenom);
    order := sortedPrices[..];

    var voteParts: seq<string> := [];
    for i := 0 to sortedPrices.Length
      invariant sortedPrices[..] == order
      invariant voteParts == Map(PriceTuples(order, format)[..i], TupleText)
    {
      var priceStr := Float64ToDec(format(sortedPrices[i].rate));
      var denom := sortedPrices[i].denom;
      if !HasPrefix(denom, "u") && denom != "UST" {
        denom := "u" + ToLower(denom);
      }
      voteParts := voteParts + [priceStr + denom];
      assert priceStr + denom == TupleText(PriceTuples(order, format)[i]);
    }
    assert PriceTuples(order, format)[..|order|] == PriceTuples(order, format);
    var voteStr := Join(voteParts, ',');
    if salt.None? {
      return Err(SaltUnavailable), order;
    }
    r := Ok(Prevote(PrevoteMsg(Commitment(hash, salt.value, voteStr, validator), validator), salt.value, voteStr));
  }

  /** The denom in a tuple: micro denoms and UST stay, others become micro denoms. */
  lemma PrefixExactly(denom: string)
    ensures denom == "UST" || (denom != "" && denom[0] == 'u') ==> PrefixDenom(denom) == denom
    ensures denom != "UST" && (denom == "" || denom[0] != 'u') ==> PrefixDenom(denom) == "u" + ToLower(denom)
  {
    assert HasPrefix(denom, "u") <==> denom != "" && denom[0] == 'u';
  }

  /** The vote string of `p` lists exactly these prices, in an order by denom. */
  ghost predicate Lists(p: Prevote, prices: seq<Price>, format: real -> string) {
    && prices != []
    && exists order :: Sorted(order, ByDenom) && multiset(order) == multiset(prices)
                       && p.vote == TuplesText(PriceTuples(order, format))
  }

  // ---------- what the vote string means ----------

  ghost predicate DistinctDenoms(prices: seq<Price>) {
    forall i, j :: 0 <= i < j < |prices| ==> prices[i].denom != prices[j].denom
  }

  lemma DistinctDenomsPermute(s: seq<Price>, t: seq<Price>)
    requires multiset(s) == multiset(t) && DistinctDenoms(s)
    ensures DistinctDenoms(t)
  {
    forall i, j | 0 <= i < j < |t| ensures t[i].denom != t[j].denom {
      if t[i].denom == t[j].denom {
        assert t[i] in multiset(s) && t[j] in multiset(s);
        var a :| 0 <= a < |s| && s[a] == t[i];
        var b :| 0 <= b < |s| && s[b] == t[j];
        assert a == b;
        TwiceInMultiset(t, i, j);
        OnceInMultiset(s, a);
        assert false;
      }
    }
  }

  lemma TwiceInMultiset(t: seq<Price>, i: nat, j: nat)
    requires i < j < |t| && t[i] == t[j]
    ensures multiset(t)[t[i]] >= 2
  {
    assert t == t[..i] + [t[i]] + t[i + 1..j] + [t[j]] + t[j + 1..];
  }

  lemma OnceInMultiset(s: seq<Price>, a: nat)
    requires a < |s| && DistinctDenoms(s)
    ensures multiset(s)[s[a]] == 1
  {
    assert s == s[..a] + [s[a]] + s[a + 1..];
    assert s[a] !in s[..a] && s[a] !in s[a + 1..];
  }

  /** With distinct denoms the order, and with it the vote string, depends only on which prices are given. */
  lemma VoteOrderUnique(prices: seq<Price>, order1: seq<Price>, order2: seq<Price>)
    requires DistinctDenoms(prices)
    requires Sorted(order1, ByDenom) && multiset(order1) == multiset(prices)
    requires Sorted(order2, ByDenom) && multiset(order2) == multiset(prices)
    ensures order1 == order2
  {
    DistinctDenomsPermute(prices, order1);
    forall i, j | 0 <= i < |order1| && 0 <= j < |order1|
                  && ByDenom(order1[i], order1[j]) && ByDenom(order1[j], order1[i])
      ensures order1[i] == order1[j]
    {
      LeqAntisymmetric(order1[i].denom, order1[j].denom);
    }
    SortedUnique(order1, order2, ByDenom);
  }

  /** The denoms the chain's oracle module knows: micro denoms and the meta denom. */
  predicate IsOracleDenom(denom: string) {
    (HasPrefix(denom, "u") || denom == "UST") && Free(denom, ',')
  }

  /** The tuple gives the denom of `p`, and its rate rounded down to 18 decimals in canonical text. */
  ghost predicate Tells(tuple: Option<Tuple>, p: Price, format: real -> string) {
    && tuple.Some? && tuple.value.denom == p.denom
    && IsNumeral(format(p.rate)) && IsCanonical(tuple.value.rate)
    && SCALE * Value(tuple.value.rate) == (SCALE * Value(format(p.rate))).Floor as real
  }

  /** Reading the vote string back yields each price's denom once, in order, with the price
      rounded down to 18 decimals in canonical text. */
  lemma VoteStringRoundTrip(order: seq<Price>, format: real -> string)
    requires order != []
    requires forall p :: p in order ==> IsOracleDenom(p.denom) && IsNumeral(format(p.rate))
    ensures var tuples := SplitTuples(TuplesText(PriceTuples(order, format)));
            |tuples| == |order| && forall i :: 0 <= i < |order| ==> Tells(tuples[i], order[i], format)
  {
    var ts := PriceTuples(order, format);
    forall i | 0 <= i < |order|
      ensures Readable(ts[i]) && ts[i].denom == order[i].denom
      ensures IsCanonical(ts[i].rate)
      ensures SCALE * Value(ts[i].rate) == (SCALE * Value(format(order[i].rate))).Floor as real
    {
      assert order[i] in order;
      DecTruncates(format(order[i].rate));
      NumeralIsRate(ts[i].rate);
    }
    SplitOfTuplesText(ts);
  }

  /** Rounding down to 18 decimals loses less than 10^-18. */
  lemma TruncationLoss(x: string)
    requires IsNumeral(x)
    ensures IsNumeral(Float64ToDec(x))
    ensures Value(Float64ToDec(x)) <= Value(x) < Value(Float64ToDec(x)) + 0.000000000000000001
  {
    DecTruncates(x);
    var scaled := SCALE * Value(x);
    assert scaled.Floor as real <= scaled < scaled.Floor as real + 1.0;
  }
}
