/**
 Exchange-rate tuples "rate+denom", joined by commas, and the splitter that reads them back:
 a tuple's rate is its longest prefix of digits, points and minus signs.
 */
module Tuples {
  import opened Text
  import opened Wrappers
  import opened Numerals
  import opened Sorting

  datatype Tuple = Tuple(rate: string, denom: string)

  predicate IsRateChar(c: char) { IsDigit(c) || c == '.' || c == '-' }

  /** Index of the first character from `i` on that cannot belong to a rate; 0 if there is none. */
  function DenomStart(pair: string, i: nat := 0): (r: nat)
    requires i <= |pair|
    ensures r == 0 || (i <= r < |pair| && !IsRateChar(pair[r]))
    decreases |pair| - i
  {
    if i == |pair| then 0
    else if !IsRateChar(pair[i]) then i
    else DenomStart(pair, i + 1)
  }

  /** None where the repository reports an invalid pair. */
  function SplitPair(pair: string): Option<Tuple> {
    var start := DenomStart(pair);
    if start == 0 then None else Some(Tuple(pair[..start], pair[start..]))
  }

  function SplitTuples(text: string): seq<Option<Tuple>> {
    Map(Split(text, ','), SplitPair)
  }

  function TupleText(t: Tuple): string { t.rate + t.denom }

  function TuplesText(ts: seq<Tuple>): string {
    Join(Map(ts, TupleText), ',')
  }

  /** The text: rate and denom of each tuple, a comma between one and the next. */
  lemma TuplesTextExactly(t: Tuple, ts: seq<Tuple>)
    ensures TuplesText([t]) == t.rate + t.denom
    ensures ts != [] ==> TuplesText([t] + ts) == t.rate + t.denom + "," + TuplesText(ts)
  {
    assert Map([t] + ts, TupleText) == [TupleText(t)] + Map(ts, TupleText);
    assert Map([t] + ts, TupleText)[1..] == Map(ts, TupleText);
  }

  /** A tuple that can be told from its neighbours and its rate from its denom. */
  ghost predicate Readable(t: Tuple) {
    && t.rate != "" && (forall i :: 0 <= i < |t.rate| ==> IsRateChar(t.rate[i]))
    && t.denom != "" && !IsRateChar(t.denom[0]) && Free(t.denom, ',')
  }

  lemma {:induction false} DenomStartOf(t: Tuple, i: nat)
    requires Readable(t) && i <= |t.rate|
    ensures DenomStart(TupleText(t), i) == |t.rate|
    decreases |t.rate| - i
  {
    var pair := TupleText(t);
    if i < |t.rate| {
      assert pair[i] == t.rate[i];
      DenomStartOf(t, i + 1);
    } else {
      assert pair[i] == t.denom[0];
    }
  }

  /** Splitting recovers every tuple that was joined, in order. */
  lemma SplitOfTuplesText(ts: seq<Tuple>)
    requires ts != [] && forall t :: t in ts ==> Readable(t)
    ensures SplitTuples(TuplesText(ts)) == Map(ts, t => Some(t))
  {
    var pairs := Map(ts, TupleText);
    forall i | 0 <= i < |ts|
      ensures Free(pairs[i], ',') && SplitPair(pairs[i]) == Some(ts[i])
    {
      assert Readable(ts[i]);
      assert Free(ts[i].rate, ',');
      DenomStartOf(ts[i], 0);
      assert pairs[i][..|ts[i].rate|] == ts[i].rate && pairs[i][|ts[i].rate|..] == ts[i].denom;
    }
    SplitOfJoin(pairs, ',');
  }

  lemma NumeralIsRate(s: string)
    requires IsNumeral(s)
    ensures s != "" && forall i :: 0 <= i < |s| ==> IsRateChar(s[i])
  {
    JoinOfSplit(s, '.');
    var parts := Split(s, '.');
    if |parts| == 2 {
      assert Join(parts[1..], '.') == parts[1];
      assert s == parts[0] + ['.'] + parts[1];
    }
  }
}
