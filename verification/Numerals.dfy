/**
 Decimal text: what `strconv.FormatFloat(x, 'f', -1, 64)` prints for a non-negative
 number, the truncation to 18 decimals in `float64ToDec`, and the value of either.
 */
module Numerals {
  import opened Text

  predicate IsDigit(c: char) { '0' <= c <= '9' }

  predicate Digits(s: string) { forall i :: 0 <= i < |s| ==> IsDigit(s[i]) }

  /** `digits` or `digits.digits`, both non-empty. */
  predicate IsNumeral(s: string) {
    var parts := Split(s, '.');
    && |parts| <= 2
    && parts[0] != [] && Digits(parts[0])
    && (|parts| == 2 ==> parts[1] != [] && Digits(parts[1]))
  }

  /** A numeral with at most 18 decimals, no trailing zero and no dangling point. */
  predicate IsCanonical(s: string) {
    && IsNumeral(s)
    && var parts := Split(s, '.');
       |parts| == 2 ==> |parts[1]| <= 18 && parts[1][|parts[1]| - 1] != '0'
  }

  function DigitValue(c: char): nat
    requires IsDigit(c)
  {
    (c - '0') as nat
  }

  function NatValue(s: string): nat
    requires Digits(s)
  {
    if s == [] then 0 else 10 * NatValue(s[..|s| - 1]) + DigitValue(s[|s| - 1])
  }

  /** The value of the digits after the point. */
  function Fraction(s: string): real
    requires Digits(s)
  {
    if s == [] then 0.0 else (DigitValue(s[0]) as real + Fraction(s[1..])) / 10.0
  }

  function Value(s: string): real
    requires IsNumeral(s)
  {
    var parts := Split(s, '.');
    NatValue(parts[0]) as real + (if |parts| == 2 then Fraction(parts[1]) else 0.0)
  }

  /** At most the first `k` characters. */
  function Cut(s: string, k: nat): string {
    if |s| > k then s[..k] else s
  }

  /** `float64ToDec` after the call of `FormatFloat`. */
  function Float64ToDec(formatted: string): string {
    var parts := Split(formatted, '.');
    var intPart := parts[0];
    var decPart := if |parts| > 1 then parts[1] else "";
    Assemble(intPart, TrimRight(Cut(decPart, 18), '0'))
  }

  /** `x` times ten to the power `k`. */
  function Shift(x: real, k: nat): real
    decreases k
  {
    if k == 0 then x else Shift(10.0 * x, k - 1)
  }

  lemma {:induction false} ShiftAdds(x: real, y: real, k: nat)
    ensures Shift(x + y, k) == Shift(x, k) + Shift(y, k)
    decreases k
  {
    if k > 0 {
      ShiftAdds(10.0 * x, 10.0 * y, k - 1);
      assert 10.0 * (x + y) == 10.0 * x + 10.0 * y;
    }
  }

  lemma {:induction false} ShiftNat(x: nat, k: nat) returns (n: nat)
    ensures Shift(x as real, k) == n as real
    decreases k
  {
    if k == 0 {
      n := x;
    } else {
      n := ShiftNat(10 * x, k - 1);
    }
  }

  /** The scale of an SDK decimal. */
  const SCALE: real := 1000000000000000000.0

  lemma ShiftBySix(x: real)
    ensures Shift(x, 6) == 1000000.0 * x
  {
    assert Shift(x, 6) == Shift(10.0 * x, 5) == Shift(100.0 * x, 4) == Shift(1000.0 * x, 3)
        == Shift(10000.0 * x, 2) == Shift(100000.0 * x, 1) == Shift(1000000.0 * x, 0);
  }

  lemma {:induction false} ShiftComposes(x: real, j: nat, k: nat)
    ensures Shift(x, j + k) == Shift(Shift(x, j), k)
    decreases j
  {
    if j > 0 {
      ShiftComposes(10.0 * x, j - 1, k);
    }
  }

  lemma ShiftIsScale(x: real)
    ensures Shift(x, 18) == SCALE * x
  {
    ShiftComposes(x, 6, 12);
    ShiftComposes(1000000.0 * x, 6, 6);
    ShiftBySix(x);
    ShiftBySix(1000000.0 * x);
    ShiftBySix(1000000000000.0 * x);
  }

  lemma {:induction false} FractionRange(s: string)
    requires Digits(s)
    ensures 0.0 <= Fraction(s) < 1.0
  {
    if s != [] {
      FractionRange(s[1..]);
    }
  }

  lemma {:induction false} FractionTrailingZero(s: string)
    requires Digits(s)
    ensures Fraction(s + "0") == Fraction(s)
  {
    if s != [] {
      FractionTrailingZero(s[1..]);
      assert (s + "0")[1..] == s[1..] + "0";
    } else {
      assert ("0")[1..] == "";
      assert s + "0" == "0";
    }
  }

  lemma {:induction false} TrimmedFraction(s: string)
    requires Digits(s)
    ensures Digits(TrimRight(s, '0')) && Fraction(TrimRight(s, '0')) == Fraction(s)
    ensures |TrimRight(s, '0')| <= |s|
    ensures var t := TrimRight(s, '0'); t != "" ==> t[|t| - 1] != '0'
  {
    if s != [] && s[|s| - 1] == '0' {
      TrimmedFraction(s[..|s| - 1]);
      FractionTrailingZero(s[..|s| - 1]);
      assert s == s[..|s| - 1] + "0";
    }
  }

  /** The first `k` decimals are the fraction rounded down to a multiple of 10^-k. */
  lemma {:induction false} CutIsFloor(s: string, k: nat) returns (n: nat)
    requires Digits(s)
    ensures Digits(Cut(s, k))
    ensures Shift(Fraction(Cut(s, k)), k) == n as real
    ensures n as real <= Shift(Fraction(s), k) < n as real + 1.0
  {
    if k == 0 {
      FractionRange(s);
      n := 0;
    } else if s == [] {
      n := ShiftNat(0, k);
      ShiftAdds(0.0, 0.0, k);
    } else {
      var rest := CutIsFloor(s[1..], k - 1);
      var d := DigitValue(s[0]);
      var lead := ShiftNat(d, k - 1);
      n := lead + rest;
      assert Cut(s, k)[1..] == Cut(s[1..], k - 1) && Cut(s, k)[0] == s[0];
      ShiftAdds(d as real, Fraction(Cut(s[1..], k - 1)), k - 1);
      ShiftAdds(d as real, Fraction(s[1..]), k - 1);
      assert 10.0 * Fraction(s) == d as real + Fraction(s[1..]);
    }
  }

  lemma DigitsHaveNoPoint(s: string)
    requires Digits(s)
    ensures Free(s, '.')
  {
  }

  /** `Float64ToDec` keeps the integer digits and the first 18 decimals without trailing zeros. */
  lemma DecParts(s: string) returns (intPart: string, decPart: string)
    requires IsNumeral(s)
    ensures Digits(intPart) && Digits(decPart)
    ensures Value(s) == NatValue(intPart) as real + Fraction(decPart)
    ensures IsCanonical(Float64ToDec(s))
    ensures Value(Float64ToDec(s)) == NatValue(intPart) as real + Fraction(Cut(decPart, 18))
  {
    var parts := Split(s, '.');
    intPart := parts[0];
    decPart := if |parts| > 1 then parts[1] else "";
    var trimmed := TrimRight(Cut(decPart, 18), '0');
    TrimmedFraction(Cut(decPart, 18));
    AssembledNumeral(intPart, trimmed);
    assert Float64ToDec(s) == Assemble(intPart, trimmed);
  }

  /** A numeral from its two groups of digits. */
  function Assemble(intPart: string, decPart: string): string {
    if decPart == "" then intPart else intPart + "." + decPart
  }

  lemma AssembledNumeral(intPart: string, decPart: string)
    requires Digits(intPart) && intPart != "" && Digits(decPart) && |decPart| <= 18
    requires decPart != "" ==> decPart[|decPart| - 1] != '0'
    ensures IsCanonical(Assemble(intPart, decPart))
    ensures Value(Assemble(intPart, decPart)) == NatValue(intPart) as real + Fraction(decPart)
  {
    DigitsHaveNoPoint(intPart);
    DigitsHaveNoPoint(decPart);
    SplitFree(intPart, '.');
    SplitFree(decPart, '.');
    if decPart != "" {
      SplitHead(intPart, '.', decPart);
      assert Assemble(intPart, decPart) == intPart + ['.'] + decPart;
    }
  }

  lemma WholeAndCut(whole: nat, decPart: string, k: nat) returns (n: nat)
    requires Digits(decPart)
    ensures Digits(Cut(decPart, k))
    ensures Shift(whole as real + Fraction(Cut(decPart, k)), k) == n as real
    ensures n as real <= Shift(whole as real + Fraction(decPart), k) < n as real + 1.0
  {
    var decimals := CutIsFloor(decPart, k);
    var shifted := ShiftNat(whole, k);
    n := shifted + decimals;
    ShiftAdds(whole as real, Fraction(Cut(decPart, k)), k);
    ShiftAdds(whole as real, Fraction(decPart), k);
  }

  lemma FloorFromShift(x: real, y: real, k: nat, n: nat)
    requires k == 18
    requires Shift(y, k) == n as real <= Shift(x, k) < n as real + 1.0
    ensures SCALE * y == (SCALE * x).Floor as real
  {
    ShiftIsScale(x);
    ShiftIsScale(y);
    FloorBetween(SCALE * x, n);
  }

  lemma FloorBetween(x: real, n: int)
    requires n as real <= x < n as real + 1.0
    ensures x.Floor == n
  {
  }

  /** The rate put in a vote is the price rounded down to a multiple of 10^-18, in canonical text. */
  lemma DecTruncates(s: string)
    requires IsNumeral(s)
    ensures IsCanonical(Float64ToDec(s))
    ensures SCALE * Value(Float64ToDec(s)) == (SCALE * Value(s)).Floor as real
  {
    var k: nat := 18;
    var intPart, decPart := DecParts(s);
    var n := WholeAndCut(NatValue(intPart), decPart, k);
    FloorFromShift(Value(s), Value(Float64ToDec(s)), k, n);
  }
}
