/** Python's int() on text, restricted to ASCII: an optional sign followed by
    one or more decimal digits. */
module PyInt {
  import opened Cli

  predicate IsDigit(c: char) { '0' <= c <= '9' }

  predicate AllDigits(s: string) { forall i :: 0 <= i < |s| ==> IsDigit(s[i]) }

  function DigitValue(c: char): (d: nat)
    requires IsDigit(c)
    ensures d < 10
  {
    c as int - '0' as int
  }

  function Digit(d: nat): (c: char)
    requires d < 10
    ensures IsDigit(c) && DigitValue(c) == d
  {
    ('0' as int + d) as char
  }

  /** Value of a digit string, most significant digit first. */
  function DigitsValue(s: string): nat
    requires AllDigits(s)
  {
    if s == [] then 0 else DigitsValue(s[..|s| - 1]) * 10 + DigitValue(s[|s| - 1])
  }

  /** The decimal numeral of n, without leading zeros (str(n) in Python). */
  function Numeral(n: nat): (s: string)
    ensures |s| >= 1 && AllDigits(s)
  {
    if n < 10 then [Digit(n)] else Numeral(n / 10) + [Digit(n % 10)]
  }

  /** int(s): None where Python raises ValueError. */
  function ParseInt(s: string): (r: Option<int>)
    ensures r.Some? ==> |s| >= 1 && forall i :: 1 <= i < |s| ==> IsDigit(s[i])
    ensures r.Some? && '-' !in s ==> r.value >= 0
  {
    if |s| >= 2 && (s[0] == '-' || s[0] == '+') && AllDigits(s[1..]) then
      var magnitude: int := DigitsValue(s[1..]);
      Some(if s[0] == '-' then -magnitude else magnitude)
    else if |s| >= 1 && AllDigits(s) then
      Some(DigitsValue(s))
    else
      None
  }

  lemma {:induction false} NumeralValue(n: nat)
    ensures DigitsValue(Numeral(n)) == n
  {
    if n >= 10 {
      var s := Numeral(n);
      assert s[..|s| - 1] == Numeral(n / 10);
      NumeralValue(n / 10);
    }
  }

  /** int(str(n)) == n for every natural n. */
  lemma ParseNumeral(n: nat)
    ensures ParseInt(Numeral(n)) == Some(n)
  {
    NumeralValue(n);
  }

  /** int("-" + str(n)) == -n for every natural n. */
  lemma ParseNegativeNumeral(n: nat)
    ensures ParseInt("-" + Numeral(n)) == Some(-(n as int))
  {
    var s := "-" + Numeral(n);
    assert s[1..] == Numeral(n);
    NumeralValue(n);
  }

  /** A character that is neither a digit nor a leading sign makes int() fail. */
  lemma RejectsNonDigit(s: string, i: nat)
    requires i < |s| && !IsDigit(s[i])
    requires i == 0 ==> s[0] != '-' && s[0] != '+'
    ensures ParseInt(s) == None
  {
    if |s| >= 2 && (s[0] == '-' || s[0] == '+') {
      assert i >= 1 && s[1..][i - 1] == s[i];
    }
  }
}
