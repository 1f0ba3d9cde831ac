/** The argument validator shared by the scripts (util.py; merge_gopro_clips.py
    carries an identical copy). */
module Util {
  import opened Cli
  import opened PyInt

  function NotPositiveMessage(value: string): string
  {
    value + " must be positive integer."
  }

  /** check_positive: converts the text with int() and accepts only values above
      zero. A conversion failure comes first; a value of zero or below is
      rejected with a message that quotes the original text. */
  function CheckPositive(value: string): (r: Result<int>)
    ensures r.Ok? <==> ParseInt(value).Some? && ParseInt(value).value > 0
    ensures r.Ok? ==> r.value > 0 && ParseInt(value) == Some(r.value)
    ensures ParseInt(value).None? ==> r == Err(ValueError(value))
    ensures ParseInt(value).Some? && ParseInt(value).value <= 0 ==>
              r == Err(ArgumentTypeError(NotPositiveMessage(value)))
  {
    match ParseInt(value)
    case None => Err(ValueError(value))
    case Some(n) => if n <= 0 then Err(ArgumentTypeError(NotPositiveMessage(value))) else Ok(n)
  }

  /** A positive numeral is returned as its value. */
  lemma PositiveAccepted(n: nat)
    requires n > 0
    ensures CheckPositive(Numeral(n)) == Ok(n)
  {
    ParseNumeral(n);
  }

  /** Zero is rejected, and the message quotes the text as given. */
  lemma ZeroRejected()
    ensures CheckPositive("0") == Err(ArgumentTypeError(NotPositiveMessage("0")))
  {
    assert Numeral(0) == "0";
    ParseNumeral(0);
    assert ParseInt("0") == Some(0);
  }

  /** A negative numeral is rejected with a message that quotes the original text. */
  lemma NegativeRejected(n: nat)
    ensures CheckPositive("-" + Numeral(n)) ==
              Err(ArgumentTypeError(NotPositiveMessage("-" + Numeral(n))))
  {
    ParseNegativeNumeral(n);
  }

  /** Text that int() refuses fails at conversion, before any sign test. */
  lemma NonNumericRejected(value: string, i: nat)
    requires i < |value| && !IsDigit(value[i])
    requires i == 0 ==> value[0] != '-' && value[0] != '+'
    ensures CheckPositive(value) == Err(ValueError(value))
  {
    RejectsNonDigit(value, i);
  }
}
