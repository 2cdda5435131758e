/**
  Go's `strconv.FormatInt(i, 10)` and `strconv.ParseInt(s, 10, 64)`: signed
  decimal text for 64-bit integers.
 */
module Decimal {
  import opened Wrappers
  import opened GoStrings

  const MinInt64: int := -0x8000_0000_0000_0000
  const MaxInt64: int := 0x7FFF_FFFF_FFFF_FFFF

  const Minus: byte := 45
  const Plus: byte := 43

  predicate IsDigit(c: byte) {
    48 <= c <= 57
  }

  /** The decimal digits of `n`, most significant first, with no leading zero. */
  function Digits(n: nat): (s: GoString)
    ensures |s| >= 1
    ensures forall i :: 0 <= i < |s| ==> IsDigit(s[i])
    ensures |s| > 1 ==> s[0] != 48
  {
    if n < 10 then [48 + n] else Digits(n / 10) + [48 + n % 10]
  }

  /** `FormatInt(i, 10)`: a minus sign for negative numbers, then the digits of the magnitude. */
  function FormatInt(i: int): (s: GoString)
    ensures |s| >= 1
    ensures s[0] == Minus <==> i < 0
  {
    if i < 0 then [Minus] + Digits(-i) else Digits(i)
  }

  /** The value of a run of decimal digits. */
  function DigitsValue(s: GoString): (n: nat)
    requires forall i :: 0 <= i < |s| ==> IsDigit(s[i])
  {
    if s == [] then 0
    else
      assert IsDigit(s[|s| - 1]);
      DigitsValue(s[..|s| - 1]) * 10 + (s[|s| - 1] - 48)
  }

  predicate AllDigits(s: GoString) {
    forall i :: 0 <= i < |s| ==> IsDigit(s[i])
  }

  /** `ParseUint(s, 10, 64)` without its range check: one or more digits. */
  function ParseUnsigned(s: GoString): (r: Option<nat>)
    ensures r.Some? <==> |s| >= 1 && AllDigits(s)
  {
    if |s| >= 1 && AllDigits(s) then Some(DigitsValue(s)) else None
  }

  /**
    `ParseInt(s, 10, 64)`: an optional `+` or `-`, then one or more digits,
    the value in the range of a 64-bit signed integer; anything else fails.
   */
  function ParseInt(s: GoString): (r: Option<int>)
    ensures r.Some? ==> MinInt64 <= r.value <= MaxInt64
    ensures s == [] ==> r == None
  {
    if s == [] then None
    else if s[0] == Minus then
      match ParseUnsigned(s[1..])
      case None => None
      case Some(u) => if u <= -MinInt64 then Some(0 - u as int) else None
    else
      match ParseUnsigned(if s[0] == Plus then s[1..] else s)
      case None => None
      case Some(u) => if u <= MaxInt64 then Some(u) else None
  }

  lemma {:induction false} DigitsRoundTrip(n: nat)
    ensures DigitsValue(Digits(n)) == n
  {
    if n >= 10 {
      var s := Digits(n);
      DigitsRoundTrip(n / 10);
      assert s[..|s| - 1] == Digits(n / 10);
    }
  }

  /** Parsing what `FormatInt` wrote gives the number back, for every 64-bit integer. */
  lemma ParseFormat(i: int)
    requires MinInt64 <= i <= MaxInt64
    ensures ParseInt(FormatInt(i)) == Some(i)
  {
    if i < 0 {
      DigitsRoundTrip(-i);
      assert FormatInt(i)[1..] == Digits(-i);
    } else {
      DigitsRoundTrip(i);
    }
  }
}
