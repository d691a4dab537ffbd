/** Decimal text for 64-bit signed integers: the grammar Rust's
    `str::parse::<i64>` accepts, and the canonical text `to_string` /
    `format!("{}")` produce. */
module Decimal {
  import opened Wrappers

  const I64Min: int := -0x8000_0000_0000_0000
  const I64Max: int := 0x7FFF_FFFF_FFFF_FFFF

  predicate IsDigit(c: char) {
    '0' <= c <= '9'
  }

  predicate AllDigits(s: string) {
    forall i :: 0 <= i < |s| ==> IsDigit(s[i])
  }

  function DigitValue(c: char): nat
    requires IsDigit(c)
  {
    (c as int) - ('0' as int)
  }

  function DigitChar(d: nat): char
    requires d < 10
  {
    (('0' as int) + d) as char
  }

  /** The value of a run of decimal digits, most significant first. */
  function DigitsValue(s: string): nat
    requires AllDigits(s)
  {
    if |s| == 0 then 0 else DigitsValue(s[..|s| - 1]) * 10 + DigitValue(s[|s| - 1])
  }

  /** The text is an optional `+` or `-` followed by at least one ASCII digit. */
  predicate SignedDigits(s: string) {
    if |s| > 0 && (s[0] == '+' || s[0] == '-') then |s| > 1 && AllDigits(s[1..])
    else |s| > 0 && AllDigits(s)
  }

  /** The digits of a text that `SignedDigits` accepts, without the sign. */
  function Magnitude(s: string): string
    requires |s| > 0
  {
    if s[0] == '+' || s[0] == '-' then s[1..] else s
  }

  /** `s.parse::<i64>()`: an optional sign and one or more ASCII digits whose
      value fits in 64 bits. Leading zeros are allowed; white space,
      underscores, a decimal point or an exponent are not. */
  function ParseI64(s: string): (r: Option<int>)
    ensures r.Some? <==> SignedDigits(s) && I64Min <= SignedValue(s) <= I64Max
    ensures r.Some? ==> r.value == SignedValue(s)
  {
    if !SignedDigits(s) then None
    else
      var v := SignedValue(s);
      if I64Min <= v <= I64Max then Some(v) else None
  }

  /** The value of a text `SignedDigits` accepts. */
  function SignedValue(s: string): int
    requires SignedDigits(s)
  {
    var m: int := DigitsValue(Magnitude(s));
    if s[0] == '-' then -m else m
  }

  /** The digits of a natural number, without leading zeros. */
  function NatText(n: nat): (s: string)
    ensures |s| > 0
  {
    if n < 10 then [DigitChar(n)] else NatText(n / 10) + [DigitChar(n % 10)]
  }

  /** The canonical decimal text of an integer: a minus sign only for
      negative values, never a plus sign. */
  function IntText(n: int): string {
    if n < 0 then "-" + NatText(-n) else NatText(n)
  }

  lemma {:induction false} NatTextDigits(n: nat)
    ensures AllDigits(NatText(n))
    ensures DigitsValue(NatText(n)) == n
  {
    if n >= 10 {
      NatTextDigits(n / 10);
      var s := NatText(n / 10) + [DigitChar(n % 10)];
      assert s[..|s| - 1] == NatText(n / 10);
    }
  }

  /** Formatting an i64 and parsing it back gives the same value. */
  lemma IntTextRoundTrip(n: int)
    requires I64Min <= n <= I64Max
    ensures ParseI64(IntText(n)) == Some(n)
  {
    if n < 0 {
      NatTextDigits(-n);
      var s := "-" + NatText(-n);
      assert s[1..] == NatText(-n);
    } else {
      NatTextDigits(n);
      assert NatText(n)[0] != '+' && NatText(n)[0] != '-' by {
        assert IsDigit(NatText(n)[0]);
      }
    }
  }

  /** A text with any character other than digits after an optional leading
      sign is not an integer. */
  lemma NonDigitIsNoInteger(s: string, i: nat)
    requires 0 < i < |s| && !IsDigit(s[i])
    ensures ParseI64(s) == None
  {
    assert s[1..][i - 1] == s[i];
  }
}
