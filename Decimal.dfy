/**
  The decimal text JavaScript produces for an integer in a template literal
  (`${labelId}`, `${final_song_number}`): an optional `-` followed by the
  digits, without leading zeros.  `ParseInt` reads such text back.  This is
  JavaScript's text for integers of magnitude below 1e21 that a double holds
  exactly; larger values are written in exponent form and are not modelled.
 */
module Decimal {

  predicate IsDigit(c: char) {
    '0' <= c <= '9'
  }

  predicate AllDigits(s: string) {
    forall i :: 0 <= i < |s| ==> IsDigit(s[i])
  }

  function DigitChar(d: nat): (c: char)
    requires d < 10
    ensures IsDigit(c)
  {
    ('0' as int + d) as char
  }

  function DigitValue(c: char): (d: nat)
    requires IsDigit(c)
    ensures d < 10
  {
    c as int - '0' as int
  }

  /** Decimal digits of `n`, most significant first. */
  function NatToString(n: nat): (r: string)
    ensures r != []
  {
    if n < 10 then [DigitChar(n)] else NatToString(n / 10) + [DigitChar(n % 10)]
  }

  function IntToString(i: int): (r: string)
    ensures r != []
  {
    if i < 0 then "-" + NatToString(-i) else NatToString(i)
  }

  /** The text of `n` consists of digits and has no leading zero. */
  lemma {:induction false} NatToStringDigits(n: nat)
    ensures AllDigits(NatToString(n))
    ensures NatToString(n)[0] == '0' ==> n == 0 && NatToString(n) == "0"
  {
    if n >= 10 {
      NatToStringDigits(n / 10);
      var p := NatToString(n / 10);
      assert NatToString(n) == p + [DigitChar(n % 10)];
      assert NatToString(n)[0] == p[0];
    }
  }

  function ParseNat(s: string): nat
    requires AllDigits(s)
  {
    if s == [] then 0 else ParseNat(s[..|s| - 1]) * 10 + DigitValue(s[|s| - 1])
  }

  function ParseInt(s: string): int
    requires s != []
    requires AllDigits(s) || (s[0] == '-' && AllDigits(s[1..]))
  {
    if s[0] == '-' then -(ParseNat(s[1..]) as int) else ParseNat(s)
  }

  /** Reading back the digits of `n` gives `n`. */
  lemma {:induction false} ParseNatToString(n: nat)
    ensures AllDigits(NatToString(n)) && ParseNat(NatToString(n)) == n
  {
    NatToStringDigits(n);
    if n >= 10 {
      var r := NatToString(n);
      assert r[..|r| - 1] == NatToString(n / 10);
      ParseNatToString(n / 10);
    }
  }

  /** Reading back the text of `i` gives `i`; hence the text determines the integer. */
  lemma ParseIntToString(i: int)
    ensures var r := IntToString(i);
      (AllDigits(r) || (r[0] == '-' && AllDigits(r[1..]))) && ParseInt(r) == i
  {
    if i < 0 {
      ParseNatToString(-i);
      assert IntToString(i)[1..] == NatToString(-i);
    } else {
      ParseNatToString(i);
    }
  }

  lemma IntToStringInjective(a: int, b: int)
    requires IntToString(a) == IntToString(b)
    ensures a == b
  {
    ParseIntToString(a);
    ParseIntToString(b);
  }
}
