/**
 * Decimal text of integers: Python's `str(int)`, as used for the random entry
 * ids and for the clock a message carries, and Python's `int(str)`, as used by
 * a receiver to read that clock back.
 */
module Decimal {
  import opened Wrappers

  predicate IsDigit(c: char) {
    '0' <= c <= '9'
  }

  predicate AllDigits(s: string) {
    forall i :: 0 <= i < |s| ==> IsDigit(s[i])
  }

  function DigitChar(d: nat): (c: char)
    requires d < 10
    ensures IsDigit(c)
  {
    ('0' as int + d) as char
  }

  function DigitValue(c: char): (d: nat)
    requires IsDigit(c)
    ensures d < 10
    ensures DigitChar(d) == c
  {
    c as int - '0' as int
  }

  /** The digits of `n`, most significant first, without leading zeros. */
  function NatToString(n: nat): (s: string)
    ensures |s| >= 1 && AllDigits(s)
    ensures |s| > 1 ==> s[0] != '0'
    decreases n
  {
    if n < 10 then [DigitChar(n)] else NatToString(n / 10) + [DigitChar(n % 10)]
  }

  /** `str(i)`: a minus sign in front of the digits of a negative number. */
  function IntToString(i: int): (s: string)
    ensures i >= 0 ==> AllDigits(s) && |s| >= 1
    ensures i < 0 ==> |s| >= 2 && s[0] == '-' && AllDigits(s[1..])
  {
    if i < 0 then "-" + NatToString(-i) else NatToString(i)
  }

  /** The number a string of digits denotes (leading zeros allowed). */
  function DigitsValue(s: string): nat
    requires AllDigits(s)
  {
    if |s| == 0 then 0 else DigitsValue(s[..|s| - 1]) * 10 + DigitValue(s[|s| - 1])
  }

  /**
   * `int(s)` on base-10 text: an optional sign followed by at least one ASCII
   * digit. Anything else is a ValueError, modelled as None.
   */
  function ParseInt(s: string): (r: Option<int>)
    ensures r.Some? <==>
              (|s| >= 1 && AllDigits(s))
              || (|s| >= 2 && (s[0] == '-' || s[0] == '+') && AllDigits(s[1..]))
    ensures r.Some? && s[0] == '-' ==> r.value <= 0
    ensures r.Some? && s[0] != '-' ==> r.value >= 0
  {
    if |s| >= 2 && (s[0] == '-' || s[0] == '+') && AllDigits(s[1..]) then
      var v: int := DigitsValue(s[1..]);
      Some(if s[0] == '-' then -v else v)
    else if |s| >= 1 && AllDigits(s) then
      Some(DigitsValue(s))
    else
      None
  }

  /** Reading back the digits of a natural number yields that number. */
  lemma {:induction false} DigitsValueOfNatToString(n: nat)
    ensures DigitsValue(NatToString(n)) == n
    decreases n
  {
    if n >= 10 {
      var s := NatToString(n);
      assert s[..|s| - 1] == NatToString(n / 10);
      DigitsValueOfNatToString(n / 10);
    }
  }

  /** `int(str(i)) == i` for every integer. */
  lemma ParseIntOfIntToString(i: int)
    ensures ParseInt(IntToString(i)) == Some(i)
  {
    var s := IntToString(i);
    if i < 0 {
      assert s[1..] == NatToString(-i);
      DigitsValueOfNatToString(-i);
    } else {
      DigitsValueOfNatToString(i);
    }
  }

  /** A run of `z` zero digits. */
  function Zeros(z: nat): (s: string)
    ensures |s| == z && AllDigits(s)
  {
    if z == 0 then "" else "0" + Zeros(z - 1)
  }

  /** One leading zero does not change the number a digit string denotes. */
  lemma {:induction false} DigitsValueLeadingZero(d: string)
    requires AllDigits(d)
    ensures AllDigits("0" + d) && DigitsValue("0" + d) == DigitsValue(d)
    decreases |d|
  {
    var s := "0" + d;
    assert AllDigits(s) by {
      forall i | 0 <= i < |s| ensures IsDigit(s[i]) {
        if i > 0 { assert s[i] == d[i - 1]; }
      }
    }
    if |d| > 0 {
      assert s[..|s| - 1] == "0" + d[..|d| - 1];
      assert s[|s| - 1] == d[|d| - 1];
      DigitsValueLeadingZero(d[..|d| - 1]);
    }
  }

  /** Any number of leading zeros does not change the number a digit string denotes. */
  lemma {:induction false} DigitsValueLeadingZeros(z: nat, d: string)
    requires AllDigits(d)
    ensures AllDigits(Zeros(z) + d) && DigitsValue(Zeros(z) + d) == DigitsValue(d)
    decreases z
  {
    if z > 0 {
      DigitsValueLeadingZeros(z - 1, d);
      assert Zeros(z) + d == "0" + (Zeros(z - 1) + d);
      DigitsValueLeadingZero(Zeros(z - 1) + d);
    } else {
      assert Zeros(z) + d == d;
    }
  }

  /** Unsigned text: leading zeros do not change the value `int()` reads. */
  lemma ParseIntUnsigned(z: nat, n: nat)
    ensures ParseInt(Zeros(z) + NatToString(n)) == Some(n)
  {
    var d := Zeros(z) + NatToString(n);
    DigitsValueLeadingZeros(z, NatToString(n));
    DigitsValueOfNatToString(n);
    assert d[0] != '-' && d[0] != '+' by {
      assert IsDigit(d[0]);
    }
  }

  /**
   * Signed text: leading zeros and a `+` sign do not change the value
   * `int()` reads, and a `-` sign negates it, so `-0…0` reads as 0. Every
   * digit string is some zeros followed by the digits of a natural number,
   * so with ParseIntUnsigned this fixes the value of every accepted text.
   */
  lemma ParseIntSigned(z: nat, n: nat)
    ensures ParseInt("+" + Zeros(z) + NatToString(n)) == Some(n)
    ensures ParseInt("-" + Zeros(z) + NatToString(n)) == Some(-(n as int))
  {
    var d := Zeros(z) + NatToString(n);
    DigitsValueLeadingZeros(z, NatToString(n));
    DigitsValueOfNatToString(n);
    var plus := "+" + Zeros(z) + NatToString(n);
    var minus := "-" + Zeros(z) + NatToString(n);
    assert plus == "+" + d && plus[1..] == d;
    assert minus == "-" + d && minus[1..] == d;
  }

  /** Distinct integers print differently, so distinct random ids give distinct keys. */
  lemma IntToStringInjective(a: int, b: int)
    ensures IntToString(a) == IntToString(b) <==> a == b
  {
    ParseIntOfIntToString(a);
    ParseIntOfIntToString(b);
  }
}
