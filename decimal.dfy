/** Decimal text of integers: `Number.prototype.toString` on an integer (the text the
    sheet writes for its two numeric settings and uses as property name of a question)
    and `parseInt(text, 10)` restricted to texts that are an optional minus sign
    followed by decimal digits. */
module Decimal {
  import opened Maybe

  predicate IsDigit(c: char) {
    '0' <= c <= '9'
  }

  predicate AllDigits(s: string) {
    forall i :: 0 <= i < |s| ==> IsDigit(s[i])
  }

  function DigitChar(d: nat): (c: char)
    requires d < 10
    ensures IsDigit(c) && c as int - '0' as int == d
  {
    ('0' as int + d) as char
  }

  /** The digits of n, most significant first, without leading zeros. */
  function NatToString(n: nat): (s: string)
    ensures |s| >= 1 && AllDigits(s)
    ensures n >= 10 ==> s[0] != '0'
  {
    if n < 10 then [DigitChar(n)] else NatToString(n / 10) + [DigitChar(n % 10)]
  }

  /** `n.toString()` for an integer n. */
  function IntToString(n: int): (s: string)
    ensures |s| >= 1
    ensures AllDigits(s) <==> n >= 0
    ensures n < 0 ==> s[0] == '-' && |s| >= 2 && AllDigits(s[1..])
  {
    if n < 0 then
      var s := "-" + NatToString(-n);
      assert s[1..] == NatToString(-n) && !IsDigit(s[0]);
      s
    else NatToString(n)
  }

  /** The number a string of decimal digits denotes (0 for the empty string). */
  function DigitsValue(s: string): nat
    requires AllDigits(s)
  {
    if s == [] then 0 else DigitsValue(s[..|s| - 1]) * 10 + (s[|s| - 1] as int - '0' as int)
  }

  /** `parseInt(s, 10)`, None standing for NaN. */
  function ParseInt(s: string): (r: Option<int>)
    ensures r.Some? ==> |s| >= 1
    ensures |s| >= 1 && AllDigits(s) ==> r == Some(DigitsValue(s))
    ensures r.Some? && r.value > 0 ==> AllDigits(s)
  {
    if |s| > 0 && s[0] == '-' then
      if |s| > 1 && AllDigits(s[1..]) then Some(-(DigitsValue(s[1..]) as int)) else None
    else if |s| > 0 && AllDigits(s) then Some(DigitsValue(s))
    else None
  }

  lemma {:induction false} DigitsValueOfNatToString(n: nat)
    ensures DigitsValue(NatToString(n)) == n
  {
    if n >= 10 {
      var s := NatToString(n);
      assert s[..|s| - 1] == NatToString(n / 10);
      DigitsValueOfNatToString(n / 10);
    }
  }

  lemma ParseIntOfNatToString(n: nat)
    ensures ParseInt(NatToString(n)) == Some(n)
  {
    var s := NatToString(n);
    assert IsDigit(s[0]);
    DigitsValueOfNatToString(n);
  }

  /** Reading back the text an integer is written as gives that integer. */
  lemma ParseIntOfIntToString(n: int)
    ensures ParseInt(IntToString(n)) == Some(n)
  {
    if n < 0 {
      var digits := NatToString(-n);
      var s := "-" + digits;
      assert s[0] == '-' && |s| > 1;
      assert s[1..] == digits;
      DigitsValueOfNatToString(-n);
      assert ParseInt(s) == Some(-(DigitsValue(digits) as int));
    } else {
      ParseIntOfNatToString(n);
    }
  }

  /** Distinct integers are written as distinct texts. */
  lemma IntToStringInjective()
    ensures forall a: int, b: int :: IntToString(a) == IntToString(b) ==> a == b
  {
    forall a: int, b: int | IntToString(a) == IntToString(b)
      ensures a == b
    {
      ParseIntOfIntToString(a);
      ParseIntOfIntToString(b);
    }
  }
}
