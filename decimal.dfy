/** Python's `int(s, 10)` on the strings a JSON Pointer array token can be, and `str(n)`,
    its inverse on integers. Only an optional sign followed by ASCII digits is accepted. */
module Decimal {

  import opened Wrappers

  predicate IsDigit(c: char)
  {
    '0' <= c <= '9'
  }

  /** A nonempty run of ASCII digits. */
  predicate AllDigits(s: string)
  {
    |s| > 0 && forall k :: 0 <= k < |s| ==> IsDigit(s[k])
  }

  function DigitValue(c: char): nat
    requires IsDigit(c)
  {
    c as int - '0' as int
  }

  function DigitChar(d: nat): (c: char)
    requires d < 10
    ensures IsDigit(c) && DigitValue(c) == d
  {
    ('0' as int + d) as char
  }

  /** The value of a run of digits, most significant first; leading zeros are allowed. */
  function DigitsValue(s: string): nat
    requires forall k :: 0 <= k < |s| ==> IsDigit(s[k])
  {
    if |s| == 0 then 0 else DigitsValue(s[..|s| - 1]) * 10 + DigitValue(s[|s| - 1])
  }

  /** `int(s, 10)`: None where Python raises ValueError. */
  function ParseInt(s: string): (r: Option<int>)
    ensures r.Some? ==> |s| > 0
  {
    if |s| > 0 && (s[0] == '-' || s[0] == '+') then
      if AllDigits(s[1..]) then
        var v: int := DigitsValue(s[1..]);
        Some(if s[0] == '-' then -v else v)
      else None
    else if AllDigits(s) then Some(DigitsValue(s))
    else None
  }

  /** `str(n)` for a natural number: no leading zeros. */
  function NatToDecimal(n: nat): (s: string)
    ensures AllDigits(s)
  {
    if n < 10 then [DigitChar(n)] else NatToDecimal(n / 10) + [DigitChar(n % 10)]
  }

  /** `str(i)`: a minus sign in front of negative numbers. */
  function IntToDecimal(i: int): string
  {
    if i < 0 then "-" + NatToDecimal(-i) else NatToDecimal(i)
  }

  /** Reading back the digits of a number gives the number. */
  lemma {:induction false} DigitsOfNat(n: nat)
    ensures DigitsValue(NatToDecimal(n)) == n
  {
    if n >= 10 {
      var s := NatToDecimal(n / 10) + [DigitChar(n % 10)];
      assert s[..|s| - 1] == NatToDecimal(n / 10);
      DigitsOfNat(n / 10);
    }
  }

  /** `int(str(i), 10) == i`: every integer's decimal form is an array token that selects it. */
  lemma ParseIntDecimal(i: int)
    ensures ParseInt(IntToDecimal(i)) == Some(i)
  {
    if i < 0 {
      DigitsOfNat(-i);
      assert ("-" + NatToDecimal(-i))[1..] == NatToDecimal(-i);
    } else {
      DigitsOfNat(i);
    }
  }

  /** Tokens Python accepts or rejects: leading zeros and a sign are fine, an empty token, a
      lone sign and a letter are not. */
  lemma ParseIntExamples()
    ensures ParseInt("007") == Some(7) && ParseInt("-1") == Some(-1) && ParseInt("+12") == Some(12)
    ensures ParseInt("") == None && ParseInt("-") == None && ParseInt("1a") == None
  {
    assert "007"[..2] == "00" && "00"[..1] == "0" && "0"[..0] == "";
    assert DigitsValue("007") == 7;
    assert "-1"[1..] == "1" && "1"[..0] == "";
    assert "+12"[1..] == "12" && "12"[..1] == "1" && "1"[..0] == "";
    assert DigitsValue("12") == 12;
    assert "-"[1..] == "";
    assert !IsDigit("1a"[1]);
  }
}
