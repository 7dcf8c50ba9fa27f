/**
 Decimal rendering of integers, as `types.ToString` does for an HTTP status
 code before it is compared with the string allow-list of ignorable codes.
 */
module Decimal {

  predicate IsDigit(c: char)
  {
    '0' <= c <= '9'
  }

  function DigitChar(d: nat): (c: char)
    requires d < 10
    ensures IsDigit(c)
  {
    "0123456789"[d]
  }

  function DigitValue(c: char): (d: nat)
    requires IsDigit(c)
    ensures d < 10
  {
    (c as int - '0' as int) as nat
  }

  /** Decimal digits of `n`, most significant first, no leading zeros. */
  function NatString(n: nat): (s: string)
    ensures |s| > 0
    ensures forall i :: 0 <= i < |s| ==> IsDigit(s[i])
  {
    if n < 10 then [DigitChar(n)] else NatString(n / 10) + [DigitChar(n % 10)]
  }

  /** The decimal text of `n`, with a leading '-' when negative. */
  function DecimalString(n: int): string
  {
    if n < 0 then "-" + NatString(-n) else NatString(n)
  }

  /** The value of a non-empty run of decimal digits. */
  function ParseDigits(s: string): nat
    requires |s| > 0
    requires forall i :: 0 <= i < |s| ==> IsDigit(s[i])
  {
    if |s| == 1 then DigitValue(s[0])
    else ParseDigits(s[..|s| - 1]) * 10 + DigitValue(s[|s| - 1])
  }

  /** Reading back the digits of `n` gives `n`. */
  lemma {:induction false} ParseNatString(n: nat)
    ensures ParseDigits(NatString(n)) == n
  {
    var s := NatString(n);
    if n >= 10 {
      ParseNatString(n / 10);
      assert s[..|s| - 1] == NatString(n / 10);
    }
  }

  /** The text starts with '-' exactly for negative codes. */
  lemma SignCharacter(n: int)
    ensures DecimalString(n)[0] == '-' <==> n < 0
  {
    if n >= 0 {
      assert IsDigit(NatString(n)[0]);
    }
  }

  lemma NatStringInjective(a: nat, b: nat)
    requires NatString(a) == NatString(b)
    ensures a == b
  {
    ParseNatString(a);
    ParseNatString(b);
  }

  /** Distinct codes have distinct decimal texts. */
  lemma DecimalStringInjective(a: int, b: int)
    requires DecimalString(a) == DecimalString(b)
    ensures a == b
  {
    SignCharacter(a);
    SignCharacter(b);
    assert a < 0 <==> b < 0;
    if a < 0 {
      var s := DecimalString(a);
      assert s == "-" + NatString(-a) && s[1..] == NatString(-a);
      assert s == "-" + NatString(-b) && s[1..] == NatString(-b);
      NatStringInjective(-a, -b);
    } else {
      NatStringInjective(a, b);
    }
  }

  /** The texts of the two status codes the classifier singles out. */
  lemma StatusTexts()
    ensures DecimalString(403) == "403" && DecimalString(404) == "404"
  {
    assert NatString(4) == "4";
    assert NatString(40) == "40";
  }

  /** The only code whose text is "403" is 403. */
  lemma Text403(code: int)
    ensures DecimalString(code) == "403" <==> code == 403
  {
    StatusTexts();
    if DecimalString(code) == "403" {
      DecimalStringInjective(code, 403);
    }
  }

  /** The only code whose text is "404" is 404. */
  lemma Text404(code: int)
    ensures DecimalString(code) == "404" <==> code == 404
  {
    StatusTexts();
    if DecimalString(code) == "404" {
      DecimalStringInjective(code, 404);
    }
  }
}
