/**
 * Swift's conversions between `Int` and its decimal text: string
 * interpolation `"\(n)"` and the failable initialiser `Int(_: String)`.
 */
module Decimal {
  import opened Wrappers

  const IntMin: int := -0x8000_0000_0000_0000
  const IntMax: int := 0x7FFF_FFFF_FFFF_FFFF

  /** Swift's `Int` on a 64-bit platform. */
  type SwiftInt = n: int | IntMin <= n <= IntMax

  predicate IsDigit(c: char) {
    '0' <= c <= '9'
  }

  predicate AllDigits(s: string) {
    forall i :: 0 <= i < |s| ==> IsDigit(s[i])
  }

  function DigitChar(d: nat): (c: char)
    requires d < 10
    ensures IsDigit(c)
  {
    "0123456789"[d]
  }

  function DigitValue(c: char): (d: nat)
    requires IsDigit(c)
    ensures d < 10
  {
    (c as int) - ('0' as int)
  }

  /** Decimal text of a natural number, most significant digit first, no leading zeros. */
  function NatToString(n: nat): (r: string)
    ensures |r| > 0 && AllDigits(r)
    ensures r[0] == '0' ==> n == 0
  {
    if n < 10 then [DigitChar(n)] else NatToString(n / 10) + [DigitChar(n % 10)]
  }

  /** Value of a run of decimal digits (an independent reading of the text, left to right). */
  function DigitsValue(s: string): nat
    requires AllDigits(s)
  {
    if |s| == 0 then 0 else DigitsValue(s[..|s| - 1]) * 10 + DigitValue(s[|s| - 1])
  }

  /** `"\(n)"`: an optional minus sign followed by the digits of the magnitude. */
  function IntToString(n: int): (r: string)
    ensures |r| > 0
    ensures n < 0 <==> r[0] == '-'
    ensures forall i :: 0 < i < |r| ==> IsDigit(r[i])
  {
    if n < 0 then "-" + NatToString(-n) else NatToString(n)
  }

  /**
   * `Int(s)`: an optional `+` or `-` followed by at least one digit and nothing
   * else; nil when the text has any other shape or the value does not fit in `Int`.
   */
  function ParseInt(s: string): (r: Option<SwiftInt>)
    ensures r.Some? ==> |s| > 0 && forall i :: 0 < i < |s| ==> IsDigit(s[i])
    ensures r.Some? && s[0] == '-' ==> r.value <= 0
  {
    if |s| > 0 && (s[0] == '-' || s[0] == '+') then
      var body := s[1..];
      if |body| > 0 && AllDigits(body) then
        var v: int := if s[0] == '-' then -(DigitsValue(body) as int) else DigitsValue(body);
        if IntMin <= v <= IntMax then Some(v) else None
      else None
    else if |s| > 0 && AllDigits(s) && DigitsValue(s) <= IntMax then Some(DigitsValue(s))
    else None
  }

  lemma {:induction false} DigitsValueOfNatToString(n: nat)
    ensures DigitsValue(NatToString(n)) == n
    decreases n
  {
    if n >= 10 {
      var s := NatToString(n);
      assert s[..|s| - 1] == NatToString(n / 10);
      DigitsValueOfNatToString(n / 10);
    }
  }

  /** Reading back the printed text of any `Int` gives the same `Int`. */
  lemma ParseIntRoundTrip(n: SwiftInt)
    ensures ParseInt(IntToString(n)) == Some(n)
  {
    var magnitude: nat := if n < 0 then -(n as int) else n;
    var digits := NatToString(magnitude);
    assert DigitsValue(digits) == magnitude by {
      DigitsValueOfNatToString(magnitude);
    }
    if n < 0 {
      var s := "-" + digits;
      assert IntToString(n) == s && s[0] == '-' && s[1..] == digits;
    } else {
      assert IntToString(n) == digits && digits[0] != '-' && digits[0] != '+';
    }
  }

  /** Distinct integers print differently. */
  lemma IntToStringInjective(a: int, b: int)
    requires IntToString(a) == IntToString(b)
    ensures a == b
  {
    var s := IntToString(a);
    assert a < 0 <==> b < 0;
    var ma: nat := if a < 0 then -a else a;
    var mb: nat := if b < 0 then -b else b;
    var digits := if a < 0 then s[1..] else s;
    assert digits == NatToString(ma) by {
      if a < 0 { assert s == "-" + NatToString(ma); }
    }
    assert digits == NatToString(mb) by {
      if b < 0 { assert s == "-" + NatToString(mb); }
    }
    DigitsValueOfNatToString(ma);
    DigitsValueOfNatToString(mb);
  }
}
