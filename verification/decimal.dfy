/** Decimal text of integers, as Python's `str(n)` / f-string `{n}` writes it,
    `strftime`'s zero-padded fields, and the reading back of such text. */
module Decimal {
  import opened Optional

  predicate IsDigit(c: char) {
    '0' <= c <= '9'
  }

  predicate AllDigits(s: string) {
    forall i :: 0 <= i < |s| ==> IsDigit(s[i])
  }

  function DigitChar(d: nat): (c: char)
    requires d < 10
    ensures IsDigit(c)
  {
    (('0' as int) + d) as char
  }

  function DigitValue(c: char): (d: nat)
    requires IsDigit(c)
    ensures d < 10 && DigitChar(d) == c
  {
    (c as int) - ('0' as int)
  }

  /** The shortest decimal text of `n`: digits only, no leading zero. */
  function NatToString(n: nat): (s: string)
    ensures |s| > 0 && AllDigits(s)
    ensures s[0] == '0' <==> n == 0
    ensures n < 10 <==> |s| == 1
  {
    if n < 10 then [DigitChar(n)] else NatToString(n / 10) + [DigitChar(n % 10)]
  }

  /** The value of a run of decimal digits (0 for the empty run). */
  function DigitsValue(s: string): nat
    requires AllDigits(s)
  {
    if |s| == 0 then 0 else DigitsValue(s[..|s| - 1]) * 10 + DigitValue(s[|s| - 1])
  }

  /** Reading back the decimal text of a number gives the number. */
  lemma {:induction false} DigitsValueOfNat(n: nat)
    ensures DigitsValue(NatToString(n)) == n
  {
    var s := NatToString(n);
    if n >= 10 {
      DigitsValueOfNat(n / 10);
      assert s[..|s| - 1] == NatToString(n / 10);
    }
  }

  /** `str(i)` for a Python int: a minus sign before the digits when negative. */
  function IntToString(i: int): string {
    if i < 0 then "-" + NatToString(-i) else NatToString(i)
  }

  /** `str(i)` is never empty, starts with a sign exactly for negative numbers,
      is digits otherwise with no leading zero, and is `0` only for zero. */
  lemma IntToStringShape(i: int)
    ensures var s := IntToString(i);
            |s| > 0 &&
            (s[0] == '-' <==> i < 0) &&
            (i < 0 ==> |s| > 1 && AllDigits(s[1..]) && s[1] != '0') &&
            (i >= 0 ==> AllDigits(s)) &&
            (s == "0" <==> i == 0)
  {
    if i < 0 {
      assert IntToString(i)[1..] == NatToString(-i);
    }
  }

  /** Every character of `str(i)` is a digit or the leading minus sign. */
  lemma IntToStringChars(i: int, k: nat)
    requires k < |IntToString(i)|
    ensures IsDigit(IntToString(i)[k]) || (k == 0 && IntToString(i)[k] == '-')
  {
    var s := IntToString(i);
    IntToStringShape(i);
    if i < 0 && k > 0 {
      assert s[k] == s[1..][k - 1];
    }
  }

  /** `str(n)` padded on the left with zeros to at least `width` characters,
      as `strftime` writes its numeric fields. */
  function ZeroPad(n: nat, width: nat): (s: string)
    ensures AllDigits(s)
    ensures |s| >= width
    ensures DigitsValue(s) == n
  {
    var digits := NatToString(n);
    DigitsValueOfNat(n);
    if |digits| >= width then digits
    else
      var padded := "0" + ZeroPad(n, width - 1);
      LeadingZero(ZeroPad(n, width - 1));
      padded
  }

  /** A zero in front of digits does not change their value. */
  lemma {:induction false} LeadingZero(s: string)
    requires AllDigits(s)
    ensures AllDigits("0" + s) && DigitsValue("0" + s) == DigitsValue(s)
  {
    if |s| > 0 {
      var t := "0" + s;
      assert t[..|t| - 1] == "0" + s[..|s| - 1];
      LeadingZero(s[..|s| - 1]);
    }
  }

  function Pow10(k: nat): (p: nat)
    ensures p > 0
  {
    if k == 0 then 1 else 10 * Pow10(k - 1)
  }

  /** A number below `10^k` takes at most `k` digits. */
  lemma {:induction false} NatToStringLength(n: nat, k: nat)
    requires 0 < k && n < Pow10(k)
    ensures |NatToString(n)| <= k
  {
    if n >= 10 {
      assert n / 10 < Pow10(k - 1);
      NatToStringLength(n / 10, k - 1);
    }
  }

  /** Padding gives `width` characters, or the digits alone when they are longer. */
  lemma {:induction false} ZeroPadSize(n: nat, width: nat)
    ensures |ZeroPad(n, width)| == if |NatToString(n)| >= width then |NatToString(n)| else width
  {
    if |NatToString(n)| < width {
      ZeroPadSize(n, width - 1);
    }
  }

  /** A number below `10^width` is padded to exactly `width` digits. */
  lemma ZeroPadLength(n: nat, width: nat)
    requires 0 < width && n < Pow10(width)
    ensures |ZeroPad(n, width)| == width
  {
    NatToStringLength(n, width);
    ZeroPadSize(n, width);
  }

  /** The longest run of digits at the start of `s`, and what follows it. */
  function LeadingDigits(s: string): (r: (string, string))
    ensures AllDigits(r.0) && r.0 + r.1 == s
    ensures |r.1| > 0 ==> !IsDigit(r.1[0])
  {
    if |s| > 0 && IsDigit(s[0]) then
      var (d, rest) := LeadingDigits(s[1..]);
      assert [s[0]] + d + rest == s;
      ([s[0]] + d, rest)
    else ("", s)
  }

  /** The digits of a number are read off whole when a non-digit follows them. */
  lemma {:induction false} LeadingDigitsOf(digits: string, rest: string)
    requires AllDigits(digits)
    requires |rest| > 0 ==> !IsDigit(rest[0])
    ensures LeadingDigits(digits + rest) == (digits, rest)
  {
    if |digits| > 0 {
      assert (digits + rest)[1..] == digits[1..] + rest;
      LeadingDigitsOf(digits[1..], rest);
      assert [digits[0]] + digits[1..] == digits;
    } else {
      assert digits + rest == rest;
    }
  }

  /** Reads an integer written as `str(i)` at the start of `s`: the value and the
      rest of the text, or nothing when `s` does not start with one. */
  function ReadInt(s: string): (r: Option<(int, string)>)
    ensures r.Some? ==> |r.value.1| < |s|
  {
    var negative := |s| > 0 && s[0] == '-';
    var (digits, rest) := LeadingDigits(if negative then s[1..] else s);
    if |digits| == 0 then None
    else
      var magnitude: int := DigitsValue(digits);
      Some((if negative then -magnitude else magnitude, rest))
  }

  /** Reading `str(i)` back, followed by anything that does not start with a digit. */
  lemma ReadIntOf(i: int, rest: string)
    requires |rest| > 0 ==> !IsDigit(rest[0])
    ensures ReadInt(IntToString(i) + rest) == Some((i, rest))
  {
    var s := IntToString(i) + rest;
    var magnitude: nat := if i < 0 then -i else i;
    var unsigned := if i < 0 then s[1..] else s;
    assert unsigned == NatToString(magnitude) + rest by {
      if i < 0 {
        assert s == "-" + (NatToString(magnitude) + rest);
      }
    }
    assert (|s| > 0 && s[0] == '-') == (i < 0);
    LeadingDigitsOf(NatToString(magnitude), rest);
    DigitsValueOfNat(magnitude);
  }
}
