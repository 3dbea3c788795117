/** Decimal text of integers as Python produces and reads it: `str(v)`, the
    zero-padded `'{:0wd}'.format(v)` and `int(s)`. The period tags are built from
    these, and their round trip is what makes distinct years give distinct tags. */
module Decimal {
  import opened Wrappers

  function DigitChar(k: nat): (c: char)
    requires k < 10
    ensures '0' <= c <= '9' && c as int - '0' as int == k
  {
    "0123456789"[k]
  }

  predicate IsDigit(c: char) {
    '0' <= c <= '9'
  }

  function DigitValue(c: char): (k: nat)
    requires IsDigit(c)
    ensures k < 10
  {
    c as int - '0' as int
  }

  /** The decimal digits of `v`, without leading zeros (Python `str` of a
      non-negative integer). */
  function Digits(v: nat): (s: string)
    ensures 1 <= |s| && forall i :: 0 <= i < |s| ==> IsDigit(s[i])
    ensures v < 10 <==> |s| == 1
  {
    if v < 10 then [DigitChar(v)] else Digits(v / 10) + [DigitChar(v % 10)]
  }

  function Zeros(k: nat): (s: string)
    ensures |s| == k && forall i :: 0 <= i < k ==> s[i] == '0'
  {
    if k == 0 then [] else Zeros(k - 1) + ['0']
  }

  /** `s` with zeros in front up to `width` characters. */
  function ZeroPad(s: string, width: nat): (r: string)
    ensures |r| == if |s| < width then width else |s|
  {
    if |s| < width then Zeros(width - |s|) + s else s
  }

  /** Python `str(v)`. */
  function Str(v: int): (r: string)
    ensures ParseInt(r) == Some(v)
  {
    FormatParseRoundTrip(v, 0);
    assert ZeroPad(Digits(if v < 0 then -v else v), 0) == Digits(if v < 0 then -v else v);
    if v < 0 then "-" + Digits(-v) else Digits(v)
  }

  /** Python `'{:0<width>d}'.format(v)`: the sign comes first and counts towards the
      width, zeros fill the rest. */
  function FormatInt(v: int, width: nat): (s: string)
    ensures width <= |s|
  {
    if v < 0 then "-" + ZeroPad(Digits(-v), if width == 0 then 0 else width - 1)
    else ZeroPad(Digits(v), width)
  }

  /** The value of a string of decimal digits, leading zeros allowed. */
  function ParseDigits(s: string): nat
    requires forall i :: 0 <= i < |s| ==> IsDigit(s[i])
  {
    if |s| == 0 then 0 else 10 * ParseDigits(s[..|s| - 1]) + DigitValue(s[|s| - 1])
  }

  predicate AllDigits(s: string) {
    forall i :: 0 <= i < |s| ==> IsDigit(s[i])
  }

  /** Python `int(s)` on an optional sign followed by at least one decimal digit;
      anything else raises ValueError, here `None`. */
  function ParseInt(s: string): (r: Option<int>)
    ensures r.Some? ==> 1 <= |s|
  {
    if 1 <= |s| && (s[0] == '-' || s[0] == '+') then
      if 2 <= |s| && AllDigits(s[1..]) then
        var m: int := ParseDigits(s[1..]);
        Some(if s[0] == '-' then -m else m)
      else None
    else if 1 <= |s| && AllDigits(s) then Some(ParseDigits(s))
    else None
  }

  lemma {:induction false} DigitsRoundTrip(v: nat)
    ensures ParseDigits(Digits(v)) == v
  {
    if v >= 10 {
      var s := Digits(v);
      assert s[..|s| - 1] == Digits(v / 10);
      DigitsRoundTrip(v / 10);
    }
  }

  /** A string of zeros reads back as 0, whatever its length. */
  lemma {:induction false} ZerosParseToZero(s: string)
    requires forall i :: 0 <= i < |s| ==> s[i] == '0'
    ensures AllDigits(s) && ParseDigits(s) == 0
  {
    if |s| > 0 {
      ZerosParseToZero(s[..|s| - 1]);
    }
  }

  /** Leading zeros do not change the value read back. */
  lemma {:induction false} LeadingZerosIgnored(k: nat, s: string)
    requires AllDigits(s)
    ensures AllDigits(Zeros(k) + s)
    ensures ParseDigits(Zeros(k) + s) == ParseDigits(s)
  {
    var t := Zeros(k) + s;
    if |s| == 0 {
      assert t == Zeros(k);
      ZerosParseToZero(Zeros(k));
    } else {
      assert t[..|t| - 1] == Zeros(k) + s[..|s| - 1];
      LeadingZerosIgnored(k, s[..|s| - 1]);
    }
  }

  lemma PaddedDigitsRoundTrip(v: nat, width: nat)
    ensures AllDigits(ZeroPad(Digits(v), width))
    ensures ParseDigits(ZeroPad(Digits(v), width)) == v
  {
    var s := Digits(v);
    LeadingZerosIgnored(if |s| < width then width - |s| else 0, s);
    if |s| >= width {
      assert Zeros(0) + s == s;
    }
    DigitsRoundTrip(v);
  }

  /** Reading back a zero-padded integer gives the integer, whatever the width. */
  lemma FormatParseRoundTrip(v: int, width: nat)
    ensures ParseInt(FormatInt(v, width)) == Some(v)
  {
    if v < 0 {
      NegativeRoundTrip(v, width);
    } else {
      var s := FormatInt(v, width);
      PaddedDigitsRoundTrip(v, width);
      assert |Digits(v)| <= |s|;
      assert IsDigit(s[0]);
      assert ParseInt(s) == Some(ParseDigits(s));
    }
  }

  lemma NegativeRoundTrip(v: int, width: nat)
    requires v < 0
    ensures ParseInt(FormatInt(v, width)) == Some(v)
  {
    var n: nat := -v;
    var w := if width == 0 then 0 else width - 1;
    var t := ZeroPad(Digits(n), w);
    PaddedDigitsRoundTrip(n, w);
    ParseNegative(t);
    assert FormatInt(v, width) == "-" + t;
  }

  /** A minus sign followed by digits reads back as the negated digits' value. */
  lemma ParseNegative(t: string)
    requires 1 <= |t| && AllDigits(t)
    ensures ParseInt("-" + t) == Some(-(ParseDigits(t) as int))
  {
    var s := "-" + t;
    assert s[1..] == t;
  }

  /** Python `str` is the zero-padded format with width 0, so it reads back too. */
  lemma StrRoundTrip(v: int)
    ensures Str(v) == FormatInt(v, 0)
    ensures ParseInt(Str(v)) == Some(v)
  {
    FormatParseRoundTrip(v, 0);
  }

  /** Equal padded texts come from equal integers. */
  lemma FormatIntInjective(a: int, b: int, width: nat)
    requires FormatInt(a, width) == FormatInt(b, width)
    ensures a == b
  {
    FormatParseRoundTrip(a, width);
    FormatParseRoundTrip(b, width);
  }

  lemma {:induction false} DigitsLengthBelow(v: nat, k: nat)
    requires v < Pow10(k)
    ensures |Digits(v)| <= if k == 0 then 1 else k
  {
    if v >= 10 {
      DigitsLengthBelow(v / 10, k - 1);
    }
  }

  lemma {:induction false} DigitsLengthAtLeast(v: nat, k: nat)
    requires Pow10(k) <= v
    ensures k + 1 <= |Digits(v)|
  {
    if k > 0 {
      DigitsLengthAtLeast(v / 10, k - 1);
    }
  }

  function Pow10(k: nat): (p: nat)
    ensures 1 <= p
  {
    if k == 0 then 1 else 10 * Pow10(k - 1)
  }

  /** A non-negative integer below 10^width fills exactly `width` characters. */
  lemma FormatIntExactWidth(v: nat, width: nat)
    requires 1 <= width && v < Pow10(width)
    ensures |FormatInt(v, width)| == width
  {
    DigitsLengthBelow(v, width);
  }

  /** Padding to 4 changes nothing once the integer has 4 digits. */
  lemma WideIntegerNeedsNoPadding(v: int)
    requires 1000 <= v
    ensures FormatInt(v, 4) == Str(v)
  {
    assert Pow10(3) == 1000;
    DigitsLengthAtLeast(v, 3);
  }
}
