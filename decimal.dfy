/**
 * Decimal rendering of integers as Python's format specification `0<width>` does it
 * (`f"{v:02}"`), and the matching parser used to state that rendering loses nothing.
 */
module Decimal {

  /** 10 to the power k. */
  function Pow10(k: nat): (p: nat)
    ensures p >= 1
  {
    if k == 0 then 1 else 10 * Pow10(k - 1)
  }

  lemma {:induction false} Pow10Monotone(a: nat, b: nat)
    requires a <= b
    ensures Pow10(a) <= Pow10(b)
  {
    if a < b {
      Pow10Monotone(a, b - 1);
    }
  }

  predicate IsDigit(c: char) {
    '0' <= c <= '9'
  }

  predicate AllDigits(s: string) {
    forall i :: 0 <= i < |s| ==> IsDigit(s[i])
  }

  function DigitValue(c: char): nat {
    if IsDigit(c) then c as int - '0' as int else 0
  }

  function DigitChar(d: nat): (c: char)
    requires d < 10
    ensures IsDigit(c) && DigitValue(c) == d
  {
    ('0' as int + d) as char
  }

  /** The shortest decimal numeral of n, as Python's str(n) writes it. */
  function Digits(n: nat): (s: string)
    ensures 1 <= |s| && AllDigits(s)
    ensures n < Pow10(|s|)
    ensures |s| == 1 || Pow10(|s| - 1) <= n
    decreases n
  {
    if n < 10 then [DigitChar(n)] else Digits(n / 10) + [DigitChar(n % 10)]
  }

  /** The value of a string of digits, most significant first. */
  function ParseNat(s: string): nat {
    if s == [] then 0 else ParseNat(s[..|s| - 1]) * 10 + DigitValue(s[|s| - 1])
  }

  function Zeros(k: nat): (s: string)
    ensures |s| == k && AllDigits(s)
  {
    seq(k, _ => '0')
  }

  function Max(a: nat, b: nat): nat {
    if a < b then b else a
  }

  /** Python's `format(n, '0<width>')` for a non-negative n: zeros on the left up to width. */
  function ZeroPad(n: nat, width: nat): (s: string)
    ensures AllDigits(s)
    ensures |s| == if width <= |Digits(n)| then |Digits(n)| else width
    ensures ParseNat(s) == n
  {
    var d := Digits(n);
    var pad := if width <= |d| then 0 else width - |d|;
    var s := Zeros(pad) + d;
    ParseLeadingZeros(pad, d);
    ParseDigits(n);
    assert forall i :: 0 <= i < |s| ==> IsDigit(s[i]) by {
      forall i | 0 <= i < |s| ensures IsDigit(s[i]) {
        if i < pad { assert s[i] == Zeros(pad)[i]; } else { assert s[i] == d[i - pad]; }
      }
    }
    s
  }

  /** Python's `format(v, '0<width>')` for any int: a minus sign counts towards the width. */
  function FormatInt(v: int, width: nat): (s: string)
    ensures |s| >= width
    ensures |s| == if v < 0 then Max(width, 1 + |Digits(-v)|) else Max(width, |Digits(v)|)
    ensures v < 0 <==> (|s| > 0 && s[0] == '-')
    ensures v >= 0 ==> AllDigits(s)
  {
    if v < 0 then "-" + ZeroPad(-v, if width == 0 then 0 else width - 1)
    else assert IsDigit(ZeroPad(v, width)[0]); ZeroPad(v, width)
  }

  /** A numeral as FormatInt writes it: digits, optionally after a minus sign. */
  predicate IsNumeral(s: string) {
    if |s| > 0 && s[0] == '-' then |s| > 1 && AllDigits(s[1..]) else |s| > 0 && AllDigits(s)
  }

  function ParseInt(s: string): int {
    if |s| > 0 && s[0] == '-' then -(ParseNat(s[1..]) as int) else ParseNat(s)
  }

  lemma {:induction false} ParseDigits(n: nat)
    ensures ParseNat(Digits(n)) == n
  {
    if n >= 10 {
      var d := Digits(n / 10);
      ParseDigits(n / 10);
      assert Digits(n) == d + [DigitChar(n % 10)];
      assert (d + [DigitChar(n % 10)])[..|d|] == d;
    }
  }

  /** Leading zeros do not change the value of a numeral. */
  lemma {:induction false} ParseLeadingZeros(k: nat, s: string)
    ensures ParseNat(Zeros(k) + s) == ParseNat(s)
    decreases |s| + k
  {
    if s == [] {
      assert Zeros(k) + s == Zeros(k);
      if k > 0 {
        assert Zeros(k)[..k - 1] == Zeros(k - 1) + [];
        ParseLeadingZeros(k - 1, []);
      }
    } else {
      var t := Zeros(k) + s;
      assert t[..|t| - 1] == Zeros(k) + s[..|s| - 1];
      assert t[|t| - 1] == s[|s| - 1];
      ParseLeadingZeros(k, s[..|s| - 1]);
    }
  }

  /** A value that fits in width digits is padded to exactly width characters. */
  lemma PadWidth(n: nat, width: nat)
    requires 1 <= width && n < Pow10(width)
    ensures |ZeroPad(n, width)| == width
  {
    var d := Digits(n);
    if |d| > width {
      Pow10Monotone(width, |d| - 1);
    }
  }

  lemma FormatIntWidth(v: int, width: nat)
    requires 1 <= width && 0 <= v < Pow10(width)
    ensures |FormatInt(v, width)| == width
  {
    PadWidth(v, width);
  }

  /** Parsing undoes FormatInt, whatever the sign and the width. */
  lemma FormatIntRoundTrip(v: int, width: nat)
    ensures IsNumeral(FormatInt(v, width))
    ensures ParseInt(FormatInt(v, width)) == v
  {
    var s := FormatInt(v, width);
    if v < 0 {
      var w := if width == 0 then 0 else width - 1;
      assert s[1..] == ZeroPad(-v, w);
    }
  }
}
