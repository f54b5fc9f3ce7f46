/** Decimal rendering of integers as Python's `str(int)` and `format(n, '0Nd')`
    produce it, a decimal parser that inverts it, and `str.join`. */
module Text {

  predicate IsDigit(c: char) {
    '0' <= c <= '9'
  }

  predicate AllDigits(s: string) {
    forall i :: 0 <= i < |s| ==> IsDigit(s[i])
  }

  function DigitValue(c: char): (d: nat)
    requires IsDigit(c)
    ensures d < 10
  {
    c as int - '0' as int
  }

  function DigitChar(d: nat): (c: char)
    requires d < 10
    ensures IsDigit(c) && DigitValue(c) == d
  {
    ('0' as int + d) as char
  }

  /** `str(n)` for a non-negative integer: most significant digit first, no leading zeros. */
  function NatStr(n: nat): (s: string)
    ensures 1 <= |s| && AllDigits(s)
    ensures |s| > 1 ==> s[0] != '0'
    decreases n
  {
    if n < 10 then [DigitChar(n)] else NatStr(n / 10) + [DigitChar(n % 10)]
  }

  /** `str(i)` for any integer: a minus sign in front of the magnitude when negative. */
  function IntStr(i: int): (s: string)
    ensures i < 0 <==> (|s| > 0 && s[0] == '-')
    ensures i >= 0 ==> s == NatStr(i)
    ensures i < 0 ==> s[1..] == NatStr(-i)
  {
    if i < 0 then "-" + NatStr(-i) else NatStr(i)
  }

  /** The value of a string of decimal digits; the empty string reads as 0. */
  function ParseNat(s: string): nat
    requires AllDigits(s)
  {
    if s == [] then 0 else ParseNat(s[..|s| - 1]) * 10 + DigitValue(s[|s| - 1])
  }

  lemma {:induction false} ParseNatStr(n: nat)
    ensures ParseNat(NatStr(n)) == n
    decreases n
  {
    if n >= 10 {
      var s := NatStr(n);
      assert s[..|s| - 1] == NatStr(n / 10);
      ParseNatStr(n / 10);
    }
  }

  function Zeros(k: nat): (s: string)
    ensures |s| == k && AllDigits(s)
    ensures forall i :: 0 <= i < k ==> s[i] == '0'
  {
    seq(k, _ => '0')
  }

  lemma {:induction false} ParseNatLeadingZero(s: string)
    requires AllDigits(s)
    ensures ParseNat("0" + s) == ParseNat(s)
    decreases |s|
  {
    if s != [] {
      assert ("0" + s)[..|s|] == "0" + s[..|s| - 1];
      ParseNatLeadingZero(s[..|s| - 1]);
    }
  }

  lemma {:induction false} ParseNatLeadingZeros(k: nat, s: string)
    requires AllDigits(s)
    ensures ParseNat(Zeros(k) + s) == ParseNat(s)
    decreases k
  {
    if k > 0 {
      assert Zeros(k) == "0" + Zeros(k - 1);
      assert Zeros(k) + s == "0" + (Zeros(k - 1) + s);
      var rest := Zeros(k - 1) + s;
      ParseNatLeadingZeros(k - 1, s);
      ParseNatLeadingZero(rest);
    } else {
      assert Zeros(k) + s == s;
    }
  }

  function Pow10(k: nat): (p: nat)
    ensures p >= 1
  {
    if k == 0 then 1 else 10 * Pow10(k - 1)
  }

  /** A number below 10^k takes at most k digits. */
  lemma {:induction false} NatStrLength(n: nat, k: nat)
    requires 1 <= k && n < Pow10(k)
    ensures |NatStr(n)| <= k
    decreases k
  {
    if n >= 10 {
      assert k > 1;
      NatStrLength(n / 10, k - 1);
    }
  }

  /** `format(n, '0{width}d')`: at least `width` digits, padded with zeros on the left. */
  function ZeroPad(n: nat, width: nat): (s: string)
    ensures |s| == if |NatStr(n)| >= width then |NatStr(n)| else width
    ensures AllDigits(s)
  {
    var digits := NatStr(n);
    if |digits| >= width then digits else Zeros(width - |digits|) + digits
  }

  /** Padding never changes the value the digits denote. */
  lemma ZeroPadValue(n: nat, width: nat)
    ensures ParseNat(ZeroPad(n, width)) == n
  {
    ParseNatStr(n);
    var digits := NatStr(n);
    if |digits| < width {
      ParseNatLeadingZeros(width - |digits|, digits);
    }
  }

  /** A number below 10^width is padded to exactly `width` digits. */
  lemma ZeroPadWidth(n: nat, width: nat)
    requires 1 <= width && n < Pow10(width)
    ensures |ZeroPad(n, width)| == width
  {
    NatStrLength(n, width);
  }

  /** `sep.join(words)`. */
  function Join(sep: string, words: seq<string>): string
  {
    if |words| == 0 then ""
    else if |words| == 1 then words[0]
    else words[0] + sep + Join(sep, words[1..])
  }
}
