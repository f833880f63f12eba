/** Decimal numerals. */
module Decimals {

  predicate IsDigit(c: char) { '0' <= c <= '9' }

  predicate AllDigits(s: string) { forall i :: 0 <= i < |s| ==> IsDigit(s[i]) }

  function DigitChar(n: nat): (c: char)
    requires n < 10
    ensures IsDigit(c)
  {
    "0123456789"[n]
  }

  function DigitValue(c: char): nat
    requires IsDigit(c)
  {
    c as int - '0' as int
  }

  /** The ten digits in order. */
  lemma DigitsInOrder(n: nat)
    requires n < 10
    ensures DigitChar(n) as int == '0' as int + n && DigitValue(DigitChar(n)) == n
  {}

  /** `String(n)`. */
  function Decimal(n: nat): (s: string)
    ensures s != "" && AllDigits(s)
  {
    (if n < 10 then "" else Decimal(n / 10)) + [DigitChar(n % 10)]
  }

  /** `parseFloat` on a string of digits. */
  function Value(s: string): nat
    requires AllDigits(s)
  {
    if s == "" then 0 else 10 * Value(s[..|s| - 1]) + DigitValue(s[|s| - 1])
  }

  lemma TwoDigitValue(s: string)
    requires |s| == 2 && AllDigits(s)
    ensures Value(s) == 10 * DigitValue(s[0]) + DigitValue(s[1])
  {
    assert Value(s[..1]) == 10 * Value(s[..1][..0]) + DigitValue(s[0]);
  }

  lemma OneMoreDigit(s: string, c: char)
    requires AllDigits(s) && IsDigit(c)
    ensures AllDigits(s + [c]) && Value(s + [c]) == 10 * Value(s) + DigitValue(c)
  {
    assert (s + [c])[..|s|] == s;
  }

  function Zeros(n: nat): (s: string)
    ensures |s| == n && AllDigits(s)
  {
    seq(n, _ => '0')
  }

  /** The numeral filled up with zeros in front to the given length. */
  function Pad(s: string, length: nat): (r: string)
    ensures |r| == if |s| < length then length else |s|
    ensures AllDigits(s) ==> AllDigits(r)
  {
    Zeros(if |s| < length then length - |s| else 0) + s
  }

  lemma {:induction false} ValueOfDecimal(n: nat)
    ensures Value(Decimal(n)) == n
  {
    var s := Decimal(n);
    assert DigitValue(DigitChar(n % 10)) == n % 10;
    if n >= 10 {
      ValueOfDecimal(n / 10);
      assert s[..|s| - 1] == Decimal(n / 10);
    } else {
      assert s[..|s| - 1] == "";
    }
  }

  lemma {:induction false} ValueOfPadded(s: string, k: nat)
    requires AllDigits(s)
    ensures Value(Zeros(k) + s) == Value(s)
    decreases |s| + k
  {
    var t := Zeros(k) + s;
    if s != "" {
      assert t[..|t| - 1] == Zeros(k) + s[..|s| - 1];
      ValueOfPadded(s[..|s| - 1], k);
    } else if k > 0 {
      assert t[..|t| - 1] == Zeros(k - 1) + "";
      ValueOfPadded("", k - 1);
    } else {
      assert t == "";
    }
  }

  /** A padded numeral reads back as its number. */
  lemma PadRoundTrip(n: nat, length: nat)
    ensures Value(Pad(Decimal(n), length)) == n
  {
    var s := Decimal(n);
    ValueOfDecimal(n);
    ValueOfPadded(s, if |s| < length then length - |s| else 0);
  }

  function Pow10(k: nat): nat { if k == 0 then 1 else 10 * Pow10(k - 1) }

  /** A numeral has at most k digits exactly when the number is below 10^k. */
  lemma {:induction false} DecimalLength(n: nat, k: nat)
    requires k > 0
    ensures |Decimal(n)| <= k <==> n < Pow10(k)
  {
    if k == 1 {
      assert Pow10(1) == 10 * Pow10(0) == 10;
      if n >= 10 { assert |Decimal(n)| == |Decimal(n / 10)| + 1; }
    } else {
      DecimalLength(n / 10, k - 1);
      PowPositive(k - 1);
      if n >= 10 { assert |Decimal(n)| == |Decimal(n / 10)| + 1; }
    }
  }

  lemma {:induction false} PowPositive(k: nat)
    ensures Pow10(k) > 0 && (k > 0 ==> Pow10(k) >= 10)
  {
    if k > 0 { PowPositive(k - 1); }
  }

  /** The length of the run of digits a text starts with. */
  function LeadingDigits(s: string): (n: nat)
    ensures n <= |s| && AllDigits(s[..n]) && (n < |s| ==> !IsDigit(s[n]))
  {
    if s == "" || !IsDigit(s[0]) then 0 else 1 + LeadingDigits(s[1..])
  }

  lemma {:induction false} DigitsThenRest(piece: string, rest: string)
    requires AllDigits(piece)
    ensures LeadingDigits(piece + rest) == |piece| + LeadingDigits(rest)
    decreases |piece|
  {
    if piece == "" {
      assert piece + rest == rest;
    } else {
      assert (piece + rest)[1..] == piece[1..] + rest;
      DigitsThenRest(piece[1..], rest);
    }
  }
}
