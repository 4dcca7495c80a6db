/** Decimal text of numbers, zero padding, and the number a numeral spells. */
module Numerals {
  function Digit(n: nat): char
    requires n < 10
  {
    ('0' as int + n) as char
  }

  function Decimal(n: nat): (s: string)
    ensures s != ""
  {
    if n < 10 then [Digit(n)] else Decimal(n / 10) + [Digit(n % 10)]
  }

  function Zeros(n: nat): string { if n == 0 then "" else "0" + Zeros(n - 1) }

  /** The formatting of a number padded with zeros to a width. */
  function Pad(n: nat, width: nat): string {
    var s := Decimal(n);
    (if |s| < width then Zeros(width - |s|) else "") + s
  }

  predicate IsNumeral(s: string) {
    forall i :: 0 <= i < |s| ==> '0' <= s[i] <= '9'
  }

  function Pow10(n: nat): (r: nat)
    ensures r > 0
  {
    if n == 0 then 1 else 10 * Pow10(n - 1)
  }

  function DigitOf(c: char): nat
    requires '0' <= c <= '9'
  {
    c as int - '0' as int
  }

  /** The number a numeral spells. */
  function Value(s: string): (v: nat)
    requires IsNumeral(s)
  {
    if s == "" then 0 else DigitOf(s[0]) * Pow10(|s| - 1) + Value(s[1..])
  }

  lemma {:induction false} ValueBound(s: string)
    requires IsNumeral(s)
    ensures Value(s) < Pow10(|s|)
  {
    if s != "" {
      ValueBound(s[1..]);
      LeadingDigit(DigitOf(s[0]), 10, Pow10(|s| - 1), Value(s[1..]), 0);
    }
  }

  lemma LeadingDigit(d: int, e: int, p: nat, v: nat, w: nat)
    requires v < p && w < p
    ensures d * p + v < e * p + w <==> d < e || (d == e && v < w)
  {
    assert d < e ==> (d + 1) * p <= e * p;
    assert e < d ==> (e + 1) * p <= d * p;
  }

  lemma {:induction false} ValueAppend(s: string, c: char)
    requires IsNumeral(s) && '0' <= c <= '9'
    ensures IsNumeral(s + [c]) && Value(s + [c]) == Value(s) * 10 + DigitOf(c)
  {
    if s == "" {
      assert s + [c] == [c] && [c][1..] == "";
    } else {
      assert (s + [c])[1..] == s[1..] + [c];
      ValueAppend(s[1..], c);
      var d := DigitOf(s[0]);
      assert d * (10 * Pow10(|s| - 1)) == (d * Pow10(|s| - 1)) * 10;
    }
  }

  lemma {:induction false} DecimalValue(n: nat)
    ensures IsNumeral(Decimal(n)) && Value(Decimal(n)) == n
  {
    if n >= 10 {
      DecimalValue(n / 10);
      ValueAppend(Decimal(n / 10), Digit(n % 10));
    } else {
      assert [Digit(n)][1..] == "";
    }
  }

  lemma {:induction false} DecimalWidth(n: nat, width: nat)
    requires width > 0 && n < Pow10(width)
    ensures |Decimal(n)| <= width
  {
    if n >= 10 { DecimalWidth(n / 10, width - 1); }
  }

  lemma {:induction false} ZerosValue(n: nat, s: string)
    requires IsNumeral(s)
    ensures |Zeros(n)| == n && IsNumeral(Zeros(n) + s) && Value(Zeros(n) + s) == Value(s)
  {
    if n == 0 {
      assert Zeros(0) + s == s;
    } else {
      ZerosValue(n - 1, s);
      assert Zeros(n) + s == "0" + (Zeros(n - 1) + s);
      assert (Zeros(n) + s)[1..] == Zeros(n - 1) + s;
    }
  }

  lemma PadValue(n: nat, width: nat)
    ensures IsNumeral(Pad(n, width)) && Value(Pad(n, width)) == n
    ensures width > 0 && n < Pow10(width) ==> |Pad(n, width)| == width
  {
    DecimalValue(n);
    var s := Decimal(n);
    if |s| < width { ZerosValue(width - |s|, s); } else { assert "" + s == s; }
    if width > 0 && n < Pow10(width) { DecimalWidth(n, width); }
  }

  lemma DecimalInjective(n: nat, m: nat)
    ensures Decimal(n) == Decimal(m) ==> n == m
  {
    DecimalValue(n);
    DecimalValue(m);
  }
}
