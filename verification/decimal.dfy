/**
 * Decimal text: digit strings, their values, and the renderings JavaScript and
 * dayjs use for numbers (`String(n)`, `padStart`).
 */
module Decimal {

  predicate IsDigit(c: char) {
    '0' <= c <= '9'
  }

  predicate AllDigits(s: string) {
    forall i :: 0 <= i < |s| ==> IsDigit(s[i])
  }

  function DigitChar(d: nat): (c: char)
    requires d < 10
    ensures IsDigit(c)
  {
    (('0' as int) + d) as char
  }

  function DigitValue(c: char): (d: nat)
    requires IsDigit(c)
    ensures d < 10 && DigitChar(d) == c
  {
    (c as int) - ('0' as int)
  }

  function Pow10(n: nat): (p: nat)
    ensures p >= 1
  {
    if n == 0 then 1 else 10 * Pow10(n - 1)
  }

  /** The value of a string of decimal digits, most significant first. */
  function DigitsValue(s: string): (v: nat)
    requires AllDigits(s)
    ensures v < Pow10(|s|)
  {
    if s == [] then 0
    else DigitsValue(s[..|s| - 1]) * 10 + DigitValue(s[|s| - 1])
  }

  /** `String(n)` for a non-negative integer: the shortest decimal rendering. */
  function NatToString(n: nat): (s: string)
    ensures |s| >= 1 && AllDigits(s)
    ensures DigitsValue(s) == n
    ensures |s| > 1 ==> s[0] != '0'
  {
    if n < 10 then [DigitChar(n)]
    else
      var prefix := NatToString(n / 10);
      var s := prefix + [DigitChar(n % 10)];
      assert s[..|s| - 1] == prefix;
      s
  }

  /** `String(n)` for any integer. */
  function IntToString(n: int): (s: string)
    ensures n >= 0 ==> s == NatToString(n)
    ensures n < 0 ==> s == "-" + NatToString(-n)
  {
    if n >= 0 then NatToString(n) else "-" + NatToString(-n)
  }

  function Repeat(c: char, n: nat): (s: string)
    ensures |s| == n
    ensures forall i :: 0 <= i < n ==> s[i] == c
  {
    if n == 0 then [] else Repeat(c, n - 1) + [c]
  }

  /** JavaScript's `padStart` as dayjs uses it: `s` left-padded with `pad` up to `width` characters. */
  function PadStart(s: string, width: nat, pad: char): (r: string)
    ensures |s| >= width ==> r == s
    ensures |s| < width ==> |r| == width && r[width - |s|..] == s
    ensures forall i :: 0 <= i < |r| - |s| ==> r[i] == pad
  {
    if |s| >= width then s else Repeat(pad, width - |s|) + s
  }

  /** The last `w` decimal digits of `v`, leading zeros included. */
  function FixedWidth(v: nat, w: nat): (s: string)
    ensures |s| == w && AllDigits(s)
  {
    if w == 0 then [] else FixedWidth(v / 10, w - 1) + [DigitChar(v % 10)]
  }

  lemma {:induction false} FixedWidthOfZero(w: nat)
    ensures FixedWidth(0, w) == Repeat('0', w)
  {
    if w > 0 {
      FixedWidthOfZero(w - 1);
    }
  }

  /** Re-rendering the value of a digit string at its own width gives the string back. */
  lemma {:induction false} FixedWidthOfDigits(s: string)
    requires AllDigits(s)
    ensures FixedWidth(DigitsValue(s), |s|) == s
  {
    if s != [] {
      var init := s[..|s| - 1];
      var v := DigitsValue(s);
      assert v / 10 == DigitsValue(init) && v % 10 == DigitValue(s[|s| - 1]);
      FixedWidthOfDigits(init);
      assert s == init + [s[|s| - 1]];
    }
  }

  /** Zero-padding the shortest rendering to a width it fits in is the fixed-width rendering. */
  lemma {:induction false} PaddedIsFixedWidth(v: nat, w: nat)
    requires 1 <= w && v < Pow10(w)
    ensures PadStart(NatToString(v), w, '0') == FixedWidth(v, w)
  {
    if v < 10 {
      FixedWidthOfZero(w - 1);
      assert v / 10 == 0;
    } else {
      assert Pow10(1) == 10;
      assert w >= 2;
      assert v / 10 < Pow10(w - 1);
      PaddedIsFixedWidth(v / 10, w - 1);
      var prefix := NatToString(v / 10);
      var last := [DigitChar(v % 10)];
      assert NatToString(v) == prefix + last;
      if |prefix| < w - 1 {
        assert PadStart(prefix + last, w, '0') == PadStart(prefix, w - 1, '0') + last;
      } else {
        assert PadStart(prefix + last, w, '0') == prefix + last;
      }
    }
  }

  /** Leading zeros do not change the value of a digit string. */
  lemma {:induction false} LeadingZerosValue(k: nat, t: string)
    requires AllDigits(t)
    ensures AllDigits(Repeat('0', k) + t)
    ensures DigitsValue(Repeat('0', k) + t) == DigitsValue(t)
  {
    if t == [] {
      assert Repeat('0', k) + t == Repeat('0', k);
      ZerosValue(k);
    } else {
      var init := t[..|t| - 1];
      var last := t[|t| - 1];
      assert t == init + [last];
      assert Repeat('0', k) + t == (Repeat('0', k) + init) + [last];
      LeadingZerosValue(k, init);
      AppendDigitValue(Repeat('0', k) + init, last);
      AppendDigitValue(init, last);
    }
  }

  /** A string of zeros is worth zero. */
  lemma {:induction false} ZerosValue(k: nat)
    ensures AllDigits(Repeat('0', k)) && DigitsValue(Repeat('0', k)) == 0
  {
    if k > 0 {
      ZerosValue(k - 1);
      AppendDigitValue(Repeat('0', k - 1), '0');
    }
  }

  /** Appending a digit multiplies the value by ten and adds the digit. */
  lemma AppendDigitValue(a: string, c: char)
    requires AllDigits(a) && IsDigit(c)
    ensures AllDigits(a + [c])
    ensures DigitsValue(a + [c]) == DigitsValue(a) * 10 + DigitValue(c)
  {
    assert (a + [c])[..|a|] == a;
  }

  /** Zero-padding keeps the value: parsing a padded rendering gives the number back. */
  lemma PaddedValue(v: nat, w: nat)
    ensures AllDigits(PadStart(NatToString(v), w, '0'))
    ensures DigitsValue(PadStart(NatToString(v), w, '0')) == v
  {
    var s := NatToString(v);
    if |s| < w {
      LeadingZerosValue(w - |s|, s);
    }
  }

  /** The position of the first `c` in `s`, or `|s|` when there is none. */
  function IndexOf(s: string, c: char): (i: nat)
    ensures i <= |s|
    ensures i < |s| ==> s[i] == c
    ensures forall j :: 0 <= j < i ==> s[j] != c
  {
    if s == [] then 0
    else if s[0] == c then 0
    else 1 + IndexOf(s[1..], c)
  }
}
