/** Decimal text of integers, as Python's `str(n)` and the `%d` / `{}`
    formatting produce it, and the digit reading that undoes it. */
module Decimal {
  import opened Results

  predicate IsDigit(c: char) {
    '0' <= c <= '9'
  }

  predicate AllDigits(s: string) {
    forall i | 0 <= i < |s| :: IsDigit(s[i])
  }

  function DigitChar(d: nat): (c: char)
    requires d < 10
    ensures IsDigit(c)
  {
    ('0' as int + d) as char
  }

  function DigitValue(c: char): (d: nat)
    requires IsDigit(c)
    ensures d < 10 && DigitChar(d) == c
  {
    c as int - '0' as int
  }

  lemma DigitRoundTrip(d: nat)
    requires d < 10
    ensures DigitValue(DigitChar(d)) == d
  {
  }

  /** The number a string of decimal digits denotes (most significant first). */
  function DigitsValue(s: string): nat
    requires AllDigits(s)
    decreases |s|
  {
    if |s| == 0 then 0 else DigitsValue(s[..|s| - 1]) * 10 + DigitValue(s[|s| - 1])
  }

  function Pow10(w: nat): (p: nat)
    ensures p >= 1
  {
    if w == 0 then 1 else 10 * Pow10(w - 1)
  }

  /** `w` digits denote less than `10^w`. */
  lemma {:induction false} DigitsValueBound(s: string)
    requires AllDigits(s)
    ensures DigitsValue(s) < Pow10(|s|)
    decreases |s|
  {
    if |s| > 0 {
      DigitsValueBound(s[..|s| - 1]);
    }
  }

  /** `str(n)` for a natural number: its shortest decimal spelling. */
  function NatToText(n: nat): (s: string)
    ensures |s| >= 1 && AllDigits(s)
    ensures |s| > 1 ==> s[0] != '0'
    decreases n
  {
    if n < 10 then [DigitChar(n)] else NatToText(n / 10) + [DigitChar(n % 10)]
  }

  /** `str(i)` for any integer: a minus sign before the magnitude when negative. */
  function IntToText(i: int): string {
    if i < 0 then "-" + NatToText(-i) else NatToText(i)
  }

  /** The last `width` decimal digits of `n`, zero-padded on the left (the
      `%04d` / `%02d` style of `strftime`'s date fields). */
  function Pad(n: nat, width: nat): (s: string)
    ensures |s| == width && AllDigits(s)
  {
    if width == 0 then "" else Pad(n / 10, width - 1) + [DigitChar(n % 10)]
  }

  /** Reading back `str(n)` gives `n`. */
  lemma {:induction false} NatToTextRoundTrip(n: nat)
    ensures DigitsValue(NatToText(n)) == n
    decreases n
  {
    if n >= 10 {
      var s := NatToText(n);
      NatToTextRoundTrip(n / 10);
      assert s[..|s| - 1] == NatToText(n / 10);
    }
  }

  /** Reading back a padded number gives it back when it fits in the width. */
  lemma {:induction false} PadRoundTrip(n: nat, width: nat)
    requires n < Pow10(width)
    ensures DigitsValue(Pad(n, width)) == n
  {
    if width > 0 {
      var s := Pad(n, width);
      var q, d := n / 10, n % 10;
      assert n == 10 * q + d && d < 10;
      assert q < Pow10(width - 1);
      PadRoundTrip(q, width - 1);
      assert s[..|s| - 1] == Pad(q, width - 1);
      assert DigitValue(s[|s| - 1]) == d by {
        assert s[|s| - 1] == DigitChar(d);
        DigitRoundTrip(d);
      }
    }
  }

  /** A two-digit field spells the tens and then the units. */
  lemma PadTwo(n: nat)
    requires n < 100
    ensures Pad(n, 2) == [DigitChar(n / 10), DigitChar(n % 10)]
  {
    var q := n / 10;
    assert q < 10;
    assert Pad(q, 1) == Pad(q / 10, 0) + [DigitChar(q % 10)];
    assert q % 10 == q;
  }

  /** Python's `int(s)` restricted to an optional minus sign and ASCII digits. */
  function ParseInt(s: string): Option<int> {
    if |s| > 0 && s[0] == '-' then
      if |s| > 1 && AllDigits(s[1..]) then Some(0 - DigitsValue(s[1..]) as int) else None
    else if |s| > 0 && AllDigits(s) then Some(DigitsValue(s))
    else None
  }

  /** `int(str(i)) == i`: the decimal text of an integer denotes it. */
  lemma IntToTextRoundTrip(i: int)
    ensures ParseInt(IntToText(i)) == Some(i)
  {
    if i < 0 {
      SignedTextRoundTrip(-i);
    } else {
      UnsignedTextRoundTrip(i);
    }
  }

  lemma SignedTextRoundTrip(n: nat)
    ensures ParseInt("-" + NatToText(n)) == Some(-(n as int))
  {
    var t := NatToText(n);
    var s := "-" + t;
    NatToTextRoundTrip(n);
    assert s[0] == '-' && s[1..] == t;
  }

  lemma UnsignedTextRoundTrip(n: nat)
    ensures ParseInt(NatToText(n)) == Some(n)
  {
    var s := NatToText(n);
    NatToTextRoundTrip(n);
    assert IsDigit(s[0]);
  }
}
