/** Decimal text of the sitemap priorities: `f"{p:.2f}"` for a priority
    that is a whole number of hundredths, and the reader that undoes it. */
module NumberText {
  import opened Wrappers
  import opened Strings

  function DigitChar(d: nat): (c: char)
    requires d < 10
    ensures IsDigit(c)
  {
    ['0', '1', '2', '3', '4', '5', '6', '7', '8', '9'][d]
  }

  function DigitValue(c: char): (d: nat)
    requires IsDigit(c)
    ensures d < 10
  {
    (c as int - '0' as int) as nat
  }

  lemma DigitRoundTrip(d: nat)
    requires d < 10
    ensures DigitValue(DigitChar(d)) == d
  {
  }

  predicate AllDigits(s: string) {
    forall i :: 0 <= i < |s| ==> IsDigit(s[i])
  }

  /** `str(n)` for a natural number. */
  function NatText(n: nat): (s: string)
    ensures |s| > 0 && AllDigits(s)
    decreases n
  {
    if n < 10 then [DigitChar(n)] else NatText(n / 10) + [DigitChar(n % 10)]
  }

  /** `int(s)` for a non-empty string of digits. */
  function DigitsValue(s: string): nat
    requires |s| > 0 && AllDigits(s)
    decreases |s|
  {
    if |s| == 1 then DigitValue(s[0])
    else 10 * DigitsValue(s[..|s| - 1]) + DigitValue(s[|s| - 1])
  }

  lemma {:induction false} NatTextRoundTrip(n: nat)
    ensures DigitsValue(NatText(n)) == n
    decreases n
  {
    if n >= 10 {
      var s := NatText(n);
      NatTextRoundTrip(n / 10);
      assert s[..|s| - 1] == NatText(n / 10);
      DigitRoundTrip(n % 10);
    } else {
      DigitRoundTrip(n);
    }
  }

  /** `f"{h / 100:.2f}"`: whole part, a point, two digits. */
  function Hundredths(h: nat): (s: string)
    ensures '.' in s
  {
    NatText(h / 100) + "." + [DigitChar(h / 10 % 10), DigitChar(h % 10)]
  }

  /** `s.partition('.')` when `s` has a point: the text before the first
      point and the text after it. */
  function SplitAtPoint(s: string): (r: Option<(string, string)>)
    ensures r.None? <==> '.' !in s
    ensures r.Some? ==> s == r.value.0 + "." + r.value.1 && '.' !in r.value.0
  {
    match FindChar(s, '.')
    case None => None
    case Some(k) =>
      assert s == s[..k] + "." + s[k + 1..];
      Some((s[..k], s[k + 1..]))
  }

  /** The number of hundredths written `whole.frac`. */
  function HundredthsValue(whole: string, frac: string): nat
    requires |whole| > 0 && AllDigits(whole) && |frac| == 2 && AllDigits(frac)
  {
    100 * DigitsValue(whole) + 10 * DigitValue(frac[0]) + DigitValue(frac[1])
  }

  /** Reads `ddd.dd` back as a number of hundredths; anything else fails. */
  function ParseHundredths(s: string): (r: Option<nat>)
    ensures r.Some? ==> '.' in s
  {
    match SplitAtPoint(s)
    case None => None
    case Some((whole, frac)) =>
      if |whole| > 0 && AllDigits(whole) && |frac| == 2 && AllDigits(frac)
      then Some(HundredthsValue(whole, frac))
      else None
  }

  lemma DigitsHaveNoPoint(w: string)
    requires AllDigits(w)
    ensures '.' !in w
  {
    forall i | 0 <= i < |w|
      ensures w[i] != '.'
    {
      assert IsDigit(w[i]);
    }
  }

  /** The split happens at the point that follows a run of digits. */
  lemma SplitAfterDigits(w: string, f: string)
    requires AllDigits(w)
    ensures SplitAtPoint(w + "." + f) == Some((w, f))
  {
    DigitsHaveNoPoint(w);
    var s := w + "." + f;
    var r := SplitAtPoint(s);
    var a, b := r.value.0, r.value.1;
    assert s == a + "." + b;
    assert s[|a|] == '.' && s[|w|] == '.';
    assert |a| == |w|;
    assert a == s[..|w|] == w;
    assert b == s[|w| + 1..] == f;
  }

  lemma ParseParts(w: string, f: string)
    requires |w| > 0 && AllDigits(w) && |f| == 2 && AllDigits(f)
    ensures ParseHundredths(w + "." + f) == Some(HundredthsValue(w, f))
  {
    SplitAfterDigits(w, f);
  }

  /** Hundreds, tens and units put back together. */
  lemma DecimalDigits(h: nat)
    ensures 100 * (h / 100) + 10 * (h / 10 % 10) + h % 10 == h
  {
    var q := h / 10;
    assert h == 10 * q + h % 10;
    assert q == 10 * (q / 10) + q % 10;
    assert h / 100 == q / 10;
  }

  /** Reading the text of a number of hundredths gives that number back. */
  lemma HundredthsRoundTrip(h: nat)
    ensures ParseHundredths(Hundredths(h)) == Some(h)
  {
    var w := NatText(h / 100);
    var f := [DigitChar(h / 10 % 10), DigitChar(h % 10)];
    assert Hundredths(h) == w + "." + f;
    ParseParts(w, f);
    NatTextRoundTrip(h / 100);
    DigitRoundTrip(h / 10 % 10);
    DigitRoundTrip(h % 10);
    assert HundredthsValue(w, f) == 100 * (h / 100) + 10 * (h / 10 % 10) + h % 10;
    DecimalDigits(h);
  }
}
