/** Java's text conversions the core relies on: the decimal rendering of an
    integer in string concatenation (`"..." + port`), and `String.isBlank`. */
module Text {

  import opened Wrappers

  function DigitChar(d: nat): (c: char)
    requires d < 10
    ensures '0' <= c <= '9'
  {
    ('0' as int + d) as char
  }

  predicate IsDigit(c: char) {
    '0' <= c <= '9'
  }

  function DigitValue(c: char): (d: nat)
    requires IsDigit(c)
    ensures d < 10 && DigitChar(d) == c
  {
    c as int - '0' as int
  }

  /** Decimal digits of a natural number, most significant first, without leading zeros. */
  function NatDigits(n: nat): (s: string)
    ensures |s| > 0
    ensures forall i :: 0 <= i < |s| ==> IsDigit(s[i])
    decreases n
  {
    if n < 10 then [DigitChar(n)] else NatDigits(n / 10) + [DigitChar(n % 10)]
  }

  /** `Integer.toString(n)` / `Long.toString(n)`: a minus sign for negatives, then the digits. */
  function DecimalString(n: int): (s: string)
    ensures |s| > 0
    ensures forall i :: 0 <= i < |s| ==> s[i] == '-' || IsDigit(s[i])
  {
    if n < 0 then "-" + NatDigits(-n) else NatDigits(n)
  }

  /** Reads a non-empty string of decimal digits. */
  function ParseDigits(s: string): (r: Option<nat>)
    ensures r.Some? <==> |s| > 0 && forall i :: 0 <= i < |s| ==> IsDigit(s[i])
    decreases |s|
  {
    if |s| == 0 || !IsDigit(s[|s| - 1]) then None
    else if |s| == 1 then Some(DigitValue(s[0]))
    else match ParseDigits(s[..|s| - 1])
      case None => None
      case Some(high) => Some(high * 10 + DigitValue(s[|s| - 1]))
  }

  /** Reads what `DecimalString` writes: an optional minus sign, then digits. */
  function ParseDecimal(s: string): Option<int> {
    if |s| > 0 && s[0] == '-' then
      match ParseDigits(s[1..])
      case None => None
      case Some(m) => Some(-(m as int))
    else
      match ParseDigits(s)
      case None => None
      case Some(m) => Some(m)
  }

  lemma {:induction false} NatDigitsRoundTrip(n: nat)
    ensures ParseDigits(NatDigits(n)) == Some(n)
    decreases n
  {
    if n >= 10 {
      var high := NatDigits(n / 10);
      var s := high + [DigitChar(n % 10)];
      assert s[..|s| - 1] == high;
      NatDigitsRoundTrip(n / 10);
      assert DigitValue(s[|s| - 1]) == n % 10;
    }
  }

  /** The decimal rendering loses nothing: parsing it gives the number back. */
  lemma DecimalRoundTrip(n: int)
    ensures ParseDecimal(DecimalString(n)) == Some(n)
  {
    if n < 0 {
      var d := NatDigits(-n);
      var s := "-" + d;
      assert s == DecimalString(n);
      assert |s| > 0 && s[0] == '-';
      assert s[1..] == d;
      NatDigitsRoundTrip(-n);
      assert ParseDigits(s[1..]) == Some(-n);
    } else {
      var d := NatDigits(n);
      assert d == DecimalString(n);
      assert IsDigit(d[0]);
      NatDigitsRoundTrip(n);
      assert ParseDigits(d) == Some(n);
    }
  }

  /** `Character.isWhitespace`: the Unicode space, line and paragraph
      separators other than the no-break spaces U+00A0, U+2007 and U+202F,
      and the controls U+0009..U+000D and U+001C..U+001F. */
  predicate IsJavaWhitespace(c: char) {
    || '\U{9}' <= c <= '\U{D}'
    || '\U{1C}' <= c <= '\U{20}'
    || c == '\U{1680}'
    || '\U{2000}' <= c <= '\U{2006}'
    || '\U{2008}' <= c <= '\U{200A}'
    || c == '\U{2028}' || c == '\U{2029}' || c == '\U{205F}' || c == '\U{3000}'
  }

  /** `String.isBlank`: empty, or whitespace only. */
  predicate IsBlank(s: string) {
    forall i :: 0 <= i < |s| ==> IsJavaWhitespace(s[i])
  }

  /** What is left of `s` after the leading `p`, if `s` starts with `p`. */
  function StripPrefix(s: string, p: string): (r: Option<string>)
    ensures r.Some? <==> p <= s
    ensures r.Some? ==> s == p + r.value
  {
    if p <= s then Some(s[|p|..]) else None
  }

  /** What is left of `s` before the trailing `x`, if `s` ends with `x`. */
  function StripSuffix(s: string, x: string): (r: Option<string>)
    ensures r.Some? <==> |x| <= |s| && s[|s| - |x|..] == x
    ensures r.Some? ==> s == r.value + x
  {
    if |x| <= |s| && s[|s| - |x|..] == x then Some(s[..|s| - |x|]) else None
  }

  lemma StripPrefixConcat(p: string, a: string)
    ensures StripPrefix(p + a, p) == Some(a)
  {
    assert (p + a)[|p|..] == a;
  }

  lemma StripSuffixConcat(a: string, x: string)
    ensures StripSuffix(a + x, x) == Some(a)
  {
    assert (a + x)[|a|..] == x;
    assert (a + x)[..|a|] == a;
  }

  /** `s` cut at its last `c`: what comes before it and what comes after. */
  function SplitAtLast(s: string, c: char): (r: Option<(string, string)>)
    ensures r.None? <==> c !in s
    ensures r.Some? ==> s == r.value.0 + [c] + r.value.1 && c !in r.value.1
    decreases |s|
  {
    if |s| == 0 then None
    else if s[|s| - 1] == c then Some((s[..|s| - 1], []))
    else
      var init := s[..|s| - 1];
      assert s == init + [s[|s| - 1]];
      match SplitAtLast(init, c)
      case None => None
      case Some((a, b)) => Some((a, b + [s[|s| - 1]]))
  }

  /** Cutting at the last `c` finds the `c` that has none after it. */
  lemma {:induction false} SplitAtLastConcat(a: string, c: char, b: string)
    requires c !in b
    ensures SplitAtLast(a + [c] + b, c) == Some((a, b))
    decreases |b|
  {
    var s := a + [c] + b;
    if |b| == 0 {
      assert s[..|s| - 1] == a;
    } else {
      var b' := b[..|b| - 1];
      assert s[..|s| - 1] == a + [c] + b';
      assert s[|s| - 1] == b[|b| - 1];
      assert b' + [b[|b| - 1]] == b;
      SplitAtLastConcat(a, c, b');
    }
  }
}
