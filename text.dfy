/**
 * The Python string built-ins the auction parser relies on:
 * `str.split()` with no argument, `str.replace` of one character,
 * `int()` and `float()` applied to text, and `int()` applied to a number.
 */
module Text {
  import opened Results

  /** The characters `str.isspace()` accepts; `str.split()` separates on runs of them. */
  predicate IsSpace(c: char) {
    c == ' ' || ('\t' <= c <= '\r') || ('\U{1C}' <= c <= '\U{1F}')
    || c == '\U{85}' || c == '\U{A0}' || c == '\U{1680}'
    || ('\U{2000}' <= c <= '\U{200A}') || c == '\U{2028}' || c == '\U{2029}'
    || c == '\U{202F}' || c == '\U{205F}' || c == '\U{3000}'
  }

  /** A token `str.split()` can produce: non-empty and free of whitespace. */
  predicate IsWord(w: string) {
    |w| > 0 && forall k :: 0 <= k < |w| ==> !IsSpace(w[k])
  }

  /** Length of the run of non-space characters at the start of `s`. */
  function WordEnd(s: string): (n: nat)
    ensures n <= |s|
    ensures forall k :: 0 <= k < n ==> !IsSpace(s[k])
    ensures n < |s| ==> IsSpace(s[n])
  {
    if s == [] || IsSpace(s[0]) then 0 else 1 + WordEnd(s[1..])
  }

  /** `s.split()`: the maximal runs of non-space characters, left to right. */
  function Split(s: string): (words: seq<string>)
    ensures forall i :: 0 <= i < |words| ==> IsWord(words[i])
    decreases |s|
  {
    if s == [] then []
    else if IsSpace(s[0]) then Split(s[1..])
    else
      var n := WordEnd(s);
      [s[..n]] + Split(s[n..])
  }

  /** `sep.join(words)`. */
  function Join(sep: string, words: seq<string>): string {
    if words == [] then ""
    else if |words| == 1 then words[0]
    else words[0] + sep + Join(sep, words[1..])
  }

  lemma {:induction false} WordEndOfWord(w: string, rest: string)
    requires forall k :: 0 <= k < |w| ==> !IsSpace(w[k])
    requires rest == [] || IsSpace(rest[0])
    ensures WordEnd(w + rest) == |w|
    decreases |w|
  {
    if w != [] {
      assert (w + rest)[1..] == w[1..] + rest;
      WordEndOfWord(w[1..], rest);
    } else {
      assert w + rest == rest;
    }
  }

  /** Splitting words joined by single spaces gives the words back. */
  lemma {:induction false} SplitJoin(words: seq<string>)
    requires forall i :: 0 <= i < |words| ==> IsWord(words[i])
    ensures Split(Join(" ", words)) == words
  {
    if words != [] {
      var w := words[0];
      var rest := if |words| == 1 then "" else " " + Join(" ", words[1..]);
      assert Join(" ", words) == w + rest;
      WordEndOfWord(w, rest);
      var s := w + rest;
      assert s[..|w|] == w && s[|w|..] == rest;
      assert Split(s) == [w] + Split(rest);
      if |words| > 1 {
        assert rest[1..] == Join(" ", words[1..]);
        SplitJoin(words[1..]);
        assert Split(rest) == words[1..];
      }
      assert words == [w] + words[1..];
    }
  }

  /** `s.replace(a, b)` for single characters `a` and `b`. */
  function ReplaceChar(s: string, a: char, b: char): (r: string)
    ensures |r| == |s|
  {
    if s == [] then [] else [if s[0] == a then b else s[0]] + ReplaceChar(s[1..], a, b)
  }

  predicate IsDigit(c: char) { '0' <= c <= '9' }

  predicate AllDigits(s: string) { forall k :: 0 <= k < |s| ==> IsDigit(s[k]) }

  function DigitValue(c: char): nat
    requires IsDigit(c)
  {
    (c as int) - ('0' as int)
  }

  function DigitChar(d: nat): (c: char)
    requires d < 10
    ensures IsDigit(c) && DigitValue(c) == d
  {
    ('0' as int + d) as char
  }

  /** The number a string of decimal digits denotes (0 for the empty string). */
  function DigitsValue(s: string): nat
    requires AllDigits(s)
  {
    if s == [] then 0 else 10 * DigitsValue(s[..|s| - 1]) + DigitValue(s[|s| - 1])
  }

  /** `str(n)` for a natural number. */
  function NatToDigits(n: nat): (s: string)
    ensures |s| > 0 && AllDigits(s)
  {
    (if n < 10 then [] else NatToDigits(n / 10)) + [DigitChar(n % 10)]
  }

  function Pow10(n: nat): (p: nat)
    ensures p >= 1
  {
    if n == 0 then 1 else 10 * Pow10(n - 1)
  }

  lemma {:induction false} DigitsRoundTrip(n: nat)
    ensures DigitsValue(NatToDigits(n)) == n
  {
    var s := NatToDigits(n);
    var p := if n < 10 then [] else NatToDigits(n / 10);
    var d := DigitChar(n % 10);
    assert s == p + [d];
    assert s[..|s| - 1] == p && s[|s| - 1] == d;
    assert DigitsValue(s) == 10 * DigitsValue(p) + n % 10;
    if n >= 10 {
      DigitsRoundTrip(n / 10);
    }
    assert n == 10 * (n / 10) + n % 10;
  }

  /** An optional leading `+` or `-`, as `int()` and `float()` accept it. */
  function Sign(s: string): (bool, string) {
    if |s| > 0 && (s[0] == '+' || s[0] == '-') then (s[0] == '-', s[1..]) else (false, s)
  }

  /** `int(s)` for text: an optional sign and one or more decimal digits, else ValueError. */
  function ParseInt(s: string): Option<int> {
    var (negative, body) := Sign(s);
    if body != [] && AllDigits(body) then
      Some(if negative then -(DigitsValue(body) as int) else DigitsValue(body))
    else None
  }

  /**
   * `float(s)` for text: an optional sign, then digits with at most one
   * decimal point and at least one digit, else ValueError.
   */
  function ParseFloat(s: string): Option<real> {
    var (negative, body) := Sign(s);
    match UnsignedDecimal(body)
    case None => None
    case Some(x) => Some(if negative then -x else x)
  }

  /** The unsigned part of `float()`: digits with at most one decimal point, at least one digit. */
  function UnsignedDecimal(body: string): Option<real> {
    ScanDecimal(body, 0, 0, false, false)
  }

  /**
   * `float()`'s left-to-right reading of `[digits][.digits]`: `mantissa` holds
   * every digit read so far as one integer, `scale` counts those after the
   * point, `point` and `digit` record whether a point and a digit were seen.
   */
  function ScanDecimal(s: string, mantissa: nat, scale: nat, point: bool, digit: bool): Option<real>
    decreases |s|
  {
    if s == [] then (if digit then Some(DecimalNumber(mantissa, scale)) else None)
    else if IsDigit(s[0]) then
      ScanDecimal(s[1..], 10 * mantissa + DigitValue(s[0]), if point then scale + 1 else scale, point, true)
    else if s[0] == '.' && !point then ScanDecimal(s[1..], mantissa, scale, true, digit)
    else None
  }

  /** The number whose decimal digits, read as one integer, are `mantissa`, `scale` of them after the point. */
  function DecimalNumber(mantissa: nat, scale: nat): real {
    mantissa as real / Pow10(scale) as real
  }

  /** `int(x)` for a number: truncation toward zero. */
  function Truncate(x: real): (n: int)
    ensures x >= 0.0 ==> n as real <= x < n as real + 1.0
    ensures x < 0.0 ==> n as real - 1.0 < x <= n as real
  {
    if x >= 0.0 then x.Floor else -((-x).Floor)
  }

  /** `int()` reads back what `str()` writes, for either sign. */
  lemma IntRoundTrip(n: nat)
    ensures ParseInt(NatToDigits(n)) == Some(n)
    ensures ParseInt("-" + NatToDigits(n)) == Some(-(n as int))
  {
    DigitsRoundTrip(n);
    var s := NatToDigits(n);
    assert IsDigit(s[0]);
    assert Sign(s) == (false, s);
    var negative := "-" + s;
    assert negative[0] == '-' && negative[1..] == s;
    assert Sign(negative) == (true, s);
  }

  /** The integer written by the digits of `mantissa` followed by the digits `s`. */
  function DigitsAfter(mantissa: nat, s: string): nat
    requires AllDigits(s)
  {
    mantissa * Pow10(|s|) + DigitsValue(s)
  }

  /** One more digit multiplies what was read so far by ten and adds the digit. */
  lemma DigitsAfterStep(mantissa: nat, p: string, d: char)
    requires AllDigits(p) && IsDigit(d)
    ensures AllDigits(p + [d])
    ensures DigitsAfter(mantissa, p + [d]) == 10 * DigitsAfter(mantissa, p) + DigitValue(d)
  {
    var s := p + [d];
    assert s[..|s| - 1] == p && s[|s| - 1] == d;
    var q := Pow10(|p|);
    assert Pow10(|s|) == 10 * q;
    assert mantissa * (10 * q) == 10 * (mantissa * q);
  }

  /** Reading a run of digits multiplies the mantissa by ten per digit and adds the run's value. */
  lemma {:induction false} ScanDigits(s: string, rest: string, mantissa: nat, scale: nat, point: bool, digit: bool)
    requires AllDigits(s)
    ensures ScanDecimal(s + rest, mantissa, scale, point, digit)
            == ScanDecimal(rest, DigitsAfter(mantissa, s), if point then scale + |s| else scale, point, digit || s != [])
    decreases |s|
  {
    if s == [] {
      assert s + rest == rest;
    } else {
      var p := s[..|s| - 1];
      var d := s[|s| - 1];
      assert s == p + [d];
      assert s + rest == p + ([d] + rest);
      ScanDigits(p, [d] + rest, mantissa, scale, point, digit);
      var m := DigitsAfter(mantissa, p);
      assert ([d] + rest)[1..] == rest;
      DigitsAfterStep(mantissa, p, d);
    }
  }

  /** A run of digits that ends the text: the scan yields its decimal number. */
  lemma ScanToEnd(s: string, mantissa: nat, scale: nat, point: bool, digit: bool)
    requires AllDigits(s) && (digit || s != [])
    ensures ScanDecimal(s, mantissa, scale, point, digit)
            == Some(DecimalNumber(DigitsAfter(mantissa, s), if point then scale + |s| else scale))
  {
    ScanDigits(s, [], mantissa, scale, point, digit);
    assert s + [] == s;
  }

  /** `float()` of "a.f", for digit strings a and f, is the decimal number they spell. */
  lemma DecimalValue(a: string, f: string)
    requires AllDigits(a) && AllDigits(f) && a != []
    ensures ParseFloat(a + "." + f) == Some(DecimalNumber(DigitsAfter(DigitsValue(a), f), |f|))
  {
    var s := a + "." + f;
    var fraction := "." + f;
    assert s == a + fraction;
    assert s[0] == a[0] && IsDigit(a[0]);
    assert Sign(s) == (false, s);
    assert ParseFloat(s) == ScanDecimal(s, 0, 0, false, false);
    ScanDigits(a, fraction, 0, 0, false, false);
    var m := DigitsValue(a);
    assert DigitsAfter(0, a) == m;
    assert ScanDecimal(s, 0, 0, false, false) == ScanDecimal(fraction, m, 0, false, true);
    assert fraction[0] == '.' && fraction[1..] == f;
    assert ScanDecimal(fraction, m, 0, false, true) == ScanDecimal(f, m, 0, true, true);
    ScanToEnd(f, m, 0, true, true);
  }

  /** `float()` of a digit string is the number it spells. */
  lemma WholeValue(a: string)
    requires AllDigits(a) && a != []
    ensures ParseFloat(a) == Some(DigitsValue(a) as real)
  {
    assert Sign(a) == (false, a);
    ScanToEnd(a, 0, 0, false, false);
    assert DigitsAfter(0, a) == DigitsValue(a);
    assert DecimalNumber(DigitsValue(a), 0) == DigitsValue(a) as real;
  }

  lemma {:induction false} ReplaceAppend(x: string, y: string, a: char, b: char)
    ensures ReplaceChar(x + y, a, b) == ReplaceChar(x, a, b) + ReplaceChar(y, a, b)
  {
    if x != [] {
      assert (x + y)[1..] == x[1..] + y;
      ReplaceAppend(x[1..], y, a, b);
    } else {
      assert x + y == y;
    }
  }

  /** Replacing a separator leaves a string of digits as it is. */
  lemma {:induction false} ReplaceDigits(s: string)
    requires AllDigits(s)
    ensures ReplaceChar(s, ',', '.') == s
  {
    if s != [] {
      ReplaceDigits(s[1..]);
    }
  }
}
