/**
 * Strict parsing of decimal price texts, the part of pandas' `to_numeric` the pipeline relies on:
 * an optional sign, one or more digits, and optionally a point followed by one or more digits.
 */
module Numeric {
  import opened Common

  predicate IsDigit(c: char) {
    '0' <= c <= '9'
  }

  predicate AllDigits(s: string) {
    forall i :: 0 <= i < |s| ==> IsDigit(s[i])
  }

  /** The characters a numeral may contain. */
  predicate IsNumeralChar(c: char) {
    IsDigit(c) || c == '.' || c == '-' || c == '+'
  }

  function DigitValue(c: char): (d: nat)
    requires IsDigit(c)
    ensures d < 10
  {
    c as int - '0' as int
  }

  function DigitChar(d: nat): (c: char)
    requires d < 10
    ensures IsDigit(c) && DigitValue(c) == d
  {
    ('0' as int + d) as char
  }

  /** The value of a string of decimal digits, most significant digit first. */
  function DigitsValue(s: string): nat
    requires AllDigits(s)
  {
    if s == [] then 0 else DigitsValue(s[..|s| - 1]) * 10 + DigitValue(s[|s| - 1])
  }

  function Pow10(n: nat): (r: nat)
    ensures r >= 1
  {
    if n == 0 then 1 else 10 * Pow10(n - 1)
  }

  /** The position of the first '.' at or after `from`, if any. */
  function IndexOfDot(s: string, from: nat): (r: Option<nat>)
    requires from <= |s|
    ensures r.Some? ==> from <= r.value < |s| && s[r.value] == '.'
    ensures r.None? ==> forall i :: from <= i < |s| ==> s[i] != '.'
    ensures r.Some? ==> forall i :: from <= i < r.value ==> s[i] != '.'
    decreases |s| - from
  {
    if from == |s| then None
    else if s[from] == '.' then Some(from)
    else IndexOfDot(s, from + 1)
  }

  /** The value of the numeral `whole.frac`: the whole part plus the fractional digits over 10^|frac|. */
  function DecimalValue(whole: string, frac: string): real
    requires AllDigits(whole) && AllDigits(frac)
  {
    DigitsValue(whole) as real + DigitsValue(frac) as real / Pow10(|frac|) as real
  }

  /** An unsigned numeral: digits, or digits '.' digits. */
  function ParseUnsigned(s: string): (r: Option<real>)
    ensures r.Some? ==> s != [] && forall i :: 0 <= i < |s| ==> IsDigit(s[i]) || s[i] == '.'
    ensures s != [] && AllDigits(s) ==> r == Some(DigitsValue(s) as real)
  {
    match IndexOfDot(s, 0)
    case None =>
      if s != [] && AllDigits(s) then Some(DigitsValue(s) as real) else None
    case Some(k) =>
      var whole, frac := s[..k], s[k + 1..];
      if whole != [] && frac != [] && AllDigits(whole) && AllDigits(frac) then
        assert forall i :: 0 <= i < |s| ==> (i < k ==> s[i] == whole[i]) && (i > k ==> s[i] == frac[i - k - 1]);
        Some(DecimalValue(whole, frac))
      else
        None
  }

  /**
   * The strict numeric parse of a price text: `None` stands for the error the strict
   * parse raises (and for the NaN the coercing parse yields instead).
   */
  function ParseDecimal(s: string): (r: Option<real>)
    ensures r.Some? ==> s != [] && forall i :: 0 <= i < |s| ==> IsNumeralChar(s[i])
    ensures s != [] && AllDigits(s) ==> r == Some(DigitsValue(s) as real)
  {
    if |s| > 0 && s[0] == '-' then
      match ParseUnsigned(s[1..])
      case None => None
      case Some(v) =>
        assert forall i :: 1 <= i < |s| ==> s[i] == s[1..][i - 1];
        Some(-v)
    else if |s| > 0 && s[0] == '+' then
      var r := ParseUnsigned(s[1..]);
      assert r.Some? ==> forall i :: 1 <= i < |s| ==> s[i] == s[1..][i - 1];
      r
    else
      ParseUnsigned(s)
  }

  /** The shortest decimal numeral of a natural number. */
  function NatToDecimal(n: nat): (s: string)
    ensures s != [] && AllDigits(s)
  {
    if n < 10 then [DigitChar(n)] else NatToDecimal(n / 10) + [DigitChar(n % 10)]
  }

  lemma {:induction false} DigitsValueOfNatToDecimal(n: nat)
    ensures DigitsValue(NatToDecimal(n)) == n
  {
    if n >= 10 {
      DigitsValueOfNatToDecimal(n / 10);
      var s := NatToDecimal(n);
      assert s[..|s| - 1] == NatToDecimal(n / 10);
    }
  }

  /** Printing a whole price and parsing it back gives the same value. */
  lemma ParseNatToDecimal(n: nat)
    ensures ParseDecimal(NatToDecimal(n)) == Some(n as real)
  {
    DigitsValueOfNatToDecimal(n);
  }

  /** A text holding any character that cannot occur in a numeral does not parse. */
  lemma ParseRejectsNonNumeral(s: string, k: nat)
    requires k < |s| && !IsNumeralChar(s[k])
    ensures ParseDecimal(s) == None
  {
  }

  /**
   * The language the strict parse accepts: an optional sign, then one or more digits, optionally
   * followed by a point and one or more digits.
   */
  predicate IsUnsignedNumeral(u: string) {
    (u != [] && AllDigits(u))
    || exists k :: 0 < k < |u| - 1 && u[k] == '.' && AllDigits(u[..k]) && AllDigits(u[k + 1..])
  }

  predicate IsNumeral(s: string) {
    if |s| > 0 && (s[0] == '-' || s[0] == '+') then IsUnsignedNumeral(s[1..]) else IsUnsignedNumeral(s)
  }

  lemma ParseUnsignedAccepts(u: string)
    ensures ParseUnsigned(u).Some? <==> IsUnsignedNumeral(u)
  {
    match IndexOfDot(u, 0)
    case None =>
    case Some(d) =>
      assert u[d] == '.' && !AllDigits(u);
      if exists k :: 0 < k < |u| - 1 && u[k] == '.' && AllDigits(u[..k]) && AllDigits(u[k + 1..]) {
        var k :| 0 < k < |u| - 1 && u[k] == '.' && AllDigits(u[..k]) && AllDigits(u[k + 1..]);
        OnlyPointBeforeDigits(u, d, k);
      }
  }

  /** A point preceded only by digits is the first point. */
  lemma OnlyPointBeforeDigits(u: string, d: nat, k: nat)
    requires IndexOfDot(u, 0) == Some(d) && k < |u| && u[k] == '.' && AllDigits(u[..k])
    ensures k == d
  {
  }

  /** A price text parses exactly when it is a numeral of the accepted form. */
  lemma ParseAcceptsNumerals(s: string)
    ensures ParseDecimal(s).Some? <==> IsNumeral(s)
  {
    if |s| > 0 && (s[0] == '-' || s[0] == '+') {
      ParseUnsignedAccepts(s[1..]);
    } else {
      ParseUnsignedAccepts(s);
    }
  }

  /** The first point of `w + "." + f`, where `w` holds no point, is the one after `w`. */
  lemma {:induction false} IndexOfDotAfterDigits(w: string, f: string, from: nat)
    requires AllDigits(w) && from <= |w|
    ensures IndexOfDot(w + "." + f, from) == Some(|w|)
    decreases |w| - from
  {
    var s := w + "." + f;
    if from < |w| {
      assert s[from] == w[from];
      IndexOfDotAfterDigits(w, f, from + 1);
    }
  }

  /** An unsigned numeral whose first point is at `k` has the value of its two digit runs. */
  lemma ParseUnsignedAt(s: string, k: nat)
    requires IndexOfDot(s, 0) == Some(k) && 0 < k < |s| - 1
    requires AllDigits(s[..k]) && AllDigits(s[k + 1..])
    ensures ParseUnsigned(s) == Some(DecimalValue(s[..k], s[k + 1..]))
  {
  }

  /** The value of an unsigned numeral with a fractional part. */
  lemma ParseUnsignedFraction(w: string, f: string)
    requires w != [] && f != [] && AllDigits(w) && AllDigits(f)
    ensures ParseUnsigned(w + "." + f) == Some(DecimalValue(w, f))
  {
    SplitAtPoint(w, f);
    ParseUnsignedAt(w + "." + f, |w|);
  }

  lemma SplitAtPoint(w: string, f: string)
    requires AllDigits(w)
    ensures var s := w + "." + f;
      |s| == |w| + 1 + |f| && s[..|w|] == w && s[|w| + 1..] == f && IndexOfDot(s, 0) == Some(|w|)
  {
    IndexOfDotAfterDigits(w, f, 0);
  }

  /**
   * The value of a numeral such as `"62500.12000000"`: the whole part plus the fractional digits
   * over the matching power of ten, negated by a leading minus and kept by a leading plus.
   */
  lemma ParseFraction(w: string, f: string)
    requires w != [] && f != [] && AllDigits(w) && AllDigits(f)
    ensures var v := DecimalValue(w, f);
      && ParseDecimal(w + "." + f) == Some(v)
      && ParseDecimal("-" + w + "." + f) == Some(-v)
      && ParseDecimal("+" + w + "." + f) == Some(v)
  {
    ParseUnsignedFraction(w, f);
    var u := w + "." + f;
    assert ("-" + w + "." + f)[1..] == u;
    assert ("+" + w + "." + f)[1..] == u;
    assert u[0] == w[0] && IsDigit(w[0]);
  }

  /** Appending digits shifts the value of the leading digits by one power of ten per digit. */
  lemma {:induction false} DigitsValueConcat(w: string, f: string)
    requires AllDigits(w) && AllDigits(f)
    ensures AllDigits(w + f) && DigitsValue(w + f) == DigitsValue(w) * Pow10(|f|) + DigitsValue(f)
    decreases |f|
  {
    if f == [] {
      assert w + f == w;
    } else {
      var g := f[..|f| - 1];
      assert (w + f)[..|w + f| - 1] == w + g && (w + f)[|w + f| - 1] == f[|f| - 1];
      DigitsValueConcat(w, g);
      assert Pow10(|f|) == 10 * Pow10(|g|);
      ShiftDigit(DigitsValue(w), Pow10(|g|), DigitsValue(g), DigitValue(f[|f| - 1]));
    }
  }

  lemma ShiftDigit(a: int, p: int, b: int, d: int)
    ensures (a * p + b) * 10 + d == a * (10 * p) + (b * 10 + d)
  {
  }

  /**
   * The value of `whole.frac` is the value of the digits `whole frac` with the point dropped,
   * scaled down by one power of ten per fractional digit.
   */
  lemma DecimalValueScaled(w: string, f: string)
    requires AllDigits(w) && AllDigits(f)
    ensures AllDigits(w + f)
    ensures DecimalValue(w, f) == DigitsValue(w + f) as real / Pow10(|f|) as real
  {
    DigitsValueConcat(w, f);
    ScalePoint(DigitsValue(w), DigitsValue(f), Pow10(|f|), DigitsValue(w + f));
  }

  lemma ScalePoint(a: nat, b: nat, p: nat, c: nat)
    requires p >= 1 && c == a * p + b
    ensures a as real + b as real / p as real == c as real / p as real
  {
    var q := p as real;
    assert (a * p) as real == a as real * q;
    assert a as real == (a as real * q) / q;
  }

  /** A signed whole numeral parses to its value, negated by a leading minus. */
  lemma ParseSignedWhole(w: string)
    requires w != [] && AllDigits(w)
    ensures ParseDecimal("-" + w) == Some(-(DigitsValue(w) as real))
    ensures ParseDecimal("+" + w) == Some(DigitsValue(w) as real)
  {
    assert ("-" + w)[1..] == w;
    assert ("+" + w)[1..] == w;
  }
}
