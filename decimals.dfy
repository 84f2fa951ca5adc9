/** Numbers as the stages read them with Python's float(): surrounding
    whitespace, an optional sign, decimal digits with at most one point and at
    least one digit. The value is kept exactly, as units / 10^places. */
module Decimals {
  import opened Text
  import opened Tables

  datatype Decimal = Decimal(units: int, places: nat)

  function Pow10(n: nat): (r: nat)
    ensures r >= 1
  {
    if n == 0 then 1 else 10 * Pow10(n - 1)
  }

  predicate AllDigits(s: string) {
    forall i :: 0 <= i < |s| ==> IsDigit(s[i])
  }

  function DigitValue(c: char): nat
    requires IsDigit(c)
  {
    c as int - '0' as int
  }

  function DigitChar(n: nat): (c: char)
    requires n < 10
    ensures IsDigit(c) && DigitValue(c) == n
  {
    ('0' as int + n) as char
  }

  /** The number a string of decimal digits denotes (most significant first). */
  function DigitsValue(s: string): nat
    requires AllDigits(s)
  {
    if s == [] then 0 else 10 * DigitsValue(s[..|s| - 1]) + DigitValue(s[|s| - 1])
  }

  /** float() on the digits and point that remain after the sign. */
  function ParseUnsigned(body: string): Option<Decimal> {
    if '.' in body then
      var i := IndexOf(body, '.');
      var whole, frac := body[..i], body[i + 1..];
      if AllDigits(whole) && AllDigits(frac) && |whole| + |frac| > 0
      then Some(Decimal(DigitsValue(whole + frac), |frac|))
      else None
    else if body != [] && AllDigits(body) then Some(Decimal(DigitsValue(body), 0))
    else None
  }

  /** float(s): None where Python raises ValueError. Surrounding whitespace in
      C's sense is ignored; the separators \x1c to \x1f, which str.strip()
      would drop, make float() raise. */
  function ParseNumber(s: string): Option<Decimal> {
    ParseTrimmed(Trim(IsCSpace, s))
  }

  /** float() on stripped text: an optional sign, then the unsigned number. */
  function ParseTrimmed(t: string): Option<Decimal> {
    var signed := t != [] && (t[0] == '-' || t[0] == '+');
    var magnitude := ParseUnsigned(if signed then t[1..] else t);
    if magnitude.None? then None
    else if signed && t[0] == '-' then Some(Decimal(-magnitude.value.units, magnitude.value.places))
    else magnitude
  }

  /** The value of d is greater than the integer n. */
  predicate GreaterThan(d: Decimal, n: int) {
    d.units > n * Pow10(d.places)
  }

  /** The number d stands for. */
  function Value(d: Decimal): real {
    d.units as real / Pow10(d.places) as real
  }

  /** The integer comparison agrees with comparing the values. */
  lemma GreaterThanValue(d: Decimal, n: int)
    ensures GreaterThan(d, n) <==> Value(d) > n as real
  {
    var p := Pow10(d.places) as real;
    assert Value(d) * p == d.units as real;
    assert (n * Pow10(d.places)) as real == n as real * p;
    if Value(d) > n as real {
      assert Value(d) * p > n as real * p;
    } else {
      assert Value(d) * p <= n as real * p;
    }
  }

  /** Shortest digit string of n ("0" for zero). */
  function Digits(n: nat): (s: string)
    ensures s != [] && AllDigits(s)
  {
    if n < 10 then [DigitChar(n)] else Digits(n / 10) + [DigitChar(n % 10)]
  }

  function Zeros(k: nat): (s: string)
    ensures |s| == k && AllDigits(s)
  {
    if k == 0 then [] else Zeros(k - 1) + ['0']
  }

  /** The digits of |units|, zero-padded so that at least one digit precedes the point. */
  function PaddedDigits(d: Decimal): (s: string)
    ensures |s| > d.places && AllDigits(s)
  {
    var n := if d.units < 0 then -d.units else d.units;
    var ds := Digits(n);
    if |ds| > d.places then ds else Zeros(d.places + 1 - |ds|) + ds
  }

  /** Digits of |units| with the point placed d.places digits from the right. */
  function MagnitudeText(d: Decimal): (s: string)
    ensures s != [] && IsDigit(s[0]) && IsDigit(s[|s| - 1])
  {
    var ds := PaddedDigits(d);
    if d.places == 0 then ds else ds[..|ds| - d.places] + "." + ds[|ds| - d.places..]
  }

  /** Canonical text of d: sign, digits, and exactly d.places digits after the point. */
  function Show(d: Decimal): string {
    (if d.units < 0 then "-" else "") + MagnitudeText(d)
  }

  lemma AllDigitsAppend(a: string, b: string)
    requires AllDigits(a) && AllDigits(b)
    ensures AllDigits(a + b)
  {
    forall i | 0 <= i < |a + b| ensures IsDigit((a + b)[i]) {
      if i < |a| { assert (a + b)[i] == a[i]; } else { assert (a + b)[i] == b[i - |a|]; }
    }
  }

  lemma NoNonDigitInDigits(s: string, c: char)
    requires AllDigits(s) && !IsDigit(c)
    ensures c !in s
  {
    forall i | 0 <= i < |s| ensures s[i] != c {
      assert IsDigit(s[i]);
    }
  }

  lemma {:induction false} DigitsValueAppend(a: string, b: string)
    requires AllDigits(a) && AllDigits(b)
    ensures AllDigits(a + b)
    ensures DigitsValue(a + b) == DigitsValue(a) * Pow10(|b|) + DigitsValue(b)
  {
    AllDigitsAppend(a, b);
    if b == [] {
      assert a + b == a;
    } else {
      var b', last := b[..|b| - 1], b[|b| - 1];
      var ab := a + b;
      DigitsValueAppend(a, b');
      assert ab[..|ab| - 1] == a + b';
      assert ab[|ab| - 1] == last;
      assert b[..|b| - 1] == b';
      ShiftDigit(DigitsValue(a), Pow10(|b'|), DigitsValue(b'), DigitValue(last));
    }
  }

  lemma ZeroScaled(a: int, b: int)
    requires a == 0
    ensures a * b == 0
  {
  }

  lemma ShiftDigit(va: int, p: int, vb: int, d: int)
    ensures 10 * (va * p + vb) + d == va * (10 * p) + (10 * vb + d)
  {
  }

  lemma {:induction false} DigitsValueOfDigits(n: nat)
    ensures DigitsValue(Digits(n)) == n
  {
    if n >= 10 {
      DigitsValueOfDigits(n / 10);
      assert Digits(n)[..|Digits(n)| - 1] == Digits(n / 10);
    }
  }

  lemma {:induction false} DigitsValueOfZeros(k: nat)
    ensures DigitsValue(Zeros(k)) == 0
  {
    if k > 0 {
      DigitsValueOfZeros(k - 1);
      assert Zeros(k)[..k - 1] == Zeros(k - 1);
    }
  }

  lemma PaddedDigitsValue(d: Decimal)
    ensures DigitsValue(PaddedDigits(d)) == if d.units < 0 then -d.units else d.units
  {
    var n := if d.units < 0 then -d.units else d.units;
    var ds := Digits(n);
    DigitsValueOfDigits(n);
    if |ds| <= d.places {
      var zs := Zeros(d.places + 1 - |ds|);
      assert PaddedDigits(d) == zs + ds;
      DigitsValueOfZeros(d.places + 1 - |ds|);
      DigitsValueAppend(zs, ds);
      ZeroScaled(DigitsValue(zs), Pow10(|ds|));
    } else {
      assert PaddedDigits(d) == ds;
    }
  }

  /** The unsigned text of Show parses back to the magnitude of d. */
  lemma ParseUnsignedOfShow(d: Decimal)
    ensures ParseUnsigned(MagnitudeText(d)) == Some(Decimal(if d.units < 0 then -d.units else d.units, d.places))
  {
    var ds := PaddedDigits(d);
    PaddedDigitsValue(d);
    if d.places == 0 {
      ParseUnsignedDigits(ds);
    } else {
      ParseUnsignedAtPlace(ds, d.places);
    }
  }

  /** A point placed p digits from the right of a digit string scales it by 10^p. */
  lemma ParseUnsignedAtPlace(ds: string, p: nat)
    requires AllDigits(ds) && |ds| > p > 0
    ensures ParseUnsigned(ds[..|ds| - p] + "." + ds[|ds| - p..]) == Some(Decimal(DigitsValue(ds), p))
  {
    DigitsAround(ds, |ds| - p);
    ParseUnsignedPoint(ds[..|ds| - p], ds[|ds| - p..]);
  }

  /** Both sides of a cut through a digit string are digit strings. */
  lemma DigitsAround(ds: string, k: nat)
    requires AllDigits(ds) && k <= |ds|
    ensures AllDigits(ds[..k]) && AllDigits(ds[k..]) && ds[..k] + ds[k..] == ds
  {
    assert forall i :: 0 <= i < |ds| - k ==> ds[k..][i] == ds[k + i];
  }

  /** Digits without a point are read as a whole number. */
  lemma ParseUnsignedDigits(ds: string)
    requires ds != [] && AllDigits(ds)
    ensures ParseUnsigned(ds) == Some(Decimal(DigitsValue(ds), 0))
  {
    NoNonDigitInDigits(ds, '.');
  }

  /** Digits around one point are read as their digits scaled by the digits after the point. */
  lemma ParseUnsignedPoint(whole: string, frac: string)
    requires AllDigits(whole) && AllDigits(frac) && |whole| + |frac| > 0
    ensures ParseUnsigned(whole + "." + frac) == Some(Decimal(DigitsValue(whole + frac), |frac|))
  {
    NoNonDigitInDigits(whole, '.');
    IndexOfAfterPrefix(whole, '.', frac);
  }

  /** Reading the canonical text of a number gives the number back. */
  lemma ParseShow(d: Decimal)
    ensures ParseNumber(Show(d)) == Some(d)
  {
    var body := MagnitudeText(d);
    ShowUntrimmed(d);
    TrimUntrimmed(IsCSpace, Show(d));
    ParseUnsignedOfShow(d);
    if d.units < 0 {
      ParseNegative(body, Decimal(-d.units, d.places));
      assert Show(d) == "-" + body;
    } else {
      ParseUnsignedText(body, d);
      assert Show(d) == body;
    }
  }

  /** Text that starts with a digit is read without a sign. */
  lemma ParseUnsignedText(t: string, m: Decimal)
    requires t != [] && IsDigit(t[0]) && ParseUnsigned(t) == Some(m)
    ensures ParseTrimmed(t) == Some(m)
  {
  }

  /** A leading minus sign negates the number after it. */
  lemma ParseNegative(t: string, m: Decimal)
    requires ParseUnsigned(t) == Some(m)
    ensures ParseTrimmed("-" + t) == Some(Decimal(-m.units, m.places))
  {
    assert ("-" + t)[1..] == t;
  }

  /** The canonical text is digits, at most one point and a leading minus sign:
      no other character, a comma in particular, occurs in it. */
  lemma ShowAlphabet(d: Decimal, c: char)
    requires !IsDigit(c) && c != '.' && c != '-'
    ensures c !in Show(d)
  {
    var ds := PaddedDigits(d);
    NoNonDigitInDigits(ds, c);
    if d.places > 0 {
      var k := |ds| - d.places;
      NoNonDigitInDigits(ds[..k], c);
      NoNonDigitInDigits(ds[k..], c);
    }
  }

  /** The canonical text has no surrounding whitespace. */
  lemma ShowUntrimmed(d: Decimal)
    ensures var s := Show(d); s != [] && !IsSpace(s[0]) && !IsSpace(s[|s| - 1])
  {
    var m := MagnitudeText(d);
    if d.units < 0 {
      assert Show(d)[|Show(d)| - 1] == m[|m| - 1];
    }
  }
}
