/**
 * Double.parseDouble for decimal text, with the value taken exactly as a real:
 * optional sign, digits with an optional decimal point, an optional exponent
 * and an optional float/double suffix, after String.trim().
 */
module JavaNumbers {
  import opened Wrappers
  import opened JavaText
  import opened Decimal

  /** The length of the run of digits at the start of s. */
  function DigitRun(s: string): (n: nat)
    ensures n <= |s| && AllDigits(s[..n])
    ensures n < |s| ==> !IsDigit(s[n])
  {
    if s != [] && IsDigit(s[0]) then
      var n := 1 + DigitRun(s[1..]);
      assert s[..n] == [s[0]] + s[1..][..n - 1];
      n
    else 0
  }

  /** A run of digits followed by a non-digit is measured exactly. */
  lemma {:induction false} DigitRunOfDigits(a: string, b: string)
    requires AllDigits(a)
    requires b == [] || !IsDigit(b[0])
    ensures DigitRun(a + b) == |a|
  {
    if a != [] {
      assert (a + b)[1..] == a[1..] + b;
      DigitRunOfDigits(a[1..], b);
    } else {
      assert a + b == b;
    }
  }

  /** 10 to the power e, for any integer e. */
  function Scale(e: int): (r: real)
    ensures r > 0.0
  {
    if e >= 0 then Pow10(e) as real else 1.0 / Pow10(-e) as real
  }

  /** The optional exponent part [eE][+-]digits: its value and the text after it,
      or None when an exponent marker is not followed by digits. */
  function Exponent(s: string): Option<(int, string)> {
    if s != [] && (s[0] == 'e' || s[0] == 'E') then
      var t := s[1..];
      var negative := t != [] && t[0] == '-';
      var u := if t != [] && (t[0] == '+' || t[0] == '-') then t[1..] else t;
      var n := DigitRun(u);
      if n == 0 then None
      else
        var v: int := DigitsValue(u[..n]);
        Some((if negative then -v else v, u[n..]))
    else Some((0, s))
  }

  predicate IsFloatSuffix(s: string) {
    s == [] || s == "f" || s == "F" || s == "d" || s == "D"
  }

  /** The decimal forms of Double.parseDouble, after trimming; None where Java
      throws NumberFormatException. */
  function ParseDouble(text: string): Option<real> {
    var t := Trim(text);
    if t != [] && (t[0] == '+' || t[0] == '-') then
      match ParseUnsigned(t[1..])
      case None => None
      case Some(m) => Some(if t[0] == '-' then -m else m)
    else ParseUnsigned(t)
  }

  /** Digits, then an optional point and more digits, then the rest. */
  function ParseUnsigned(u: string): Option<real> {
    var i := DigitRun(u);
    var rest := u[i..];
    if rest != [] && rest[0] == '.' then
      var f := DigitRun(rest[1..]);
      ParseNumber(u[..i], rest[1..][..f], rest[1..][f..])
    else ParseNumber(u[..i], [], rest)
  }

  /** The value of whole.fraction, scaled by the exponent that follows it; at
      least one digit is required on one side of the point. */
  function ParseNumber(whole: string, fraction: string, tail: string): Option<real>
    requires AllDigits(whole) && AllDigits(fraction)
  {
    if |whole| + |fraction| == 0 then None
    else
      match Exponent(tail)
      case None => None
      case Some((e, suffix)) =>
        if !IsFloatSuffix(suffix) then None
        else
          DigitsValueAppend(whole, fraction);
          Some(DigitsValue(whole + fraction) as real / Pow10(|fraction|) as real * Scale(e))
  }

  /** An amount of whole cents in plain notation, e.g. 123456 as "1234.56". */
  function CentsText(cents: nat): string {
    Digits(cents / 100) + "." + Padded(cents % 100, 2)
  }

  /** Every amount of whole cents written in plain notation parses to itself. */
  lemma ParseCentsText(cents: nat)
    ensures ParseDouble(CentsText(cents)) == Some(cents as real / 100.0)
  {
    var s, w, fr := CentsText(cents), Digits(cents / 100), Padded(cents % 100, 2);
    assert IsTrimmed(s) by {
      assert s[0] == w[0] && IsDigit(w[0]);
      assert s[|s| - 1] == fr[1] && IsDigit(fr[1]);
    }
    TrimOfTrimmed(s);
    PointSplit(w, fr);
    CentsValue(cents);
  }

  lemma PointSplit(w: string, fr: string)
    requires AllDigits(w) && AllDigits(fr) && |w| >= 1
    ensures ParseUnsigned(w + "." + fr) == ParseNumber(w, fr, [])
  {
    var s := w + "." + fr;
    assert s == w + ("." + fr);
    DigitRunOfDigits(w, "." + fr);
    assert s[..|w|] == w && s[|w|..] == "." + fr;
    var after := s[|w|..][1..];
    assert after == fr + [];
    DigitRunOfDigits(fr, []);
    assert after[..|fr|] == fr && after[|fr|..] == [];
  }

  lemma CentsValue(cents: nat)
    ensures ParseNumber(Digits(cents / 100), Padded(cents % 100, 2), []) == Some(cents as real / 100.0)
  {
    var w, fr := Digits(cents / 100), Padded(cents % 100, 2);
    DigitsValueAppend(w, fr);
    DigitsValueOfDigits(cents / 100);
    PaddedValue(cents % 100, 2);
    assert Pow10(2) == 100;
    var q, r := cents / 100, cents % 100;
    assert DigitsValue(w + fr) == q * 100 + r;
    assert q * 100 + r == cents;
    assert Exponent([]) == Some((0, []));
    assert Scale(0) == 1.0;
  }
}
