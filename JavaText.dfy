/**
 * The java.lang.String and Spring StringUtils operations the service relies on.
 * Java has two different notions of "blank": String.trim() strips every
 * character whose code is at most U+0020, while String.isBlank() and
 * StringUtils.hasText use Character.isWhitespace.  Both are modelled, and they
 * disagree (U+0000 is trimmed but is not whitespace; U+3000 is whitespace but
 * is not trimmed).
 */
module JavaText {
  import opened Wrappers

  /** The characters String.trim() removes from either end. */
  predicate IsTrimmable(c: char) { c <= ' ' }

  /** A string that String.trim() leaves alone. */
  predicate IsTrimmed(s: string) {
    s == [] || (!IsTrimmable(s[0]) && !IsTrimmable(s[|s| - 1]))
  }

  function TrimLeading(s: string): (r: string)
    ensures |r| <= |s|
    ensures r == [] || !IsTrimmable(r[0])
  {
    if s != [] && IsTrimmable(s[0]) then TrimLeading(s[1..]) else s
  }

  function TrimTrailing(s: string): (r: string)
    ensures |r| <= |s|
    ensures r == [] || !IsTrimmable(r[|r| - 1])
  {
    if s != [] && IsTrimmable(s[|s| - 1]) then TrimTrailing(s[..|s| - 1]) else s
  }

  /** What TrimLeading removes is a run of trimmable characters at the front. */
  lemma {:induction false} TrimLeadingSuffix(s: string)
    ensures TrimLeading(s) == s[|s| - |TrimLeading(s)|..]
    ensures forall i :: 0 <= i < |s| - |TrimLeading(s)| ==> IsTrimmable(s[i])
  {
    if s != [] && IsTrimmable(s[0]) {
      TrimLeadingSuffix(s[1..]);
    }
  }

  /** What TrimTrailing removes is a run of trimmable characters at the back. */
  lemma {:induction false} TrimTrailingPrefix(s: string)
    ensures TrimTrailing(s) == s[..|TrimTrailing(s)|]
    ensures forall i :: |TrimTrailing(s)| <= i < |s| ==> IsTrimmable(s[i])
  {
    if s != [] && IsTrimmable(s[|s| - 1]) {
      TrimTrailingPrefix(s[..|s| - 1]);
    }
  }

  /** String.trim(): the longest infix that neither starts nor ends with a trimmable character. */
  function Trim(s: string): (r: string)
    ensures IsTrimmed(r)
    ensures |r| <= |s|
  {
    TrimTrailingPrefix(TrimLeading(s));
    TrimTrailing(TrimLeading(s))
  }

  lemma TrimOfTrimmed(s: string)
    requires IsTrimmed(s)
    ensures Trim(s) == s
  {
  }

  /** Trimming twice is trimming once. */
  lemma TrimIdempotent(s: string)
    ensures Trim(Trim(s)) == Trim(s)
  {
    TrimOfTrimmed(Trim(s));
  }

  /** String.trim().isEmpty() holds exactly when every character is trimmable. */
  lemma TrimEmptyIff(s: string)
    ensures Trim(s) == [] <==> forall i :: 0 <= i < |s| ==> IsTrimmable(s[i])
  {
    var t := TrimLeading(s);
    TrimLeadingSuffix(s);
    TrimTrailingPrefix(t);
    if t != [] {
      assert !IsTrimmable(s[|s| - |t|]);
    }
  }

  /** The UTF-16 code units one character takes: a character beyond the Basic
      Multilingual Plane is written as a surrogate pair. */
  function Utf16Units(c: char): (n: nat)
    ensures n == 1 || n == 2
  {
    if c as int >= 0x1_0000 then 2 else 1
  }

  /** String.length(): the number of UTF-16 code units, not of characters. */
  function Utf16Length(s: string): (n: nat)
    ensures |s| <= n <= 2 * |s|
  {
    if s == [] then 0 else Utf16Length(s[..|s| - 1]) + Utf16Units(s[|s| - 1])
  }

  /** String.length() counts two for a character beyond U+FFFF, one for any other. */
  lemma {:induction false} Utf16LengthCounts(s: string)
    ensures Utf16Length(s) == |s| + |set i | 0 <= i < |s| && s[i] as int >= 0x1_0000|
  {
    var wide := set i | 0 <= i < |s| && s[i] as int >= 0x1_0000;
    if s != [] {
      var t := s[..|s| - 1];
      var wideT := set i | 0 <= i < |t| && t[i] as int >= 0x1_0000;
      Utf16LengthCounts(t);
      if s[|s| - 1] as int >= 0x1_0000 {
        assert wide == wideT + {|t|};
      } else {
        assert wide == wideT;
      }
    }
  }

  /** Character.isWhitespace:the Unicode space separators other than the no-break
      spaces, the line and paragraph separators, and U+0009-U+000D, U+001C-U+001F. */
  predicate IsWhitespace(c: char) {
    || ('\t' <= c <= '\r')
    || ('\U{1C}' <= c <= ' ')
    || c == '\U{1680}'
    || ('\U{2000}' <= c <= '\U{2006}')
    || ('\U{2008}' <= c <= '\U{200A}')
    || c == '\U{2028}' || c == '\U{2029}' || c == '\U{205F}' || c == '\U{3000}'
  }

  /** String.isBlank(). */
  predicate IsBlank(s: string) {
    forall i :: 0 <= i < |s| ==> IsWhitespace(s[i])
  }

  /** StringUtils.hasText: not null and not blank. */
  predicate HasText(s: Option<string>) {
    s.Some? && !IsBlank(s.value)
  }

  /** The case mapping of String.toLowerCase, restricted to ASCII letters. */
  function LowerChar(c: char): char {
    if 'A' <= c <= 'Z' then (c as int + 32) as char else c
  }

  function ToLower(s: string): string {
    seq(|s|, i requires 0 <= i < |s| => LowerChar(s[i]))
  }

  /** Lower-casing twice is lower-casing once. */
  lemma ToLowerIdempotent(s: string)
    ensures ToLower(ToLower(s)) == ToLower(s)
  {
  }

  /** Lower-casing changes no whitespace character and makes none, so it keeps
      StringUtils.hasText. */
  lemma HasTextLower(s: string)
    ensures HasText(Some(ToLower(s))) <==> HasText(Some(s))
  {
    assert forall i :: 0 <= i < |s| ==> (IsWhitespace(ToLower(s)[i]) <==> IsWhitespace(s[i]));
  }

  /** Lower-casing does not move the ends that String.trim() looks at. */
  lemma {:induction false} TrimLeadingLower(s: string)
    ensures TrimLeading(ToLower(s)) == ToLower(TrimLeading(s))
  {
    if s != [] {
      assert ToLower(s)[1..] == ToLower(s[1..]);
      if IsTrimmable(s[0]) {
        TrimLeadingLower(s[1..]);
      }
    }
  }

  lemma {:induction false} TrimTrailingLower(s: string)
    ensures TrimTrailing(ToLower(s)) == ToLower(TrimTrailing(s))
  {
    if s != [] {
      assert ToLower(s)[..|s| - 1] == ToLower(s[..|s| - 1]);
      if IsTrimmable(s[|s| - 1]) {
        TrimTrailingLower(s[..|s| - 1]);
      }
    }
  }

  lemma TrimLower(s: string)
    ensures Trim(ToLower(s)) == ToLower(Trim(s))
    ensures |Trim(ToLower(s))| == |Trim(s)|
  {
    TrimLeadingLower(s);
    TrimTrailingLower(TrimLeading(s));
  }

  /** String.contains: does t occur in s? */
  function Contains(s: string, t: string): bool {
    if t <= s then true
    else if s == [] then false
    else Contains(s[1..], t)
  }

  /** t occurs in s starting at position k. */
  predicate OccursAt(s: string, t: string, k: int) {
    0 <= k <= |s| - |t| && s[k..k + |t|] == t
  }

  /** Contains agrees with the definition of an occurrence by position. */
  lemma {:induction false} ContainsIffOccurs(s: string, t: string)
    ensures Contains(s, t) <==> exists k :: OccursAt(s, t, k)
  {
    if t <= s {
      assert OccursAt(s, t, 0);
    } else if s != [] {
      ContainsIffOccurs(s[1..], t);
      if Contains(s[1..], t) {
        var k :| OccursAt(s[1..], t, k);
        assert OccursAt(s, t, k + 1);
      } else {
        forall k | OccursAt(s, t, k)
          ensures OccursAt(s[1..], t, k - 1)
        {
          OccursLater(s, t, k);
        }
      }
    }
  }

  /** When t is not a prefix of s, every occurrence of t in s is one in s[1..], shifted. */
  lemma OccursLater(s: string, t: string, k: int)
    requires !(t <= s) && OccursAt(s, t, k)
    ensures s != [] && k > 0 && OccursAt(s[1..], t, k - 1)
  {
    OccursAtStart(s, t);
    assert s[1..][k - 1..k - 1 + |t|] == s[k..k + |t|];
  }

  /** An occurrence at position 0 is a prefix. */
  lemma OccursAtStart(s: string, t: string)
    ensures OccursAt(s, t, 0) ==> t <= s
  {
    if OccursAt(s, t, 0) {
      assert s[..|t|] == t;
    }
  }

  /** String.equalsIgnoreCase, with a null argument never equal. */
  predicate EqualsIgnoreCase(a: string, b: Option<string>) {
    b.Some? && |a| == |b.value| && ToLower(a) == ToLower(b.value)
  }
}

/** Decimal digit strings, as LocalDate and Double read and write them. */
module Decimal {

  predicate IsDigit(c: char) { '0' <= c <= '9' }

  predicate AllDigits(s: string) {
    forall i :: 0 <= i < |s| ==> IsDigit(s[i])
  }

  function DigitValue(c: char): int
    requires IsDigit(c)
  {
    c as int - '0' as int
  }

  function DigitChar(n: int): (c: char)
    requires 0 <= n <= 9
    ensures IsDigit(c) && DigitValue(c) == n
  {
    ('0' as int + n) as char
  }

  /** The number a string of decimal digits denotes (most significant first). */
  function DigitsValue(s: string): (n: nat)
    requires AllDigits(s)
  {
    if s == [] then 0 else DigitsValue(s[..|s| - 1]) * 10 + DigitValue(s[|s| - 1])
  }

  function Pow10(n: nat): (p: nat)
    ensures p >= 1
  {
    if n == 0 then 1 else 10 * Pow10(n - 1)
  }

  /** n written with exactly `width` digits, zero-padded on the left. */
  function Padded(n: nat, width: nat): (s: string)
    ensures |s| == width && AllDigits(s)
  {
    if width == 0 then [] else Padded(n / 10, width - 1) + [DigitChar(n % 10)]
  }

  /** n written with as few digits as possible (Long.toString of a non-negative value). */
  function Digits(n: nat): (s: string)
    ensures |s| >= 1 && AllDigits(s)
  {
    if n < 10 then [DigitChar(n)] else Digits(n / 10) + [DigitChar(n % 10)]
  }

  /** Reading back a zero-padded number gives the number, when it fits the width. */
  lemma {:induction false} PaddedValue(n: nat, width: nat)
    requires n < Pow10(width)
    ensures DigitsValue(Padded(n, width)) == n
  {
    if width > 0 {
      var s := Padded(n, width);
      assert s[..|s| - 1] == Padded(n / 10, width - 1);
      PaddedValue(n / 10, width - 1);
    }
  }

  lemma {:induction false} DigitsValueOfDigits(n: nat)
    ensures DigitsValue(Digits(n)) == n
  {
    if n >= 10 {
      var s := Digits(n);
      assert s[..|s| - 1] == Digits(n / 10);
      DigitsValueOfDigits(n / 10);
    }
  }

  /** The value of a concatenation of digit strings. */
  lemma {:induction false} DigitsValueAppend(a: string, b: string)
    requires AllDigits(a) && AllDigits(b)
    ensures AllDigits(a + b)
    ensures DigitsValue(a + b) == DigitsValue(a) * Pow10(|b|) + DigitsValue(b)
  {
    if b != [] {
      var ab, b' := a + b, b[..|b| - 1];
      assert ab[..|ab| - 1] == a + b';
      assert ab[|ab| - 1] == b[|b| - 1];
      DigitsValueAppend(a, b');
      var x, p, y, d := DigitsValue(a), Pow10(|b'|), DigitsValue(b'), DigitValue(b[|b| - 1]);
      assert DigitsValue(ab) == (x * p + y) * 10 + d;
      assert DigitsValue(b) == y * 10 + d;
      assert Pow10(|b|) == 10 * p;
      ShiftDigit(x, p, y, d);
    } else {
      assert a + b == a;
    }
  }

  lemma ShiftDigit(x: int, p: int, y: int, d: int)
    ensures (x * p + y) * 10 + d == x * (10 * p) + (y * 10 + d)
  {
  }
}
