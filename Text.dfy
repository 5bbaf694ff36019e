/**
 * The string operations the timeline's matching relies on: JavaScript's
 * `String.prototype.toLowerCase` (ASCII letters only), `String.prototype.includes`
 * and `Number.prototype.toString` on integers.
 */
module Text {

  /** Lower-cases one character; only `A`..`Z` change. */
  function LowerChar(c: char): char
  {
    if 'A' <= c <= 'Z' then (c as int + 32) as char else c
  }

  predicate IsUpper(c: char) { 'A' <= c <= 'Z' }

  /** `toLowerCase`: same length, every upper-case ASCII letter lowered, nothing else touched. */
  function ToLower(s: string): (r: string)
    ensures |r| == |s|
    ensures forall i :: 0 <= i < |s| ==> r[i] == LowerChar(s[i])
    ensures forall i :: 0 <= i < |s| ==> !IsUpper(r[i])
    ensures forall i :: 0 <= i < |s| && !IsUpper(s[i]) ==> r[i] == s[i]
  {
    seq(|s|, i requires 0 <= i < |s| => LowerChar(s[i]))
  }

  /** Lower-casing twice is lower-casing once. */
  lemma ToLowerIdempotent(s: string)
    ensures ToLower(ToLower(s)) == ToLower(s)
  {
  }

  /** `pat` occurs in `text` starting at index `i`. */
  ghost predicate OccursAt(text: string, pat: string, i: int)
  {
    0 <= i && i + |pat| <= |text| && text[i..i + |pat|] == pat
  }

  predicate IsPrefix(pat: string, text: string)
  {
    |pat| <= |text| && text[..|pat|] == pat
  }

  /** `String.prototype.includes`: scans `text` from the left for an occurrence of `pat`. */
  predicate Contains(text: string, pat: string)
    decreases |text|
  {
    IsPrefix(pat, text) || (|text| > 0 && Contains(text[1..], pat))
  }

  /** An occurrence at index `i` is found by the left-to-right scan. */
  lemma {:induction false} OccursContains(text: string, pat: string, i: int)
    requires OccursAt(text, pat, i)
    ensures Contains(text, pat)
    decreases i
  {
    if i > 0 {
      assert text[1..][i - 1..i - 1 + |pat|] == text[i..i + |pat|];
      OccursContains(text[1..], pat, i - 1);
    }
  }

  /** What the scan finds is an occurrence at some index. */
  lemma {:induction false} ContainsOccurs(text: string, pat: string)
    requires Contains(text, pat)
    ensures exists i :: OccursAt(text, pat, i)
    decreases |text|
  {
    if IsPrefix(pat, text) {
      assert OccursAt(text, pat, 0);
    } else {
      ContainsOccurs(text[1..], pat);
      var i :| OccursAt(text[1..], pat, i);
      assert text[i + 1..i + 1 + |pat|] == text[1..][i..i + |pat|];
      assert OccursAt(text, pat, i + 1);
    }
  }

  /** `Contains` holds exactly when `pat` occurs at some index of `text`. */
  lemma ContainsIff(text: string, pat: string)
    ensures Contains(text, pat) <==> exists i :: OccursAt(text, pat, i)
  {
    if Contains(text, pat) {
      ContainsOccurs(text, pat);
    }
    if i :| OccursAt(text, pat, i) {
      OccursContains(text, pat, i);
    }
  }

  /** Every string contains itself, the empty string, and each of its substrings. */
  lemma ContainsSlice(text: string, i: nat, j: nat)
    requires i <= j <= |text|
    ensures Contains(text, text[i..j])
  {
    OccursContains(text, text[i..j], i);
  }

  /** A text without the pattern's first character does not contain the pattern. */
  lemma {:induction false} MissingFirstChar(text: string, pat: string)
    requires |pat| > 0 && pat[0] !in text
    ensures !Contains(text, pat)
    decreases |text|
  {
    if |text| > 0 {
      assert text[1..] == text[1..] && forall c :: c in text[1..] ==> c in text;
      MissingFirstChar(text[1..], pat);
    }
  }

  /** Between strings of equal length, containment is equality. */
  lemma ContainsSameLength(text: string, pat: string)
    requires |text| == |pat|
    ensures Contains(text, pat) <==> text == pat
  {
    ContainsIff(text, pat);
    if text == pat {
      assert OccursAt(text, pat, 0);
    }
  }

  /** Lower-casing neither creates nor removes a digit. */
  lemma ToLowerKeepsDigit(s: string, c: char)
    requires IsDigit(c)
    ensures c in ToLower(s) <==> c in s
  {
    if c in s {
      var i :| 0 <= i < |s| && s[i] == c;
      assert ToLower(s)[i] == c;
    }
  }

  function DigitChar(d: nat): char
    requires d < 10
  {
    ('0' as int + d) as char
  }

  predicate IsDigit(c: char) { '0' <= c <= '9' }

  /** The decimal digits of a natural number: non-empty, all digits, no leading zero. */
  function Digits(n: nat): (r: string)
    ensures |r| > 0
    ensures forall i :: 0 <= i < |r| ==> IsDigit(r[i])
    ensures |r| > 1 ==> r[0] != '0'
    ensures n < 10 <==> |r| == 1
  {
    if n < 10 then [DigitChar(n)] else Digits(n / 10) + [DigitChar(n % 10)]
  }

  /** `Number.prototype.toString()` on an integer: an optional minus sign, then the digits. */
  function DecimalString(n: int): (r: string)
    ensures |r| > 0
    ensures n < 0 <==> r[0] == '-'
  {
    if n < 0 then "-" + Digits(-n) else Digits(n)
  }

  /** The value of a string of decimal digits. */
  function DigitsValue(s: string): int
  {
    if s == [] then 0 else DigitsValue(s[..|s| - 1]) * 10 + (s[|s| - 1] as int - '0' as int)
  }

  /** Reads back what `DecimalString` writes. */
  function ParseDecimal(s: string): int
  {
    if |s| > 0 && s[0] == '-' then -DigitsValue(s[1..]) else DigitsValue(s)
  }

  lemma {:induction false} DigitsRoundTrip(n: nat)
    ensures DigitsValue(Digits(n)) == n
  {
    if n >= 10 {
      DigitsRoundTrip(n / 10);
      var s := Digits(n / 10) + [DigitChar(n % 10)];
      assert s[..|s| - 1] == Digits(n / 10);
    }
  }

  /** Rendering an integer in decimal loses nothing: parsing it back gives the integer. */
  lemma DecimalRoundTrip(n: int)
    ensures ParseDecimal(DecimalString(n)) == n
  {
    if n < 0 {
      DigitsRoundTrip(-n);
      assert DecimalString(n)[1..] == Digits(-n);
    } else {
      DigitsRoundTrip(n);
    }
  }

  /** Distinct years render as distinct strings. */
  lemma DecimalStringInjective(a: int, b: int)
    requires DecimalString(a) == DecimalString(b)
    ensures a == b
  {
    DecimalRoundTrip(a);
    DecimalRoundTrip(b);
  }
}
