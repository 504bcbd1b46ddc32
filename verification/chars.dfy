/** Character classes of the loose phone pattern, and the `/\D/g` digit filter. */
module Chars {

  /** `\d` in a JavaScript regular expression without the `u` flag: the ASCII digits only. */
  predicate IsDigit(c: char) {
    '0' <= c <= '9'
  }

  /** `\s` in a JavaScript regular expression: the ECMAScript WhiteSpace and LineTerminator code points. */
  predicate IsSpace(c: char) {
    || c == '\t' || c == '\n' || c == '\U{000B}' || c == '\U{000C}' || c == '\r'
    || c == ' ' || c == '\U{00A0}' || c == '\U{1680}'
    || ('\U{2000}' <= c <= '\U{200A}')
    || c == '\U{2028}' || c == '\U{2029}' || c == '\U{202F}' || c == '\U{205F}'
    || c == '\U{3000}' || c == '\U{FEFF}'
  }

  /** The separator class `[\s().-]` of the loose phone pattern. */
  predicate IsSeparator(c: char) {
    IsSpace(c) || c == '(' || c == ')' || c == '.' || c == '-'
  }

  /** No digit is a separator. */
  lemma DigitIsNoSeparator(c: char)
    ensures IsDigit(c) ==> !IsSeparator(c)
  {
  }

  predicate AllDigits(s: string) {
    forall k :: 0 <= k < |s| ==> IsDigit(s[k])
  }

  predicate AllSeparators(s: string) {
    forall k :: 0 <= k < |s| ==> IsSeparator(s[k])
  }

  /** `s.replace(/\D/g, '')`: the digits of `s`, in the order they occur. */
  function Digits(s: string): (r: string)
    ensures AllDigits(r)
    ensures |r| <= |s|
  {
    if |s| == 0 then []
    else (if IsDigit(s[0]) then [s[0]] else []) + Digits(s[1..])
  }

  /** Stripping non-digits works piece by piece. */
  lemma {:induction false} DigitsAppend(a: string, b: string)
    ensures Digits(a + b) == Digits(a) + Digits(b)
    decreases |a|
  {
    if |a| == 0 {
      assert a + b == b;
    } else {
      assert (a + b)[1..] == a[1..] + b;
      DigitsAppend(a[1..], b);
    }
  }

  /** A string is left intact by the filter exactly when it is made of digits only. */
  lemma {:induction false} DigitsIdentity(s: string)
    ensures Digits(s) == s <==> AllDigits(s)
    decreases |s|
  {
    if |s| != 0 {
      DigitsIdentity(s[1..]);
      if !IsDigit(s[0]) {
        assert |Digits(s)| < |s|;
      }
    }
  }

  /** Every character that is not a digit is dropped: a string without digits strips to nothing. */
  lemma {:induction false} DigitsOfNonDigits(s: string)
    requires forall k :: 0 <= k < |s| ==> !IsDigit(s[k])
    ensures Digits(s) == []
    decreases |s|
  {
    if |s| != 0 {
      DigitsOfNonDigits(s[1..]);
    }
  }

  /** A run of separators contributes nothing to the cleaned number. */
  lemma DigitsOfSeparators(s: string)
    requires AllSeparators(s)
    ensures Digits(s) == []
  {
    forall k | 0 <= k < |s|
      ensures !IsDigit(s[k])
    {
      DigitIsNoSeparator(s[k]);
    }
    DigitsOfNonDigits(s);
  }
}
