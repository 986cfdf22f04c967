/** ASCII character classes and the byte-wise case mapping of PHP's
    `strtoupper` / `strtolower` and of PCRE's caseless matching. */
module Ascii {

  predicate IsDigit(c: char) { '0' <= c <= '9' }

  predicate IsUpperLetter(c: char) { 'A' <= c <= 'Z' }

  predicate IsLowerLetter(c: char) { 'a' <= c <= 'z' }

  predicate IsLetter(c: char) { IsUpperLetter(c) || IsLowerLetter(c) }

  predicate IsAlphanumeric(c: char) { IsDigit(c) || IsLetter(c) }

  function UpperChar(c: char): char
  {
    if IsLowerLetter(c) then (c as int - 32) as char else c
  }

  function LowerChar(c: char): char
  {
    if IsUpperLetter(c) then (c as int + 32) as char else c
  }

  /** `strtoupper`: maps every ASCII lower-case letter to upper case. */
  function ToUpper(s: string): (r: string)
    ensures |r| == |s|
    ensures forall i :: 0 <= i < |s| ==> r[i] == UpperChar(s[i])
  {
    seq(|s|, i requires 0 <= i < |s| => UpperChar(s[i]))
  }

  /** `strtolower`: maps every ASCII upper-case letter to lower case. */
  function ToLower(s: string): (r: string)
    ensures |r| == |s|
    ensures forall i :: 0 <= i < |s| ==> r[i] == LowerChar(s[i])
  {
    seq(|s|, i requires 0 <= i < |s| => LowerChar(s[i]))
  }

  predicate AllDigits(s: string)
  {
    forall i :: 0 <= i < |s| ==> IsDigit(s[i])
  }

  /** Every character is an upper-case ASCII letter. */
  predicate IsUpperWord(s: string)
  {
    forall i :: 0 <= i < |s| ==> IsUpperLetter(s[i])
  }

  /** Two strings are equal once both are folded to upper case. */
  predicate EqualsIgnoringCase(a: string, b: string)
  {
    |a| == |b| && forall i :: 0 <= i < |a| ==> UpperChar(a[i]) == UpperChar(b[i])
  }

  /** `s` starts with `prefix`, compared without regard to case. */
  predicate StartsWithIgnoringCase(s: string, prefix: string)
  {
    |prefix| <= |s| && EqualsIgnoringCase(s[..|prefix|], prefix)
  }

  lemma UpperOfLower(c: char)
    ensures UpperChar(LowerChar(c)) == UpperChar(c)
    ensures LowerChar(UpperChar(c)) == LowerChar(c)
  {
  }

  /** Folding to upper case ignores which case the input was written in. */
  lemma {:induction false} UpperAfterLower(s: string)
    ensures ToUpper(ToLower(s)) == ToUpper(s)
    ensures ToLower(ToUpper(s)) == ToLower(s)
  {
    forall i | 0 <= i < |s|
      ensures ToUpper(ToLower(s))[i] == ToUpper(s)[i]
      ensures ToLower(ToUpper(s))[i] == ToLower(s)[i]
    {
      UpperOfLower(s[i]);
    }
  }

  lemma UpperWordIsFixed(s: string)
    requires IsUpperWord(s)
    ensures ToUpper(s) == s
  {
  }

  /** Comparing without regard to case is comparing the upper-case forms. */
  lemma EqualsIgnoringCaseIsUpperEquality(a: string, b: string)
    ensures EqualsIgnoringCase(a, b) <==> ToUpper(a) == ToUpper(b)
  {
    if ToUpper(a) == ToUpper(b) {
      assert |a| == |b|;
      forall i | 0 <= i < |a| ensures UpperChar(a[i]) == UpperChar(b[i]) {
        assert ToUpper(a)[i] == ToUpper(b)[i];
      }
    }
  }

  /** Against a string without letters, comparing without regard to case is
      plain equality. */
  lemma CaselessWithoutLetters(u: string, w: string)
    requires forall i :: 0 <= i < |w| ==> !IsLetter(w[i])
    ensures EqualsIgnoringCase(u, w) <==> u == w
  {
    if EqualsIgnoringCase(u, w) {
      forall i | 0 <= i < |u| ensures u[i] == w[i] {
        assert UpperChar(u[i]) == UpperChar(w[i]);
      }
    }
  }
}
