/** Consequences of the patterns for whole numbers: what each country
    accepts and rejects, and where the anchors of the Irish and British
    patterns let extra text through. */
module Properties {
  import opened Ascii
  import opened Regex
  import opened Patterns
  import opened Matchers
  import opened Tables
  import opened VatValidator

  // ---------------------------------------------------------------------
  // Helpers

  /** Giving a pattern key selects that key's rule. */
  lemma GivenKey(vat: string, k: string, rule: Rule)
    requires k in PatternTable && PatternTable[k] == rule
    ensures Validate(vat, k) == Matches(rule, vat)
  {
    KeysResolveToThemselves(k);
    PatternKeysAreUpperPairs(k);
  }

  // The table entries the lemmas below name, one per lemma.

  lemma AustriaEntry()
    ensures "AT" in PatternTable && PatternTable["AT"] == Austria
  {
  }

  lemma RomaniaEntry()
    ensures "RO" in PatternTable && PatternTable["RO"] == Romania
  {
  }

  lemma SwedenEntry()
    ensures "SE" in PatternTable && PatternTable["SE"] == Sweden
  {
  }

  lemma NetherlandsEntry()
    ensures "NL" in PatternTable && PatternTable["NL"] == Netherlands
  {
  }

  lemma IrelandEntry()
    ensures "IE" in PatternTable && PatternTable["IE"] == Ireland
  {
  }

  lemma BritainEntry()
    ensures "GB" in PatternTable && PatternTable["GB"] == UnitedKingdom
  {
  }

  /** A simple rule accepts its core with its own code in front. */
  lemma CodeThenCore(rule: Rule, t: string)
    requires IsSimple(rule) && Core(rule, t)
    ensures Matches(rule, Code(rule) + t)
  {
    var s := Code(rule) + t;
    assert s[..2] == Code(rule) && s[2..] == t;
  }

  lemma SimpleMatch(rule: Rule, s: string)
    requires IsSimple(rule)
    ensures Matches(rule, s) <==> AnchoredMatch(rule, s)
  {
  }

  /** Without a final newline, a simple rule reads the string as a whole. */
  lemma WholeString(rule: Rule, s: string)
    requires IsSimple(rule) && !EndsWithNewline(s)
    ensures Matches(rule, s) <==> WithOptionalCode(rule, s)
  {
  }

  function Sum(sizes: seq<nat>): nat
  {
    if |sizes| == 0 then 0 else sizes[0] + Sum(sizes[1..])
  }

  /** Digit groups are at least as long as their sizes together, and end in
      a digit when the last group is not empty. */
  lemma {:induction false} DigitGroupsShape(t: string, sizes: seq<nat>)
    requires |sizes| > 0 && DigitGroups(t, sizes)
    ensures |t| >= Sum(sizes)
    ensures sizes[|sizes| - 1] > 0 ==> |t| > 0 && IsDigit(t[|t| - 1])
  {
    if |sizes| > 1 {
      var u := SkipSpace(t[sizes[0]..]);
      DigitGroupsShape(u, sizes[1..]);
      assert sizes[1..][|sizes[1..]| - 1] == sizes[|sizes| - 1];
      if |u| > 0 {
        assert u[|u| - 1] == t[|t| - 1];
      }
    }
  }

  /** Every simple core ends in a digit or letter, so never in a newline. */
  lemma CoreEndsAlphanumeric(rule: Rule, t: string)
    requires IsSimple(rule) && Core(rule, t)
    ensures |t| > 0 && IsAlphanumeric(t[|t| - 1])
  {
    match rule
    case Denmark =>
      DigitGroupsShape(t, [2, 2, 2, 2]);
    case France =>
      var u := t[2..];
      if |u| > 0 && u[0] == ' ' {
        assert SkipSpace(u)[|SkipSpace(u)| - 1] == t[|t| - 1];
      } else {
        assert SkipSpace(u) == u;
        assert u[|u| - 1] == t[|t| - 1];
      }
    case Sweden =>
      assert t[|t| - 1] == t[10..][1];
    case _ =>
  }

  lemma CodeCoreEndsAlphanumeric(rule: Rule, t: string)
    requires IsSimple(rule) && WithOptionalCode(rule, t)
    ensures |t| > 0 && IsAlphanumeric(t[|t| - 1])
  {
    if Core(rule, t) {
      CoreEndsAlphanumeric(rule, t);
    } else {
      CoreEndsAlphanumeric(rule, t[2..]);
      assert t[2..][|t[2..]| - 1] == t[|t| - 1];
    }
  }

  // ---------------------------------------------------------------------
  // The end anchor of the simple rules

  /** `$` without the D modifier: a simple rule tolerates one final line
      feed ... */
  lemma OneTrailingNewline(rule: Rule, s: string)
    requires IsSimple(rule) && !EndsWithNewline(s)
    ensures Matches(rule, s + "\n") <==> Matches(rule, s)
  {
    var s1 := s + "\n";
    assert s1[..|s1| - 1] == s;
    SimpleMatch(rule, s1);
    WholeString(rule, s);
    if WithOptionalCode(rule, s1) {
      CodeCoreEndsAlphanumeric(rule, s1);
    }
  }

  /** ... and no second one. */
  lemma NoSecondNewline(rule: Rule, s: string)
    requires IsSimple(rule)
    ensures !Matches(rule, s + "\n\n")
  {
    var s1 := s + "\n";
    var s2 := s + "\n\n";
    assert s2[..|s2| - 1] == s1;
    if WithOptionalCode(rule, s2) {
      CodeCoreEndsAlphanumeric(rule, s2);
    }
    if WithOptionalCode(rule, s1) {
      CodeCoreEndsAlphanumeric(rule, s1);
    }
  }

  // ---------------------------------------------------------------------
  // Simple rules

  /** Austria: the U belongs to the number, not to the code. */
  lemma AustriaNeedsU(d: string)
    requires |d| == 8 && AllDigits(d)
    ensures Validate("ATU" + d, "AT")
    ensures Validate("U" + d, "AT")
  {
    AustriaEntry();
    AustriaWithU(d);
    GivenKey("ATU" + d, "AT", Austria);
    GivenKey("U" + d, "AT", Austria);
  }

  lemma AustriaWithU(d: string)
    requires |d| == 8 && AllDigits(d)
    ensures AnchoredMatch(Austria, "ATU" + d)
    ensures AnchoredMatch(Austria, "U" + d)
  {
    var t := "U" + d;
    assert t[1..] == d;
    assert Core(Austria, t);
    var s := "ATU" + d;
    assert s[..2] == "AT" && s[2..] == t;
  }

  /** Austria: nine digits after the code are not a number. */
  lemma AustriaRejectsDigitsOnly(d: string)
    requires |d| == 9 && AllDigits(d)
    ensures !Validate("AT" + d, "AT")
  {
    AustriaEntry();
    AustriaWithoutU(d);
    GivenKey("AT" + d, "AT", Austria);
  }

  lemma AustriaWithoutU(d: string)
    requires |d| == 9 && AllDigits(d)
    ensures !AnchoredMatch(Austria, "AT" + d)
  {
    var s := "AT" + d;
    assert s[|s| - 1] == d[8];
    assert s[2..] == d;
    assert IsDigit(d[0]);
  }

  /** Romania: two to ten digits after the code. */
  lemma RomaniaLengths(d: string)
    requires AllDigits(d)
    ensures Validate("RO" + d, "RO") <==> 2 <= |d| <= 10
  {
    RomaniaEntry();
    RomanianDigits(d);
    GivenKey("RO" + d, "RO", Romania);
  }

  lemma RomanianDigits(d: string)
    requires AllDigits(d)
    ensures AnchoredMatch(Romania, "RO" + d) <==> 2 <= |d| <= 10
  {
    var s := "RO" + d;
    assert s[|s| - 1] == if |d| > 0 then d[|d| - 1] else 'O';
    assert !IsDigit(s[0]);
    assert s[..2] == "RO" && s[2..] == d;
  }

  /** Sweden: ten digits and then exactly 01. */
  lemma SwedenSuffix(d: string, e: string)
    requires |d| == 10 && AllDigits(d) && |e| == 2 && AllDigits(e)
    ensures Validate("SE" + d + e, "SE") <==> e == "01"
  {
    SwedenEntry();
    SwedishDigits(d, e);
    GivenKey("SE" + d + e, "SE", Sweden);
  }

  lemma SwedishDigits(d: string, e: string)
    requires |d| == 10 && AllDigits(d) && |e| == 2 && AllDigits(e)
    ensures AnchoredMatch(Sweden, "SE" + d + e) <==> e == "01"
  {
    var s := "SE" + d + e;
    assert s[|s| - 1] == e[1];
    assert s[..2] == "SE" && s[2..] == d + e;
    assert (d + e)[..10] == d && (d + e)[10..] == e;
  }

  /** Netherlands: nine digits, the letter B in either case, two digits. */
  lemma NetherlandsLetter(d: string, x: char, e: string)
    requires |d| == 9 && AllDigits(d) && |e| == 2 && AllDigits(e)
    ensures Validate("NL" + d + [x] + e, "NL") <==> UpperChar(x) == 'B'
  {
    NetherlandsEntry();
    DutchDigits(d, x, e);
    GivenKey("NL" + d + [x] + e, "NL", Netherlands);
  }

  lemma DutchDigits(d: string, x: char, e: string)
    requires |d| == 9 && AllDigits(d) && |e| == 2 && AllDigits(e)
    ensures AnchoredMatch(Netherlands, "NL" + d + [x] + e) <==> UpperChar(x) == 'B'
  {
    var s := "NL" + d + [x] + e;
    assert s[|s| - 1] == e[1];
    var t := d + [x] + e;
    assert s[..2] == "NL" && s[2..] == t;
    assert t[..9] == d && t[9] == x && t[10..] == e;
  }

  // ---------------------------------------------------------------------
  // Ireland

  /** The second Irish alternative is anchored only at the end: any text
      may come before seven digits and one or two letters. */
  lemma IrishSecondAnywhere(x: string, d: string, l: string)
    requires |d| == 7 && AllDigits(d) && 1 <= |l| <= 2 && AllLetters(l)
    ensures Validate(x + d + l, "IE")
  {
    IrelandEntry();
    IrishSecondAfterAnything(x, d, l);
    GivenKey(x + d + l, "IE", Ireland);
  }

  lemma IrishSecondAfterAnything(x: string, d: string, l: string)
    requires |d| == 7 && AllDigits(d) && 1 <= |l| <= 2 && AllLetters(l)
    ensures IrishMatch(x + d + l)
  {
    var s := x + d + l;
    assert s[|x|..] == d + l;
    assert (d + l)[..7] == d && (d + l)[7..] == l;
    assert IrishSecond(s[|x|..]);
  }

  /** The first Irish alternative ends in the pattern's own line break, so a
      number of the form digit, letter, five digits, letter is rejected. */
  lemma IrishLetterInSecondPlaceRejected(a: char, c: char, d: string, l: char)
    requires IsDigit(a) && IsLetter(c) && |d| == 5 && AllDigits(d) && IsLetter(l)
    ensures !Validate("IE" + [a, c] + d + [l], "IE")
  {
    IrelandEntry();
    IrishLetterInSecondPlace(a, c, d, l);
    GivenKey("IE" + [a, c] + d + [l], "IE", Ireland);
  }

  lemma IrishLetterInSecondPlace(a: char, c: char, d: string, l: char)
    requires IsDigit(a) && IsLetter(c) && |d| == 5 && AllDigits(d) && IsLetter(l)
    ensures !IrishMatch("IE" + [a, c] + d + [l])
  {
    var s := "IE" + [a, c] + d + [l];
    assert |s| == 10 && s[|s| - 1] == l;
    forall i | 0 <= i <= |s| ensures !IrishSecond(s[i..]) {
      if i == 1 {
        assert s[i..][0] == 'E';
      } else if i == 2 {
        assert s[i..][1] == c;
      }
    }
  }

  // ---------------------------------------------------------------------
  // United Kingdom

  /** The first British alternative is anchored only at the start: any text
      may follow a standard number. */
  lemma BritishStandardPrefix(n: string, x: string)
    requires StandardNumber(n)
    ensures Validate("GB" + n + x, "GB")
  {
    BritainEntry();
    StandardThenAnything(n, x);
    GivenKey("GB" + n + x, "GB", UnitedKingdom);
  }

  /** The same without the code in front. */
  lemma BritishStandardBare(n: string, x: string)
    requires StandardNumber(n)
    ensures Validate(n + x, "GB")
  {
    BritainEntry();
    BareStandardThenAnything(n, x);
    GivenKey(n + x, "GB", UnitedKingdom);
  }

  lemma StandardThenAnything(n: string, x: string)
    requires StandardNumber(n)
    ensures BritishMatch("GB" + n + x)
  {
    var s := "GB" + n + x;
    assert s[..2] == "GB" && s[2..|n| + 2] == n;
    assert StartsWithIgnoringCase(s, "GB");
    assert StandardAtStart(s);
  }

  lemma BareStandardThenAnything(n: string, x: string)
    requires StandardNumber(n)
    ensures BritishMatch(n + x)
  {
    var u := n + x;
    assert u[..|n|] == n;
    assert StandardAtStart(u);
  }

  lemma BranchNumberLength(t: string)
    requires BranchNumber(t)
    ensures |t| >= 12
  {
    DigitGroupsShape(t[1..], [2, 4, 2, 3]);
  }

  /** Neither digit alternative matches a string shorter than twelve whose
      first and third characters are not digits. */
  lemma NoBritishDigits(s: string)
    requires 3 <= |s| < 12 && !IsDigit(s[0]) && !IsDigit(s[2])
    ensures !StandardAtStart(s) && !ContainsBranchNumber(s)
  {
    forall j | 0 <= j <= |s| ensures !StandardNumber(s[..j]) && !(2 <= j && StandardNumber(s[2..j])) {
      if j > 0 {
        assert s[..j][0] == s[0];
      }
      if j > 2 {
        assert s[2..j][0] == s[2];
      }
    }
    forall i, j | 0 <= i <= j <= |s| ensures !BranchNumber(s[i..j]) {
      if BranchNumber(s[i..j]) {
        BranchNumberLength(s[i..j]);
      }
    }
  }

  /** Government departments: GD and a number below 500. */
  lemma GovernmentRange(n: string)
    requires |n| == 3 && AllDigits(n)
    ensures Validate("GBGD" + n, "GB") <==> n[0] <= '4'
  {
    BritainEntry();
    GovernmentWindow(n);
    GivenKey("GBGD" + n, "GB", UnitedKingdom);
  }

  lemma GovernmentWindow(n: string)
    requires |n| == 3 && AllDigits(n)
    ensures BritishMatch("GBGD" + n) <==> n[0] <= '4'
  {
    var s := "GBGD" + n;
    NoBritishDigits(s);
    GovernmentAt(n);
    assert s[|s| - 5..] == "GD" + n;
    assert !EqualsIgnoringCase(s[|s| - 5..][..2], "HA");
    assert s[|s| - 1] == n[2];
  }

  lemma GovernmentAt(n: string)
    requires |n| == 3 && AllDigits(n)
    ensures ContainsGovernmentDepartment("GBGD" + n) <==> n[0] <= '4'
  {
    var s := "GBGD" + n;
    assert s[0] == 'G' && s[1] == 'B' && s[2] == 'G' && s[3] == 'D' && s[4] == n[0];
    forall i | 0 <= i <= |s| - 5
      ensures GovernmentDepartment(s[i..][..5]) <==> i == 2 && n[0] <= '4'
    {
      WindowHead(s, i);
      if i == 2 {
        assert s[i..][..5] == "GD" + n;
      }
    }
    if n[0] <= '4' {
      assert GovernmentDepartment(s[2..][..5]);
    }
  }

  /** The start of the five-character window at `i`. */
  lemma WindowHead(s: string, i: nat)
    requires i + 5 <= |s|
    ensures s[i..][..5][..2] == [s[i], s[i + 1]] && s[i..][..5][2] == s[i + 2]
  {
  }

  /** Health authorities: HA and a number of 500 or more. */
  lemma HealthRange(n: string)
    requires |n| == 3 && AllDigits(n)
    ensures Validate("GBHA" + n, "GB") <==> '5' <= n[0]
  {
    BritainEntry();
    HealthWindow(n);
    GivenKey("GBHA" + n, "GB", UnitedKingdom);
  }

  lemma HealthWindow(n: string)
    requires |n| == 3 && AllDigits(n)
    ensures BritishMatch("GBHA" + n) <==> '5' <= n[0]
  {
    var s := "GBHA" + n;
    NoBritishDigits(s);
    NoDepartmentBeforeHealth(n);
    assert s[|s| - 5..] == "HA" + n;
    assert s[|s| - 5..][..2] == "HA";
    assert s[|s| - 1] == n[2];
  }

  lemma NoDepartmentBeforeHealth(n: string)
    requires |n| == 3
    ensures !ContainsGovernmentDepartment("GBHA" + n)
  {
    var s := "GBHA" + n;
    assert s[0] == 'G' && s[1] == 'B' && s[2] == 'H' && s[3] == 'A';
    forall i | 0 <= i <= |s| - 5 ensures !GovernmentDepartment(s[i..][..5]) {
      WindowHead(s, i);
    }
  }
}
