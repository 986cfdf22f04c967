/** Hand-written recognisers for the country patterns, each proved to accept
    exactly the strings PCRE's reading of the pattern accepts. */
module Matchers {
  import opened Ascii
  import opened Wrappers
  import opened Regex
  import opened Patterns

  // ---------------------------------------------------------------------
  // Building blocks

  /** Exactly `n` digits. */
  predicate Digits(s: string, n: nat)
  {
    |s| == n && AllDigits(s)
  }

  predicate AllLetters(s: string)
  {
    forall i :: 0 <= i < |s| ==> IsLetter(s[i])
  }

  /** Drops one leading space: where a pattern allows `[\ ]{0,1}` before a
      digit, the space can only be the optional one. */
  function SkipSpace(u: string): string
  {
    if |u| > 0 && u[0] == ' ' then u[1..] else u
  }

  /** Groups of digits of the given sizes, every group after the first
      optionally preceded by a single space. */
  predicate DigitGroups(t: string, sizes: seq<nat>)
    requires |sizes| > 0
    decreases |sizes|
  {
    && |t| >= sizes[0]
    && AllDigits(t[..sizes[0]])
    && if |sizes| == 1 then |t| == sizes[0]
       else DigitGroups(SkipSpace(t[sizes[0]..]), sizes[1..])
  }

  /** The pattern `[0-9]{n0}[\ ]{0,1}[0-9]{n1}…[\ ]{0,1}[0-9]{nk}`. */
  ghost function GroupsRe(sizes: seq<nat>): Re
    requires |sizes| > 0
    decreases |sizes|
  {
    if |sizes| == 1 then Exactly(Digit, sizes[0])
    else Cat(Exactly(Digit, sizes[0]), Cat(Optional(Space), GroupsRe(sizes[1..])))
  }

  function Twos(n: nat): (r: seq<nat>)
    ensures |r| == n && forall i :: 0 <= i < n ==> r[i] == 2
  {
    seq(n, _ => 2)
  }

  lemma SpaceDenotes(x: char)
    ensures Width(Space) == Some(1)
    ensures Denotes(Space, [x]) <==> x == ' '
  {
  }

  /** Before a language none of whose strings starts with a space, an optional
      space is decided by the first character alone. */
  lemma SkipSpaceThen(b: Re, u: string)
    requires !(|u| > 0 && u[0] == ' ' && Denotes(b, u))
    ensures Denotes(Cat(Optional(Space), b), u) <==> Denotes(b, SkipSpace(u))
  {
    OptionalThen(Space, b, u);
    if |u| > 0 {
      assert u[..1] == [u[0]];
      SpaceDenotes(u[0]);
    }
  }

  lemma {:induction false} DigitGroupsDenote(sizes: seq<nat>, t: string)
    requires |sizes| > 0 && forall i :: 0 <= i < |sizes| ==> sizes[i] > 0
    ensures DigitGroups(t, sizes) <==> Denotes(GroupsRe(sizes), t)
    decreases |sizes|
  {
    var n := sizes[0];
    if |sizes| == 1 {
      DigitsDenote(n, n, t);
      if |t| == n { assert t[..n] == t; }
    } else {
      var rest := sizes[1..];
      assert Width(Exactly(Digit, n)) == Some(n);
      CatFixed(Exactly(Digit, n), Cat(Optional(Space), GroupsRe(rest)), t);
      if |t| >= n {
        DigitsDenote(n, n, t[..n]);
        var u := t[n..];
        DigitGroupsDenote(rest, u);
        if Denotes(GroupsRe(rest), u) {
          assert IsDigit(u[..rest[0]][0]);
          assert u[0] != ' ';
        }
        SkipSpaceThen(GroupsRe(rest), u);
        DigitGroupsDenote(rest, SkipSpace(u));
      }
    }
  }

  const DanishGroup: Re := Cat(Exactly(Digit, 2), Optional(Space))

  lemma DanishNone(b: Re, t: string)
    ensures Denotes(Cat(Exactly(DanishGroup, 0), b), t) <==> Denotes(b, t)
  {
    RepDenotes(DanishGroup, 0, 0, t[..0]);
    if Denotes(Cat(Exactly(DanishGroup, 0), b), t) {
      var i :| 0 <= i <= |t| && Denotes(Exactly(DanishGroup, 0), t[..i]) && Denotes(b, t[i..]);
      RepDenotes(DanishGroup, 0, 0, t[..i]);
      RepeatsNone(DanishGroup, t[..i]);
      assert t[i..] == t;
    }
    if Denotes(b, t) {
      RepeatsNone(DanishGroup, t[..0]);
      assert t[0..] == t;
    }
  }

  /** `([0-9]{2}[\ ]{0,1}){k}[0-9]{2}` is k+1 pairs of digits, each pair after
      the first optionally preceded by a space. */
  lemma {:induction false} DanishDenotes(k: nat, t: string)
    ensures Denotes(Cat(Exactly(DanishGroup, k), Exactly(Digit, 2)), t) <==> DigitGroups(t, Twos(k + 1))
    decreases k
  {
    if k == 0 {
      DanishNone(Exactly(Digit, 2), t);
      DigitsDenote(2, 2, t);
      if |t| == 2 { assert t[..2] == t; }
    } else {
      var x := Cat(Exactly(DanishGroup, k - 1), Exactly(Digit, 2));
      ExactlyUnfold(DanishGroup, k - 1, Exactly(Digit, 2), t);
      CatAssoc(Exactly(Digit, 2), Optional(Space), x, t);
      assert Width(Exactly(Digit, 2)) == Some(2);
      CatFixed(Exactly(Digit, 2), Cat(Optional(Space), x), t);
      assert Twos(k + 1)[1..] == Twos(k);
      if |t| >= 2 {
        DigitsDenote(2, 2, t[..2]);
        var u := t[2..];
        DanishDenotes(k - 1, u);
        if Denotes(x, u) {
          assert IsDigit(u[..2][0]);
          assert u[0] != ' ';
        }
        SkipSpaceThen(x, u);
        DanishDenotes(k - 1, SkipSpace(u));
      }
    }
  }

  // ---------------------------------------------------------------------
  // The simple rules: `^(XX){0,1}core$`

  /** The core of each simple rule, read off its pattern. */
  predicate Core(rule: Rule, t: string)
    requires IsSimple(rule)
  {
    match rule
    case Austria => |t| == 9 && UpperChar(t[0]) == 'U' && AllDigits(t[1..])
    case Belgium => |t| == 10 && t[0] in {'0', ',', '1'} && AllDigits(t[1..])
    case Bulgaria => 9 <= |t| <= 10 && AllDigits(t)
    case Cyprus => |t| == 9 && AllDigits(t[..8]) && IsLetter(t[8])
    case Czechia => 8 <= |t| <= 10 && AllDigits(t)
    case Germany => Digits(t, 9)
    case Denmark => DigitGroups(t, [2, 2, 2, 2])
    case Estonia => Digits(t, 9)
    case Spain => |t| == 9 && IsAlphanumeric(t[0]) && AllDigits(t[1..8]) && IsAlphanumeric(t[8])
    case Greece => Digits(t, 9)
    case France => |t| >= 2 && IsAlphanumeric(t[0]) && IsAlphanumeric(t[1]) && Digits(SkipSpace(t[2..]), 9)
    case Finland => Digits(t, 8)
    case Hungary => Digits(t, 8)
    case Italy => Digits(t, 11)
    case Latvia => Digits(t, 11)
    case Lithuania => Digits(t, 9) || Digits(t, 12)
    case Luxembourg => Digits(t, 8)
    case Malta => Digits(t, 8)
    case Netherlands => |t| == 12 && AllDigits(t[..9]) && UpperChar(t[9]) == 'B' && AllDigits(t[10..])
    case Poland => Digits(t, 10)
    case Portugal => Digits(t, 9)
    case Romania => 2 <= |t| <= 10 && AllDigits(t)
    case Slovakia => Digits(t, 10)
    case Slovenia => Digits(t, 8)
    case Sweden => |t| == 12 && AllDigits(t[..10]) && t[10..] == "01"
  }

  /** The optional country code, compared without regard to case, then the core. */
  predicate WithOptionalCode(rule: Rule, t: string)
    requires IsSimple(rule)
  {
    Core(rule, t) || (StartsWithIgnoringCase(t, Code(rule)) && Core(rule, t[2..]))
  }

  /** `^…$`: the whole string, or the string without one final newline. */
  predicate AnchoredMatch(rule: Rule, s: string)
    requires IsSimple(rule)
  {
    WithOptionalCode(rule, s) || (EndsWithNewline(s) && WithOptionalCode(rule, s[..|s| - 1]))
  }

  lemma FirstChar(a: Re, t: string)
    requires Width(a) == Some(1) && |t| >= 1
    ensures Denotes(a, t[..1]) <==> Denotes(a, [t[0]])
  {
    assert t[..1] == [t[0]];
  }

  lemma AustriaDenotes(t: string)
    ensures Core(Austria, t) <==> Denotes(CoreRe(Austria), t)
  {
    CatFixed(Chr('U'), Exactly(Digit, 8), t);
    if |t| >= 1 {
      FirstChar(Chr('U'), t);
      CharDenotes('U', t[0]);
      DigitsDenote(8, 8, t[1..]);
    }
  }

  lemma BelgiumDenotes(t: string)
    ensures Core(Belgium, t) <==> Denotes(CoreRe(Belgium), t)
  {
    assert Width(Exactly(BelgianLead, 1)) == Some(1);
    CatFixed(Exactly(BelgianLead, 1), Exactly(Digit, 9), t);
    if |t| >= 1 {
      BelgianLeadDenotes(t[..1]);
      DigitsDenote(9, 9, t[1..]);
    }
  }

  lemma BelgianLeadDenotes(u: string)
    requires |u| == 1
    ensures Denotes(Exactly(BelgianLead, 1), u) <==> u[0] in {'0', ',', '1'}
  {
    RunDenotes(BelgianLead, 1, 1, u);
    assert [u[0]] == u;
  }

  lemma CyprusDenotes(t: string)
    ensures Core(Cyprus, t) <==> Denotes(CoreRe(Cyprus), t)
  {
    assert Width(Exactly(Digit, 8)) == Some(8);
    CatFixed(Exactly(Digit, 8), Letter, t);
    if |t| >= 8 {
      DigitsDenote(8, 8, t[..8]);
      LetterRun(t[8..]);
    }
  }

  lemma LetterRun(u: string)
    ensures Denotes(Letter, u) <==> |u| == 1 && IsLetter(u[0])
  {
    if |u| == 1 {
      assert u == [u[0]];
      LetterDenotes(u[0]);
    }
  }

  lemma SpainDenotes(t: string)
    ensures Core(Spain, t) <==> Denotes(CoreRe(Spain), t)
  {
    DigitOrLetterDenotes(' ');
    CharThen(DigitOrLetter, Cat(Exactly(Digit, 7), DigitOrLetter), t);
    if |t| >= 1 {
      DigitOrLetterDenotes(t[0]);
      SpainTail(t[1..]);
      if |t| == 9 {
        assert t[1..][..7] == t[1..8];
        assert t[1..][7] == t[8];
      }
    }
  }

  lemma SpainTail(u: string)
    ensures Denotes(Cat(Exactly(Digit, 7), DigitOrLetter), u) <==>
              |u| == 8 && AllDigits(u[..7]) && IsAlphanumeric(u[7])
  {
    assert Width(Exactly(Digit, 7)) == Some(7);
    CatFixed(Exactly(Digit, 7), DigitOrLetter, u);
    if |u| >= 7 {
      DigitsDenote(7, 7, u[..7]);
      DigitOrLetterDenotes(' ');
      if |u| == 8 {
        assert u[7..] == [u[7]];
        DigitOrLetterDenotes(u[7]);
      } else if Denotes(DigitOrLetter, u[7..]) {
        WidthSound(DigitOrLetter, u[7..]);
      }
    }
  }

  lemma FranceDenotes(t: string)
    ensures Core(France, t) <==> Denotes(CoreRe(France), t)
  {
    var tail := Cat(Optional(Space), Exactly(Digit, 9));
    DigitOrLetterDenotes(' ');
    assert Width(Exactly(DigitOrLetter, 2)) == Some(2);
    CatFixed(Exactly(DigitOrLetter, 2), tail, t);
    if |t| >= 2 {
      FrenchPrefix(t[..2]);
      FrenchTail(t[2..]);
    }
  }

  lemma FrenchPrefix(p: string)
    requires |p| == 2
    ensures Denotes(Exactly(DigitOrLetter, 2), p) <==> IsAlphanumeric(p[0]) && IsAlphanumeric(p[1])
  {
    DigitOrLetterDenotes(p[0]);
    DigitOrLetterDenotes(p[1]);
    RunDenotes(DigitOrLetter, 2, 2, p);
  }

  lemma FrenchTail(u: string)
    ensures Denotes(Cat(Optional(Space), Exactly(Digit, 9)), u) <==> Digits(SkipSpace(u), 9)
  {
    DigitsDenote(9, 9, u);
    SkipSpaceThen(Exactly(Digit, 9), u);
    DigitsDenote(9, 9, SkipSpace(u));
  }

  lemma NetherlandsDenotes(t: string)
    ensures Core(Netherlands, t) <==> Denotes(CoreRe(Netherlands), t)
  {
    var tail := Cat(Chr('B'), Exactly(Digit, 2));
    assert CoreRe(Netherlands) == Cat(Exactly(Digit, 9), tail);
    DigitsThen(9, tail, t);
    if |t| >= 9 {
      DutchTail(t[9..]);
    }
    DutchCore(t);
  }

  /** A fixed number of digits followed by `b`. */
  lemma DigitsThen(n: nat, b: Re, t: string)
    ensures Denotes(Cat(Exactly(Digit, n), b), t) <==>
              |t| >= n && AllDigits(t[..n]) && Denotes(b, t[n..])
  {
    assert Width(Exactly(Digit, n)) == Some(n);
    CatFixed(Exactly(Digit, n), b, t);
    if |t| >= n {
      DigitsDenote(n, n, t[..n]);
    }
  }

  /** The hand-written Dutch core, read as nine digits and a tail. */
  lemma DutchCore(t: string)
    ensures Core(Netherlands, t) <==>
              |t| >= 9 && AllDigits(t[..9]) && |t[9..]| >= 1
              && UpperChar(t[9..][0]) == 'B' && Digits(t[9..][1..], 2)
  {
    if |t| >= 10 {
      assert t[9..][0] == t[9] && t[9..][1..] == t[10..];
    }
  }

  lemma DutchTail(u: string)
    ensures Denotes(Cat(Chr('B'), Exactly(Digit, 2)), u) <==>
              |u| >= 1 && UpperChar(u[0]) == 'B' && Digits(u[1..], 2)
  {
    CharThen(Chr('B'), Exactly(Digit, 2), u);
    if |u| >= 1 {
      CharDenotes('B', u[0]);
      DigitsDenote(2, 2, u[1..]);
    }
  }

  lemma LithuaniaDenotes(t: string)
    ensures Core(Lithuania, t) <==> Denotes(CoreRe(Lithuania), t)
  {
    DigitsDenote(9, 9, t);
    DigitsDenote(12, 12, t);
  }

  lemma SwedenDenotes(t: string)
    ensures Core(Sweden, t) <==> Denotes(CoreRe(Sweden), t)
  {
    assert Width(Exactly(Digit, 10)) == Some(10);
    CatFixed(Exactly(Digit, 10), Lit("01"), t);
    if |t| >= 10 {
      DigitsDenote(10, 10, t[..10]);
      LitDenotes("01", t[10..]);
      CaselessWithoutLetters(t[10..], "01");
    }
  }

  lemma DenmarkDenotes(t: string)
    ensures Core(Denmark, t) <==> Denotes(CoreRe(Denmark), t)
  {
    DanishDenotes(3, t);
    assert Twos(4) == [2, 2, 2, 2];
  }

  /** Each simple rule's core recogniser accepts exactly its pattern's core. */
  lemma CoreDenotes(rule: Rule, t: string)
    requires IsSimple(rule)
    ensures Core(rule, t) <==> Denotes(CoreRe(rule), t)
  {
    if EarlyRule(rule) {
      EarlyCoreDenotes(rule, t);
    } else {
      LateCoreDenotes(rule, t);
    }
  }

  /** The simple rules up to France, in the order of the pattern table;
      the proof above is split in two at this point. */
  predicate EarlyRule(rule: Rule)
  {
    || rule.Austria? || rule.Belgium? || rule.Bulgaria? || rule.Cyprus?
    || rule.Czechia? || rule.Germany? || rule.Denmark? || rule.Estonia?
    || rule.Spain? || rule.Greece? || rule.France?
  }

  lemma EarlyCoreDenotes(rule: Rule, t: string)
    requires EarlyRule(rule)
    ensures Core(rule, t) <==> Denotes(CoreRe(rule), t)
  {
    match rule
    case Austria => AustriaDenotes(t);
    case Belgium => BelgiumDenotes(t);
    case Bulgaria => DigitsDenote(9, 10, t);
    case Cyprus => CyprusDenotes(t);
    case Czechia => DigitsDenote(8, 10, t);
    case Germany => DigitsDenote(9, 9, t);
    case Denmark => DenmarkDenotes(t);
    case Estonia => DigitsDenote(9, 9, t);
    case Spain => SpainDenotes(t);
    case Greece => DigitsDenote(9, 9, t);
    case France => FranceDenotes(t);
  }

  lemma LateCoreDenotes(rule: Rule, t: string)
    requires IsSimple(rule) && !EarlyRule(rule)
    ensures Core(rule, t) <==> Denotes(CoreRe(rule), t)
  {
    match rule
    case Finland => DigitsDenote(8, 8, t);
    case Hungary => DigitsDenote(8, 8, t);
    case Italy => DigitsDenote(11, 11, t);
    case Latvia => DigitsDenote(11, 11, t);
    case Lithuania => LithuaniaDenotes(t);
    case Luxembourg => DigitsDenote(8, 8, t);
    case Malta => DigitsDenote(8, 8, t);
    case Netherlands => NetherlandsDenotes(t);
    case Poland => DigitsDenote(10, 10, t);
    case Portugal => DigitsDenote(9, 9, t);
    case Romania => DigitsDenote(2, 10, t);
    case Slovakia => DigitsDenote(10, 10, t);
    case Slovenia => DigitsDenote(8, 8, t);
    case Sweden => SwedenDenotes(t);
  }

  /** `(XX){0,1}core` is the recogniser with its optional code. */
  lemma WithOptionalCodeDenotes(rule: Rule, t: string)
    requires IsSimple(rule)
    ensures WithOptionalCode(rule, t) <==> Denotes(Cat(Optional(Lit(Code(rule))), CoreRe(rule)), t)
  {
    LitDenotes(Code(rule), []);
    OptionalThen(Lit(Code(rule)), CoreRe(rule), t);
    CoreDenotes(rule, t);
    if |t| >= 2 {
      LitDenotes(Code(rule), t[..2]);
      CoreDenotes(rule, t[2..]);
    }
  }

  /** A simple rule's recogniser decides its whole pattern. */
  lemma AnchoredMatchIsSearch(rule: Rule, s: string)
    requires IsSimple(rule)
    ensures AnchoredMatch(rule, s) <==> Search(PatternOf(rule), s)
  {
    var body := Cat(Optional(Lit(Code(rule))), CoreRe(rule));
    FullyAnchored(body, s);
    WithOptionalCodeDenotes(rule, s);
    if EndsWithNewline(s) {
      WithOptionalCodeDenotes(rule, s[..|s| - 1]);
    }
    assert PatternOf(rule) == [Branch(true, body, true)];
    if BranchMatches(Branch(true, body, true), s) {
      assert BranchMatches(PatternOf(rule)[0], s);
    }
  }

  // ---------------------------------------------------------------------
  // Ireland: `^((IE){0,1}first)<line break>|((IE){0,1}second)$`

  /** The first Irish alternative after its optional code: a digit; a digit,
      letter, `+` or `*`; five digits; a letter; then the literal line break. */
  predicate IrishFirst(t: string)
  {
    && |t| == 8 + |IrishLineBreak|
    && IsDigit(t[0])
    && (IsAlphanumeric(t[1]) || t[1] == '+' || t[1] == '*')
    && AllDigits(t[2..7])
    && IsLetter(t[7])
    && t[8..] == IrishLineBreak
  }

  /** The second Irish alternative after its optional code: seven digits and
      one or two letters. */
  predicate IrishSecond(t: string)
  {
    (|t| == 8 || |t| == 9) && AllDigits(t[..7]) && AllLetters(t[7..])
  }

  /** The first alternative is anchored only at the start: the string begins
      with it, possibly after the code IE. */
  predicate IrishFirstAtStart(s: string)
  {
    var w := 8 + |IrishLineBreak|;
    || (|s| >= w && IrishFirst(s[..w]))
    || (|s| >= w + 2 && StartsWithIgnoringCase(s, "IE") && IrishFirst(s[2..w + 2]))
  }

  predicate EndsWithIrishSecond(u: string)
  {
    exists i | 0 <= i <= |u| :: IrishSecond(u[i..])
  }

  /** The second alternative is anchored only at the end, so its optional code
      decides nothing: the string ends with seven digits and one or two
      letters, before at most one final newline. */
  predicate IrishSecondAtEnd(s: string)
  {
    EndsWithIrishSecond(s) || (EndsWithNewline(s) && EndsWithIrishSecond(s[..|s| - 1]))
  }

  predicate IrishMatch(s: string)
  {
    IrishFirstAtStart(s) || IrishSecondAtEnd(s)
  }

  lemma IrishSecondCharDenotes(x: char)
    ensures Width(IrishSecondChar) == Some(1)
    ensures Denotes(IrishSecondChar, [x]) <==> IsAlphanumeric(x) || x == '+' || x == '*'
  {
  }

  lemma IrishWidths()
    ensures Width(IrishFirstRe) == Some(8 + |IrishLineBreak|)
    ensures Width(Lit("IE")) == Some(2)
  {
    IrishWidthEndingIn(IrishLineBreak);
    LitDenotes("IE", []);
  }

  lemma IrishWidthEndingIn(w: string)
    requires |w| > 0
    ensures Width(IrishFirstEndingIn(w)) == Some(8 + |w|)
  {
    LitDenotes(w, []);
    assert Width(Cat(Letter, Lit(w))) == Some(1 + |w|);
    assert Width(Exactly(Digit, 5)) == Some(5);
    assert Width(Cat(Exactly(Digit, 5), Cat(Letter, Lit(w)))) == Some(6 + |w|);
    IrishSecondCharDenotes(' ');
  }

  /** No character is an ASCII letter. */
  predicate NoLetters(w: string)
  {
    forall i :: 0 <= i < |w| ==> !IsLetter(w[i])
  }

  // The next three lemmas are stated for any letter-free word `w` in place
  // of IrishLineBreak, which keeps the solver from unrolling the constant.

  lemma IrishFirstTail(w: string, u: string)
    requires |w| > 0 && NoLetters(w)
    ensures Denotes(Cat(Letter, Lit(w)), u) <==> |u| >= 1 && IsLetter(u[0]) && u[1..] == w
  {
    CharThen(Letter, Lit(w), u);
    if |u| >= 1 {
      LetterDenotes(u[0]);
      LitDenotes(w, u[1..]);
      CaselessWithoutLetters(u[1..], w);
    }
  }

  lemma IrishFirstMiddle(w: string, u: string)
    requires |w| > 0 && NoLetters(w)
    ensures Denotes(Cat(Exactly(Digit, 5), Cat(Letter, Lit(w))), u) <==>
              |u| >= 6 && AllDigits(u[..5]) && IsLetter(u[5]) && u[6..] == w
  {
    assert Width(Exactly(Digit, 5)) == Some(5);
    CatFixed(Exactly(Digit, 5), Cat(Letter, Lit(w)), u);
    if |u| >= 5 {
      DigitsDenote(5, 5, u[..5]);
      IrishFirstTail(w, u[5..]);
      if |u| >= 6 {
        assert u[5..][1..] == u[6..];
      }
    }
  }

  lemma IrishFirstAfterDigit(w: string, u: string)
    requires |w| > 0 && NoLetters(w)
    ensures Denotes(Cat(IrishSecondChar, Cat(Exactly(Digit, 5), Cat(Letter, Lit(w)))), u) <==>
              && |u| >= 7 && (IsAlphanumeric(u[0]) || u[0] == '+' || u[0] == '*')
              && AllDigits(u[1..6]) && IsLetter(u[6]) && u[7..] == w
  {
    var r2 := Cat(Exactly(Digit, 5), Cat(Letter, Lit(w)));
    IrishSecondCharDenotes(' ');
    CharThen(IrishSecondChar, r2, u);
    if |u| >= 1 {
      IrishSecondCharDenotes(u[0]);
      IrishFirstMiddle(w, u[1..]);
      if |u| >= 6 {
        assert u[1..][..5] == u[1..6];
      }
      if |u| >= 7 {
        assert u[1..][5] == u[6];
        assert u[1..][6..] == u[7..];
      }
    }
  }

  lemma IrishFirstDenotes(t: string)
    ensures IrishFirst(t) <==> Denotes(IrishFirstRe, t)
  {
    LineBreakHasNoLetters();
    IrishFirstEndingInDenotes(IrishLineBreak, t);
  }

  lemma LineBreakHasNoLetters()
    ensures |IrishLineBreak| > 0 && NoLetters(IrishLineBreak)
  {
  }

  lemma IrishFirstEndingInDenotes(w: string, t: string)
    requires |w| > 0 && NoLetters(w)
    ensures Denotes(IrishFirstEndingIn(w), t) <==>
              && |t| == 8 + |w| && IsDigit(t[0]) && (IsAlphanumeric(t[1]) || t[1] == '+' || t[1] == '*')
              && AllDigits(t[2..7]) && IsLetter(t[7]) && t[8..] == w
  {
    var r2 := Cat(Exactly(Digit, 5), Cat(Letter, Lit(w)));
    IrishSecondCharDenotes(' ');
    CharThen(Digit, Cat(IrishSecondChar, r2), t);
    if |t| >= 1 {
      DigitDenotes(t[0]);
      var u := t[1..];
      IrishFirstAfterDigit(w, u);
      if |t| >= 8 {
        assert u[0] == t[1] && u[1..6] == t[2..7] && u[6] == t[7] && u[7..] == t[8..];
      }
    }
  }

  lemma IrishSecondDenotes(t: string)
    ensures IrishSecond(t) <==> Denotes(IrishSecondRe, t)
  {
    assert Width(Exactly(Digit, 7)) == Some(7);
    CatFixed(Exactly(Digit, 7), Rep(Letter, 1, 2), t);
    if |t| >= 7 {
      DigitsDenote(7, 7, t[..7]);
      LettersDenote(t[7..]);
    }
  }

  lemma LettersDenote(u: string)
    ensures Denotes(Rep(Letter, 1, 2), u) <==> 1 <= |u| <= 2 && AllLetters(u)
  {
    RunDenotes(Letter, 1, 2, u);
    forall i | 0 <= i < |u| ensures Denotes(Letter, [u[i]]) <==> IsLetter(u[i]) {
      LetterDenotes(u[i]);
    }
  }

  lemma IrishFirstPrefix(s: string, j: nat)
    requires j <= |s|
    ensures Denotes(Cat(Optional(Lit("IE")), IrishFirstRe), s[..j]) <==>
              || (j == 8 + |IrishLineBreak| && IrishFirst(s[..j]))
              || (j == 10 + |IrishLineBreak| && StartsWithIgnoringCase(s, "IE") && IrishFirst(s[2..j]))
  {
    IrishWidths();
    CodedPrefix("IE", IrishFirstRe, s, j);
    IrishFirstDenotes(s[..j]);
    if j >= 2 {
      IrishFirstDenotes(s[2..j]);
    }
  }

  /** A prefix of `s` is a fixed-width body after an optional code exactly
      when it is the body alone, or the code and then the body. */
  lemma CodedPrefix(code: string, r: Re, s: string, j: nat)
    requires |code| > 0 && Width(r).Some? && j <= |s|
    ensures Denotes(Cat(Optional(Lit(code)), r), s[..j]) <==>
              || (j == Width(r).value && Denotes(r, s[..j]))
              || (j == Width(r).value + |code| && StartsWithIgnoringCase(s, code)
                  && Denotes(r, s[|code|..j]))
  {
    var t := s[..j];
    var n := |code|;
    LitDenotes(code, []);
    OptionalThen(Lit(code), r, t);
    if Denotes(r, t) {
      WidthSound(r, t);
    }
    if n <= j {
      assert t[..n] == s[..n];
      assert t[n..] == s[n..j];
      LitDenotes(code, s[..n]);
      if Denotes(r, s[n..j]) {
        WidthSound(r, s[n..j]);
      }
    }
  }

  lemma IrishFirstBranch(s: string)
    ensures BranchMatches(Branch(true, Cat(Optional(Lit("IE")), IrishFirstRe), false), s) <==>
              IrishFirstAtStart(s)
  {
    var body := Cat(Optional(Lit("IE")), IrishFirstRe);
    var w := 8 + |IrishLineBreak|;
    StartAnchored(body, s);
    if exists j :: 0 <= j <= |s| && Denotes(body, s[..j]) {
      var j :| 0 <= j <= |s| && Denotes(body, s[..j]);
      IrishFirstPrefix(s, j);
    }
    if |s| >= w {
      IrishFirstPrefix(s, w);
    }
    if |s| >= w + 2 {
      IrishFirstPrefix(s, w + 2);
    }
  }

  lemma IrishSecondBranch(s: string)
    ensures BranchMatches(Branch(false, Cat(Optional(Lit("IE")), IrishSecondRe), true), s) <==>
              IrishSecondAtEnd(s)
  {
    IrishWidths();
    DropLeadingOptional(Lit("IE"), IrishSecondRe, true, s);
    EndAnchored(IrishSecondRe, s);
    IrishSuffix(s);
    if EndsWithNewline(s) {
      IrishSuffix(s[..|s| - 1]);
    }
  }

  lemma IrishSuffix(u: string)
    ensures SuffixDenotes(IrishSecondRe, u) <==> EndsWithIrishSecond(u)
  {
    forall i | 0 <= i <= |u| ensures IrishSecond(u[i..]) <==> Denotes(IrishSecondRe, u[i..]) {
      IrishSecondDenotes(u[i..]);
    }
  }

  lemma SearchTwo(b1: Branch, b2: Branch, s: string)
    ensures Search([b1, b2], s) <==> BranchMatches(b1, s) || BranchMatches(b2, s)
  {
    if BranchMatches(b1, s) { assert BranchMatches([b1, b2][0], s); }
    if BranchMatches(b2, s) { assert BranchMatches([b1, b2][1], s); }
  }

  lemma IrishMatchIsSearch(s: string)
    ensures IrishMatch(s) <==> Search(PatternOf(Ireland), s)
  {
    SearchTwo(Branch(true, Cat(Optional(Lit("IE")), IrishFirstRe), false),
              Branch(false, Cat(Optional(Lit("IE")), IrishSecondRe), true), s);
    IrishFirstBranch(s);
    IrishSecondBranch(s);
  }

  // ---------------------------------------------------------------------
  // United Kingdom: `^(GB…standard)|(GB…branch)|(GB…GD)|(GB…HA)$`

  predicate IsNonZeroDigit(c: char) { '1' <= c <= '9' }

  /** Nine digits, the first not zero, optionally spaced 3-4-2. */
  predicate StandardNumber(t: string)
  {
    |t| > 0 && IsNonZeroDigit(t[0]) && DigitGroups(t[1..], [2, 4, 2])
  }

  /** Twelve digits, the first not zero, optionally spaced 3-4-2-3. */
  predicate BranchNumber(t: string)
  {
    |t| > 0 && IsNonZeroDigit(t[0]) && DigitGroups(t[1..], [2, 4, 2, 3])
  }

  /** GD and a number from 000 to 499. */
  predicate GovernmentDepartment(t: string)
  {
    |t| == 5 && EqualsIgnoringCase(t[..2], "GD") && '0' <= t[2] <= '4' && AllDigits(t[3..])
  }

  /** HA and a number from 500 to 999. */
  predicate HealthAuthority(t: string)
  {
    |t| == 5 && EqualsIgnoringCase(t[..2], "HA") && '5' <= t[2] <= '9' && AllDigits(t[3..])
  }

  /** The first alternative is anchored only at the start: some prefix of the
      string, after an optional GB, is a standard number. */
  predicate StandardAtStart(s: string)
  {
    exists j | 0 <= j <= |s| ::
      StandardNumber(s[..j]) || (2 <= j && StartsWithIgnoringCase(s, "GB") && StandardNumber(s[2..j]))
  }

  /** The second alternative has no anchor: a branch number occurs anywhere. */
  predicate ContainsBranchNumber(s: string)
  {
    exists i, j | 0 <= i <= j <= |s| :: BranchNumber(s[i..j])
  }

  /** The third alternative has no anchor: a government code occurs anywhere. */
  predicate ContainsGovernmentDepartment(s: string)
  {
    exists i | 0 <= i <= |s| - 5 :: GovernmentDepartment(s[i..][..5])
  }

  predicate EndsWithHealthAuthority(u: string)
  {
    |u| >= 5 && HealthAuthority(u[|u| - 5..])
  }

  /** The fourth alternative is anchored only at the end. */
  predicate HealthAuthorityAtEnd(s: string)
  {
    EndsWithHealthAuthority(s) || (EndsWithNewline(s) && EndsWithHealthAuthority(s[..|s| - 1]))
  }

  predicate BritishMatch(s: string)
  {
    || StandardAtStart(s)
    || ContainsBranchNumber(s)
    || ContainsGovernmentDepartment(s)
    || HealthAuthorityAtEnd(s)
  }

  lemma NonZeroDenotes(x: char)
    ensures Width(Span('1', '9')) == Some(1)
    ensures Denotes(Span('1', '9'), [x]) <==> IsNonZeroDigit(x)
  {
  }

  lemma StandardDenotes(t: string)
    ensures StandardNumber(t) <==> Denotes(StandardRe, t)
  {
    assert [2, 4, 2][1..] == [4, 2] && [4, 2][1..] == [2];
    assert StandardRe == Cat(Span('1', '9'), GroupsRe([2, 4, 2]));
    NonZeroDenotes(' ');
    CharThen(Span('1', '9'), GroupsRe([2, 4, 2]), t);
    if |t| > 0 {
      NonZeroDenotes(t[0]);
      DigitGroupsDenote([2, 4, 2], t[1..]);
    }
  }

  lemma BranchNumberDenotes(t: string)
    ensures BranchNumber(t) <==> Denotes(BranchRe, t)
  {
    assert [2, 4, 2, 3][1..] == [4, 2, 3] && [4, 2, 3][1..] == [2, 3] && [2, 3][1..] == [3];
    assert BranchRe == Cat(Span('1', '9'), GroupsRe([2, 4, 2, 3]));
    NonZeroDenotes(' ');
    CharThen(Span('1', '9'), GroupsRe([2, 4, 2, 3]), t);
    if |t| > 0 {
      NonZeroDenotes(t[0]);
      DigitGroupsDenote([2, 4, 2, 3], t[1..]);
    }
  }

  /** A two-letter code, one character of a range, and two digits. */
  lemma CodeRangeDigitsDenote(code: string, lo: char, hi: char, t: string)
    requires |code| == 2 && '0' <= lo <= hi <= '9'
    ensures Width(Cat(Lit(code), Cat(Span(lo, hi), Cat(Digit, Digit)))) == Some(5)
    ensures Denotes(Cat(Lit(code), Cat(Span(lo, hi), Cat(Digit, Digit))), t) <==>
              |t| == 5 && EqualsIgnoringCase(t[..2], code) && lo <= t[2] <= hi && AllDigits(t[3..])
  {
    LitDenotes(code, []);
    var rest := Cat(Span(lo, hi), Cat(Digit, Digit));
    assert Width(Cat(Digit, Digit)) == Some(2);
    assert Width(rest) == Some(3);
    CatFixed(Lit(code), rest, t);
    if |t| >= 2 {
      LitDenotes(code, t[..2]);
      var u := t[2..];
      CharThen(Span(lo, hi), Cat(Digit, Digit), u);
      if |u| >= 1 {
        assert Denotes(Span(lo, hi), [u[0]]) <==> lo <= u[0] <= hi;
        var v := u[1..];
        CharThen(Digit, Digit, v);
        if |v| >= 1 {
          DigitDenotes(v[0]);
          if |v| == 2 {
            assert v[1..] == [v[1]];
            DigitDenotes(v[1]);
          } else if Denotes(Digit, v[1..]) {
            WidthSound(Digit, v[1..]);
          }
          assert v == t[3..];
        }
      }
    }
  }

  lemma StandardPrefix(s: string, j: nat)
    requires j <= |s|
    ensures Denotes(Cat(Optional(Lit("GB")), StandardRe), s[..j]) <==>
              StandardNumber(s[..j]) || (2 <= j && StartsWithIgnoringCase(s, "GB") && StandardNumber(s[2..j]))
  {
    var t := s[..j];
    LitDenotes("GB", []);
    OptionalThen(Lit("GB"), StandardRe, t);
    StandardDenotes(t);
    if j >= 2 {
      assert t[2..] == s[2..j];
      assert t[..2] == s[..2];
      LitDenotes("GB", s[..2]);
      StandardDenotes(t[2..]);
    }
  }

  lemma StandardBranch(s: string)
    ensures BranchMatches(Branch(true, Cat(Optional(Lit("GB")), StandardRe), false), s) <==>
              StandardAtStart(s)
  {
    var body := Cat(Optional(Lit("GB")), StandardRe);
    StartAnchored(body, s);
    forall j | 0 <= j <= |s|
      ensures Denotes(body, s[..j]) <==>
                StandardNumber(s[..j]) || (2 <= j && StartsWithIgnoringCase(s, "GB") && StandardNumber(s[2..j]))
    {
      StandardPrefix(s, j);
    }
  }

  lemma BranchNumberBranch(s: string)
    ensures BranchMatches(Branch(false, Cat(Optional(Lit("GB")), BranchRe), false), s) <==>
              ContainsBranchNumber(s)
  {
    LitDenotes("GB", []);
    DropLeadingOptional(Lit("GB"), BranchRe, false, s);
    forall i, j | 0 <= i <= j <= |s| ensures BranchNumber(s[i..j]) <==> Denotes(BranchRe, s[i..j]) {
      BranchNumberDenotes(s[i..j]);
    }
  }

  lemma GovernmentBranch(s: string)
    ensures BranchMatches(Branch(false, Cat(Optional(Lit("GB")), GovernmentRe), false), s) <==>
              ContainsGovernmentDepartment(s)
  {
    LitDenotes("GB", []);
    CodeRangeDigitsDenote("GD", '0', '4', []);
    DropLeadingOptional(Lit("GB"), GovernmentRe, false, s);
    FixedWindow(GovernmentRe, s);
    forall i | 0 <= i <= |s| - 5
      ensures GovernmentDepartment(s[i..][..5]) <==> Denotes(GovernmentRe, s[i..][..5])
    {
      CodeRangeDigitsDenote("GD", '0', '4', s[i..][..5]);
    }
  }

  lemma HealthBranch(s: string)
    ensures BranchMatches(Branch(false, Cat(Optional(Lit("GB")), HealthRe), true), s) <==>
              HealthAuthorityAtEnd(s)
  {
    LitDenotes("GB", []);
    CodeRangeDigitsDenote("HA", '5', '9', []);
    DropLeadingOptional(Lit("GB"), HealthRe, true, s);
    EndAnchored(HealthRe, s);
    HealthSuffix(s);
    if EndsWithNewline(s) {
      HealthSuffix(s[..|s| - 1]);
    }
  }

  lemma HealthSuffix(u: string)
    ensures SuffixDenotes(HealthRe, u) <==> EndsWithHealthAuthority(u)
  {
    CodeRangeDigitsDenote("HA", '5', '9', []);
    FixedSuffix(HealthRe, u);
    if |u| >= 5 {
      CodeRangeDigitsDenote("HA", '5', '9', u[|u| - 5..]);
    }
  }

  lemma SearchFour(b1: Branch, b2: Branch, b3: Branch, b4: Branch, s: string)
    ensures Search([b1, b2, b3, b4], s) <==>
              BranchMatches(b1, s) || BranchMatches(b2, s) || BranchMatches(b3, s) || BranchMatches(b4, s)
  {
    var p := [b1, b2, b3, b4];
    if BranchMatches(b1, s) { assert BranchMatches(p[0], s); }
    if BranchMatches(b2, s) { assert BranchMatches(p[1], s); }
    if BranchMatches(b3, s) { assert BranchMatches(p[2], s); }
    if BranchMatches(b4, s) { assert BranchMatches(p[3], s); }
  }

  lemma BritishMatchIsSearch(s: string)
    ensures BritishMatch(s) <==> Search(PatternOf(UnitedKingdom), s)
  {
    SearchFour(Branch(true, Cat(Optional(Lit("GB")), StandardRe), false),
               Branch(false, Cat(Optional(Lit("GB")), BranchRe), false),
               Branch(false, Cat(Optional(Lit("GB")), GovernmentRe), false),
               Branch(false, Cat(Optional(Lit("GB")), HealthRe), true), s);
    StandardBranch(s);
    BranchNumberBranch(s);
    GovernmentBranch(s);
    HealthBranch(s);
  }

  // ---------------------------------------------------------------------
  // The matcher

  /** `preg_match` of a rule's pattern against a VAT string: true exactly
      when PCRE's reading of the pattern finds a match in it. */
  function Matches(rule: Rule, s: string): (r: bool)
    ensures r <==> Search(PatternOf(rule), s)
  {
    match rule
    case Ireland =>
      IrishMatchIsSearch(s);
      IrishMatch(s)
    case UnitedKingdom =>
      BritishMatchIsSearch(s);
      BritishMatch(s)
    case _ =>
      AnchoredMatchIsSearch(rule, s);
      AnchoredMatch(rule, s)
  }
}
