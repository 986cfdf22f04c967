/** The language that PCRE gives the few regular-expression constructs the
    validator's patterns use, under the caseless (`/i`) flag and without the
    `D` modifier. The semantics is ghost: it is the reference the hand-written
    matchers are proved against, never something that is run. */
module Regex {
  import opened Ascii
  import opened Wrappers

  /** A regular-expression term. A character class is written as the
      alternation of its ranges; a group is transparent and has no node. */
  datatype Re =
    | Chr(c: char)                     // a literal character
    | Span(lo: char, hi: char)         // a class range such as [0-9]
    | Cat(left: Re, right: Re)         // concatenation
    | Alt(left: Re, right: Re)         // `|` inside a group, or a class union
    | Rep(item: Re, min: nat, max: nat) // the quantifier {min,max}

  /** One top-level alternative of a pattern, with the anchors written at its
      edges: `^` binds to the first alternative only and `$` to the last. */
  datatype Branch = Branch(atStart: bool, body: Re, atEnd: bool)

  function Exactly(r: Re, n: nat): Re { Rep(r, n, n) }

  function Optional(r: Re): Re { Rep(r, 0, 1) }

  /** A literal string of one or more characters. */
  function Lit(w: string): Re
    requires |w| > 0
    decreases |w|
  {
    if |w| == 1 then Chr(w[0]) else Cat(Chr(w[0]), Lit(w[1..]))
  }

  const Digit: Re := Span('0', '9')
  const Letter: Re := Span('A', 'Z')
  const DigitOrLetter: Re := Alt(Digit, Letter)
  const Space: Re := Chr(' ')

  /** A caseless literal: the subject character equals `c` up to case. */
  predicate CharMatches(c: char, x: char)
  {
    UpperChar(x) == UpperChar(c)
  }

  /** A caseless range: the subject character, or its other case, lies in it. */
  predicate SpanMatches(lo: char, hi: char, x: char)
  {
    lo <= x <= hi || lo <= UpperChar(x) <= hi || lo <= LowerChar(x) <= hi
  }

  ghost predicate Denotes(r: Re, s: string)
    decreases r, 0
  {
    match r
    case Chr(c) => |s| == 1 && CharMatches(c, s[0])
    case Span(lo, hi) => |s| == 1 && SpanMatches(lo, hi, s[0])
    case Cat(a, b) => exists i :: 0 <= i <= |s| && Denotes(a, s[..i]) && Denotes(b, s[i..])
    case Alt(a, b) => Denotes(a, s) || Denotes(b, s)
    case Rep(a, m, n) => Repeats(a, m, n, s)
  }

  /** `s` splits into between `m` and `n` consecutive pieces each denoted by `a`. */
  ghost predicate Repeats(a: Re, m: nat, n: nat, s: string)
    decreases a, n + 1
  {
    || (m == 0 && s == [])
    || (0 < n && exists i :: 0 <= i <= |s| && Denotes(a, s[..i])
                             && Repeats(a, if m == 0 then 0 else m - 1, n - 1, s[i..]))
  }

  /** The subject ends at `j`, or `j` is just before a final newline: `$`
      without the `D` modifier. */
  predicate EndsAt(s: string, j: nat)
  {
    j == |s| || (j + 1 == |s| && s[j] == '\n')
  }

  predicate EndsWithNewline(s: string)
  {
    |s| > 0 && s[|s| - 1] == '\n'
  }

  /** `preg_match` of a single alternative: some substring, placed as its
      anchors demand, is in the alternative's language. */
  ghost predicate BranchMatches(b: Branch, s: string)
  {
    exists i, j :: 0 <= i <= j <= |s| && (b.atStart ==> i == 0) && (b.atEnd ==> EndsAt(s, j))
                   && Denotes(b.body, s[i..j])
  }

  /** `preg_match` of a whole pattern, a top-level alternation of branches. */
  ghost predicate Search(p: seq<Branch>, s: string)
  {
    exists k :: 0 <= k < |p| && BranchMatches(p[k], s)
  }

  /** Some suffix of `u` is in the language of `c`. */
  ghost predicate SuffixDenotes(c: Re, u: string)
  {
    exists i :: 0 <= i <= |u| && Denotes(c, u[i..])
  }

  /** The length every string of the language has, when there is one. */
  function Width(r: Re): Option<nat>
  {
    match r
    case Chr(_) => Some(1)
    case Span(_, _) => Some(1)
    case Cat(a, b) =>
      if Width(a).Some? && Width(b).Some? then Some(Width(a).value + Width(b).value) else None
    case Alt(a, b) => if Width(a).Some? && Width(a) == Width(b) then Width(a) else None
    case Rep(a, m, n) => if m == n && Width(a).Some? then Some(m * Width(a).value) else None
  }

  // ---------------------------------------------------------------------
  // Lengths

  lemma WidthSound(r: Re, s: string)
    requires Width(r).Some? && Denotes(r, s)
    ensures |s| == Width(r).value
    decreases r, 0
  {
    match r
    case Chr(_) =>
    case Span(_, _) =>
    case Cat(a, b) =>
      var i :| 0 <= i <= |s| && Denotes(a, s[..i]) && Denotes(b, s[i..]);
      WidthSound(a, s[..i]);
      WidthSound(b, s[i..]);
    case Alt(a, b) =>
      if Denotes(a, s) { WidthSound(a, s); } else { WidthSound(b, s); }
    case Rep(a, m, n) =>
      RepeatsWidth(a, m, s);
  }

  lemma RepeatsWidth(a: Re, m: nat, s: string)
    requires Width(a).Some? && Repeats(a, m, m, s)
    ensures |s| == m * Width(a).value
    decreases a, m + 1
  {
    if m != 0 {
      var i :| 0 <= i <= |s| && Denotes(a, s[..i]) && Repeats(a, m - 1, m - 1, s[i..]);
      WidthSound(a, s[..i]);
      RepeatsWidth(a, m - 1, s[i..]);
      assert m * Width(a).value == Width(a).value + (m - 1) * Width(a).value;
    }
  }

  // ---------------------------------------------------------------------
  // Concatenation, repetition and option

  /** A single-character item followed by `b`. */
  lemma CharThen(a: Re, b: Re, t: string)
    requires Width(a) == Some(1)
    ensures Denotes(Cat(a, b), t) <==> |t| >= 1 && Denotes(a, [t[0]]) && Denotes(b, t[1..])
  {
    CatFixed(a, b, t);
    if |t| >= 1 {
      assert t[..1] == [t[0]];
    }
  }

  /** A concatenation whose left part has a fixed width splits at that width. */
  lemma CatFixed(a: Re, b: Re, s: string)
    requires Width(a).Some?
    ensures Denotes(Cat(a, b), s) <==>
              && Width(a).value <= |s|
              && Denotes(a, s[..Width(a).value]) && Denotes(b, s[Width(a).value..])
  {
    if Denotes(Cat(a, b), s) {
      var i :| 0 <= i <= |s| && Denotes(a, s[..i]) && Denotes(b, s[i..]);
      WidthSound(a, s[..i]);
    }
  }

  /** Concatenation is associative. */
  lemma CatAssoc(a: Re, b: Re, c: Re, s: string)
    ensures Denotes(Cat(Cat(a, b), c), s) <==> Denotes(Cat(a, Cat(b, c)), s)
  {
    if Denotes(Cat(Cat(a, b), c), s) {
      CatAssocRight(a, b, c, s);
    }
    if Denotes(Cat(a, Cat(b, c)), s) {
      CatAssocLeft(a, b, c, s);
    }
  }

  lemma CatAssocRight(a: Re, b: Re, c: Re, s: string)
    requires Denotes(Cat(Cat(a, b), c), s)
    ensures Denotes(Cat(a, Cat(b, c)), s)
  {
    var i := CatSplit(Cat(a, b), c, s);
    var j := CatSplit(a, b, s[..i]);
    RightPieces(a, b, c, s, j, i);
  }

  lemma RightPieces(a: Re, b: Re, c: Re, s: string, j: nat, i: nat)
    requires j <= i <= |s| && Denotes(a, s[..i][..j]) && Denotes(b, s[..i][j..])
    requires Denotes(c, s[i..])
    ensures Denotes(Cat(a, Cat(b, c)), s)
  {
    Slices(s, j, i);
    CatJoin(b, c, s[j..], i - j);
    CatJoin(a, Cat(b, c), s, j);
  }

  lemma CatAssocLeft(a: Re, b: Re, c: Re, s: string)
    requires Denotes(Cat(a, Cat(b, c)), s)
    ensures Denotes(Cat(Cat(a, b), c), s)
  {
    var j := CatSplit(a, Cat(b, c), s);
    var k := CatSplit(b, c, s[j..]);
    LeftPieces(a, b, c, s, j, k);
  }

  lemma LeftPieces(a: Re, b: Re, c: Re, s: string, j: nat, k: nat)
    requires j + k <= |s| && Denotes(a, s[..j])
    requires Denotes(b, s[j..][..k]) && Denotes(c, s[j..][k..])
    ensures Denotes(Cat(Cat(a, b), c), s)
  {
    Slices(s, j, j + k);
    CatJoin(a, b, s[..j + k], j);
    CatJoin(Cat(a, b), c, s, j + k);
  }

  /** Slicing a prefix or a suffix again gives the slice of the whole. */
  lemma Slices(s: string, j: nat, k: nat)
    requires j <= k <= |s|
    ensures s[..k][..j] == s[..j] && s[..k][j..] == s[j..][..k - j]
    ensures s[j..][k - j..] == s[k..]
  {
    assert s[..k][j..] == s[j..k];
    assert s[j..][..k - j] == s[j..k];
  }

  /** A string of a concatenation splits where its two parts meet. */
  lemma CatSplit(a: Re, b: Re, s: string) returns (i: nat)
    requires Denotes(Cat(a, b), s)
    ensures i <= |s| && Denotes(a, s[..i]) && Denotes(b, s[i..])
  {
    i :| 0 <= i <= |s| && Denotes(a, s[..i]) && Denotes(b, s[i..]);
  }

  lemma CatJoin(a: Re, b: Re, s: string, i: nat)
    requires i <= |s| && Denotes(a, s[..i]) && Denotes(b, s[i..])
    ensures Denotes(Cat(a, b), s)
  {
  }

  lemma RepeatsNone(a: Re, s: string)
    ensures Repeats(a, 0, 0, s) <==> s == []
  {
  }

  lemma RepDenotes(a: Re, m: nat, n: nat, s: string)
    ensures Denotes(Rep(a, m, n), s) <==> Repeats(a, m, n, s)
  {
  }

  /** `(a){0,1}` is the empty string or a string of `a`. */
  lemma OptionalDenotes(a: Re, s: string)
    ensures Denotes(Optional(a), s) <==> s == [] || Denotes(a, s)
  {
    RepDenotes(a, 0, 1, s);
    if Repeats(a, 0, 1, s) && s != [] {
      var i :| 0 <= i <= |s| && Denotes(a, s[..i]) && Repeats(a, 0, 0, s[i..]);
      RepeatsNone(a, s[i..]);
      assert s[..i] == s;
    }
    if Denotes(a, s) {
      RepeatsNone(a, s[|s|..]);
      assert s[..|s|] == s;
    }
  }

  /** An optional fixed-width part followed by `b`: either `b` alone, or
      the part and then `b`. */
  lemma OptionalThen(a: Re, b: Re, s: string)
    requires Width(a).Some?
    ensures Denotes(Cat(Optional(a), b), s) <==>
              || Denotes(b, s)
              || (Width(a).value <= |s| && Denotes(a, s[..Width(a).value])
                  && Denotes(b, s[Width(a).value..]))
  {
    var w := Width(a).value;
    if Denotes(Cat(Optional(a), b), s) {
      var i :| 0 <= i <= |s| && Denotes(Optional(a), s[..i]) && Denotes(b, s[i..]);
      OptionalDenotes(a, s[..i]);
      if s[..i] != [] {
        WidthSound(a, s[..i]);
      }
    }
    if Denotes(b, s) {
      OptionalDenotes(a, s[..0]);
      assert s[0..] == s;
    }
    if w <= |s| && Denotes(a, s[..w]) && Denotes(b, s[w..]) {
      OptionalDenotes(a, s[..w]);
    }
  }

  /** `a{k+1}` followed by `b` is `a` followed by `a{k}` and `b`. */
  lemma ExactlyUnfold(a: Re, k: nat, b: Re, s: string)
    ensures Denotes(Cat(Exactly(a, k + 1), b), s) <==> Denotes(Cat(a, Cat(Exactly(a, k), b)), s)
  {
    if Denotes(Cat(Exactly(a, k + 1), b), s) {
      ExactlyUnfoldSplit(a, k, b, s);
    }
    if Denotes(Cat(a, Cat(Exactly(a, k), b)), s) {
      ExactlyUnfoldJoin(a, k, b, s);
    }
  }

  lemma ExactlyUnfoldSplit(a: Re, k: nat, b: Re, s: string)
    requires Denotes(Cat(Exactly(a, k + 1), b), s)
    ensures Denotes(Cat(a, Cat(Exactly(a, k), b)), s)
  {
    var i :| 0 <= i <= |s| && Denotes(Exactly(a, k + 1), s[..i]) && Denotes(b, s[i..]);
    var j := ExactlyHead(a, k, s[..i]);
    assert s[..i][..j] == s[..j];
    var t := s[j..];
    assert s[..i][j..] == t[..i - j];
    assert s[i..] == t[i - j..];
    assert Denotes(Cat(Exactly(a, k), b), t);
  }

  /** A run of exactly k + 1 items starts with one item. */
  lemma ExactlyHead(a: Re, k: nat, x: string) returns (j: nat)
    requires Denotes(Exactly(a, k + 1), x)
    ensures j <= |x| && Denotes(a, x[..j]) && Denotes(Exactly(a, k), x[j..])
  {
    RepDenotes(a, k + 1, k + 1, x);
    j :| 0 <= j <= |x| && Denotes(a, x[..j]) && Repeats(a, k, k, x[j..]);
    RepDenotes(a, k, k, x[j..]);
  }

  lemma ExactlyUnfoldJoin(a: Re, k: nat, b: Re, s: string)
    requires Denotes(Cat(a, Cat(Exactly(a, k), b)), s)
    ensures Denotes(Cat(Exactly(a, k + 1), b), s)
  {
    var j := CatSplit(a, Cat(Exactly(a, k), b), s);
    var i := CatSplit(Exactly(a, k), b, s[j..]);
    JoinPieces(a, k, b, s, j, i);
  }

  lemma JoinPieces(a: Re, k: nat, b: Re, s: string, j: nat, i: nat)
    requires j + i <= |s| && Denotes(a, s[..j])
    requires Denotes(Exactly(a, k), s[j..][..i]) && Denotes(b, s[j..][i..])
    ensures Denotes(Cat(Exactly(a, k + 1), b), s)
  {
    Slices(s, j, j + i);
    ExactlyCons(a, k, s[..j + i], j);
    CatJoin(Exactly(a, k + 1), b, s, j + i);
  }

  /** One item followed by a run of exactly k items is a run of k + 1. */
  lemma ExactlyCons(a: Re, k: nat, x: string, j: nat)
    requires j <= |x| && Denotes(a, x[..j]) && Denotes(Exactly(a, k), x[j..])
    ensures Denotes(Exactly(a, k + 1), x)
  {
    RepDenotes(a, k, k, x[j..]);
    RepDenotes(a, k + 1, k + 1, x);
  }

  /** A run of a one-character item: the length is within the bounds and
      every character is in the item's language. */
  lemma RunDenotes(a: Re, m: nat, n: nat, s: string)
    requires Width(a) == Some(1) && m <= n
    ensures Denotes(Rep(a, m, n), s) <==>
              m <= |s| <= n && forall i :: 0 <= i < |s| ==> Denotes(a, [s[i]])
  {
    RepDenotes(a, m, n, s);
    if Repeats(a, m, n, s) {
      RunChars(a, m, n, s);
    }
    if m <= |s| <= n && forall i :: 0 <= i < |s| ==> Denotes(a, [s[i]]) {
      CharsRun(a, m, n, s);
    }
  }

  /** A run of single-character items is a string of such characters. */
  lemma {:induction false} RunChars(a: Re, m: nat, n: nat, s: string)
    requires Width(a) == Some(1) && Repeats(a, m, n, s)
    ensures m <= |s| <= n && forall i :: 0 <= i < |s| ==> Denotes(a, [s[i]])
    decreases n
  {
    var m' := if m == 0 then 0 else m - 1;
    if !(m == 0 && s == []) {
      var i :| 0 <= i <= |s| && Denotes(a, s[..i]) && Repeats(a, m', n - 1, s[i..]);
      WidthSound(a, s[..i]);
      RunChars(a, m', n - 1, s[1..]);
      assert s[..1] == [s[0]];
      forall k | 0 <= k < |s| ensures Denotes(a, [s[k]]) {
        if k > 0 { assert s[1..][k - 1] == s[k]; }
      }
    }
  }

  /** A string of single-character items, as many as the bounds allow, is a run. */
  lemma {:induction false} CharsRun(a: Re, m: nat, n: nat, s: string)
    requires Width(a) == Some(1) && m <= |s| <= n
    requires forall i :: 0 <= i < |s| ==> Denotes(a, [s[i]])
    ensures Repeats(a, m, n, s)
    decreases n
  {
    if s != [] {
      var m' := if m == 0 then 0 else m - 1;
      forall k | 0 <= k < |s[1..]| ensures Denotes(a, [s[1..][k]]) {
        assert s[1..][k] == s[k + 1];
      }
      CharsRun(a, m', n - 1, s[1..]);
      assert s[..1] == [s[0]];
      assert Denotes(a, s[..1]);
    }
  }

  lemma {:induction false} LitDenotes(w: string, s: string)
    requires |w| > 0
    ensures Width(Lit(w)) == Some(|w|)
    ensures Denotes(Lit(w), s) <==> EqualsIgnoringCase(s, w)
    decreases |w|
  {
    if |w| > 1 {
      LitDenotes(w[1..], if |s| > 0 then s[1..] else s);
      CatFixed(Chr(w[0]), Lit(w[1..]), s);
      if |s| == |w| {
        assert EqualsIgnoringCase(s, w) <==>
               UpperChar(s[0]) == UpperChar(w[0]) && EqualsIgnoringCase(s[1..], w[1..]) by {
          if UpperChar(s[0]) == UpperChar(w[0]) && EqualsIgnoringCase(s[1..], w[1..]) {
            forall k | 0 <= k < |s| ensures UpperChar(s[k]) == UpperChar(w[k]) {
              if k > 0 { assert s[1..][k - 1] == s[k] && w[1..][k - 1] == w[k]; }
            }
          }
        }
      }
    }
  }

  // ---------------------------------------------------------------------
  // Single characters of the classes the patterns use

  lemma CharDenotes(c: char, x: char)
    ensures Denotes(Chr(c), [x]) <==> UpperChar(x) == UpperChar(c)
  {
  }

  lemma DigitDenotes(x: char)
    ensures Denotes(Digit, [x]) <==> IsDigit(x)
  {
  }

  lemma LetterDenotes(x: char)
    ensures Denotes(Letter, [x]) <==> IsLetter(x)
  {
  }

  lemma DigitOrLetterDenotes(x: char)
    ensures Width(DigitOrLetter) == Some(1)
    ensures Denotes(DigitOrLetter, [x]) <==> IsAlphanumeric(x)
  {
  }

  /** A run of digits. */
  lemma DigitsDenote(m: nat, n: nat, s: string)
    requires m <= n
    ensures Denotes(Rep(Digit, m, n), s) <==> m <= |s| <= n && AllDigits(s)
  {
    RunDenotes(Digit, m, n, s);
    forall i | 0 <= i < |s| ensures Denotes(Digit, [s[i]]) <==> IsDigit(s[i]) {
      DigitDenotes(s[i]);
    }
  }

  // ---------------------------------------------------------------------
  // Anchors

  /** `^…$`: the whole subject, or the subject without a final newline. */
  lemma FullyAnchored(body: Re, s: string)
    ensures BranchMatches(Branch(true, body, true), s) <==>
              Denotes(body, s) || (EndsWithNewline(s) && Denotes(body, s[..|s| - 1]))
  {
    assert s[0..|s|] == s;
    if EndsWithNewline(s) {
      assert s[0..|s| - 1] == s[..|s| - 1];
      assert EndsAt(s, |s| - 1);
    }
    assert EndsAt(s, |s|);
  }

  /** `^…` alone: some prefix of the subject. */
  lemma StartAnchored(body: Re, s: string)
    ensures BranchMatches(Branch(true, body, false), s) <==>
              exists j :: 0 <= j <= |s| && Denotes(body, s[..j])
  {
    if exists j :: 0 <= j <= |s| && Denotes(body, s[..j]) {
      var j :| 0 <= j <= |s| && Denotes(body, s[..j]);
      assert s[0..j] == s[..j];
    }
  }

  /** `…$` alone: some suffix of the subject, or of the subject without a
      final newline. */
  lemma EndAnchored(c: Re, s: string)
    ensures BranchMatches(Branch(false, c, true), s) <==>
              SuffixDenotes(c, s) || (EndsWithNewline(s) && SuffixDenotes(c, s[..|s| - 1]))
  {
    if BranchMatches(Branch(false, c, true), s) {
      var i, j :| 0 <= i <= j <= |s| && EndsAt(s, j) && Denotes(c, s[i..j]);
      if j == |s| {
        assert s[i..j] == s[i..];
      } else {
        assert s[i..j] == s[..|s| - 1][i..];
      }
    }
    if SuffixDenotes(c, s) {
      var i :| 0 <= i <= |s| && Denotes(c, s[i..]);
      assert s[i..|s|] == s[i..];
      assert EndsAt(s, |s|);
    }
    if EndsWithNewline(s) && SuffixDenotes(c, s[..|s| - 1]) {
      var i :| 0 <= i <= |s| - 1 && Denotes(c, s[..|s| - 1][i..]);
      assert s[i..|s| - 1] == s[..|s| - 1][i..];
      assert EndsAt(s, |s| - 1);
    }
  }

  /** A fixed-width language has a suffix match exactly at the end. */
  lemma FixedSuffix(c: Re, u: string)
    requires Width(c).Some?
    ensures SuffixDenotes(c, u) <==>
              Width(c).value <= |u| && Denotes(c, u[|u| - Width(c).value..])
  {
    if SuffixDenotes(c, u) {
      var i :| 0 <= i <= |u| && Denotes(c, u[i..]);
      WidthSound(c, u[i..]);
    }
  }

  /** Without `^`, a leading optional fixed-width part never decides a match:
      the rest of the alternative already occurs at the same place or later. */
  lemma DropLeadingOptional(a: Re, c: Re, atEnd: bool, s: string)
    requires Width(a).Some?
    ensures BranchMatches(Branch(false, Cat(Optional(a), c), atEnd), s) <==>
              BranchMatches(Branch(false, c, atEnd), s)
  {
    var w := Width(a).value;
    if BranchMatches(Branch(false, Cat(Optional(a), c), atEnd), s) {
      var i, j :| 0 <= i <= j <= |s| && (atEnd ==> EndsAt(s, j))
                  && Denotes(Cat(Optional(a), c), s[i..j]);
      OptionalThen(a, c, s[i..j]);
      if !Denotes(c, s[i..j]) {
        assert s[i..j][w..] == s[i + w..j];
      }
    }
    if BranchMatches(Branch(false, c, atEnd), s) {
      var i, j :| 0 <= i <= j <= |s| && (atEnd ==> EndsAt(s, j)) && Denotes(c, s[i..j]);
      OptionalThen(a, c, s[i..j]);
    }
  }

  /** Without anchors, a fixed-width language occurs as a window of its width. */
  lemma FixedWindow(c: Re, s: string)
    requires Width(c).Some?
    ensures BranchMatches(Branch(false, c, false), s) <==>
              exists i :: 0 <= i <= |s| - Width(c).value && Denotes(c, s[i..][..Width(c).value])
  {
    var w := Width(c).value;
    if BranchMatches(Branch(false, c, false), s) {
      var i, j :| 0 <= i <= j <= |s| && Denotes(c, s[i..j]);
      WindowOf(c, s, i, j);
    }
    if exists i :: 0 <= i <= |s| - w && Denotes(c, s[i..][..w]) {
      var i :| 0 <= i <= |s| - w && Denotes(c, s[i..][..w]);
      assert s[i..][..w] == s[i..i + w];
      assert BranchMatches(Branch(false, c, false), s);
    }
  }

  lemma WindowOf(c: Re, s: string, i: nat, j: nat)
    requires Width(c).Some? && i <= j <= |s| && Denotes(c, s[i..j])
    ensures i <= |s| - Width(c).value && Denotes(c, s[i..][..Width(c).value])
  {
    WidthSound(c, s[i..j]);
    assert s[i..][..j - i] == s[i..j];
  }
}
