/** The country patterns of src/VatValidator.php, transcribed term by term
    into the regular-expression syntax of module Regex, as PCRE reads them. */
module Patterns {
  import opened Regex

  /** One value per distinct pattern. The keys GR and EL carry the same
      pattern text, and so do UK and GB; each pair shares one rule. */
  datatype Rule =
    | Austria | Belgium | Bulgaria | Cyprus | Czechia | Germany | Denmark
    | Estonia | Spain | Greece | France | Finland | Hungary | Ireland | Italy
    | Latvia | Lithuania | Luxembourg | Malta | Netherlands | Poland | Portugal
    | Romania | Slovakia | Slovenia | Sweden | UnitedKingdom

  /** Every rule but Ireland's and the United Kingdom's has the single shape
      `^(XX){0,1}core$`. */
  predicate IsSimple(rule: Rule)
  {
    !rule.Ireland? && !rule.UnitedKingdom?
  }

  /** The `XX` of `(XX){0,1}`. Greece's pattern names EL, never GR. */
  function Code(rule: Rule): (code: string)
    ensures |code| == 2
  {
    match rule
    case Austria => "AT"      case Belgium => "BE"      case Bulgaria => "BG"
    case Cyprus => "CY"       case Czechia => "CZ"      case Germany => "DE"
    case Denmark => "DK"      case Estonia => "EE"      case Spain => "ES"
    case Greece => "EL"       case France => "FR"       case Finland => "FI"
    case Hungary => "HU"      case Ireland => "IE"      case Italy => "IT"
    case Latvia => "LV"       case Lithuania => "LT"    case Luxembourg => "LU"
    case Malta => "MT"        case Netherlands => "NL"  case Poland => "PL"
    case Portugal => "PT"     case Romania => "RO"      case Slovakia => "SK"
    case Slovenia => "SI"     case Sweden => "SE"       case UnitedKingdom => "GB"
  }

  /** The class `[0,1]`: the comma is a member, not a separator. */
  const BelgianLead: Re := Alt(Chr('0'), Alt(Chr(','), Chr('1')))

  /** The class `[0-9A-Z\+\*]`. */
  const IrishSecondChar: Re := Alt(DigitOrLetter, Alt(Chr('+'), Chr('*')))

  /** The line break and indentation that the double-quoted Irish pattern
      carries between its two alternatives (a line feed and twelve spaces,
      for a checkout with LF line endings). Without the `x` flag they are
      literal characters at the end of the first alternative. */
  const IrishLineBreak: string := "\n            "

  /** The part after `(XX){0,1}` of a simple rule. */
  ghost function CoreRe(rule: Rule): Re
    requires IsSimple(rule)
  {
    match rule
    // U[0-9]{8}
    case Austria => Cat(Chr('U'), Exactly(Digit, 8))
    // [0,1]{1}[0-9]{9}
    case Belgium => Cat(Exactly(BelgianLead, 1), Exactly(Digit, 9))
    // [0-9]{9,10}
    case Bulgaria => Rep(Digit, 9, 10)
    // [0-9]{8}[A-Z]
    case Cyprus => Cat(Exactly(Digit, 8), Letter)
    // [0-9]{8,10}
    case Czechia => Rep(Digit, 8, 10)
    // [0-9]{9}
    case Germany => Exactly(Digit, 9)
    // ([0-9]{2}[\ ]{0,1}){3}[0-9]{2}
    case Denmark => Cat(Exactly(Cat(Exactly(Digit, 2), Optional(Space)), 3), Exactly(Digit, 2))
    // [0-9]{9}
    case Estonia => Exactly(Digit, 9)
    // ([0-9A-Z][0-9]{7}[0-9A-Z])
    case Spain => Cat(DigitOrLetter, Cat(Exactly(Digit, 7), DigitOrLetter))
    // [0-9]{9}
    case Greece => Exactly(Digit, 9)
    // [0-9A-Z]{2}[\ ]{0,1}[0-9]{9}
    case France => Cat(Exactly(DigitOrLetter, 2), Cat(Optional(Space), Exactly(Digit, 9)))
    // [0-9]{8}
    case Finland => Exactly(Digit, 8)
    // [0-9]{8}
    case Hungary => Exactly(Digit, 8)
    // [0-9]{11}
    case Italy => Exactly(Digit, 11)
    // [0-9]{11}
    case Latvia => Exactly(Digit, 11)
    // ([0-9]{9}|[0-9]{12})
    case Lithuania => Alt(Exactly(Digit, 9), Exactly(Digit, 12))
    // [0-9]{8}
    case Luxembourg => Exactly(Digit, 8)
    // [0-9]{8}
    case Malta => Exactly(Digit, 8)
    // [0-9]{9}B[0-9]{2}
    case Netherlands => Cat(Exactly(Digit, 9), Cat(Chr('B'), Exactly(Digit, 2)))
    // [0-9]{10}
    case Poland => Exactly(Digit, 10)
    // [0-9]{9}
    case Portugal => Exactly(Digit, 9)
    // [0-9]{2,10}
    case Romania => Rep(Digit, 2, 10)
    // [0-9]{10}
    case Slovakia => Exactly(Digit, 10)
    // [0-9]{8}
    case Slovenia => Exactly(Digit, 8)
    // [0-9]{10}(01)
    case Sweden => Cat(Exactly(Digit, 10), Lit("01"))
  }

  /** Ireland, first alternative after `(IE){0,1}`:
      `[0-9][0-9A-Z\+\*][0-9]{5}[A-Z]` and the literal line break. */
  const IrishFirstRe: Re := IrishFirstEndingIn(IrishLineBreak)

  /** The first Irish alternative with the literal `w` in place of the line
      break. */
  function IrishFirstEndingIn(w: string): Re
    requires |w| > 0
  {
    Cat(Digit, Cat(IrishSecondChar, Cat(Exactly(Digit, 5), Cat(Letter, Lit(w)))))
  }

  /** Ireland, second alternative after `(IE){0,1}`: `[0-9]{7}[A-Z]{1,2}`. */
  const IrishSecondRe: Re := Cat(Exactly(Digit, 7), Rep(Letter, 1, 2))

  /** United Kingdom, first alternative after `(GB){0,1}`:
      `[1-9][0-9]{2}[\ ]{0,1}[0-9]{4}[\ ]{0,1}[0-9]{2}`. */
  const StandardRe: Re :=
    Cat(Span('1', '9'), Cat(Exactly(Digit, 2), Cat(Optional(Space),
      Cat(Exactly(Digit, 4), Cat(Optional(Space), Exactly(Digit, 2))))))

  /** United Kingdom, second alternative after `(GB){0,1}`:
      `[1-9][0-9]{2}[\ ]{0,1}[0-9]{4}[\ ]{0,1}[0-9]{2}[\ ]{0,1}[0-9]{3}`,
      the `{0,1}` after the inert comment applying to the `[\ ]` before it. */
  const BranchRe: Re :=
    Cat(Span('1', '9'), Cat(Exactly(Digit, 2), Cat(Optional(Space),
      Cat(Exactly(Digit, 4), Cat(Optional(Space),
        Cat(Exactly(Digit, 2), Cat(Optional(Space), Exactly(Digit, 3))))))))

  /** United Kingdom, third alternative after `(GB){0,1}`: `(GD)[0-4][0-9][0-9]`. */
  const GovernmentRe: Re := Cat(Lit("GD"), Cat(Span('0', '4'), Cat(Digit, Digit)))

  /** United Kingdom, fourth alternative after `(GB){0,1}`: `(HA)[5-9][0-9][0-9]`. */
  const HealthRe: Re := Cat(Lit("HA"), Cat(Span('5', '9'), Cat(Digit, Digit)))

  /** `^(XX){0,1}core$` */
  ghost function Anchored(code: string, core: Re): seq<Branch>
    requires |code| > 0
  {
    [Branch(true, Cat(Optional(Lit(code)), core), true)]
  }

  /** The whole pattern of a rule. The Irish and British patterns are
      top-level alternations without an enclosing group, so `^` belongs to
      their first alternative and `$` to their last only. */
  ghost function PatternOf(rule: Rule): seq<Branch>
  {
    match rule
    case Ireland =>
      [ Branch(true, Cat(Optional(Lit("IE")), IrishFirstRe), false),
        Branch(false, Cat(Optional(Lit("IE")), IrishSecondRe), true) ]
    case UnitedKingdom =>
      [ Branch(true, Cat(Optional(Lit("GB")), StandardRe), false),
        Branch(false, Cat(Optional(Lit("GB")), BranchRe), false),
        Branch(false, Cat(Optional(Lit("GB")), GovernmentRe), false),
        Branch(false, Cat(Optional(Lit("GB")), HealthRe), true) ]
    case _ => Anchored(Code(rule), CoreRe(rule))
  }
}
