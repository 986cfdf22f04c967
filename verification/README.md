# VAT number validator, modelled in Dafny

This project models the class `VatValidator` of `src/VatValidator.php`. The
class checks European VAT registration numbers against a regular expression
per country. A validator holds a number and a country key. The key comes from
one of three places:

- the country argument, given as a two-letter key, an ISO 3166 alpha-3 code
  or an English country name, in any letter case;
- or, when that argument is empty, the first two characters of the number.

`isValid` is true when the key has a pattern and `preg_match` finds that
pattern in the number. The static `validate` builds a validator and asks it.

## How the model is built

- `ascii.dfy` holds ASCII character classes and the case mappings of
  `strtoupper` and `strtolower`.
- `regex.dfy` is a small regular-expression language with a language
  semantics:
  - `Denotes` says which strings a term stands for.
  - `BranchMatches` and `Search` say what `preg_match` reports for a
    top-level alternation whose alternatives carry their own `^` and `$`.
  - The semantics follows PCRE:
    - `/i` compares letters without regard to case.
    - `$` without the `D` modifier also matches just before one final line
      feed.
    - A top-level `|` splits the pattern, so `^` belongs only to the first
      alternative and `$` only to the last.
- `patterns.dfy` transcribes every pattern of `$_countryPatterns`, term by
  term, into that language (`PatternOf`).
- `matchers.dfy` gives a hand-written recogniser for each pattern. Each one is
  proved to accept exactly the strings for which the transcribed pattern has a
  match. `Matches` is the recogniser the validator uses, and its contract is
  that equivalence.
- `tables.dfy` holds the three lookup arrays as maps. The two pattern keys
  that share a pattern text map to one rule: GR and EL, and UK and GB.
- `validator.dfy` holds the class. An object is an immutable value
  `Validator(vat, country)`, and each setter returns the updated value.
- `properties.dfy` states what the patterns accept and reject, country by
  country.
- `vectors.dfy` restates a selection of rows of `tests/VatValidatorTest.php`
  as lemmas.

The model follows the code as written, including behaviour that looks
unintended:

- `AUT` and `austria` resolve to the key `AU`. `AU` has no pattern, so Austria
  named that way never validates.
- The name key `Ireland` is written with a capital letter. Names are looked up
  after `strtolower`, so that entry is never reached and Ireland cannot be
  named in words.
- The Irish pattern is a double-quoted string that breaks the line between its
  two alternatives. The line feed and twelve spaces of indentation therefore
  belong to the first alternative. Numbers of the older form, a digit, a
  letter, five digits and a letter, are rejected unless the line break follows
  them.
- Every alternative of the Irish and British patterns carries at most one
  anchor. The first alternative has only `^`, the last only `$`, and the two
  middle British ones none. Text after a first alternative and before a last
  one goes through, and a middle British alternative may sit anywhere.
- Belgium's class `[0,1]` contains the comma.
- The end anchor of every single-alternative pattern accepts one trailing line
  feed, and no more than one.

## Model

| member | source | states |
|---|---|---|
| Matchers.Matches | src/VatValidator.php:25-67 | the recogniser for a rule accepts a string exactly when the rule's pattern, read as PCRE reads it with `/i`, has a match in the string |
| Matchers.CoreDenotes | src/VatValidator.php:26-55 | for each single-alternative pattern, the check of the part after `(XX){0,1}` accepts exactly the strings of that part |
| Matchers.WithOptionalCodeDenotes | src/VatValidator.php:26-55 | `(XX){0,1}core` accepts the core alone or the two-letter code in any case followed by the core |
| Matchers.AnchoredMatchIsSearch | src/VatValidator.php:26-55 | `^(XX){0,1}core$` matches the whole string, or the string without one final line feed |
| Matchers.BelgiumDenotes | src/VatValidator.php:27 | the Belgian core is one of `0`, `,` or `1` followed by nine digits |
| Matchers.DanishDenotes | src/VatValidator.php:32 | `([0-9]{2}[\ ]{0,1}){k}[0-9]{2}` is k + 1 two-digit groups, each of the first k optionally followed by one space |
| Matchers.SpainDenotes | src/VatValidator.php:35 | the Spanish core is a digit or letter, seven digits, and a digit or letter |
| Matchers.FranceDenotes | src/VatValidator.php:38 | the French core is two digits or letters, an optional space, and nine digits |
| Matchers.NetherlandsDenotes | src/VatValidator.php:49 | the Dutch core is nine digits, the letter B in either case, and two digits |
| Matchers.SwedenDenotes | src/VatValidator.php:55 | the Swedish core is ten digits followed by `01` |
| Matchers.IrishFirstDenotes | src/VatValidator.php:41 | the first Irish alternative after its code is a digit; a digit, letter, `+` or `*`; five digits; a letter; then the line feed and twelve spaces of the source line break |
| Matchers.IrishSecondDenotes | src/VatValidator.php:42 | the second Irish alternative after its code is seven digits and one or two letters |
| Matchers.IrishFirstBranch | src/VatValidator.php:41 | the first Irish alternative, anchored at the start only, matches exactly when the string begins with it, with or without `IE` |
| Matchers.IrishSecondBranch | src/VatValidator.php:42 | the second Irish alternative, anchored at the end only, matches exactly when the string ends with seven digits and one or two letters, before at most one line feed |
| Matchers.IrishMatchIsSearch | src/VatValidator.php:41-42 | the Irish recogniser accepts exactly the strings the Irish pattern matches |
| Matchers.StandardDenotes | src/VatValidator.php:57 | a British standard number is nine digits, the first not zero, with optional single spaces after the third and seventh |
| Matchers.BranchNumberDenotes | src/VatValidator.php:58-59 | a British branch number is a standard number followed by an optional space and three digits |
| Matchers.StandardBranch | src/VatValidator.php:57 | the first British alternative matches exactly when some prefix of the string, after an optional `GB`, is a standard number |
| Matchers.BranchNumberBranch | src/VatValidator.php:58-59 | the unanchored second British alternative matches exactly when a branch number occurs anywhere in the string |
| Matchers.GovernmentBranch | src/VatValidator.php:60 | the unanchored third British alternative matches exactly when `GD` and a number from 000 to 499 occur anywhere in the string |
| Matchers.HealthBranch | src/VatValidator.php:61 | the fourth British alternative matches exactly when the string ends, before at most one line feed, with `HA` and a number from 500 to 999 |
| Matchers.BritishMatchIsSearch | src/VatValidator.php:57-66 | the British recogniser accepts exactly the strings the United Kingdom pattern matches |
| Tables.PatternKeysAreUpperPairs | src/VatValidator.php:25-67 | every pattern key is two upper-case letters |
| Tables.Iso3Entries | src/VatValidator.php:70-78 | every alpha-3 key is three upper-case letters, and its value is a pattern key for every code except `AUT` |
| Tables.NameLengths | src/VatValidator.php:80-96 | no country name is two or three characters long, so a name is never taken for a key or a code |
| Tables.NameValues | src/VatValidator.php:80-96 | every name's value is a pattern key except the value of `austria` |
| Tables.NamesStartWithLetter | src/VatValidator.php:80-96 | every country name starts with a letter |
| Tables.LowerIsLowerText | src/VatValidator.php:153 | the lower-cased argument holds no upper-case letter, so a name key written with a capital never matches it |
| VatValidator.Resolve | src/VatValidator.php:138-160 | a two-character argument resolves exactly when its upper-case form is a pattern key, and then to that form; a three-character argument resolves exactly when its upper-case form is an alpha-3 code, and then to that code's key; any other argument resolves exactly when its lower-case form is a country name, and then to that name's key; every result is a pattern key or `AU` |
| VatValidator.Infer | src/VatValidator.php:220-226 | the inferred key is a pattern key that the number starts with, in any case, and a number shorter than two characters gives none |
| VatValidator.New | src/VatValidator.php:104-112 | the constructor stores the number, resolves a non-empty country argument, and otherwise infers the key from the number |
| VatValidator.IsValid | src/VatValidator.php:120-129 | a validator is valid exactly when its key has a pattern and that pattern has a match in its number |
| VatValidator.Validate | src/VatValidator.php:206-211 | the static check is valid exactly when the key chosen from the arguments has a pattern that matches the number |
| VatValidator.ResolveIgnoresCase | src/VatValidator.php:140-154 | two arguments that differ only in letter case resolve to the same key |
| VatValidator.KeysResolveToThemselves | src/VatValidator.php:140-145 | every pattern key, in upper or lower case, resolves to itself |
| VatValidator.Iso3Resolves | src/VatValidator.php:146-152 | every alpha-3 code, in upper or lower case, resolves to its table value, which is a pattern key unless the code is `AUT` |
| VatValidator.NameResolves | src/VatValidator.php:153-154 | every country name written in lower case resolves to its table value |
| VatValidator.AustriaIsNeverValid | src/VatValidator.php:70-96 | `AUT` and `austria`, in any case, resolve to `AU`, and no number is valid for them |
| VatValidator.CapitalisedNameUnreachable | src/VatValidator.php:153 | a name key that holds an upper-case letter, such as `Ireland`, is never equal to the lower-cased argument |
| VatValidator.NumeralIsNoCountry | src/VatValidator.php:140-157 | an argument made only of digits resolves to nothing, so no number is valid for it unless it is `"0"` |
| VatValidator.IrelandByNameIsUnknown | src/VatValidator.php:86 | `ireland`, in any case, resolves to nothing, and no number is valid for it |
| VatValidator.InferFindsLeadingKey | src/VatValidator.php:220-226 | the key inferred from a number is a given pattern key exactly when the number starts with that key, in any case |
| VatValidator.InferredAgreesWithExplicit | src/VatValidator.php:104-112 | with an empty country argument, a number is judged exactly as if its inferred key had been passed |
| VatValidator.ZeroCountryIsEmpty | src/VatValidator.php:106 | the country argument `"0"` is empty for the constructor, just as `""` is |
| VatValidator.SetCountryOverrides | src/VatValidator.php:138-160 | a later `setCountry` replaces an earlier one and leaves the number unchanged |
| VatValidator.SetVatNumberFrames | src/VatValidator.php:172-196 | `setVatNumber` stores the number; it keeps the country unless asked to infer, and then the result is the same whatever country was held before |
| VatValidator.SettersCommute | src/VatValidator.php:138-181 | setting the country and setting the number without inference can be done in either order |
| VatValidator.SameRule | src/VatValidator.php:122-128 | two keys with the same pattern judge every number alike |
| VatValidator.SharedPatterns | src/VatValidator.php:36-37 | GR and EL judge every number alike |
| VatValidator.SharedBritishPatterns | src/VatValidator.php:57-66 | UK and GB judge every number alike |
| Properties.OneTrailingNewline | src/VatValidator.php:26-55 | a single-alternative pattern accepts a string followed by one line feed exactly when it accepts the string |
| Properties.NoSecondNewline | src/VatValidator.php:26-55 | no single-alternative pattern accepts a string that ends with two line feeds |
| Properties.AustriaNeedsU | src/VatValidator.php:26 | for Austria, the `U` and eight digits are valid with or without the code `AT` in front |
| Properties.AustriaRejectsDigitsOnly | src/VatValidator.php:26 | for Austria, `AT` followed by nine digits is not valid |
| Properties.RomaniaLengths | src/VatValidator.php:52 | for Romania, `RO` followed by digits is valid exactly when there are two to ten digits |
| Properties.SwedenSuffix | src/VatValidator.php:55 | for Sweden, `SE`, ten digits and two more digits are valid exactly when the last two are `01` |
| Properties.NetherlandsLetter | src/VatValidator.php:49 | for the Netherlands, `NL`, nine digits, one character and two digits are valid exactly when the character is `B` or `b` |
| Properties.IrishSecondAnywhere | src/VatValidator.php:42 | for Ireland, any text followed by seven digits and one or two letters is valid |
| Properties.IrishLetterInSecondPlaceRejected | src/VatValidator.php:41 | for Ireland, `IE` followed by a digit, a letter, five digits and a letter is not valid |
| Properties.BritishStandardPrefix | src/VatValidator.php:57 | for GB, `GB` and a standard number followed by any text is valid |
| Properties.BritishStandardBare | src/VatValidator.php:57 | for GB, a standard number followed by any text is valid |
| Properties.BranchNumberLength | src/VatValidator.php:58-59 | a branch number is at least twelve characters long |
| Properties.GovernmentRange | src/VatValidator.php:60 | for GB, `GBGD` and three digits are valid exactly when the first digit is at most 4 |
| Properties.HealthRange | src/VatValidator.php:61 | for GB, `GBHA` and three digits are valid exactly when the first digit is at least 5 |
| Vectors.ValidLuxembourg | tests/VatValidatorTest.php:31 | `LU12345678` is valid for `LU` |
| Vectors.ValidAustria | tests/VatValidatorTest.php:32 | `ATU12345678` is valid for `AT` |
| Vectors.ValidBelgium | tests/VatValidatorTest.php:33 | `BE0123456789` is valid for `BE` |
| Vectors.ValidBelgiumByName | tests/VatValidatorTest.php:34 | `BE1234567890` is valid for `Belgium` |
| Vectors.ValidBulgariaShort | tests/VatValidatorTest.php:35 | `BG123456789` is valid for `BG` |
| Vectors.ValidBulgariaByCode | tests/VatValidatorTest.php:36 | `BG1234567890` is valid for `BGR` |
| Vectors.ValidCyprus | tests/VatValidatorTest.php:37 | `CY12345678A` is valid for `CY` |
| Vectors.ValidCzechia | tests/VatValidatorTest.php:38 | `CZ12345678` is valid for `CZ` |
| Vectors.ValidCzechiaByName | tests/VatValidatorTest.php:39 | `CZ1234567890` is valid for `Czech Republic`, resolved through the name table |
| Vectors.ValidEstonia | tests/VatValidatorTest.php:40 | `EE123456789` is valid for `EE` |
| Vectors.ValidFinland | tests/VatValidatorTest.php:41 | `FI12345678` is valid for `FI` |
| Vectors.ValidFrance | tests/VatValidatorTest.php:42 | `FR12123456789` is valid for `FR` |
| Vectors.ValidGermany | tests/VatValidatorTest.php:43 | `DE123456789` is valid for `DE` |
| Vectors.ValidGreeceUnderGR | tests/VatValidatorTest.php:44 | `EL123456789` is valid for `GR` |
| Vectors.ValidGreeceUnderEL | tests/VatValidatorTest.php:45 | `EL123456789` is valid for `EL` |
| Vectors.ValidHungary | tests/VatValidatorTest.php:46 | `HU12345678` is valid for `HU` |
| Vectors.ValidIrelandOneLetter | tests/VatValidatorTest.php:47 | `IE1234567A` is valid for `IE` |
| Vectors.ValidIreland | tests/VatValidatorTest.php:48 | `IE1234567AW` is valid for `IE` |
| Vectors.ValidItaly | tests/VatValidatorTest.php:49 | `IT12345678901` is valid for `IT` |
| Vectors.ValidLatvia | tests/VatValidatorTest.php:50 | `LV12345678901` is valid for `LV` |
| Vectors.ValidLithuaniaNine | tests/VatValidatorTest.php:51 | `LT123456789` is valid for `LT` |
| Vectors.ValidLithuaniaTwelve | tests/VatValidatorTest.php:52 | `LT123456789012` is valid for `LT` |
| Vectors.ValidMalta | tests/VatValidatorTest.php:53 | `MT12345678` is valid for `MT` |
| Vectors.ValidNetherlands | tests/VatValidatorTest.php:54 | `NL123456789B12` is valid for `NL` |
| Vectors.ValidPortugal | tests/VatValidatorTest.php:55 | `PT123456789` is valid for `PT` |
| Vectors.ValidRomaniaBounds | tests/VatValidatorTest.php:56-58 | `RO12`, `RO1234567890` and `RO123456` are valid for `RO` |
| Vectors.ValidSlovakia | tests/VatValidatorTest.php:59 | `SK1234567890` is valid for `SK` |
| Vectors.ValidSlovenia | tests/VatValidatorTest.php:60 | `SI12345678` is valid for `SI` |
| Vectors.ValidSpain | tests/VatValidatorTest.php:61 | `ESA2345678A` is valid for `ES` |
| Vectors.ValidSpainByName | tests/VatValidatorTest.php:62 | `ESA23456789` is valid for `Spain`, resolved through the name table |
| Vectors.ValidSpainByCode | tests/VatValidatorTest.php:63 | `ES12345678A` is valid for `ESP`, resolved through the alpha-3 table |
| Vectors.ValidSweden | tests/VatValidatorTest.php:64 | `SE123456789001` is valid for `SE` |
| Vectors.ValidBritishStandard | tests/VatValidatorTest.php:65 | `GB123456789` is valid for `GB` |
| Vectors.ValidBritishBranchUnderUK | tests/VatValidatorTest.php:66 | `GB123456789012` is valid for `UK` |
| Vectors.ValidGovernmentDepartment | tests/VatValidatorTest.php:67 | `GBGD001` is valid for `GB` |
| Vectors.ValidGovernmentDepartmentByName | tests/VatValidatorTest.php:68 | `GBGD499` is valid for `Great Britain` |
| Vectors.ValidHealthAuthorityByName | tests/VatValidatorTest.php:69 | `GBHA500` is valid for `Great Britain` |
| Vectors.ValidHealthAuthorityTopByName | tests/VatValidatorTest.php:70 | `GBHA999` is valid for `Great Britain` |
| Vectors.InvalidNoCountry | tests/VatValidatorTest.php:76 | `asd` with no country is not valid |
| Vectors.InvalidTrueCountry | tests/VatValidatorTest.php:77 | `-1` is not valid for `true`, which PHP passes on as `"1"` |
| Vectors.InvalidIntegerCountry | tests/VatValidatorTest.php:78 | the empty number is not valid for `123`, which PHP passes on as `"123"` |
| Vectors.InvalidNumericCountry | tests/VatValidatorTest.php:79 | `LU123456789` is not valid for `11` |
| Vectors.InvalidAustria | tests/VatValidatorTest.php:80 | `AT123456789` is not valid for `AT` |
| Vectors.InvalidBelgium | tests/VatValidatorTest.php:81 | `BE234567891` is not valid for `BE` |
| Vectors.InvalidEstonia | tests/VatValidatorTest.php:82 | `EE123456` is not valid for `EE` |
| Vectors.InvalidNetherlands | tests/VatValidatorTest.php:83 | `NL123456789A12` is not valid for `NL` |
| Vectors.InvalidNetherlandsDigitsOnly | tests/VatValidatorTest.php:84 | `NL123456789012` is not valid for `NL` |
| Vectors.InvalidPortugal | tests/VatValidatorTest.php:85 | `PT123456789123456` is not valid for `PT` |
| Vectors.InvalidRomaniaBounds | tests/VatValidatorTest.php:86-87 | `RO123456789123456789` and `RO1` are not valid for `RO` |
| Vectors.InvalidSpain | tests/VatValidatorTest.php:88 | `ES1A23456789` is not valid for `ES` |
| Vectors.InvalidSweden | tests/VatValidatorTest.php:89 | `SE123456789012` is not valid for `SE` |
| Vectors.InvalidGovernmentDepartment | tests/VatValidatorTest.php:90 | `GBGD500` is not valid for `GB` |
| Vectors.InvalidHealthAuthority | tests/VatValidatorTest.php:91 | `GBHA123` is not valid for `GB` |

## Left out

- Arguments of other PHP types are not modelled. The source accepts booleans,
  integers and null, and PHP converts them to strings. Every argument here is
  a string: `null` is written as `""`, `true` as `"1"` and an integer as its
  decimal digits.
- The model does not tell `null` from `""`. `empty()` treats both alike.
- Only the string `"0"` is modelled as PHP's other empty value. `"0.0"` and
  `" "` are not empty in PHP, and they are not empty in the model either.
- Strings are sequences of characters, not bytes. `strlen` and `substr` count
  bytes, so multibyte input is not modelled.
- `strtoupper` and `strtolower` are modelled as ASCII-only case mappings. The
  mappings of older PHP versions depended on the locale.
- The Irish pattern's line break is a line feed and twelve spaces, as in a
  checkout with LF line endings. With CRLF line endings it would also hold a
  carriage return.
- `preg_match` errors are not modelled. The patterns are constants and compile.
- Setters return the new value instead of `$this`. Fluent chaining is plain
  function composition here.
- VatValidator.SetCountry: carries no contract of its own. Its behaviour is
  stated by VatValidator.SetCountryOverrides and VatValidator.SettersCommute.
- VatValidator.SetVatNumber: carries no contract of its own. Its behaviour is
  stated by VatValidator.SetVatNumberFrames and VatValidator.SettersCommute.
- VatValidator.GetVat: carries no contract of its own; it returns the stored
  number, as the setter lemmas state.
- VatValidator.GetCountry: carries no contract of its own; it returns the
  stored key, as the setter lemmas state.
- Checksums are not modelled. The source checks only the format of a number.
