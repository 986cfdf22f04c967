/** The class VatValidator of src/VatValidator.php. An object is modelled as
    an immutable value: every setter returns the updated validator, and the
    static `validate` builds one and asks it. */
module VatValidator {
  import opened Ascii
  import opened Wrappers
  import opened Regex
  import opened Patterns
  import opened Matchers
  import opened Tables

  /** The properties `_vat` and `_country`; a country of `null` is None. */
  datatype Validator = Validator(vat: string, country: Option<string>)

  /** Both properties before the constructor assigns them. */
  const Blank: Validator := Validator("", None)

  /** PHP's `empty()` on a string: the empty string and "0". */
  predicate IsEmpty(s: string)
  {
    s == "" || s == "0"
  }

  /** The key `setCountry` stores for its argument: a two-letter pattern key
      in any case, else an alpha-3 code in any case, else a country name in
      any case, else nothing. */
  function Resolve(c: string): (r: Option<string>)
    ensures |c| == 2 ==> (r.Some? <==> ToUpper(c) in PatternTable)
    ensures |c| == 2 && r.Some? ==> r.value == ToUpper(c)
    ensures |c| == 3 ==> (r.Some? <==> ToUpper(c) in Iso3Table)
    ensures |c| == 3 && r.Some? ==> r.value == Iso3Table[ToUpper(c)]
    ensures |c| != 2 && |c| != 3 ==> (r.Some? <==> ToLower(c) in NameTable)
    ensures |c| != 2 && |c| != 3 && r.Some? ==> r.value == NameTable[ToLower(c)]
    ensures r.Some? ==> r.value in PatternTable || r.value == "AU"
  {
    if |c| == 2 && ToUpper(c) in PatternTable then
      Some(ToUpper(c))
    else if |c| == 3 && ToUpper(c) in Iso3Table then
      Iso3Entries(ToUpper(c));
      Some(Iso3Table[ToUpper(c)])
    else if ToLower(c) in NameTable then
      NameLengths(ToLower(c));
      NameValues(ToLower(c));
      Some(NameTable[ToLower(c)])
    else
      None
  }

  /** `getCountryFromVat`: the number's first two characters, upper-cased,
      when they are a pattern key. */
  function Infer(vat: string): (r: Option<string>)
    ensures r.Some? ==> r.value in PatternTable && StartsWithIgnoringCase(vat, r.value)
    ensures |vat| < 2 ==> r == None
  {
    var head := ToUpper(if |vat| < 2 then vat else vat[..2]);
    if head in PatternTable then
      PatternKeysAreUpperPairs(head);
      UpperWordIsFixed(head);
      EqualsIgnoringCaseIsUpperEquality(vat[..2], head);
      Some(head)
    else
      None
  }

  /** `setCountry`. */
  function SetCountry(v: Validator, c: string): (r: Validator)
  {
    v.(country := Resolve(c))
  }

  /** `setVatNumber`: stores the number, and with `update` also the key
      inferred from it. */
  function SetVatNumber(v: Validator, vat: string, update: bool): (r: Validator)
  {
    if update then v.(vat := vat, country := Infer(vat)) else v.(vat := vat)
  }

  /** `getVat`. */
  function GetVat(v: Validator): string
  {
    v.vat
  }

  /** `getCountry`. */
  function GetCountry(v: Validator): Option<string>
  {
    v.country
  }

  /** The constructor: a country that is not empty is resolved; an empty
      one is inferred from the number. */
  function New(vat: string, country: string): (r: Validator)
    ensures r.vat == vat
    ensures !IsEmpty(country) ==> r.country == Resolve(country)
    ensures IsEmpty(country) ==> r.country == Infer(vat)
  {
    if !IsEmpty(country) then
      SetVatNumber(SetCountry(Blank, country), vat, false)
    else
      SetVatNumber(Blank, vat, true)
  }

  /** `isValid`: the country is a pattern key and its pattern, as PCRE reads
      it, finds a match in the number. */
  function IsValid(v: Validator): (r: bool)
    ensures r <==> v.country.Some? && v.country.value in PatternTable
                   && Search(PatternOf(PatternTable[v.country.value]), v.vat)
  {
    v.country.Some? && v.country.value in PatternTable
    && Matches(PatternTable[v.country.value], v.vat)
  }

  /** The key a validator constructed from these arguments holds. */
  function KeyFor(vat: string, country: string): Option<string>
  {
    if IsEmpty(country) then Infer(vat) else Resolve(country)
  }

  /** The static `validate`. */
  function Validate(vat: string, country: string): (r: bool)
    ensures r <==> KeyFor(vat, country).Some? && KeyFor(vat, country).value in PatternTable
                   && Search(PatternOf(PatternTable[KeyFor(vat, country).value]), vat)
  {
    IsValid(New(vat, country))
  }

  // ---------------------------------------------------------------------
  // Resolving a country

  /** Resolution does not depend on the case the argument is written in. */
  lemma ResolveIgnoresCase(c: string, d: string)
    requires ToLower(c) == ToLower(d)
    ensures Resolve(c) == Resolve(d)
  {
    UpperAfterLower(c);
    UpperAfterLower(d);
  }

  lemma LowerTwice(s: string)
    ensures ToLower(ToLower(s)) == ToLower(s)
  {
    UpperAfterLower(s);
    UpperAfterLower(ToLower(s));
  }

  /** Every pattern key, in either case, resolves to itself. */
  lemma KeysResolveToThemselves(k: string)
    requires k in PatternTable
    ensures Resolve(k) == Some(k)
    ensures Resolve(ToLower(k)) == Some(k)
  {
    PatternKeysAreUpperPairs(k);
    UpperWordIsFixed(k);
    LowerTwice(k);
    ResolveIgnoresCase(k, ToLower(k));
  }

  /** Every alpha-3 code, in either case, resolves to its table value, and
      that value is a pattern key for every code but AUT. */
  lemma Iso3Resolves(k: string)
    requires k in Iso3Table
    ensures Resolve(k) == Resolve(ToLower(k)) == Some(Iso3Table[k])
    ensures Iso3Table[k] in PatternTable <==> k != "AUT"
  {
    Iso3Entries(k);
    UpperWordIsFixed(k);
    LowerTwice(k);
    ResolveIgnoresCase(k, ToLower(k));
  }

  /** Every country name written in lower case resolves to its table value. */
  lemma NameResolves(k: string)
    requires k in NameTable && ToLower(k) == k
    ensures Resolve(k) == Some(NameTable[k])
  {
    NameLengths(k);
  }

  /** Austria cannot be named by alpha-3 code or by name: both resolve to
      "AU", for which there is no pattern, so no number validates. */
  lemma AustriaIsNeverValid(vat: string, c: string)
    requires ToLower(c) == "aut" || ToLower(c) == "austria"
    ensures Resolve(c) == Some("AU")
    ensures !Validate(vat, c)
  {
    if ToLower(c) == "aut" {
      AustriaByCode(c);
    } else {
      AustriaByName(c);
    }
    assert "AU" !in PatternTable;
    assert c != "" && c != "0";
  }

  lemma AustriaByCode(c: string)
    requires ToLower(c) == "aut"
    ensures Resolve(c) == Some("AU")
  {
    UpperAfterLower(c);
    assert ToUpper(c) == ToUpper("aut") == "AUT";
    assert Iso3Table["AUT"] == "AU";
  }

  lemma AustriaByName(c: string)
    requires ToLower(c) == "austria"
    ensures Resolve(c) == Some("AU")
  {
    assert NameTable["austria"] == "AU";
  }

  /** The name key "Ireland" is never reached, because names are looked up
      in lower case: Ireland cannot be named in words. */
  lemma IrelandByNameIsUnknown(vat: string, c: string)
    requires ToLower(c) == "ireland"
    ensures Resolve(c) == None
    ensures !Validate(vat, c)
  {
    assert "ireland" !in NameTable;
    assert c != "" && c != "0";
  }

  /** A name key holding an upper-case letter is never the looked-up name,
      whatever the argument. */
  lemma CapitalisedNameUnreachable(c: string, k: string)
    requires !IsLowerText(k)
    ensures ToLower(c) != k
  {
    LowerIsLowerText(c);
  }

  /** An argument made of digits names no country, so no number is valid for
      it unless it is PHP-empty. */
  lemma NumeralIsNoCountry(vat: string, c: string)
    requires |c| > 0 && AllDigits(c)
    ensures Resolve(c) == None
    ensures c != "0" ==> !Validate(vat, c)
  {
    assert ToUpper(c)[0] == c[0] && ToLower(c)[0] == c[0];
    if ToUpper(c) in PatternTable {
      PatternKeysAreUpperPairs(ToUpper(c));
    }
    if ToUpper(c) in Iso3Table {
      Iso3Keys(ToUpper(c));
    }
    if ToLower(c) in NameTable {
      NamesStartWithLetter(ToLower(c));
    }
  }

  // ---------------------------------------------------------------------
  // Inferring a country

  /** The inferred key is exactly the pattern key the number starts with. */
  lemma InferFindsLeadingKey(vat: string, k: string)
    requires k in PatternTable
    ensures Infer(vat) == Some(k) <==> StartsWithIgnoringCase(vat, k)
  {
    PatternKeysAreUpperPairs(k);
    if StartsWithIgnoringCase(vat, k) {
      EqualsIgnoringCaseIsUpperEquality(vat[..2], k);
      UpperWordIsFixed(k);
    }
  }

  /** With no country given, a number is judged exactly as if the key it
      starts with had been given. */
  lemma InferredAgreesWithExplicit(vat: string)
    requires Infer(vat).Some?
    ensures Validate(vat, "") == Validate(vat, Infer(vat).value)
  {
    var k := Infer(vat).value;
    KeysResolveToThemselves(k);
    PatternKeysAreUpperPairs(k);
  }

  /** "0" is as empty as "" for the constructor. */
  lemma ZeroCountryIsEmpty(vat: string)
    ensures Validate(vat, "0") == Validate(vat, "")
  {
  }

  // ---------------------------------------------------------------------
  // Setters and getters

  /** A later `setCountry` overrides an earlier one, and `setCountry`
      leaves the number alone. */
  lemma SetCountryOverrides(v: Validator, a: string, b: string)
    ensures SetCountry(SetCountry(v, a), b) == SetCountry(v, b)
    ensures GetVat(SetCountry(v, a)) == GetVat(v)
    ensures GetCountry(SetCountry(v, a)) == Resolve(a)
  {
  }

  /** `setVatNumber` without update leaves the country alone; with update
      the country follows the number, whatever country was held before. */
  lemma SetVatNumberFrames(v: Validator, vat: string, update: bool, c: Option<string>)
    ensures GetVat(SetVatNumber(v, vat, update)) == vat
    ensures !update ==> GetCountry(SetVatNumber(v, vat, update)) == GetCountry(v)
    ensures update ==> GetCountry(SetVatNumber(v, vat, update)) == Infer(vat)
    ensures update ==> SetVatNumber(v, vat, update) == SetVatNumber(v.(country := c), vat, update)
  {
  }

  /** Setting the country and setting the number without update commute. */
  lemma SettersCommute(v: Validator, vat: string, c: string)
    ensures SetCountry(SetVatNumber(v, vat, false), c) == SetVatNumber(SetCountry(v, c), vat, false)
  {
  }

  /** Two keys with the same rule judge every number alike. */
  lemma SameRule(vat: string, a: string, b: string)
    requires a in PatternTable && b in PatternTable && PatternTable[a] == PatternTable[b]
    ensures Validate(vat, a) == Validate(vat, b)
  {
    KeysResolveToThemselves(a);
    KeysResolveToThemselves(b);
    PatternKeysAreUpperPairs(a);
    PatternKeysAreUpperPairs(b);
  }

  /** GR and EL carry the same pattern. */
  lemma SharedPatterns(vat: string)
    ensures Validate(vat, "GR") == Validate(vat, "EL")
  {
    GreekKeys();
    SameRule(vat, "GR", "EL");
  }

  lemma GreekKeys()
    ensures "GR" in PatternTable && "EL" in PatternTable && PatternTable["GR"] == PatternTable["EL"]
  {
  }

  /** UK and GB carry the same pattern. */
  lemma SharedBritishPatterns(vat: string)
    ensures Validate(vat, "UK") == Validate(vat, "GB")
  {
    BritishKeys();
    SameRule(vat, "UK", "GB");
  }

  lemma BritishKeys()
    ensures "UK" in PatternTable && "GB" in PatternTable && PatternTable["UK"] == PatternTable["GB"]
  {
  }
}
