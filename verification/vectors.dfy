/** Rows of the data sets in tests/VatValidatorTest.php, stated as facts
    about the model, one row per lemma. Arguments that PHP passes as other
    scalars are written as the strings PHP converts them to: null is "". */
module Vectors {
  import opened Ascii
  import opened Wrappers
  import opened Regex
  import opened Patterns
  import opened Matchers
  import opened Tables
  import opened VatValidator
  import opened Properties

  // ---------------------------------------------------------------------
  // Helpers

  lemma LuxembourgEntry()
    ensures "LU" in PatternTable && PatternTable["LU"] == Luxembourg
  {
  }

  lemma FranceEntry()
    ensures "FR" in PatternTable && PatternTable["FR"] == France
  {
  }

  lemma BelgiumEntry()
    ensures "BE" in PatternTable && PatternTable["BE"] == Belgium
  {
  }

  lemma BulgariaEntry()
    ensures "BG" in PatternTable && PatternTable["BG"] == Bulgaria
  {
  }

  lemma GreekEntry()
    ensures "EL" in PatternTable && PatternTable["EL"] == Greece
  {
  }

  lemma CyprusEntry()
    ensures "CY" in PatternTable && PatternTable["CY"] == Cyprus
  {
  }

  lemma CzechEntry()
    ensures "CZ" in PatternTable && PatternTable["CZ"] == Czechia
  {
  }

  lemma EstoniaEntry()
    ensures "EE" in PatternTable && PatternTable["EE"] == Estonia
  {
  }

  lemma FinlandEntry()
    ensures "FI" in PatternTable && PatternTable["FI"] == Finland
  {
  }

  lemma GermanyEntry()
    ensures "DE" in PatternTable && PatternTable["DE"] == Germany
  {
  }

  lemma HungaryEntry()
    ensures "HU" in PatternTable && PatternTable["HU"] == Hungary
  {
  }

  lemma ItalyEntry()
    ensures "IT" in PatternTable && PatternTable["IT"] == Italy
  {
  }

  lemma LatviaEntry()
    ensures "LV" in PatternTable && PatternTable["LV"] == Latvia
  {
  }

  lemma LithuaniaEntry()
    ensures "LT" in PatternTable && PatternTable["LT"] == Lithuania
  {
  }

  lemma MaltaEntry()
    ensures "MT" in PatternTable && PatternTable["MT"] == Malta
  {
  }

  lemma PortugalEntry()
    ensures "PT" in PatternTable && PatternTable["PT"] == Portugal
  {
  }

  lemma SlovakiaEntry()
    ensures "SK" in PatternTable && PatternTable["SK"] == Slovakia
  {
  }

  lemma SloveniaEntry()
    ensures "SI" in PatternTable && PatternTable["SI"] == Slovenia
  {
  }

  lemma SpainEntry()
    ensures "ES" in PatternTable && PatternTable["ES"] == Spain
  {
  }

  /** A simple rule's key, when it is also the rule's code, accepts that
      code followed by the rule's core. */
  lemma KeyedCore(k: string, rule: Rule, d: string)
    requires k in PatternTable && PatternTable[k] == rule
    requires IsSimple(rule) && Code(rule) == k && Core(rule, d)
    ensures Validate(k + d, k)
  {
    CodeThenCore(rule, d);
    GivenKey(k + d, k, rule);
  }

  /** A country argument that resolves to a pattern key selects its rule. */
  lemma GivenResolved(vat: string, c: string, k: string, rule: Rule)
    requires Resolve(c) == Some(k) && k in PatternTable && PatternTable[k] == rule
    requires c != "" && c != "0"
    ensures Validate(vat, c) == Matches(rule, vat)
  {
  }

  /** A country argument that resolves to a simple rule's code accepts that
      code followed by the rule's core. */
  lemma ResolvedCore(d: string, c: string, k: string, rule: Rule)
    requires Resolve(c) == Some(k) && k in PatternTable && PatternTable[k] == rule
    requires c != "" && c != "0"
    requires IsSimple(rule) && Code(rule) == k && Core(rule, d)
    ensures Validate(k + d, c)
  {
    CodeThenCore(rule, d);
    GivenResolved(k + d, c, k, rule);
  }

  /** A simple rule's key rejects a number that is not the rule's core,
      neither with nor without the code in front, and does not end in a
      line feed. */
  lemma KeyedReject(k: string, rule: Rule, t: string)
    requires k in PatternTable && PatternTable[k] == rule && IsSimple(rule)
    requires !Core(rule, k + t) && !Core(rule, t)
    requires |t| > 0 && t[|t| - 1] != '\n'
    ensures !Validate(k + t, k)
  {
    var s := k + t;
    GivenKey(s, k, rule);
    SimpleMatch(rule, s);
    PatternKeysAreUpperPairs(k);
    assert s[2..] == t;
    assert !EndsWithNewline(s) by {
      assert s[|s| - 1] == t[|t| - 1];
    }
    assert !WithOptionalCode(rule, s);
  }

  /** A country name in any case resolves to its table value. */
  lemma ResolveByName(c: string)
    requires ToLower(c) in NameTable
    ensures Resolve(c) == Some(NameTable[ToLower(c)])
  {
    NameLengths(ToLower(c));
  }

  lemma TenDigits()
    ensures Core(Belgium, "1234567890") && Core(Bulgaria, "1234567890")
  {
  }

  lemma BelgiumByName()
    ensures Resolve("Belgium") == Some("BE")
  {
    BelgiumName();
    NameResolves("belgium");
    ResolveIgnoresCase("Belgium", "belgium");
  }

  lemma BelgiumName()
    ensures "belgium" in NameTable && NameTable["belgium"] == "BE"
    ensures ToLower("Belgium") == ToLower("belgium") == "belgium"
  {
  }

  lemma BulgariaByCode()
    ensures Resolve("BGR") == Some("BG")
  {
    BulgariaCode();
    Iso3Resolves("BGR");
  }

  lemma BulgariaCode()
    ensures "BGR" in Iso3Table && Iso3Table["BGR"] == "BG"
  {
  }

  lemma GreatBritainByName()
    ensures Resolve("Great Britain") == Some("GB")
  {
    GreatBritainName();
    NameResolves("great britain");
    ResolveIgnoresCase("Great Britain", "great britain");
  }

  lemma GreatBritainName()
    ensures "great britain" in NameTable && NameTable["great britain"] == "GB"
    ensures ToLower("Great Britain") == ToLower("great britain") == "great britain"
  {
  }

  lemma CzechName()
    ensures ToLower("Czech Republic") == "czech republic"
    ensures "czech republic" in NameTable && NameTable["czech republic"] == "CZ"
  {
  }

  lemma SpainName()
    ensures ToLower("Spain") == "spain"
    ensures "spain" in NameTable && NameTable["spain"] == "ES"
  {
  }

  lemma SpainCode()
    ensures "ESP" in Iso3Table && Iso3Table["ESP"] == "ES"
  {
  }

  lemma StandardExample()
    ensures StandardNumber("123456789")
  {
    var n := "123456789";
    assert n[1..][..2] == "23" && n[1..][2..] == "456789";
    assert n[1..][2..][..4] == "4567" && n[1..][2..][4..] == "89";
    assert DigitGroups(n[1..][2..][4..], [2]);
    assert DigitGroups(n[1..][2..], [4, 2]);
    assert DigitGroups(n[1..], [2, 4, 2]);
  }

  lemma HealthExample()
    ensures Matches(UnitedKingdom, "GBHA" + "500")
  {
    HealthWindow("500");
  }

  lemma NothingInferredFromAsd()
    ensures Infer("asd") == None
  {
    assert "asd"[..2] == "as";
    assert ToUpper("as") == "AS";
  }

  // ---------------------------------------------------------------------
  // Valid numbers

  lemma ValidLuxembourg()
    ensures Validate("LU" + "12345678", "LU")
  {
    LuxembourgEntry();
    KeyedCore("LU", Luxembourg, "12345678");
  }

  lemma ValidAustria()
    ensures Validate("ATU" + "12345678", "AT")
  {
    AustriaNeedsU("12345678");
  }

  lemma ValidFrance()
    ensures Validate("FR" + "12123456789", "FR")
  {
    FranceEntry();
    assert "12123456789"[2..] == "123456789";
    KeyedCore("FR", France, "12123456789");
  }

  lemma ValidGreeceUnderGR()
    ensures Validate("EL" + "123456789", "GR")
  {
    GreekEntry();
    KeyedCore("EL", Greece, "123456789");
    SharedPatterns("EL" + "123456789");
  }

  lemma ValidBelgiumByName()
    ensures Validate("BE" + "1234567890", "Belgium")
  {
    BelgiumEntry();
    BelgiumByName();
    TenDigits();
    ResolvedCore("1234567890", "Belgium", "BE", Belgium);
  }

  lemma ValidBulgariaByCode()
    ensures Validate("BG" + "1234567890", "BGR")
  {
    BulgariaEntry();
    BulgariaByCode();
    TenDigits();
    ResolvedCore("1234567890", "BGR", "BG", Bulgaria);
  }

  lemma ValidIreland()
    ensures Validate("IE" + "1234567" + "AW", "IE")
  {
    IrishSecondAnywhere("IE", "1234567", "AW");
  }

  lemma ValidNetherlands()
    ensures Validate("NL" + "123456789" + ['B'] + "12", "NL")
  {
    NetherlandsLetter("123456789", 'B', "12");
  }

  lemma ValidRomaniaBounds()
    ensures Validate("RO" + "12", "RO")
    ensures Validate("RO" + "1234567890", "RO")
    ensures Validate("RO" + "123456", "RO")
  {
    RomaniaShortest();
    RomaniaLongest();
    RomaniaMiddle();
  }

  lemma RomaniaMiddle()
    ensures Validate("RO" + "123456", "RO")
  {
    RomaniaLengths("123456");
  }

  lemma RomaniaShortest()
    ensures Validate("RO" + "12", "RO")
  {
    RomaniaLengths("12");
  }

  lemma RomaniaLongest()
    ensures Validate("RO" + "1234567890", "RO")
  {
    RomaniaLengths("1234567890");
  }

  lemma ValidSweden()
    ensures Validate("SE" + "1234567890" + "01", "SE")
  {
    SwedenSuffix("1234567890", "01");
  }

  lemma ValidBritishBranchUnderUK()
    ensures Validate("GB" + "123456789" + "012", "UK")
  {
    StandardExample();
    BritishStandardPrefix("123456789", "012");
    SharedBritishPatterns("GB" + "123456789" + "012");
  }

  lemma ValidHealthAuthorityByName()
    ensures Validate("GBHA" + "500", "Great Britain")
  {
    BritainEntry();
    GreatBritainByName();
    HealthExample();
    GivenResolved("GBHA" + "500", "Great Britain", "GB", UnitedKingdom);
  }

  lemma ValidGovernmentDepartment()
    ensures Validate("GBGD" + "001", "GB")
  {
    GovernmentRange("001");
  }

  lemma ValidBelgium()
    ensures Validate("BE" + "0123456789", "BE")
  {
    BelgiumEntry();
    assert "0123456789"[1..] == "123456789";
    KeyedCore("BE", Belgium, "0123456789");
  }

  lemma ValidBulgariaShort()
    ensures Validate("BG" + "123456789", "BG")
  {
    BulgariaEntry();
    KeyedCore("BG", Bulgaria, "123456789");
  }

  lemma ValidCyprus()
    ensures Validate("CY" + "12345678A", "CY")
  {
    CyprusEntry();
    assert "12345678A"[..8] == "12345678";
    KeyedCore("CY", Cyprus, "12345678A");
  }

  lemma ValidCzechia()
    ensures Validate("CZ" + "12345678", "CZ")
  {
    CzechEntry();
    KeyedCore("CZ", Czechia, "12345678");
  }

  lemma ValidCzechiaByName()
    ensures Validate("CZ" + "1234567890", "Czech Republic")
  {
    CzechEntry();
    CzechName();
    ResolveByName("Czech Republic");
    ResolvedCore("1234567890", "Czech Republic", "CZ", Czechia);
  }

  lemma ValidEstonia()
    ensures Validate("EE" + "123456789", "EE")
  {
    EstoniaEntry();
    KeyedCore("EE", Estonia, "123456789");
  }

  lemma ValidFinland()
    ensures Validate("FI" + "12345678", "FI")
  {
    FinlandEntry();
    KeyedCore("FI", Finland, "12345678");
  }

  lemma ValidGermany()
    ensures Validate("DE" + "123456789", "DE")
  {
    GermanyEntry();
    KeyedCore("DE", Germany, "123456789");
  }

  lemma ValidGreeceUnderEL()
    ensures Validate("EL" + "123456789", "EL")
  {
    GreekEntry();
    KeyedCore("EL", Greece, "123456789");
  }

  lemma ValidHungary()
    ensures Validate("HU" + "12345678", "HU")
  {
    HungaryEntry();
    KeyedCore("HU", Hungary, "12345678");
  }

  lemma ValidIrelandOneLetter()
    ensures Validate("IE" + "1234567" + "A", "IE")
  {
    IrishSecondAnywhere("IE", "1234567", "A");
  }

  lemma ValidItaly()
    ensures Validate("IT" + "12345678901", "IT")
  {
    ItalyEntry();
    KeyedCore("IT", Italy, "12345678901");
  }

  lemma ValidLatvia()
    ensures Validate("LV" + "12345678901", "LV")
  {
    LatviaEntry();
    KeyedCore("LV", Latvia, "12345678901");
  }

  lemma ValidLithuaniaNine()
    ensures Validate("LT" + "123456789", "LT")
  {
    LithuaniaEntry();
    KeyedCore("LT", Lithuania, "123456789");
  }

  lemma ValidLithuaniaTwelve()
    ensures Validate("LT" + "123456789012", "LT")
  {
    LithuaniaEntry();
    KeyedCore("LT", Lithuania, "123456789012");
  }

  lemma ValidMalta()
    ensures Validate("MT" + "12345678", "MT")
  {
    MaltaEntry();
    KeyedCore("MT", Malta, "12345678");
  }

  lemma ValidPortugal()
    ensures Validate("PT" + "123456789", "PT")
  {
    PortugalEntry();
    KeyedCore("PT", Portugal, "123456789");
  }

  lemma ValidSlovakia()
    ensures Validate("SK" + "1234567890", "SK")
  {
    SlovakiaEntry();
    KeyedCore("SK", Slovakia, "1234567890");
  }

  lemma ValidSlovenia()
    ensures Validate("SI" + "12345678", "SI")
  {
    SloveniaEntry();
    KeyedCore("SI", Slovenia, "12345678");
  }

  lemma ValidSpain()
    ensures Validate("ES" + "A2345678A", "ES")
  {
    SpainEntry();
    assert "A2345678A"[1..8] == "2345678";
    KeyedCore("ES", Spain, "A2345678A");
  }

  lemma ValidSpainByName()
    ensures Validate("ES" + "A23456789", "Spain")
  {
    SpainEntry();
    SpainName();
    ResolveByName("Spain");
    assert "A23456789"[1..8] == "2345678";
    ResolvedCore("A23456789", "Spain", "ES", Spain);
  }

  lemma ValidSpainByCode()
    ensures Validate("ES" + "12345678A", "ESP")
  {
    SpainEntry();
    SpainCode();
    Iso3Resolves("ESP");
    assert "12345678A"[1..8] == "2345678";
    ResolvedCore("12345678A", "ESP", "ES", Spain);
  }

  lemma ValidBritishStandard()
    ensures Validate("GB" + "123456789" + "", "GB")
  {
    StandardExample();
    BritishStandardPrefix("123456789", "");
  }

  lemma ValidGovernmentDepartmentByName()
    ensures Validate("GBGD" + "499", "Great Britain")
  {
    BritainEntry();
    GreatBritainByName();
    GovernmentRange("499");
    GivenKey("GBGD" + "499", "GB", UnitedKingdom);
    GivenResolved("GBGD" + "499", "Great Britain", "GB", UnitedKingdom);
  }

  lemma ValidHealthAuthorityTopByName()
    ensures Validate("GBHA" + "999", "Great Britain")
  {
    BritainEntry();
    GreatBritainByName();
    HealthRange("999");
    GivenKey("GBHA" + "999", "GB", UnitedKingdom);
    GivenResolved("GBHA" + "999", "Great Britain", "GB", UnitedKingdom);
  }

  // ---------------------------------------------------------------------
  // Invalid numbers

  lemma InvalidNoCountry()
    ensures !Validate("asd", "")
  {
    NothingInferredFromAsd();
  }

  lemma InvalidTrueCountry()
    ensures !Validate("-1", "1")
  {
    NumeralIsNoCountry("-1", "1");
  }

  lemma InvalidIntegerCountry()
    ensures !Validate("", "123")
  {
    NumeralIsNoCountry("", "123");
  }

  lemma InvalidNumericCountry()
    ensures !Validate("LU123456789", "11")
  {
    NumeralIsNoCountry("LU123456789", "11");
  }

  lemma InvalidAustria()
    ensures !Validate("AT" + "123456789", "AT")
  {
    AustriaRejectsDigitsOnly("123456789");
  }

  lemma InvalidNetherlands()
    ensures !Validate("NL" + "123456789" + ['A'] + "12", "NL")
  {
    NetherlandsLetter("123456789", 'A', "12");
  }

  lemma InvalidRomaniaBounds()
    ensures !Validate("RO" + "123456789123456789", "RO")
    ensures !Validate("RO" + "1", "RO")
  {
    RomaniaLengths("123456789123456789");
    RomaniaLengths("1");
  }

  lemma InvalidSweden()
    ensures !Validate("SE" + "1234567890" + "12", "SE")
  {
    SwedenSuffix("1234567890", "12");
  }

  lemma InvalidGovernmentDepartment()
    ensures !Validate("GBGD" + "500", "GB")
  {
    GovernmentRange("500");
  }

  lemma InvalidHealthAuthority()
    ensures !Validate("GBHA" + "123", "GB")
  {
    HealthRange("123");
  }

  lemma InvalidBelgium()
    ensures !Validate("BE" + "234567891", "BE")
  {
    BelgiumEntry();
    KeyedReject("BE", Belgium, "234567891");
  }

  lemma InvalidEstonia()
    ensures !Validate("EE" + "123456", "EE")
  {
    EstoniaEntry();
    KeyedReject("EE", Estonia, "123456");
  }

  lemma InvalidNetherlandsDigitsOnly()
    ensures !Validate("NL" + "123456789012", "NL")
  {
    NetherlandsEntry();
    KeyedReject("NL", Netherlands, "123456789012");
  }

  lemma InvalidPortugal()
    ensures !Validate("PT" + "123456789123456", "PT")
  {
    PortugalEntry();
    KeyedReject("PT", Portugal, "123456789123456");
  }

  lemma InvalidSpain()
    ensures !Validate("ES" + "1A23456789", "ES")
  {
    SpainEntry();
    KeyedReject("ES", Spain, "1A23456789");
  }
}
