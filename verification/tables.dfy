/** The three lookup tables of src/VatValidator.php: country patterns by
    two-letter key, ISO 3166 alpha-3 codes, and English country names. */
module Tables {
  import opened Ascii
  import opened Patterns

  /** `$_countryPatterns`, each key mapped to the rule its pattern text
      denotes. GR and EL carry the same text, and so do UK and GB. */
  const PatternTable: map<string, Rule> := map[
    "AT" := Austria, "BE" := Belgium, "BG" := Bulgaria, "CY" := Cyprus,
    "CZ" := Czechia, "DE" := Germany, "DK" := Denmark, "EE" := Estonia,
    "ES" := Spain, "GR" := Greece, "EL" := Greece, "FR" := France,
    "FI" := Finland, "HU" := Hungary, "IE" := Ireland, "IT" := Italy,
    "LV" := Latvia, "LT" := Lithuania, "LU" := Luxembourg, "MT" := Malta,
    "NL" := Netherlands, "PL" := Poland, "PT" := Portugal, "RO" := Romania,
    "SK" := Slovakia, "SI" := Slovenia, "SE" := Sweden,
    "UK" := UnitedKingdom, "GB" := UnitedKingdom]

  /** `$_countryISO`: alpha-3 code to the two-letter key it stands for.
      Austria's entry names "AU", which is not a pattern key. */
  const Iso3Table: map<string, string> := map[
    "AUT" := "AU", "BEL" := "BE", "BGR" := "BG", "CYP" := "CY",
    "CZE" := "CZ", "DEU" := "DE", "DNK" := "DK", "EST" := "EE",
    "ESP" := "ES", "GRC" := "GR", "FRA" := "FR", "FIN" := "FI",
    "HUN" := "HU", "IRL" := "IE", "ITA" := "IT", "LVA" := "LV",
    "LTU" := "LT", "LUX" := "LU", "MLT" := "MT", "NLD" := "NL",
    "POL" := "PL", "PRT" := "PT", "ROU" := "RO", "SVK" := "SK",
    "SVN" := "SI", "SWE" := "SE", "GBR" := "UK"]

  /** `$_countryName`: country name to two-letter key. Every name is written
      in lower case except "Ireland", and "austria" names "AU". */
  const NameTable: map<string, string> := map[
    "austria" := "AU", "belgium" := "BE",
    "bulgaria" := "BG", "cyprus" := "CY",
    "czech republic" := "CZ", "germany" := "DE",
    "denmark" := "DK", "estonia" := "EE", "spain" := "ES",
    "greece" := "GR", "france" := "FR", "finland" := "FI",
    "hungary" := "HU", "Ireland" := "IE", "italy" := "IT",
    "latvia" := "LV", "lithuania" := "LT",
    "luxembourg" := "LU", "malta" := "MT",
    "netherlands" := "NL", "poland" := "PL",
    "portugal" := "PT", "romania" := "RO",
    "slovakia" := "SK", "slovenia" := "SI",
    "sweden" := "SE", "united kingdom" := "UK",
    "great britain" := "GB", "england" := "UK",
    "scotland" := "UK", "northern ireland" := "UK",
    "wales" := "UK"]

  /** No character is an upper-case ASCII letter. */
  predicate IsLowerText(s: string)
  {
    forall i :: 0 <= i < |s| ==> !IsUpperLetter(s[i])
  }

  /** What `strtolower` returns never holds an upper-case letter. */
  lemma LowerIsLowerText(s: string)
    ensures IsLowerText(ToLower(s))
  {
  }

  /** Every pattern key is two upper-case letters. */
  lemma PatternKeysAreUpperPairs(k: string)
    requires k in PatternTable
    ensures |k| == 2 && IsUpperWord(k)
  {
  }

  /** Every alpha-3 key is three upper-case letters, and every value but
      Austria's is a pattern key. */
  lemma Iso3Entries(k: string)
    requires k in Iso3Table
    ensures |k| == 3 && IsUpperWord(k)
    ensures Iso3Table[k] in PatternTable <==> k != "AUT"
  {
    Iso3Keys(k);
    Iso3Values(k);
  }

  lemma Iso3Keys(k: string)
    requires k in Iso3Table
    ensures |k| == 3 && IsUpperWord(k)
  {
  }

  lemma Iso3Values(k: string)
    requires k in Iso3Table
    ensures Iso3Table[k] in PatternTable <==> k != "AUT"
  {
  }

  /** No country name is two or three characters long. */
  lemma NameLengths(k: string)
    requires k in NameTable
    ensures |k| != 2 && |k| != 3
  {
  }

  /** Every country name starts with a letter. */
  lemma NamesStartWithLetter(k: string)
    requires k in NameTable
    ensures |k| > 0 && IsLetter(k[0])
  {
  }

  /** Every name's value but Austria's is a pattern key. */
  lemma NameValues(k: string)
    requires k in NameTable
    ensures NameTable[k] in PatternTable <==> k != "austria"
  {
  }
}
