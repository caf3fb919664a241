/**
 * The two lookups into the ISO 3166-2 subdivision table (pycountry's
 * `subdivisions`, here a parameter): `ca_get_name`, from a region code
 * to a short display name, and `get_code`, from the name of a region as
 * the population table spells it to the region code the hospitalisation
 * file uses.
 */
module Subdivisions {
  import opened Wrappers
  import opened Text

  /** One entry of the table, e.g. ("ES-GA", "ES", "Galicia"). */
  datatype Subdivision = Subdivision(code: string, countryCode: string, name: string)

  /** Why `get_code` raised: no word in the description, or a matching code without a `-`. */
  datatype CodeError = NoWord | CodeWithoutDash(code: string)

  const Spain: string := "ES"

  /** pycountry compares codes without regard to case. */
  predicate SameCode(a: string, b: string) {
    Lower(a) == Lower(b)
  }

  /**
   * `subdivisions.get(code=key)`: pycountry's index keeps the last entry
   * listed under a code.
   */
  function LookupCode(subs: seq<Subdivision>, key: string): (r: Option<Subdivision>)
    ensures r.None? <==> forall i :: 0 <= i < |subs| ==> !SameCode(subs[i].code, key)
    ensures r.Some? ==> exists i :: 0 <= i < |subs| && subs[i] == r.value && SameCode(subs[i].code, key)
                                    && forall j :: i < j < |subs| ==> !SameCode(subs[j].code, key)
  {
    if subs == [] then None
    else
      var last := subs[|subs| - 1];
      if SameCode(last.code, key) then Some(last)
      else
        var r := LookupCode(subs[..|subs| - 1], key);
        assert forall i :: 0 <= i < |subs| - 1 ==> subs[..|subs| - 1][i] == subs[i];
        r
  }

  /** A subdivision name cut at its first `,` and then at its first `/`. */
  function ShortName(name: string): (r: string)
    ensures r <= name && ',' !in r && '/' !in r
    ensures |r| == |name| || name[|r|] == ',' || name[|r|] == '/'
  {
    var beforeComma := Before(name, ',');
    var r := Before(beforeComma, '/');
    assert |r| < |beforeComma| ==> name[|r|] == beforeComma[|r|];
    r
  }

  /**
   * `ca_get_name`: the short name of subdivision "ES-<code>", or the code
   * itself when the table has no such subdivision (the lookup fails and
   * the exception is swallowed).
   */
  function CaGetName(code: string, subs: seq<Subdivision>): string {
    match LookupCode(subs, Spain + "-" + code)
    case None => code
    case Some(st) => ShortName(st.name)
  }

  /**
   * The name is the code itself when no subdivision's code is "ES-<code>"
   * up to case; otherwise it is the start of the found subdivision's name,
   * up to its first `,` or `/`.
   */
  lemma CaGetNameSpec(code: string, subs: seq<Subdivision>)
    ensures LookupCode(subs, Spain + "-" + code).None? ==> CaGetName(code, subs) == code
    ensures LookupCode(subs, Spain + "-" + code).Some? ==>
              var name, r := LookupCode(subs, Spain + "-" + code).value.name, CaGetName(code, subs);
              r <= name && ',' !in r && '/' !in r
              && (|r| == |name| || name[|r|] == ',' || name[|r|] == '/')
  {
  }

  /** Galicia's code resolves to its name. */
  lemma CaGetNameExample()
    ensures CaGetName("GA", [Subdivision("ES-GA", Spain, "Galicia")]) == "Galicia"
  {
    assert Spain + "-" + "GA" == "ES-GA";
    GaliciaFound();
    GaliciaShort();
  }

  lemma GaliciaFound()
    ensures LookupCode([Subdivision("ES-GA", Spain, "Galicia")], "ES-GA") == Some(Subdivision("ES-GA", Spain, "Galicia"))
  {
    assert SameCode("ES-GA", "ES-GA");
  }

  lemma GaliciaShort()
    ensures ShortName("Galicia") == "Galicia"
  {
    BeforeAt("Galicia", ',', 7);
    BeforeAt("Galicia", '/', 7);
  }

  /** A code the table lacks comes back unchanged. */
  lemma CaGetNameMissingExample()
    ensures CaGetName("XX", [Subdivision("ES-GA", Spain, "Galicia")]) == "XX"
  {
    var subs := [Subdivision("ES-GA", Spain, "Galicia")];
    assert Spain + "-" + "XX" == "ES-XX";
    LowerAt("ES-GA", 3);
    LowerAt("ES-XX", 3);
    assert !SameCode(subs[0].code, "ES-XX");
  }

  /** The word `get_code` searches for: the description's last word, with "Cataluña" respelt "Catalunya". */
  function SearchWord(description: string): (r: Option<string>)
    ensures r.None? <==> AllSpace(description)
  {
    match LastWord(description)
    case None => None
    case Some(w) => Some(if w == "Catalu\U{F1}a" then "Catalunya" else w)
  }

  /** A Spanish subdivision whose name contains the word. */
  predicate NameMatches(st: Subdivision, word: string) {
    st.countryCode == Spain && Contains(st.name, word)
  }

  /** The position of the first subdivision that matches, scanning the table in order. */
  function FirstMatch(subs: seq<Subdivision>, word: string): (r: Option<nat>)
    ensures r.None? <==> forall i :: 0 <= i < |subs| ==> !NameMatches(subs[i], word)
    ensures r.Some? ==> r.value < |subs| && NameMatches(subs[r.value], word)
                        && forall j :: 0 <= j < r.value ==> !NameMatches(subs[j], word)
  {
    if subs == [] then None
    else if NameMatches(subs[0], word) then Some(0)
    else
      match FirstMatch(subs[1..], word)
      case None => None
      case Some(k) => Some(k + 1)
  }

  /** The first subdivision that matches is found. */
  lemma {:induction false} FirstMatchAt(subs: seq<Subdivision>, word: string, i: nat)
    requires i < |subs| && NameMatches(subs[i], word)
    requires forall j :: 0 <= j < i ==> !NameMatches(subs[j], word)
    ensures FirstMatch(subs, word) == Some(i)
  {
    if i > 0 {
      FirstMatchAt(subs[1..], word, i - 1);
    }
  }

  /** The code the hospitalisation file uses for the subdivision code's suffix: Madrid is "MD", not "M". */
  function FileCode(suffix: string): (r: string)
    ensures r != "M"
    ensures suffix != "M" ==> r == suffix
  {
    if suffix == "M" then "MD" else suffix
  }

  /**
   * What `get_code` returns for a description: the file code of the first
   * Spanish subdivision whose name contains the search word, None when
   * there is none, or the error Python raises.
   */
  function CodeFor(description: string, subs: seq<Subdivision>): Result<Option<string>, CodeError> {
    match SearchWord(description)
    case None => Err(NoWord)
    case Some(word) =>
      match FirstMatch(subs, word)
      case None => Ok(None)
      case Some(i) =>
        match SecondField(subs[i].code, '-')
        case None => Err(CodeWithoutDash(subs[i].code))
        case Some(suffix) => Ok(Some(FileCode(suffix)))
  }

  /**
   * `get_code` raises exactly for a blank description; it gives None
   * exactly when no Spanish subdivision's name contains the search word;
   * otherwise it gives the file code of the code suffix of the first
   * subdivision that does, and raises when that code has no `-`.
   */
  lemma CodeForSpec(description: string, subs: seq<Subdivision>)
    ensures CodeFor(description, subs) == Err(NoWord) <==> AllSpace(description)
    ensures CodeFor(description, subs) == Ok(None) <==>
              SearchWord(description).Some?
              && forall i :: 0 <= i < |subs| ==> !NameMatches(subs[i], SearchWord(description).value)
    ensures CodeFor(description, subs).Ok? && CodeFor(description, subs).value.Some? ==>
              var i := FirstMatch(subs, SearchWord(description).value).value;
              SecondField(subs[i].code, '-').Some?
              && CodeFor(description, subs).value.value == FileCode(SecondField(subs[i].code, '-').value)
    ensures CodeFor(description, subs).Err? && CodeFor(description, subs).error.CodeWithoutDash? ==>
              var i := FirstMatch(subs, SearchWord(description).value).value;
              '-' !in subs[i].code && CodeFor(description, subs).error.code == subs[i].code
  {
  }

  /**
   * `get_code`: a linear scan of the table that returns at the first
   * Spanish subdivision whose name contains the search word.
   */
  method GetCode(description: string, subs: seq<Subdivision>) returns (r: Result<Option<string>, CodeError>)
    ensures r == CodeFor(description, subs)
  {
    var last := LastWord(description);
    if last.None? {
      return Err(NoWord);
    }
    var word := last.value;
    if word == "Catalu\U{F1}a" {
      word := "Catalunya";
    }
    for i := 0 to |subs|
      invariant forall j :: 0 <= j < i ==> !NameMatches(subs[j], word)
    {
      var st := subs[i];
      if st.countryCode == Spain {
        if Contains(st.name, word) {
          FirstMatchAt(subs, word, i);
          var suffix := SecondField(st.code, '-');
          if suffix.None? {
            return Err(CodeWithoutDash(st.code));
          }
          if suffix.value == "M" {
            return Ok(Some("MD"));
          }
          return Ok(Some(suffix.value));
        }
      }
    }
    return Ok(None);
  }

  /** The population table's spelling "Cataluña" is searched for as "Catalunya". */
  lemma CodeForCatalunya()
    ensures CodeFor("09 Catalu\U{F1}a", [Subdivision(Spain + "-" + "CT", Spain, "Catalunya")]) == Ok(Some("CT"))
  {
    CatalunyaWord();
    CatalunyaMatch();
    SuffixOf(Spain + "-" + "CT", "CT");
    CodeForFound("09 Catalu\U{F1}a", [Subdivision(Spain + "-" + "CT", Spain, "Catalunya")], "Catalunya", 0, "CT");
  }

  /** The suffix of a Spanish subdivision code "ES-<suffix>". */
  lemma SuffixOf(code: string, suffix: string)
    requires code == Spain + "-" + suffix && '-' !in suffix
    ensures SecondField(code, '-') == Some(suffix)
  {
    assert code == "ES" + ['-'] + suffix;
    SecondFieldOf("ES", '-', suffix);
  }

  /** The code found for a description, from its search word, its first match and that match's code suffix. */
  lemma CodeForFound(description: string, subs: seq<Subdivision>, word: string, i: nat, suffix: string)
    requires SearchWord(description) == Some(word) && FirstMatch(subs, word) == Some(i)
    requires i < |subs| && SecondField(subs[i].code, '-') == Some(suffix)
    ensures CodeFor(description, subs) == Ok(Some(FileCode(suffix)))
  {
  }

  lemma CatalunyaMatch()
    ensures FirstMatch([Subdivision(Spain + "-" + "CT", Spain, "Catalunya")], "Catalunya") == Some(0)
  {
    assert OccursAt("Catalunya", "Catalunya", 0);
  }

  lemma CatalunyaWord()
    ensures SearchWord("09 Catalu\U{F1}a") == Some("Catalunya")
  {
    assert "09 Catalu\U{F1}a" == "09 " + "Catalu\U{F1}a";
    LastWordOf("09 ", "Catalu\U{F1}a");
  }

  /** Madrid's subdivision code "ES-M" gives the file's "MD". */
  lemma CodeForMadrid()
    ensures CodeFor("13 Madrid", [Subdivision(Spain + "-" + "M", Spain, "Madrid, Comunidad de")]) == Ok(Some("MD"))
  {
    MadridWord();
    MadridMatch();
    SuffixOf(Spain + "-" + "M", "M");
    CodeForFound("13 Madrid", [Subdivision(Spain + "-" + "M", Spain, "Madrid, Comunidad de")], "Madrid", 0, "M");
  }

  lemma MadridMatch()
    ensures FirstMatch([Subdivision(Spain + "-" + "M", Spain, "Madrid, Comunidad de")], "Madrid") == Some(0)
  {
    assert OccursAt("Madrid, Comunidad de", "Madrid", 0);
  }

  lemma MadridWord()
    ensures SearchWord("13 Madrid") == Some("Madrid")
  {
    assert "13 Madrid" == "13 " + "Madrid";
    LastWordOf("13 ", "Madrid");
  }
}
