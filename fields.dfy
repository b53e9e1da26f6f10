/**
 * The job-offer models of emploi/models.py: the truncating field types, the column limits and
 * choice lists, the contract normalisation `OffreEmploi.save` applies, the `salaire_range`
 * display and the field validation `full_clean` runs before an import saves an offer.
 */
module Fields {
  import opened Wrappers
  import opened Text
  import opened Dates

  // ---------------------------------------------------------------- truncating fields

  /**
   * `get_prep_value` of `TruncatingCharField` / `TruncatingURLField`: a non-empty value longer
   * than the column is cut to the column width, anything else goes to the database as it is.
   */
  function PrepValue(value: string, maxLength: nat): (r: string)
    ensures r <= value
    ensures |value| <= maxLength ==> r == value
    ensures |value| > maxLength ==> |r| == maxLength
  {
    if value != "" && |value| > maxLength then value[..maxLength] else value
  }

  /** A value already cut with a Python slice `[:n]`, `n` within the column, is stored unchanged. */
  lemma PrepAfterSlice(value: string, n: nat, maxLength: nat)
    requires n <= maxLength
    ensures PrepValue(Truncate(value, n), maxLength) == Truncate(value, n)
    ensures |PrepValue(value, maxLength)| <= maxLength
  {
  }

  // ---------------------------------------------------------------- columns and choices

  const CompanyNameLength := 200
  const TaglineLength := 255
  const CompanySectorLength := 100
  const SiteLength := 500
  const RegionNameLength := 100
  const RegionCodeLength := 10

  const TitleLength := 200
  const PlaceLength := 200
  const ContractLength := 30
  const UrlLength := 300
  const LevelLength := 20
  const SectorLength := 100
  const SourceLength := 100

  /** The stored codes of `TYPE_CONTRAT_CHOICES`. */
  const ContractChoices: seq<string> :=
    ["CDI", "CDD", "STAGE", "FREELANCE", "TEMPS_PARTIEL", "PRESTATION DE SERVICES", "CONSULTING", "INDEFINI"]

  /** The stored codes of `NIVEAU_EXPERIENCE_CHOICES`. */
  const LevelChoices: seq<string> := ["JUNIOR", "INTERMEDIAIRE", "SENIOR", "EXPERT"]

  /** A company row (`Entreprise`), keyed by its unique `nom` in the store. */
  datatype Company = Company(tagline: string, siteWeb: string, secteur: string)

  /**
   * An `OffreEmploi` row. The company and the region are referred to by their unique names;
   * `date_scraping`, `is_active` and `vues` are set by the database and not modelled.
   */
  datatype Offer = Offer(
    titrePoste: string,
    entreprise: string,
    lieu: string,
    region: Option<string>,
    typeContrat: string,
    datePublication: DateTime,
    urlOffre: string,
    description: string,
    salaireMin: Option<int>,
    salaireMax: Option<int>,
    niveauExperience: string,
    secteurActivite: string,
    competences: string,
    sourceSite: string)

  /** The row as the database receives it: every truncating column passes `get_prep_value`. */
  function Persisted(o: Offer): (p: Offer)
    ensures |p.titrePoste| <= TitleLength && |p.lieu| <= PlaceLength && |p.typeContrat| <= ContractLength
    ensures |p.urlOffre| <= UrlLength && |p.niveauExperience| <= LevelLength
    ensures |p.secteurActivite| <= SectorLength && |p.sourceSite| <= SourceLength
    ensures p.entreprise == o.entreprise && p.region == o.region && p.datePublication == o.datePublication
    ensures p.description == o.description && p.competences == o.competences
    ensures p.salaireMin == o.salaireMin && p.salaireMax == o.salaireMax
  {
    o.(titrePoste := PrepValue(o.titrePoste, TitleLength),
       lieu := PrepValue(o.lieu, PlaceLength),
       typeContrat := PrepValue(o.typeContrat, ContractLength),
       urlOffre := PrepValue(o.urlOffre, UrlLength),
       niveauExperience := PrepValue(o.niveauExperience, LevelLength),
       secteurActivite := PrepValue(o.secteurActivite, SectorLength),
       sourceSite := PrepValue(o.sourceSite, SourceLength))
  }

  // ---------------------------------------------------------------- save

  /**
   * The contract type `OffreEmploi.save` stores: a non-empty value is upper-cased and stripped,
   * then any mention of a service contract, of consulting or of part time is replaced by its code.
   */
  function SaveContract(typeContrat: string): string {
    if typeContrat == "" then typeContrat
    else
      var t := Strip(Upper(typeContrat));
      if Contains(t, "PRESTATION") then "PRESTATION DE SERVICES"
      else if Contains(t, "CONSULT") then "CONSULTING"
      else if Contains(t, "TEMPS PARTIEL") then "TEMPS_PARTIEL"
      else t
  }

  /** What `save` stores for a non-empty value whose `upper().strip()` is `t`. */
  lemma SaveContractOf(typeContrat: string, t: string)
    requires typeContrat != "" && Strip(Upper(typeContrat)) == t
    ensures SaveContract(typeContrat) ==
      if Contains(t, "PRESTATION") then "PRESTATION DE SERVICES"
      else if Contains(t, "CONSULT") then "CONSULTING"
      else if Contains(t, "TEMPS PARTIEL") then "TEMPS_PARTIEL"
      else t
  {
  }

  /** The part-time mention holds neither of the two earlier mentions. */
  lemma PartTimeWordsOnly(t: string)
    requires t == "TEMPS PARTIEL"
    ensures !Contains(t, "PRESTATION") && !Contains(t, "CONSULT")
  {
    var a, b := "TEMPS", "PARTIEL";
    assert t == a + " " + b;
    assert b[0] != "CONSULT"[0];
    TwoWordsMiss(a, b, "PRESTATION");
    TwoWordsMiss(a, b, "CONSULT");
  }

  /** A value whose upper-cased form has no surrounding white space is stored from that form. */
  lemma UpperNeedsNoStrip(value: string, t: string)
    requires Upper(value) == t && t != [] && !IsSpace(t[0]) && !IsSpace(t[|t| - 1])
    ensures Strip(Upper(value)) == t
  {
    StripNoop(t);
  }

  lemma ConsultantTempsPartiel()
    ensures Upper("consultant temps partiel") == "CONSULTANT " + "TEMPS PARTIEL"
  {
  }

  lemma ConsultantMentions(t: string)
    requires t == "CONSULTANT" + " " + "TEMPS PARTIEL"
    ensures !Contains(t, "PRESTATION") && Contains(t, "CONSULT")
  {
    var a, b := "CONSULTANT", "TEMPS PARTIEL";
    SpacelessMention();
    assert a[0] != "PRESTATION"[0];
    SameLengthContains(a, "PRESTATION");
    PartTimeWordsOnly(b);
    NotContainsAcrossSpace(a, b, "PRESTATION");
    ConsultantOpens(t);
  }

  lemma SpacelessMention()
    ensures ' ' !in "PRESTATION"
  {
  }

  lemma ConsultantOpens(t: string)
    requires t == "CONSULTANT" + " " + "TEMPS PARTIEL"
    ensures Contains(t, "CONSULT")
  {
    var p, rest := "CONSULT", "ANT TEMPS PARTIEL";
    assert t == p + rest;
    PrefixContained(p, rest);
  }

  /** "consultant temps partiel" mentions consulting before part time, and consulting wins. */
  lemma ConsultingBeforePartTime()
    ensures SaveContract("consultant temps partiel") == "CONSULTING"
  {
    var t := "CONSULTANT " + "TEMPS PARTIEL";
    ConsultantTempsPartiel();
    UpperNeedsNoStrip("consultant temps partiel", t);
    ConsultantMentions(t);
    SaveContractOf("consultant temps partiel", t);
  }

  lemma PrestationConsulting()
    ensures Upper("prestation consulting") == "PRESTATION CONSULTING"
  {
  }

  lemma PrestationOpens(t: string)
    requires t == "PRESTATION CONSULTING"
    ensures Contains(t, "PRESTATION")
  {
    var p, rest := "PRESTATION", " CONSULTING";
    assert t == p + rest;
    PrefixContained(p, rest);
  }

  /** "prestation consulting" mentions a service contract first, and that wins over consulting. */
  lemma ServicesBeforeConsulting()
    ensures SaveContract("prestation consulting") == "PRESTATION DE SERVICES"
  {
    var t := "PRESTATION CONSULTING";
    PrestationConsulting();
    UpperNeedsNoStrip("prestation consulting", t);
    PrestationOpens(t);
    SaveContractOf("prestation consulting", t);
  }

  lemma TempsPartiel()
    ensures Upper("Temps partiel") == "TEMPS PARTIEL"
  {
  }

  lemma PartTimeOpens(t: string)
    requires t == "TEMPS PARTIEL"
    ensures Contains(t, "TEMPS PARTIEL")
  {
    assert t + "" == t;
    PrefixContained(t, "");
  }

  /** "Temps partiel", in any case, becomes the part-time code. */
  lemma PartTimeMentioned()
    ensures SaveContract("Temps partiel") == "TEMPS_PARTIEL"
  {
    var t := "TEMPS PARTIEL";
    TempsPartiel();
    UpperNeedsNoStrip("Temps partiel", t);
    PartTimeWordsOnly(t);
    PartTimeOpens(t);
    SaveContractOf("Temps partiel", t);
  }

  /** An upper-case text without surrounding white space is left alone by `upper().strip()`. */
  lemma UpperStripNoop(t: string)
    requires Upper(t) == t && Strip(t) == t
    ensures Strip(Upper(t)) == t
  {
  }

  /** Strip of an upper-cased text has no lower-case letter left. */
  lemma StripUpperIsUpper(s: string)
    ensures Upper(Strip(Upper(s))) == Strip(Upper(s))
  {
    var u := Upper(s);
    StripIsInfix(u);
    var t, i := Strip(u), LeadingSpaces(u);
    forall k | 0 <= k < |t| ensures UpperChar(t[k]) == t[k] {
      assert t[k] == u[i + k] == UpperChar(s[i + k]);
    }
    assert Upper(t) == t;
  }

  /** A code without surrounding spaces or lower-case letters and without any of the three mentions is kept. */
  lemma PlainCodeKept(code: string)
    requires code != "" && Upper(code) == code && Strip(code) == code
    requires !Contains(code, "PRESTATION") && !Contains(code, "CONSULT") && !Contains(code, "TEMPS PARTIEL")
    ensures SaveContract(code) == code
  {
    UpperStripNoop(code);
  }

  /**
   * A code of capitals and underscores without `O` and `U` mentions neither a service contract,
   * nor consulting, nor part time, so it is kept.
   */
  lemma PlainCapitalsKept(code: string)
    requires code != []
    requires forall k :: 0 <= k < |code| ==> ('A' <= code[k] <= 'Z' || code[k] == '_') && code[k] != 'O' && code[k] != 'U'
    ensures SaveContract(code) == code
  {
    StripNoop(code);
    NotContainsMissingChar(code, "PRESTATION", 'O');
    NotContainsMissingChar(code, "CONSULT", 'U');
    NotContainsMissingChar(code, "TEMPS PARTIEL", ' ');
    PlainCodeKept(code);
  }

  /** An upper-case text without surrounding white space that opens with a mention is replaced by its code. */
  lemma OpeningMentionReplaced(code: string, mention: string)
    requires code != "" && Upper(code) == code && !IsSpace(code[0]) && !IsSpace(code[|code| - 1])
    requires mention <= code
    ensures mention == "PRESTATION" ==> SaveContract(code) == "PRESTATION DE SERVICES"
    ensures mention == "CONSULT" && !Contains(code, "PRESTATION") ==> SaveContract(code) == "CONSULTING"
  {
    StripNoop(code);
    UpperStripNoop(code);
    OccursContains(code, mention, 0);
  }

  lemma ServicesKept(code: string)
    requires code == "PRESTATION DE SERVICES"
    ensures SaveContract(code) == code
  {
    UpperNoop(code);
    OpeningMentionReplaced(code, "PRESTATION");
  }

  lemma ConsultingKept(code: string)
    requires code == "CONSULTING"
    ensures SaveContract(code) == code
  {
    NotContainsMissingChar(code, "PRESTATION", 'P');
    UpperNoop(code);
    OpeningMentionReplaced(code, "CONSULT");
  }

  /** Every stored contract code is its own normalisation. */
  lemma SaveContractKeepsChoices(code: string)
    requires code in ContractChoices
    ensures SaveContract(code) == code
  {
    if code == "PRESTATION DE SERVICES" {
      ServicesKept(code);
    } else if code == "CONSULTING" {
      ConsultingKept(code);
    } else {
      PlainCapitalsKept(code);
    }
  }

  /** Saving twice stores the same contract as saving once. */
  lemma SaveContractIdempotent(typeContrat: string)
    ensures SaveContract(SaveContract(typeContrat)) == SaveContract(typeContrat)
  {
    var r := SaveContract(typeContrat);
    if typeContrat != "" {
      var t := Strip(Upper(typeContrat));
      if r in ContractChoices {
        SaveContractKeepsChoices(r);
      } else {
        assert r == t;
        assert !Contains(t, "PRESTATION") && !Contains(t, "CONSULT") && !Contains(t, "TEMPS PARTIEL");
        StripUpperIsUpper(typeContrat);
        StripIdempotent(Upper(typeContrat));
        if t != "" {
          UpperStripNoop(t);
        }
      }
    }
  }

  // ---------------------------------------------------------------- salaire_range

  /** Python truthiness of a nullable integer column: `None` and `0` are false. */
  predicate Truthy(n: Option<int>) { n.Some? && n.value != 0 }

  /** `salaire_range`: both bounds, a lower bound only, or no salary (`0` counts as absent). */
  function SalaryRange(salaireMin: Option<int>, salaireMax: Option<int>): (r: string)
    ensures !Truthy(salaireMin) ==> r == "Non spécifié"
  {
    if Truthy(salaireMin) && Truthy(salaireMax) then
      GroupedInt(salaireMin.value) + " - " + GroupedInt(salaireMax.value) + " FCFA"
    else if Truthy(salaireMin) then
      "À partir de " + GroupedInt(salaireMin.value) + " FCFA"
    else
      "Non spécifié"
  }

  // ---------------------------------------------------------------- full_clean

  /** A text column: blank only where the model allows it, and within its width. */
  predicate TextOk(value: string, maxLength: nat, blank: bool) {
    if value == "" then blank else |value| <= maxLength
  }

  /** A text column with choices: blank only where allowed, otherwise one of the codes. */
  predicate ChoiceOk(value: string, maxLength: nat, choices: seq<string>, blank: bool) {
    if value == "" then blank else value in choices && |value| <= maxLength
  }

  /** The URL column: required, within its width and accepted by Django's URL validator. */
  predicate UrlOk(value: string, urlValid: string -> bool) {
    value != "" && |value| <= UrlLength && urlValid(value)
  }

  /** The columns `full_clean` can reject, in the model's field order. */
  const CheckedFields: seq<string> :=
    ["titre_poste", "lieu", "type_contrat", "url_offre", "niveau_experience", "secteur_activite", "source_site"]

  /**
   * The fields `full_clean` reports for an offer, in field order. The foreign keys and the
   * date are always set by the import, and the text and integer columns without a width
   * accept any value here; `urlValid` stands for Django's `URLValidator`.
   */
  function FullClean(o: Offer, urlValid: string -> bool): (r: seq<string>)
    ensures r == [] <==>
      && TextOk(o.titrePoste, TitleLength, false)
      && TextOk(o.lieu, PlaceLength, false)
      && ChoiceOk(o.typeContrat, ContractLength, ContractChoices, false)
      && UrlOk(o.urlOffre, urlValid)
      && ChoiceOk(o.niveauExperience, LevelLength, LevelChoices, true)
      && TextOk(o.secteurActivite, SectorLength, true)
      && TextOk(o.sourceSite, SourceLength, false)
    ensures forall f :: f in r ==> f in CheckedFields
  {
    (if TextOk(o.titrePoste, TitleLength, false) then [] else ["titre_poste"])
    + (if TextOk(o.lieu, PlaceLength, false) then [] else ["lieu"])
    + (if ChoiceOk(o.typeContrat, ContractLength, ContractChoices, false) then [] else ["type_contrat"])
    + (if UrlOk(o.urlOffre, urlValid) then [] else ["url_offre"])
    + (if ChoiceOk(o.niveauExperience, LevelLength, LevelChoices, true) then [] else ["niveau_experience"])
    + (if TextOk(o.secteurActivite, SectorLength, true) then [] else ["secteur_activite"])
    + (if TextOk(o.sourceSite, SourceLength, false) then [] else ["source_site"])
  }

  /**
   * An offer `full_clean` accepts reaches the database exactly as it is: no column is cut by
   * `get_prep_value` and `save` keeps its contract code.
   */
  lemma CleanOfferStoredUnchanged(o: Offer, urlValid: string -> bool)
    requires FullClean(o, urlValid) == []
    ensures SaveContract(o.typeContrat) == o.typeContrat
    ensures Persisted(o.(typeContrat := SaveContract(o.typeContrat))) == o
  {
    SaveContractKeepsChoices(o.typeContrat);
    assert |o.niveauExperience| <= LevelLength by {
      if o.niveauExperience != "" { assert o.niveauExperience in LevelChoices; }
    }
  }

  /** `full_clean` refuses the contract types outside the model's choices, `INTERIM` among them. */
  lemma InterimRejected(o: Offer, urlValid: string -> bool)
    requires o.typeContrat == "INTERIM"
    ensures "type_contrat" in FullClean(o, urlValid)
  {
    assert "INTERIM" !in ContractChoices;
  }

  /** `full_clean` refuses the experience levels outside the model's choices. */
  lemma UnknownLevelRejected(o: Offer, urlValid: string -> bool)
    requires o.niveauExperience == "DEBUTANT" || o.niveauExperience == "CONFIRME"
    ensures "niveau_experience" in FullClean(o, urlValid)
  {
    assert o.niveauExperience !in LevelChoices;
  }

  /** `full_clean` refuses a URL longer than the 300-character column. */
  lemma LongUrlRejected(o: Offer, urlValid: string -> bool)
    requires |o.urlOffre| > UrlLength
    ensures "url_offre" in FullClean(o, urlValid)
  {
  }
}
