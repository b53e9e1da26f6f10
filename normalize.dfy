/**
 * Record preparation of the import view (api/views.py:373-463): reading a field with its
 * null words, the salary parser, the contract and level lists of the importer, the prepared
 * record with its cut-off widths, and the creation fields handed to the model.
 */
module Normalize {
  import opened Wrappers
  import opened Text
  import opened Dates
  import Fields

  /**
   * One incoming record: a JSON object or a CSV row. Values are taken after `str()`; `None`
   * stands for a JSON `null` or for a column missing from a short CSV row.
   */
  type Row = map<string, Option<string>>

  // ---------------------------------------------------------------- get_field

  /** The raw text of a field: a missing key and `None` both read as the empty string. */
  function RawText(row: Row, field: string): string {
    if field in row then row[field].GetOr("") else ""
  }

  /** The words `get_field` treats as an absent value once lower-cased. */
  predicate NullWord(v: string) { v == "null" || v == "none" || v == "na" || v == "" }

  /** A field whose stripped text is empty or a null word in any case. */
  predicate Blank(row: Row, field: string) {
    var v := Strip(RawText(row, field));
    v == "" || NullWord(Lower(v))
  }

  /** `get_field(field, default)`: the stripped text, or the default for a blank field. */
  function FieldValue(row: Row, field: string, default: Option<string>): (r: Option<string>)
    ensures Blank(row, field) ==> r == default
    ensures !Blank(row, field) ==> r == Some(Strip(RawText(row, field)))
  {
    if Blank(row, field) then default else Some(Strip(RawText(row, field)))
  }

  /**
   * A value `get_field` returns for a present field is the raw text with only its surrounding
   * white space removed; it is non-empty, is no null word, and reading it back under the same
   * name gives it again.
   */
  lemma FieldValueReread(row: Row, field: string, default: Option<string>)
    requires !Blank(row, field)
    ensures var raw, v := RawText(row, field), FieldValue(row, field, default).value;
      var i := LeadingSpaces(raw);
      && i + |v| <= |raw| && v == raw[i..i + |v|]
      && (forall k :: 0 <= k < i ==> IsSpace(raw[k]))
      && (forall k :: i + |v| <= k < |raw| ==> IsSpace(raw[k]))
    ensures var v := FieldValue(row, field, default).value;
      v != "" && Strip(v) == v && !NullWord(Lower(v))
    ensures var v := FieldValue(row, field, default);
      FieldValue(map[field := v], field, default) == v
  {
    var v := FieldValue(row, field, default);
    StripIsInfix(RawText(row, field));
    StripIdempotent(RawText(row, field));
    assert RawText(map[field := v], field) == v.value;
  }

  /** A present text field, or the default text. */
  function FieldText(row: Row, field: string, default: string): string {
    FieldValue(row, field, Some(default)).value
  }

  /**
   * `get_field` with its counter of missing values: the counter goes up only when a blank
   * field falls back to the default `'NA'`.
   */
  method GetField(row: Row, field: string, default: Option<string>, missing: nat)
    returns (value: Option<string>, missingAfter: nat)
    ensures value == FieldValue(row, field, default)
    ensures Blank(row, field) ==> value == default
    ensures !Blank(row, field) ==> value == Some(Strip(RawText(row, field)))
    ensures default.Some? ==> value.Some?
    ensures default != Some("NA") ==> missingAfter == missing
    ensures default == Some("NA") ==> missingAfter == if Blank(row, field) then missing + 1 else missing
  {
    var v := RawText(row, field);
    v := Strip(v);
    missingAfter := missing;
    if v == "" || NullWord(Lower(v)) {
      if default == Some("NA") {
        missingAfter := missingAfter + 1;
      }
      return default, missingAfter;
    }
    return Some(v), missingAfter;
  }

  // ---------------------------------------------------------------- salary

  /** The characters the salary parser keeps: ASCII digits, hyphens and spaces. */
  predicate SalaryChar(c: char) { IsDigit(c) || c == '-' || c == ' ' }

  function SalaryChars(s: string): (r: string)
    ensures forall k :: 0 <= k < |r| ==> SalaryChar(r[k])
    ensures |r| <= |s|
  {
    if s == [] then [] else (if SalaryChar(s[0]) then [s[0]] else []) + SalaryChars(s[1..])
  }

  lemma {:induction false} SalaryCharsConcat(a: string, b: string)
    ensures SalaryChars(a + b) == SalaryChars(a) + SalaryChars(b)
  {
    if a == [] {
      assert a + b == b;
    } else {
      var h := if SalaryChar(a[0]) then [a[0]] else [];
      assert (a + b)[0] == a[0];
      assert (a + b)[1..] == a[1..] + b;
      SalaryCharsConcat(a[1..], b);
      assert SalaryChars(a + b) == h + (SalaryChars(a[1..]) + SalaryChars(b));
      assert SalaryChars(a) == h + SalaryChars(a[1..]);
    }
  }

  /** The salary bounds of a record; `None` where the text gives none. */
  datatype Salary = Salary(min: Option<nat>, max: Option<nat>)

  /**
   * The salary parser: keep digits, hyphens and spaces; with a hyphen, exactly two pieces
   * give a lower and an upper bound, and an unreadable upper bound leaves the lower one set
   * (the `ValueError` is caught after it was assigned); without one, the whole text is the
   * lower bound.
   */
  function ParseSalary(salaire: Option<string>): (r: Salary)
    ensures r.max.Some? ==> r.min.Some?
    ensures salaire.Some? && '-' !in SalaryChars(salaire.value) ==> r.max.None?
  {
    if salaire.None? || salaire.value == "" || salaire.value == "NA" then Salary(None, None)
    else
      var clean := SalaryChars(salaire.value);
      if '-' in clean then
        var parts := Split(clean, '-');
        if |parts| == 2 then
          match ParseInt(parts[0])
          case None => Salary(None, None)
          case Some(lo) => Salary(Some(lo), ParseInt(parts[1]))
        else Salary(None, None)
      else Salary(ParseInt(clean), None)
  }

  /** Two or more hyphens split the text into three or more pieces: no salary at all. */
  lemma ManyHyphensNoSalary(salaire: string)
    requires Count(SalaryChars(salaire), '-') >= 2
    ensures ParseSalary(Some(salaire)) == Salary(None, None)
  {
    var clean := SalaryChars(salaire);
    SplitCount(clean, '-');
    if '-' !in clean {
      SplitNoSep(clean, '-');
    }
  }

  /** A text of digits and commas for `n > 0`, once cleaned, is a digit run worth `n`. */
  lemma {:induction false} CleanAmount(x: string, n: nat)
    requires forall k :: 0 <= k < |x| ==> IsDigit(x[k]) || x[k] == ','
    requires DigitsValue(x) == n
    ensures AllDigits(SalaryChars(x)) && DigitsValue(SalaryChars(x)) == n
    decreases |x|
  {
    if x != [] {
      var y, c := x[..|x| - 1], x[|x| - 1];
      assert x == y + [c];
      SalaryCharsConcat(y, [c]);
      CleanAmount(y, DigitsValue(y));
      var d := SalaryChars(x);
      if IsDigit(c) {
        assert SalaryChars([c]) == [c];
        assert d[..|d| - 1] == SalaryChars(y);
      } else {
        assert SalaryChars([c]) == [];
        assert d == SalaryChars(y);
        assert DigitsValue(x) == DigitsValue(y);
      }
    }
  }

  /** The digits of `format(n, ',')`, as the salary parser keeps them. */
  lemma GroupedCleaned(n: nat)
    requires n > 0
    ensures var d := SalaryChars(Grouped(n));
      d != [] && AllDigits(d) && DigitsValue(d) == n && '-' !in d && !IsSpace(d[0]) && !IsSpace(d[|d| - 1])
  {
    GroupedChars(n);
    GroupedValue(n);
    CleanAmount(Grouped(n), n);
  }

  /** A cleaned amount between white space is read as that amount. */
  lemma PaddedAmount(a: string, d: string, b: string, n: nat)
    requires AllSpaces(a) && AllSpaces(b)
    requires d != [] && AllDigits(d) && DigitsValue(d) == n && !IsSpace(d[0]) && !IsSpace(d[|d| - 1])
    ensures ParseInt(a + d + b) == Some(n)
  {
    StripPadded(a, d, b);
  }

  /**
   * A text whose cleaned form has one hyphen after an amount gives that lower bound, and the
   * upper bound only when the text after the hyphen reads as an amount.
   */
  lemma CleanedPair(text: string, l: string, r: string, lo: nat, hi: Option<nat>)
    requires text != "" && text != "NA" && SalaryChars(text) == l + ['-'] + r
    requires '-' !in l && '-' !in r && ParseInt(l) == Some(lo) && ParseInt(r) == hi
    ensures ParseSalary(Some(text)) == Salary(Some(lo), hi)
  {
    HyphenSplit(l, r);
  }

  /** One hyphen between two hyphen-free texts splits into those two texts. */
  lemma HyphenSplit(l: string, r: string)
    requires '-' !in l && '-' !in r
    ensures '-' in l + ['-'] + r && Split(l + ['-'] + r, '-') == [l, r]
  {
    assert (l + ['-'] + r)[|l|] == '-';
    SplitNoSep(r, '-');
    SplitAround(l, '-', r);
  }

  /** A text with one hyphen whose two sides read as amounts gives both bounds. */
  lemma HyphenPair(left: string, right: string, lo: nat, hi: nat)
    requires '-' !in SalaryChars(left) && '-' !in SalaryChars(right)
    requires ParseInt(SalaryChars(left)) == Some(lo) && ParseInt(SalaryChars(right)) == Some(hi)
    ensures ParseSalary(Some(left + "-" + right)) == Salary(Some(lo), Some(hi))
  {
    var text := left + "-" + right;
    SalaryCharsConcat(left + "-", right);
    SalaryCharsConcat(left, "-");
    assert SalaryChars("-") == "-";
    assert text[|left|] == '-';
    CleanedPair(text, SalaryChars(left), SalaryChars(right), lo, Some(hi));
  }

  /** A text without hyphen that reads as an amount gives the lower bound only. */
  lemma SingleAmount(text: string, lo: nat)
    requires text != "NA" && '-' !in SalaryChars(text) && ParseInt(SalaryChars(text)) == Some(lo)
    ensures ParseSalary(Some(text)) == Salary(Some(lo), None)
  {
    assert text != "";
  }

  /** A text with neither digit nor hyphen, such as `"garbage"`, gives no salary and raises nothing. */
  lemma WordsGiveNoSalary(text: string)
    requires forall k :: 0 <= k < |text| ==> !IsDigit(text[k]) && text[k] != '-'
    ensures ParseSalary(Some(text)) == Salary(None, None)
  {
    NoDigitsCleaned(text);
    SpacesDoNotParse(SalaryChars(text));
  }

  /** An amount followed by a bare hyphen, `"500000-"`, keeps the lower bound and no upper one. */
  lemma OpenUpperBound(lo: nat)
    ensures ParseSalary(Some(Decimal(lo) + "-")) == Salary(Some(lo), None)
  {
    DecimalCleaned(lo);
    TrailingHyphen(Decimal(lo), lo);
  }

  /** A cleaned amount followed by a bare hyphen keeps the lower bound and no upper one. */
  lemma TrailingHyphen(d: string, lo: nat)
    requires SalaryChars(d) == d && '-' !in d && ParseInt(d) == Some(lo)
    ensures ParseSalary(Some(d + "-")) == Salary(Some(lo), None)
  {
    SalaryCharsConcat(d, "-");
    assert SalaryChars("-") == "-";
    assert SalaryChars(d + "-") == d + ['-'] + "";
    assert (d + "-")[|d|] == '-';
    assert ParseInt("") == None;
    CleanedPair(d + "-", d, "", lo, None);
  }

  /** `"lo-hi"` in decimal gives both bounds. */
  lemma DecimalRangeParses(lo: nat, hi: nat)
    ensures ParseSalary(Some(Decimal(lo) + "-" + Decimal(hi))) == Salary(Some(lo), Some(hi))
  {
    DecimalCleaned(lo);
    DecimalCleaned(hi);
    HyphenPair(Decimal(lo), Decimal(hi), lo, hi);
  }

  /** `str(n)` is kept whole by the salary parser and read back as `n`. */
  lemma DecimalCleaned(n: nat)
    ensures SalaryChars(Decimal(n)) == Decimal(n) && '-' !in Decimal(n)
    ensures ParseInt(Decimal(n)) == Some(n)
  {
    var d := Decimal(n);
    assert forall k :: 0 <= k < |d| ==> SalaryChar(d[k]);
    KeepsSalaryText(d);
    DecimalParses(n);
  }

  /** A text of salary characters is kept whole. */
  lemma {:induction false} KeepsSalaryText(s: string)
    requires forall k :: 0 <= k < |s| ==> SalaryChar(s[k])
    ensures SalaryChars(s) == s
  {
    if s != [] {
      KeepsSalaryText(s[1..]);
      assert [s[0]] + s[1..] == s;
    }
  }

  /** `format(n, ',')` between white space, cleaned, reads as `n`. */
  lemma PaddedGrouped(a: string, n: nat, b: string)
    requires n > 0 && AllSpaces(SalaryChars(a)) && AllSpaces(SalaryChars(b))
    ensures '-' !in SalaryChars(a + Grouped(n) + b)
    ensures ParseInt(SalaryChars(a + Grouped(n) + b)) == Some(n)
  {
    GroupedCleaned(n);
    var d := SalaryChars(Grouped(n));
    SalaryCharsConcat(a + Grouped(n), b);
    SalaryCharsConcat(a, Grouped(n));
    var clean := SalaryChars(a + Grouped(n) + b);
    assert clean == SalaryChars(a) + d + SalaryChars(b);
    assert forall k :: 0 <= k < |clean| ==> clean[k] != '-' by {
      forall k | 0 <= k < |clean| ensures clean[k] != '-' {
        if k < |SalaryChars(a)| {
          assert clean[k] == SalaryChars(a)[k];
        } else if k < |SalaryChars(a)| + |d| {
          assert clean[k] == d[k - |SalaryChars(a)|];
        } else {
          assert clean[k] == SalaryChars(b)[k - |SalaryChars(a)| - |d|];
        }
      }
    }
    PaddedAmount(SalaryChars(a), d, SalaryChars(b), n);
  }

  /** A text without digits and hyphens keeps only white space. */
  lemma {:induction false} NoDigitsCleaned(s: string)
    requires forall k :: 0 <= k < |s| ==> !IsDigit(s[k]) && s[k] != '-'
    ensures AllSpaces(SalaryChars(s))
  {
    if s != [] {
      NoDigitsCleaned(s[1..]);
    }
  }

  lemma OpeningHasNoAmount()
    ensures AllSpaces(SalaryChars("À partir de "))
  {
    NoDigitsCleaned("À partir de ");
  }

  lemma CurrencyHasNoAmount()
    ensures AllSpaces(SalaryChars(" FCFA")) && AllSpaces(SalaryChars(" ")) && AllSpaces(SalaryChars(""))
  {
    NoDigitsCleaned(" FCFA");
    NoDigitsCleaned(" ");
    NoDigitsCleaned("");
  }

  /** Reading back the text `salaire_range` displays for two bounds gives both. */
  lemma SalaryRangeReadBack(lo: nat, hi: nat)
    requires lo > 0 && hi > 0
    ensures ParseSalary(Some(Fields.SalaryRange(Some(lo), Some(hi)))) == Salary(Some(lo), Some(hi))
  {
    var text := Fields.SalaryRange(Some(lo), Some(hi));
    var left, right := "" + Grouped(lo) + " ", " " + Grouped(hi) + " FCFA";
    assert text == left + "-" + right;
    CurrencyHasNoAmount();
    PaddedGrouped("", lo, " ");
    PaddedGrouped(" ", hi, " FCFA");
    HyphenPair(left, right, lo, hi);
  }

  /** Reading back the text `salaire_range` displays for a lower bound alone gives that bound. */
  lemma LowerBoundReadBack(lo: nat, hi: Option<int>)
    requires lo > 0 && !Fields.Truthy(hi)
    ensures ParseSalary(Some(Fields.SalaryRange(Some(lo), hi))) == Salary(Some(lo), None)
  {
    var text := Fields.SalaryRange(Some(lo), hi);
    assert text == "À partir de " + Grouped(lo) + " FCFA";
    OpeningHasNoAmount();
    CurrencyHasNoAmount();
    PaddedGrouped("À partir de ", lo, " FCFA");
    SingleAmount(text, lo);
  }

  /** Stripping nothing but white space leaves nothing, so `int` refuses it. */
  lemma SpacesDoNotParse(s: string)
    requires AllSpaces(s)
    ensures ParseInt(s) == None
  {
    assert LeadingSpaces(s) == |s|;
  }

  /** The text shown for an offer without salary reads back as no salary. */
  lemma NoSalaryReadBack(hi: Option<int>)
    ensures ParseSalary(Some(Fields.SalaryRange(None, hi))) == Salary(None, None)
  {
    var text := Fields.SalaryRange(None, hi);
    assert text == "Non spécifié";
    NoDigitsCleaned(text);
    SpacesDoNotParse(SalaryChars(text));
    assert '-' !in SalaryChars(text);
  }

  // ---------------------------------------------------------------- contract and level

  /** The contract types the importer lets through. */
  const ImportContracts: seq<string> := ["CDI", "CDD", "STAGE", "FREELANCE", "INTERIM", "INDEFINI"]

  /** The experience levels the importer lets through. */
  const ImportLevels: seq<string> := ["JUNIOR", "SENIOR", "EXPERT", "DEBUTANT", "CONFIRME"]

  /** The contract type of a record, upper-cased; anything unknown becomes `INDEFINI`. */
  function NormContract(typeContrat: string): (r: string)
    ensures r in ImportContracts
    ensures Upper(typeContrat) in ImportContracts ==> r == Upper(typeContrat)
    ensures Upper(typeContrat) !in ImportContracts ==> r == "INDEFINI"
  {
    var t := Upper(typeContrat);
    if t in ImportContracts then t else "INDEFINI"
  }

  /** The experience level of a record, upper-cased; anything unknown becomes blank. */
  function NormLevel(niveau: string): (r: string)
    ensures r in ImportLevels || r == ""
    ensures Upper(niveau) in ImportLevels ==> r == Upper(niveau)
    ensures Upper(niveau) !in ImportLevels ==> r == ""
  {
    var t := Upper(niveau);
    if t in ImportLevels then t else ""
  }

  /**
   * The importer's contract list and the model's choices disagree on one code: every
   * imported contract type is a model choice except `INTERIM`.
   */
  lemma ImportedContractChoice(typeContrat: string)
    ensures NormContract(typeContrat) in Fields.ContractChoices <==> NormContract(typeContrat) != "INTERIM"
  {
  }

  /**
   * The level lists disagree on two codes: an imported level is blank or a model choice,
   * except `DEBUTANT` and `CONFIRME`, and `INTERMEDIAIRE` is never imported.
   */
  lemma ImportedLevelChoice(niveau: string)
    ensures var r := NormLevel(niveau);
      (r == "" || r in Fields.LevelChoices) <==> (r != "DEBUTANT" && r != "CONFIRME")
    ensures NormLevel(niveau) != "INTERMEDIAIRE"
  {
  }

  // ---------------------------------------------------------------- prepared record

  /** `prepare_offre_data`'s result, field for field. */
  datatype Prepared = Prepared(
    titrePoste: string,
    entreprise: string,
    tagline: string,
    siteWeb: string,
    secteur: string,
    lieu: string,
    region: string,
    regionCode: string,
    typeContrat: string,
    datePublication: DateTime,
    urlOffre: string,
    description: string,
    salaireMin: Option<nat>,
    salaireMax: Option<nat>,
    niveauExperience: string,
    secteurActivite: string,
    competences: string,
    sourceSite: string)

  /** The publication date of a record: its parsed `date_publication`, or `now`. */
  function PublicationDate(row: Row, now: DateTime): (d: DateTime)
    ensures d == now || (ValidDateTime(d) && d.year <= now.year + 10)
  {
    var v := FieldValue(row, "date_publication", None);
    ParseDateSound(v, now.year);
    ParseDateSpec(v, now.year).GetOr(now)
  }

  /** The date step of `prepare_offre_data`: read the field, parse it, fall back to `now`. */
  method ReadPublicationDate(row: Row, now: DateTime, missing: nat) returns (d: DateTime, missingAfter: nat)
    ensures d == PublicationDate(row, now) && missingAfter == missing
  {
    var v;
    v, missingAfter := GetField(row, "date_publication", None, missing);
    var parsed := ParseDate(v, now.year);
    d := parsed.GetOr(now);
  }

  /**
   * `prepare_offre_data(row)` at time `now`: each field read with `get_field` and cut to the
   * importer's width, the date parsed (or `now`), the salary parsed, contract and level
   * normalised.
   */
  function Prepare(row: Row, now: DateTime): Prepared
  {
    var salary := ParseSalary(FieldValue(row, "salaire", None));
    var region := Truncate(FieldText(row, "region", ""), 100);
    var source := Truncate(FieldText(row, "source_site", "api"), 50);
    Prepared(
      titrePoste := Truncate(FieldText(row, "titre_poste", ""), 200),
      entreprise := Truncate(FieldText(row, "entreprise", ""), 200),
      tagline := Truncate(FieldText(row, "tagline", ""), 500),
      siteWeb := Truncate(FieldText(row, "site_web", ""), 200),
      secteur := Truncate(FieldText(row, "secteur", ""), 100),
      lieu := Truncate(FieldText(row, "lieu", ""), 100),
      region := region,
      regionCode := Truncate(FieldText(row, "region_code", ""), 10),
      typeContrat := NormContract(FieldText(row, "type_contrat", "INDEFINI")),
      datePublication := PublicationDate(row, now),
      urlOffre := Truncate(FieldText(row, "url_offre", ""), 500),
      description := Truncate(FieldText(row, "description", ""), 2000),
      salaireMin := salary.min,
      salaireMax := salary.max,
      niveauExperience := NormLevel(FieldText(row, "niveau_experience", "")),
      secteurActivite := Truncate(FieldText(row, "secteur_activite", ""), 100),
      competences := Truncate(FieldText(row, "competences", ""), 1000),
      sourceSite := source)
  }

  /**
   * What a prepared record guarantees: every text within the importer's width, a known
   * contract type, a known or blank level, a source, a lower bound wherever there is an upper
   * one, and never the region `'NA'` that `process_single_job` tests for.
   */
  lemma PreparedBounds(row: Row, now: DateTime)
    ensures var p := Prepare(row, now);
      && |p.titrePoste| <= 200 && |p.entreprise| <= 200 && |p.tagline| <= 500 && |p.siteWeb| <= 200
      && |p.secteur| <= 100 && |p.lieu| <= 100 && |p.region| <= 100 && |p.regionCode| <= 10
      && |p.urlOffre| <= 500 && |p.description| <= 2000 && |p.secteurActivite| <= 100
      && |p.competences| <= 1000 && |p.sourceSite| <= 50 && p.sourceSite != ""
      && p.typeContrat in ImportContracts && (p.niveauExperience in ImportLevels || p.niveauExperience == "")
      && (p.salaireMax.Some? ==> p.salaireMin.Some?)
      && p.region != "NA"
  {
    if !Blank(row, "region") {
      FieldValueReread(row, "region", Some(""));
    }
    if !Blank(row, "source_site") {
      FieldValueReread(row, "source_site", Some("api"));
    }
    assert Lower("NA") == "na";
  }

  /**
   * `prepare_offre_data`: the fields read one after the other with the counting `get_field`;
   * no call passes the default `'NA'`, so the missing count it returns is always zero.
   */
  method PrepareOffreData(row: Row, now: DateTime) returns (data: Prepared, missingCount: nat)
    ensures data == Prepare(row, now)
    ensures missingCount == 0
  {
    missingCount := 0;
    var salaire, typeContrat, niveau: Option<string>;
    var date;
    date, missingCount := ReadPublicationDate(row, now, missingCount);
    salaire, missingCount := GetField(row, "salaire", None, missingCount);
    var salary := ParseSalary(salaire);
    typeContrat, missingCount := GetField(row, "type_contrat", Some("INDEFINI"), missingCount);
    var contract := NormContract(typeContrat.value);
    niveau, missingCount := GetField(row, "niveau_experience", Some(""), missingCount);
    var level := NormLevel(niveau.value);
    var titre, entreprise, tagline, siteWeb, secteur, lieu, region, regionCode: Option<string>;
    titre, missingCount := GetField(row, "titre_poste", Some(""), missingCount);
    entreprise, missingCount := GetField(row, "entreprise", Some(""), missingCount);
    tagline, missingCount := GetField(row, "tagline", Some(""), missingCount);
    siteWeb, missingCount := GetField(row, "site_web", Some(""), missingCount);
    secteur, missingCount := GetField(row, "secteur", Some(""), missingCount);
    lieu, missingCount := GetField(row, "lieu", Some(""), missingCount);
    region, missingCount := GetField(row, "region", Some(""), missingCount);
    regionCode, missingCount := GetField(row, "region_code", Some(""), missingCount);
    var url, description, secteurActivite, competences, source: Option<string>;
    url, missingCount := GetField(row, "url_offre", Some(""), missingCount);
    description, missingCount := GetField(row, "description", Some(""), missingCount);
    secteurActivite, missingCount := GetField(row, "secteur_activite", Some(""), missingCount);
    competences, missingCount := GetField(row, "competences", Some(""), missingCount);
    source, missingCount := GetField(row, "source_site", Some("api"), missingCount);
    data := Prepared(
      titrePoste := Truncate(titre.value, 200),
      entreprise := Truncate(entreprise.value, 200),
      tagline := Truncate(tagline.value, 500),
      siteWeb := Truncate(siteWeb.value, 200),
      secteur := Truncate(secteur.value, 100),
      lieu := Truncate(lieu.value, 100),
      region := Truncate(region.value, 100),
      regionCode := Truncate(regionCode.value, 10),
      typeContrat := contract,
      datePublication := date,
      urlOffre := Truncate(url.value, 500),
      description := Truncate(description.value, 2000),
      salaireMin := salary.min,
      salaireMax := salary.max,
      niveauExperience := level,
      secteurActivite := Truncate(secteurActivite.value, 100),
      competences := Truncate(competences.value, 1000),
      sourceSite := Truncate(source.value, 50));
  }

  /** `get_create_fields`: the offer built from a prepared record, its company and its region. */
  function CreateFields(p: Prepared, company: string, region: Option<string>): (o: Fields.Offer)
    ensures o.entreprise == company && o.region == region
  {
    Fields.Offer(
      titrePoste := p.titrePoste,
      entreprise := company,
      lieu := p.lieu,
      region := region,
      typeContrat := p.typeContrat,
      datePublication := p.datePublication,
      urlOffre := p.urlOffre,
      description := p.description,
      salaireMin := if p.salaireMin.Some? then Some(p.salaireMin.value as int) else None,
      salaireMax := if p.salaireMax.Some? then Some(p.salaireMax.value as int) else None,
      niveauExperience := p.niveauExperience,
      secteurActivite := p.secteurActivite,
      competences := p.competences,
      sourceSite := p.sourceSite)
  }
}
