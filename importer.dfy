/**
 * The import of one job offer and of a batch of them (api/views.py:183-371): the required
 * check, the lookup-or-creation of the company and of the region, the duplicate rule on the
 * URL, Django's `full_clean` and `save`, and the two record loops with their statistics.
 *
 * The database is a value `Db`: the offers in primary-key order, the companies by their
 * unique name and the regions by their unique name with their (also unique) code. The view
 * methods that change it in place are the `Store` class of module `ImportStore`.
 */
module Importer {
  import opened Wrappers
  import opened Text
  import opened Dates
  import opened Fields
  import opened Normalize
  import opened Requests

  // ---------------------------------------------------------------------------------------
  // One record (process_single_job)
  // ---------------------------------------------------------------------------------------

  /** What `process_single_job` reports for a record that raised nothing. */
  datatype Action = Created | Updated | Skipped

  /** The exceptions a record can raise, each standing for its message. */
  datatype JobError =
    | MissingFields(absent: seq<Required>)     // the ValidationError of the required check
    | RegionCodeTaken(code: string)           // IntegrityError on Region.code
    | Invalid(rejected: seq<string>)          // the ValidationError of full_clean

  /** The five fields a record cannot do without, in the order they are checked. */
  datatype Required = RequiredTitle | RequiredCompany | RequiredPlace | RequiredContract | RequiredUrl

  const RequiredFields: seq<Required> :=
    [RequiredTitle, RequiredCompany, RequiredPlace, RequiredContract, RequiredUrl]

  function RequiredName(f: Required): string {
    match f
    case RequiredTitle => "titre_poste"
    case RequiredCompany => "entreprise"
    case RequiredPlace => "lieu"
    case RequiredContract => "type_contrat"
    case RequiredUrl => "url_offre"
  }

  function RequiredText(p: Prepared, f: Required): string {
    match f
    case RequiredTitle => p.titrePoste
    case RequiredCompany => p.entreprise
    case RequiredPlace => p.lieu
    case RequiredContract => p.typeContrat
    case RequiredUrl => p.urlOffre
  }

  /** A prepared text counts as missing when it is empty or only white space. */
  predicate IsMissing(p: Prepared, f: Required) {
    RequiredText(p, f) == "" || Strip(RequiredText(p, f)) == ""
  }

  /** `x` stands in `fields` at some position before `y`. */
  ghost predicate PlacedBefore(x: Required, y: Required, fields: seq<Required>) {
    exists a, b :: 0 <= a < b < |fields| && fields[a] == x && fields[b] == y
  }

  /** Any two entries of `r` stand in `fields` in the same order. */
  ghost predicate InFieldOrder(r: seq<Required>, fields: seq<Required>) {
    forall i, j :: 0 <= i < j < |r| ==> PlacedBefore(r[i], r[j], fields)
  }

  /** Keeping the order within `init`, possibly followed by the next field `f`. */
  lemma InFieldOrderSnoc(r: seq<Required>, init: seq<Required>, f: Required, last: bool)
    requires InFieldOrder(r, init) && forall x :: x in r ==> x in init
    ensures InFieldOrder(if last then r + [f] else r, init + [f])
  {
    var fields := init + [f];
    var r' := if last then r + [f] else r;
    forall i, j | 0 <= i < j < |r'|
      ensures PlacedBefore(r'[i], r'[j], fields)
    {
      assert r'[i] == r[i];
      if j < |r| {
        assert r'[j] == r[j] && PlacedBefore(r[i], r[j], init);
        var a, b :| 0 <= a < b < |init| && init[a] == r[i] && init[b] == r[j];
        assert fields[a] == r'[i] && fields[b] == r'[j];
      } else {
        assert r[i] in init;
        var a :| 0 <= a < |init| && init[a] == r[i];
        assert fields[a] == r'[i] && fields[|init|] == r'[j];
      }
    }
  }

  /** The fields among `fields` that are missing from `p`, in the order of `fields`. */
  function MissingAmong(p: Prepared, fields: seq<Required>): (r: seq<Required>)
    ensures forall f :: f in r <==> f in fields && IsMissing(p, f)
    ensures InFieldOrder(r, fields)
    ensures |r| <= |fields|
    decreases |fields|
  {
    if fields == [] then []
    else
      var init := fields[..|fields| - 1];
      var rest := MissingAmong(p, init);
      var f := fields[|fields| - 1];
      assert fields == init + [f];
      assert forall g :: g in fields <==> g in init || g == f;
      InFieldOrderSnoc(rest, init, f, IsMissing(p, f));
      if IsMissing(p, f) then rest + [f] else rest
  }

  function MissingRequired(p: Prepared): seq<Required> {
    MissingAmong(p, RequiredFields)
  }

  /** The loop collecting `missing_required`. */
  method CheckRequired(p: Prepared, fields: seq<Required>) returns (missing: seq<Required>)
    ensures missing == MissingAmong(p, fields)
    ensures forall f :: f in missing <==> f in fields && IsMissing(p, f)
    ensures InFieldOrder(missing, fields)
  {
    missing := [];
    for k := 0 to |fields|
      invariant missing == MissingAmong(p, fields[..k])
    {
      var f := fields[k];
      assert fields[..k + 1][..k] == fields[..k];
      if RequiredText(p, f) == "" || Strip(RequiredText(p, f)) == "" {
        missing := missing + [f];
      }
    }
    assert fields[..|fields|] == fields;
  }

  /** The in-memory database. */
  datatype Db = Db(offers: seq<Offer>, companies: map<string, Company>, regions: map<string, string>)

  /** The company lookup key: `entreprise[:200]` as the name column prepares it. */
  function CompanyName(p: Prepared): (name: string)
    ensures |name| <= CompanyNameLength && name <= p.entreprise
  {
    PrepAfterSlice(p.entreprise, CompanyNameLength, CompanyNameLength);
    PrepValue(Truncate(p.entreprise, CompanyNameLength), CompanyNameLength)
  }

  /** The `defaults` of a new company, as the columns store them. */
  function NewCompany(p: Prepared): (c: Company)
    ensures |c.tagline| <= TaglineLength && |c.siteWeb| <= 200 && |c.secteur| <= CompanySectorLength
  {
    PrepAfterSlice(p.siteWeb, 200, SiteLength);
    PrepAfterSlice(p.secteur, 100, CompanySectorLength);
    Company(
      tagline := PrepValue(Truncate(p.tagline, 500), TaglineLength),
      siteWeb := PrepValue(Truncate(p.siteWeb, 200), SiteLength),
      secteur := PrepValue(Truncate(p.secteur, 100), CompanySectorLength))
  }

  /** `Entreprise.objects.get_or_create(nom=..., defaults=...)`. */
  function CompanyStep(db: Db, p: Prepared): Db {
    var name := CompanyName(p);
    if name in db.companies then db else db.(companies := db.companies[name := NewCompany(p)])
  }

  /** The region lookup key: `region[:100]`. */
  function RegionName(p: Prepared): string {
    PrepValue(Truncate(p.region, 100), RegionNameLength)
  }

  /** The code of a new region: `region_code[:10]`. */
  function RegionCode(p: Prepared): string {
    PrepValue(Truncate(p.regionCode, 10), RegionCodeLength)
  }

  /**
   * `Region.objects.get_or_create(nom=..., defaults={'code': ...})` when the record names a
   * region: a new region whose code another region already holds breaks the unique code.
   */
  function RegionStep(db: Db, p: Prepared): (Result<Option<string>, JobError>, Db) {
    if p.region == "" || p.region == "NA" then (Ok(None), db)
    else
      var name := RegionName(p);
      if name in db.regions then (Ok(Some(name)), db)
      else
        var code := RegionCode(p);
        if code in db.regions.Values then (Err(RegionCodeTaken(code)), db)
        else (Ok(Some(name)), db.(regions := db.regions[name := code]))
  }

  /** `OffreEmploi.objects.filter(url_offre=key).first()`: the first offer with that URL. */
  function FirstWithUrl(offers: seq<Offer>, key: string): (r: Option<nat>)
    ensures r.Some? ==> r.value < |offers| && offers[r.value].urlOffre == key
    ensures r.Some? ==> forall j :: 0 <= j < r.value ==> offers[j].urlOffre != key
    ensures r.None? ==> forall j :: 0 <= j < |offers| ==> offers[j].urlOffre != key
  {
    if offers == [] then None
    else if offers[0].urlOffre == key then Some(0)
    else
      match FirstWithUrl(offers[1..], key)
      case None => None
      case Some(j) => Some(j + 1)
  }

  /** The keys of `create_fields`, in their order. */
  datatype Column =
    | TitrePoste | Entreprise | Lieu | Region | TypeContrat | DatePublication | UrlOffre
    | Description | SalaireMin | SalaireMax | NiveauExperience | SecteurActivite | Competences | SourceSite

  const CreateColumns: seq<Column> :=
    [TitrePoste, Entreprise, Lieu, Region, TypeContrat, DatePublication, UrlOffre,
     Description, SalaireMin, SalaireMax, NiveauExperience, SecteurActivite, Competences, SourceSite]

  /** `setattr(offre, field, value)` with the value `create_fields` holds for `field`. */
  function SetAttr(o: Offer, source: Offer, c: Column): Offer {
    match c
    case TitrePoste => o.(titrePoste := source.titrePoste)
    case Entreprise => o.(entreprise := source.entreprise)
    case Lieu => o.(lieu := source.lieu)
    case Region => o.(region := source.region)
    case TypeContrat => o.(typeContrat := source.typeContrat)
    case DatePublication => o.(datePublication := source.datePublication)
    case UrlOffre => o.(urlOffre := source.urlOffre)
    case Description => o.(description := source.description)
    case SalaireMin => o.(salaireMin := source.salaireMin)
    case SalaireMax => o.(salaireMax := source.salaireMax)
    case NiveauExperience => o.(niveauExperience := source.niveauExperience)
    case SecteurActivite => o.(secteurActivite := source.secteurActivite)
    case Competences => o.(competences := source.competences)
    case SourceSite => o.(sourceSite := source.sourceSite)
  }

  /** The update loop over `columns`, which leaves the URL alone. */
  function SetAll(o: Offer, source: Offer, columns: seq<Column>): Offer
    decreases |columns|
  {
    if columns == [] then o
    else
      var before := SetAll(o, source, columns[..|columns| - 1]);
      var c := columns[|columns| - 1];
      if c == UrlOffre then before else SetAttr(before, source, c)
  }

  /** The existing offer once updated: everything from the new record except its URL. */
  function Overwritten(target: Offer, source: Offer): (o: Offer)
    ensures o.urlOffre == target.urlOffre
    ensures o.(urlOffre := source.urlOffre) == source
  {
    source.(urlOffre := target.urlOffre)
  }

  /** An offer with the columns in `columns` taken from `source`, its URL and the rest from `o`. */
  function Mix(o: Offer, s: Offer, cols: set<Column>): Offer {
    Offer(
      titrePoste := if TitrePoste in cols then s.titrePoste else o.titrePoste,
      entreprise := if Entreprise in cols then s.entreprise else o.entreprise,
      lieu := if Lieu in cols then s.lieu else o.lieu,
      region := if Region in cols then s.region else o.region,
      typeContrat := if TypeContrat in cols then s.typeContrat else o.typeContrat,
      datePublication := if DatePublication in cols then s.datePublication else o.datePublication,
      urlOffre := o.urlOffre,
      description := if Description in cols then s.description else o.description,
      salaireMin := if SalaireMin in cols then s.salaireMin else o.salaireMin,
      salaireMax := if SalaireMax in cols then s.salaireMax else o.salaireMax,
      niveauExperience := if NiveauExperience in cols then s.niveauExperience else o.niveauExperience,
      secteurActivite := if SecteurActivite in cols then s.secteurActivite else o.secteurActivite,
      competences := if Competences in cols then s.competences else o.competences,
      sourceSite := if SourceSite in cols then s.sourceSite else o.sourceSite)
  }
  /** `setattr` of one more column. */
  lemma SetAttrMix(o: Offer, s: Offer, cols: set<Column>, c: Column)
    requires c != UrlOffre
    ensures SetAttr(Mix(o, s, cols), s, c) == Mix(o, s, cols + {c})
  {
  }

  /**
   * The update loop copies exactly the listed columns from the new record, except the URL,
   * and leaves every other column of the existing offer as it was.
   */
  lemma {:induction false} SetAllMix(o: Offer, s: Offer, columns: seq<Column>)
    ensures SetAll(o, s, columns) == Mix(o, s, set c | c in columns)
    decreases |columns|
  {
    if columns != [] {
      var init := columns[..|columns| - 1];
      var last := columns[|columns| - 1];
      SetAllMix(o, s, init);
      assert (set c | c in columns) == (set c | c in init) + {last};
      if last != UrlOffre {
        SetAttrMix(o, s, (set c | c in init), last);
      } else {
        MixIgnoresUrl(o, s, set c | c in init);
      }
    }
  }

  /** Listing the URL among the copied columns changes nothing. */
  lemma MixIgnoresUrl(o: Offer, s: Offer, cols: set<Column>)
    ensures Mix(o, s, cols + {UrlOffre}) == Mix(o, s, cols)
  {
  }

  /** Running the update loop over all of `create_fields` yields `Overwritten`. */
  lemma SetAllOverwrites(target: Offer, source: Offer)
    ensures SetAll(target, source, CreateColumns) == Overwritten(target, source)
  {
    SetAllMix(target, source, CreateColumns);
  }

  /** What `save` writes: the contract normalised, then every column's `get_prep_value`. */
  function Stored(o: Offer): Offer {
    Persisted(o.(typeContrat := SaveContract(o.typeContrat)))
  }

  /** The duplicate rule, `full_clean` and `save` for the offer `create_fields` describes. */
  function WriteStep(db: Db, fields: Offer, update: bool, urlValid: string -> bool): (Result<Action, JobError>, Db) {
    match FirstWithUrl(db.offers, PrepValue(fields.urlOffre, UrlLength))
    case Some(i) =>
      if update then
        var o := Overwritten(db.offers[i], fields);
        var errs := FullClean(o, urlValid);
        if errs != [] then (Err(Invalid(errs)), db)
        else (Ok(Updated), db.(offers := db.offers[i := Stored(o)]))
      else (Ok(Skipped), db)
    case None =>
      var errs := FullClean(fields, urlValid);
      if errs != [] then (Err(Invalid(errs)), db)
      else (Ok(Created), db.(offers := db.offers + [Stored(fields)]))
  }

  /**
   * `process_single_job` on a prepared record: its outcome and the database afterwards. An
   * exception leaves behind what was done before it; the record loops roll that back.
   */
  function Commit(db: Db, p: Prepared, update: bool, urlValid: string -> bool): (Result<Action, JobError>, Db) {
    var absent := MissingRequired(p);
    if absent != [] then (Err(MissingFields(absent)), db)
    else
      var db1 := CompanyStep(db, p);
      var (region, db2) := RegionStep(db1, p);
      if region.Err? then (Err(region.error), db2)
      else WriteStep(db2, CreateFields(p, CompanyName(p), region.value), update, urlValid)
  }

  /**
   * Stored URLs are distinct. `url_offre` has no `unique=True` (emploi/models.py:71): the
   * duplicate rule of each import keeps them so.
   */
  ghost predicate UrlsUnique(offers: seq<Offer>) {
    forall i, j :: 0 <= i < j < |offers| ==> offers[i].urlOffre != offers[j].urlOffre
  }

  /** The `unique=True` of `Region.code`. */
  ghost predicate CodesUnique(regions: map<string, string>) {
    forall a, b :: a in regions && b in regions && a != b ==> regions[a] != regions[b]
  }

  /** Every offer refers to a stored company and, when it has one, to a stored region. */
  ghost predicate Linked(db: Db) {
    && (forall i :: 0 <= i < |db.offers| ==> db.offers[i].entreprise in db.companies)
    && (forall i :: 0 <= i < |db.offers| && db.offers[i].region.Some? ==> db.offers[i].region.value in db.regions)
  }

  /** Every stored offer passes `full_clean`. */
  ghost predicate AllClean(offers: seq<Offer>, urlValid: string -> bool) {
    forall i :: 0 <= i < |offers| ==> FullClean(offers[i], urlValid) == []
  }

  /**
   * A consistent database: distinct URLs, unique region codes, offers linked and clean.
   */
  ghost predicate ValidDb(db: Db, urlValid: string -> bool) {
    UrlsUnique(db.offers) && CodesUnique(db.regions) && Linked(db) && AllClean(db.offers, urlValid)
  }

  /** The `for field, value in create_fields.items()` loop of an update. */
  method OverwriteFields(target: Offer, source: Offer) returns (o: Offer)
    ensures o == Overwritten(target, source)
  {
    o := target;
    var columns := CreateColumns;
    for k := 0 to |columns|
      invariant o == SetAll(target, source, columns[..k])
    {
      assert columns[..k + 1][..k] == columns[..k];
      if columns[k] != UrlOffre {
        o := SetAttr(o, source, columns[k]);
      }
    }
    assert columns[..|columns|] == columns;
    SetAllOverwrites(target, source);
  }

  // ---------------------------------------------------------------------------------------
  // Batches (handle_job_list, process_csv_content)
  // ---------------------------------------------------------------------------------------

  /** The `stats` dictionary of a batch. */
  datatype Stats = Stats(total: nat, created: nat, updated: nat, skipped: nat, errors: nat, missingFields: nat)

  const NoStats := Stats(0, 0, 0, 0, 0, 0)

  /** `stats[result['action']] += 1`. */
  function Tally(s: Stats, a: Action): (r: Stats)
    ensures r.total == s.total && r.errors == s.errors && r.missingFields == s.missingFields
    ensures r.created + r.updated + r.skipped == s.created + s.updated + s.skipped + 1
  {
    match a
    case Created => s.(created := s.created + 1)
    case Updated => s.(updated := s.updated + 1)
    case Skipped => s.(skipped := s.skipped + 1)
  }

  /** Where a record sits: `#n` in a JSON list, line `n` of a CSV file. */
  datatype Locator = Job(number: nat) | Line(number: nat)

  /** One entry of the `errors` list, with the record's title, company and place as given. */
  datatype ErrorEntry = ErrorEntry(at: Locator, error: JobError, data: Row)

  const ExcerptKeys: set<string> := {"titre_poste", "entreprise", "lieu"}

  function Excerpt(row: Row): (r: Row)
    ensures r.Keys == row.Keys * ExcerptKeys
    ensures forall k :: k in r ==> r[k] == row[k]
  {
    map k | k in row && k in ExcerptKeys :: row[k]
  }

  /** A record of a batch: where it is, its fields, and whether the loop skips it as empty. */
  datatype Item = Item(at: Locator, row: Row, blank: bool)

  /** The loop's state: the database, `stats` and `errors`. */
  datatype Progress = Progress(db: Db, stats: Stats, errors: seq<ErrorEntry>)

  /** The options of one batch and the things the model takes as given. */
  datatype Setting = Setting(options: Options, now: DateTime, urlValid: string -> bool)

  /** What `process_single_job` does to `db` with the record `row`. */
  function Outcome(db: Db, row: Row, s: Setting): (Result<Action, JobError>, Db) {
    Commit(db, Prepare(row, s.now), Flag(s.options, "update", false), s.urlValid)
  }

  /** The loop's state after a record that `process_single_job` takes: its action counted. */
  function Kept(pr: Progress, a: Action, db: Db): Progress {
    Progress(db, Tally(pr.stats, a), pr.errors)
  }

  /** The loop's state after a record that fails: the transaction rolled back, the error listed. */
  function Failed(pr: Progress, at: Locator, row: Row, e: JobError): Progress {
    Progress(pr.db, pr.stats.(errors := pr.stats.errors + 1), pr.errors + [ErrorEntry(at, e, Excerpt(row))])
  }

  /**
   * The `try` block of a record loop, given the outcome of `process_single_job`. An error
   * ends the loop unless `skip_invalid` is set. The flag returned says the loop stops.
   */
  function Attempt(pr: Progress, at: Locator, row: Row, outcome: (Result<Action, JobError>, Db), s: Setting): (Progress, bool) {
    match outcome.0
    case Ok(a) => (Kept(pr, a, outcome.1), false)
    case Err(e) => (Failed(pr, at, row, e), !Flag(s.options, "skip_invalid", false))
  }

  /** `stats['total'] += 1`. */
  function Counted(pr: Progress): Progress {
    pr.(stats := pr.stats.(total := pr.stats.total + 1))
  }

  /** The whole loop over `items`. */
  function Fold(pr: Progress, items: seq<Item>, s: Setting): Progress
    decreases |items|, 2
  {
    if items == [] then pr else Turn(pr, items, s)
  }

  /** One turn of the loop and the rest: count the record, then skip it if empty or attempt it. */
  function Turn(pr: Progress, items: seq<Item>, s: Setting): Progress
    requires items != []
    decreases |items|, 1
  {
    var counted := Counted(pr);
    if items[0].blank then Fold(counted.(stats := counted.stats.(skipped := counted.stats.skipped + 1)), items[1..], s)
    else Record(counted, items, s)
  }

  /** The `try` block for the first record, then the rest unless it stops the loop. */
  function Record(pr: Progress, items: seq<Item>, s: Setting): Progress
    requires items != []
    decreases |items|, 0
  {
    var (next, stop) := Attempt(pr, items[0].at, items[0].row, Outcome(pr.db, items[0].row, s), s);
    if stop then next else Fold(next, items[1..], s)
  }

  /** The loop over a blank record: counted and skipped. */
  lemma FoldBlank(pr: Progress, items: seq<Item>, s: Setting)
    requires items != [] && items[0].blank
    ensures Fold(pr, items, s) == Fold(Counted(pr).(stats := Counted(pr).stats.(skipped := pr.stats.skipped + 1)), items[1..], s)
  {
    assert Fold(pr, items, s) == Turn(pr, items, s);
  }

  /**
   * The loop over a record that is not blank, by the outcome of `process_single_job`: a
   * record it takes is counted and its changes kept, a record that fails is rolled back and
   * listed, and ends the loop unless `skip_invalid` is set.
   */
  lemma FoldRecord(pr: Progress, items: seq<Item>, s: Setting, outcome: (Result<Action, JobError>, Db))
    requires items != [] && !items[0].blank && outcome == Outcome(pr.db, items[0].row, s)
    ensures outcome.0.Ok? ==> Fold(pr, items, s) == Fold(Kept(Counted(pr), outcome.0.value, outcome.1), items[1..], s)
    ensures outcome.0.Err? ==>
      var next := Failed(Counted(pr), items[0].at, items[0].row, outcome.0.error);
      Fold(pr, items, s) == if Flag(s.options, "skip_invalid", false) then Fold(next, items[1..], s) else next
  {
    assert Fold(pr, items, s) == Turn(pr, items, s);
    assert Turn(pr, items, s) == Record(Counted(pr), items, s);
  }

  /** The same turn, stated through `Attempt` on the outcome of `process_single_job`. */
  lemma FoldAttempt(pr: Progress, items: seq<Item>, s: Setting)
    requires items != [] && !items[0].blank
    ensures var (next, stop) := Attempt(Counted(pr), items[0].at, items[0].row, Outcome(pr.db, items[0].row, s), s);
      Fold(pr, items, s) == if stop then next else Fold(next, items[1..], s)
  {
    assert Fold(pr, items, s) == Turn(pr, items, s);
    assert Turn(pr, items, s) == Record(Counted(pr), items, s);
  }

  /** The records of a JSON list, numbered from 1. */
  function JobItems(jobs: seq<Row>): (items: seq<Item>)
    ensures |items| == |jobs|
    ensures forall i :: 0 <= i < |jobs| ==> items[i] == Item(Job(i + 1), jobs[i], false)
  {
    seq(|jobs|, i requires 0 <= i < |jobs| => Item(Job(i + 1), jobs[i], false))
  }

  /** `csv.DictReader` passes over records without any field. */
  function NonEmptyRecords(records: seq<seq<string>>): (r: seq<seq<string>>)
    ensures forall i :: 0 <= i < |r| ==> r[i] != []
    ensures forall x :: x in r <==> x in records && x != []
    ensures (forall i :: 0 <= i < |records| ==> records[i] != []) ==> r == records
    ensures |r| <= |records|
  {
    if records == [] then []
    else if records[0] == [] then NonEmptyRecords(records[1..])
    else [records[0]] + NonEmptyRecords(records[1..])
  }

  /**
   * The dictionary `csv.DictReader` makes of a record: each header name gets the field in its
   * position, or `None` when the record is shorter; a name repeated in the header keeps its
   * last position. Fields beyond the header go under the key `None`, which no lookup reads.
   */
  function Zip(header: seq<string>, fields: seq<string>): (row: Row)
    ensures row.Keys == set h | h in header
    decreases |header|
  {
    if header == [] then map[]
    else
      var n := |header| - 1;
      var init := Zip(header[..n], fields);
      assert forall h :: h in header <==> h in header[..n] || h == header[n];
      init[header[n] := if n < |fields| then Some(fields[n]) else None]
  }

  /** `not any(row.values())`: no field is filled and there are no extra fields. */
  predicate BlankRecord(header: seq<string>, fields: seq<string>) {
    var row := Zip(header, fields);
    |fields| <= |header| && forall h :: h in row ==> row[h] == None || row[h] == Some("")
  }

  /** The records of a CSV file, located by their line (the header is line 1). */
  function CsvItems(header: seq<string>, records: seq<seq<string>>): (items: seq<Item>)
    ensures var rows := NonEmptyRecords(records);
      && |items| == |rows|
      && forall i :: 0 <= i < |rows| ==>
           items[i] == Item(Line(i + 2), Zip(header, rows[i]), BlankRecord(header, rows[i]))
  {
    var rows := NonEmptyRecords(records);
    seq(|rows|, i requires 0 <= i < |rows| => Item(Line(i + 2), Zip(header, rows[i]), BlankRecord(header, rows[i])))
  }

  /** The body of the `JsonResponse`. */
  datatype Response = Failure(message: string) | Success(stats: Stats, errors: seq<ErrorEntry>)

  /** `errors[:10]`. */
  function FirstErrors(errors: seq<ErrorEntry>): (r: seq<ErrorEntry>)
    ensures |r| <= 10 && r <= errors
    ensures |errors| <= 10 ==> r == errors
  {
    if |errors| <= 10 then errors else errors[..10]
  }

  /** The end of a batch: its statistics, the first ten errors, and the database. */
  function Finish(f: Progress): (Response, Db) {
    (Success(f.stats, FirstErrors(f.errors)), f.db)
  }

  /** `handle_job_list`. */
  function ImportJobs(db: Db, jobs: seq<Row>, s: Setting): (Response, Db) {
    if jobs == [] then (Failure("Aucune offre fournie"), db)
    else Finish(Fold(Progress(db, NoStats, []), JobItems(jobs), s))
  }

  /**
   * `process_csv_content` once the csv module has read `content` into a header and records
   * (with the delimiter the options name).
   */
  function ImportCsv(db: Db, content: string, header: seq<string>, records: seq<seq<string>>, s: Setting): (Response, Db) {
    if Strip(content) == "" then (Failure("Fichier CSV vide"), db)
    else if header == [] then (Failure("Aucun en-tête trouvé dans le fichier CSV"), db)
    else Finish(Fold(Progress(db, NoStats, []), CsvItems(header, records), s))
  }
}
