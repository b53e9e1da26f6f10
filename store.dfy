/**
 * The view methods of api/views.py:183-371 over an in-memory database: the offers in
 * primary-key order, the companies by their unique name and the regions by their unique name
 * with their (also unique) code. Each method computes the specification function of the
 * import it models and keeps the store consistent, as stated in the import's properties.
 */
module ImportStore {
  import opened Wrappers
  import opened Text
  import opened Dates
  import opened Fields
  import opened Normalize
  import opened Requests
  import opened Importer
  import opened ImportProperties

  class Store {
    var offers: seq<Offer>
    var companies: map<string, Company>
    var regions: map<string, string>
    /** Django's `URLValidator`, which the model does not spell out. */
    const urlValid: string -> bool

    function State(): Db
      reads this
    {
      Db(offers, companies, regions)
    }

    ghost predicate Valid()
      reads this
    {
      ValidDb(State(), urlValid)
    }

    constructor(urlValid: string -> bool)
      ensures State() == Db([], map[], map[]) && this.urlValid == urlValid
      ensures Valid()
    {
      offers := [];
      companies := map[];
      regions := map[];
      this.urlValid := urlValid;
    }

    /** Put back the state a transaction started from. */
    method Rollback(snapshot: Db)
      requires ValidDb(snapshot, urlValid)
      modifies this
      ensures State() == snapshot
      ensures Valid()
    {
      offers := snapshot.offers;
      companies := snapshot.companies;
      regions := snapshot.regions;
    }

    method GetOrCreateCompany(p: Prepared) returns (name: string)
      modifies this
      ensures name == CompanyName(p)
      ensures State() == CompanyStep(old(State()), p)
    {
      name := PrepValue(Truncate(p.entreprise, CompanyNameLength), CompanyNameLength);
      if name !in companies {
        companies := companies[name := NewCompany(p)];
      }
    }

    method GetOrCreateRegion(p: Prepared) returns (region: Result<Option<string>, JobError>)
      modifies this
      ensures (region, State()) == RegionStep(old(State()), p)
    {
      if p.region == "" || p.region == "NA" {
        return Ok(None);
      }
      var name := PrepValue(Truncate(p.region, 100), RegionNameLength);
      if name in regions {
        return Ok(Some(name));
      }
      var code := PrepValue(Truncate(p.regionCode, 10), RegionCodeLength);
      if code in regions.Values {
        return Err(RegionCodeTaken(code));
      }
      regions := regions[name := code];
      region := Ok(Some(name));
    }

    /** The duplicate query, taking its first row. */
    method FindDuplicate(key: string) returns (at: Option<nat>)
      ensures at == FirstWithUrl(offers, key)
    {
      var k := 0;
      while k < |offers|
        invariant 0 <= k <= |offers|
        invariant forall j :: 0 <= j < k ==> offers[j].urlOffre != key
      {
        if offers[k].urlOffre == key {
          var first := FirstWithUrl(offers, key);
          assert first == Some(k);
          return Some(k);
        }
        k := k + 1;
      }
      at := None;
    }

    /**
     * `OffreEmploi.save`: the contract type upper-cased, stripped and mapped to its code, then
     * the row written through the columns' `get_prep_value`, as an insert or over row `at`.
     */
    method Save(o: Offer, at: Option<nat>)
      requires at.Some? ==> at.value < |offers|
      modifies this
      ensures offers == if at.Some? then old(offers)[at.value := Stored(o)] else old(offers) + [Stored(o)]
      ensures companies == old(companies) && regions == old(regions)
    {
      var row := o;
      if row.typeContrat != "" {
        row := row.(typeContrat := Strip(Upper(row.typeContrat)));
        if Contains(row.typeContrat, "PRESTATION") {
          row := row.(typeContrat := "PRESTATION DE SERVICES");
        } else if Contains(row.typeContrat, "CONSULT") {
          row := row.(typeContrat := "CONSULTING");
        } else if Contains(row.typeContrat, "TEMPS PARTIEL") {
          row := row.(typeContrat := "TEMPS_PARTIEL");
        }
      }
      assert row == o.(typeContrat := SaveContract(o.typeContrat));
      var stored := Persisted(row);
      if at.Some? {
        offers := offers[at.value := stored];
      } else {
        offers := offers + [stored];
      }
    }

    /** The duplicate rule, then `full_clean` and `save` of the new or the updated offer. */
    method WriteOffer(fields: Offer, update: bool) returns (r: Result<Action, JobError>)
      modifies this
      ensures (r, State()) == WriteStep(old(State()), fields, update, urlValid)
    {
      var duplicate := FindDuplicate(PrepValue(fields.urlOffre, UrlLength));
      if duplicate.Some? {
        if update {
          var o := OverwriteFields(offers[duplicate.value], fields);
          var rejected := FullClean(o, urlValid);
          if rejected != [] {
            return Err(Invalid(rejected));
          }
          Save(o, duplicate);
          return Ok(Updated);
        }
        return Ok(Skipped);
      }
      var rejected := FullClean(fields, urlValid);
      if rejected != [] {
        return Err(Invalid(rejected));
      }
      Save(fields, None);
      r := Ok(Created);
    }

    /** `process_single_job`: the outcome, with the `missing_count` of the preparation. */
    method ProcessSingleJob(row: Row, options: Options, now: DateTime) returns (r: Result<Action, JobError>, missingCount: nat)
      requires Valid()
      modifies this
      ensures r == Outcome(old(State()), row, Setting(options, now, urlValid)).0
      ensures State() == Outcome(old(State()), row, Setting(options, now, urlValid)).1
      ensures missingCount == 0
      ensures Valid()
    {
      CommitKeepsValid(State(), Prepare(row, now), Flag(options, "update", false), urlValid);
      var p;
      p, missingCount := PrepareOffreData(row, now);
      var absent := CheckRequired(p, RequiredFields);
      if absent != [] {
        return Err(MissingFields(absent)), missingCount;
      }
      var company := GetOrCreateCompany(p);
      var region := GetOrCreateRegion(p);
      if region.Err? {
        return Err(region.error), missingCount;
      }
      var fields := CreateFields(p, company, region.value);
      r := WriteOffer(fields, Flag(options, "update", false));
    }
  
    /**
     * One turn of the record loops for a record that is not blank: count it, then the `try`
     * block, with the record in its own transaction.
     */
    method ImportRecord(ghost s: Setting, at: Locator, row: Row, options: Options, now: DateTime,
                        stats: Stats, errors: seq<ErrorEntry>)
      returns (statsAfter: Stats, errorsAfter: seq<ErrorEntry>, stop: bool)
      requires s == Setting(options, now, urlValid)
      requires Valid()
      modifies this
      ensures Valid()
      ensures (Progress(State(), statsAfter, errorsAfter), stop)
        == Attempt(Counted(Progress(old(State()), stats, errors)), at, row, Outcome(old(State()), row, s), s)
    {
      var counted := Counted(Progress(State(), stats, errors));
      var snapshot := State();
      var r, missing := ProcessSingleJob(row, options, now);
      var outcome := (r, State());
      if r.Err? {
        Rollback(snapshot);
      }
      // `stats['missing_fields'] += missing_count` adds nothing: `missing` is always 0.
      var (next, halt) := Attempt(counted, at, row, outcome, Setting(options, now, urlValid));
      return next.stats, next.errors, halt;
    }

    /** `handle_job_list`: one transaction per record, stopping at an error unless `skip_invalid`. */
    method HandleJobList(jobs: seq<Row>, options: Options, now: DateTime) returns (response: Response)
      requires Valid()
      modifies this
      ensures (response, State()) == ImportJobs(old(State()), jobs, Setting(options, now, urlValid))
      ensures Valid()
    {
      if jobs == [] {
        return Failure("Aucune offre fournie");
      }
      ghost var s := Setting(options, now, urlValid);
      ghost var items := JobItems(jobs);
      ghost var goal := Fold(Progress(State(), NoStats, []), items, s);
      var stats := NoStats;
      var errors: seq<ErrorEntry> := [];
      var idx := 0;
      while idx < |jobs|
        invariant 0 <= idx <= |jobs|
        invariant Fold(Progress(State(), stats, errors), items[idx..], s) == goal
        invariant Valid()
      {
        assert items[idx..][1..] == items[idx + 1..];
        FoldAttempt(Progress(State(), stats, errors), items[idx..], s);
        var stop;
        stats, errors, stop := ImportRecord(s, Job(idx + 1), jobs[idx], options, now, stats, errors);
        if stop {
          break;
        }
        idx := idx + 1;
      }
      response := Success(stats, FirstErrors(errors));
    }

    /** One turn of the CSV loop: the record as `csv.DictReader` gives it, skipped when empty. */
    method ImportLine(ghost items: seq<Item>, ghost s: Setting, line: nat, header: seq<string>, fields: seq<string>,
                      options: Options, now: DateTime, stats: Stats, errors: seq<ErrorEntry>)
      returns (statsAfter: Stats, errorsAfter: seq<ErrorEntry>, stop: bool)
      requires items != [] && items[0] == Item(Line(line), Zip(header, fields), BlankRecord(header, fields))
      requires s == Setting(options, now, urlValid)
      requires Valid()
      modifies this
      ensures Valid()
      ensures var after := Progress(State(), statsAfter, errorsAfter);
        Fold(Progress(old(State()), stats, errors), items, s) == if stop then after else Fold(after, items[1..], s)
    {
      var row := Zip(header, fields);
      if BlankRecord(header, fields) {
        FoldBlank(Progress(State(), stats, errors), items, s);
        statsAfter := stats.(total := stats.total + 1);
        return statsAfter.(skipped := statsAfter.skipped + 1), errors, false;
      }
      FoldAttempt(Progress(State(), stats, errors), items, s);
      statsAfter, errorsAfter, stop := ImportRecord(s, Line(line), row, options, now, stats, errors);
    }

    /**
     * `process_csv_content`, given what the csv module reads from `content`: the header and
     * the records. Empty records count as skipped; lines are numbered from the header's 1.
     */
    method ProcessCsvContent(content: string, header: seq<string>, records: seq<seq<string>>, options: Options, now: DateTime)
      returns (response: Response)
      requires Valid()
      modifies this
      ensures (response, State()) == ImportCsv(old(State()), content, header, records, Setting(options, now, urlValid))
      ensures Valid()
    {
      if Strip(content) == "" {
        return Failure("Fichier CSV vide");
      }
      if header == [] {
        return Failure("Aucun en-tête trouvé dans le fichier CSV");
      }
      var rows := NonEmptyRecords(records);
      ghost var s := Setting(options, now, urlValid);
      ghost var items := CsvItems(header, records);
      ghost var goal := Fold(Progress(State(), NoStats, []), items, s);
      var stats := NoStats;
      var errors: seq<ErrorEntry> := [];
      var idx := 0;
      while idx < |rows|
        invariant 0 <= idx <= |rows|
        invariant Fold(Progress(State(), stats, errors), items[idx..], s) == goal
        invariant Valid()
      {
        assert items[idx..][1..] == items[idx + 1..];
        var stop;
        stats, errors, stop := ImportLine(items[idx..], s, idx + 2, header, rows[idx], options, now, stats, errors);
        if stop {
          break;
        }
        idx := idx + 1;
      }
      response := Success(stats, FirstErrors(errors));
    }
  }
}
