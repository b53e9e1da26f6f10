/**
 * What the import promises, stated over the model of api/views.py and emploi/models.py:
 * how one record changes the database, that URLs stay distinct, region codes unique and
 * every stored offer passes `full_clean`, what a repeated import does, and the accounting
 * of a batch.
 */
module ImportProperties {
  import opened Wrappers
  import opened Text
  import opened Dates
  import opened Fields
  import opened Normalize
  import opened Requests
  import opened Importer

  // ---------------------------------------------------------------------------------------
  // The required check
  // ---------------------------------------------------------------------------------------

  /** All five required fields are checked: a record passes exactly when none is missing. */
  lemma NothingMissing(p: Prepared)
    ensures MissingRequired(p) == [] <==> forall f: Required :: !IsMissing(p, f)
  {
    var r := MissingRequired(p);
    if r != [] {
      assert r[0] in r;
    }
    forall f: Required
      ensures f in RequiredFields
    {
      match f
      case RequiredTitle => assert RequiredFields[0] == f;
      case RequiredCompany => assert RequiredFields[1] == f;
      case RequiredPlace => assert RequiredFields[2] == f;
      case RequiredContract => assert RequiredFields[3] == f;
      case RequiredUrl => assert RequiredFields[4] == f;
    }
  }

  /** A contract code of the import is never blank. */
  lemma ImportContractPresent(p: Prepared)
    requires p.typeContrat in ImportContracts
    ensures !IsMissing(p, RequiredContract)
  {
    var t := p.typeContrat;
    assert t != [] && !IsSpace(t[0]) && !IsSpace(t[|t| - 1]);
    StripNoop(t);
  }

  /** The contract type is never reported missing: a record without one gets `INDEFINI`. */
  lemma ContractNeverMissing(row: Row, now: DateTime)
    ensures RequiredContract !in MissingRequired(Prepare(row, now))
  {
    PreparedBounds(row, now);
    ImportContractPresent(Prepare(row, now));
  }

  // ---------------------------------------------------------------------------------------
  // Company and region
  // ---------------------------------------------------------------------------------------

  /** `get_or_create` of the company adds at most the record's company and changes no other row. */
  lemma CompanyStepFacts(db: Db, p: Prepared)
    ensures var r := CompanyStep(db, p);
      && r.offers == db.offers && r.regions == db.regions
      && r.companies.Keys == db.companies.Keys + {CompanyName(p)}
      && forall n :: n in db.companies ==> r.companies[n] == db.companies[n]
  {
  }

  /**
   * `get_or_create` of the region: no region for a blank or `'NA'` name, the existing one
   * for a known name, otherwise a new one, which fails exactly when its code is taken.
   */
  lemma RegionStepFacts(db: Db, p: Prepared)
    ensures var r := RegionStep(db, p);
      && r.1.offers == db.offers && r.1.companies == db.companies
      && (r.0 == Ok(None) <==> p.region == "" || p.region == "NA")
      && (r.0.Err? <==>
            p.region != "" && p.region != "NA" && RegionName(p) !in db.regions && RegionCode(p) in db.regions.Values)
      && (r.0.Ok? && r.0.value.Some? ==> r.0.value.value == RegionName(p) && RegionName(p) in r.1.regions)
      && r.1.regions.Keys <= db.regions.Keys + {RegionName(p)}
      && forall n :: n in db.regions ==> n in r.1.regions && r.1.regions[n] == db.regions[n]
  {
  }

  /** A region is only created under a code no other region holds. */
  lemma RegionStepKeepsCodesUnique(db: Db, p: Prepared)
    requires CodesUnique(db.regions)
    ensures CodesUnique(RegionStep(db, p).1.regions)
  {
    var r := RegionStep(db, p).1;
    if r.regions != db.regions {
      var name, code := RegionName(p), RegionCode(p);
      assert r.regions == db.regions[name := code];
      forall a | a in db.regions
        ensures db.regions[a] != code
      {
        assert db.regions[a] in db.regions.Values;
      }
    }
  }

  /**
   * Two new regions with different names and the same code (two records without a code,
   * say): the second one's record fails on the unique code.
   */
  lemma SharedCodeRefused(db: Db, p: Prepared, q: Prepared)
    requires RegionStep(db, p).0.Ok? && RegionName(p) !in db.regions && p.region != "" && p.region != "NA"
    requires q.region != "" && q.region != "NA" && RegionName(q) != RegionName(p) && RegionName(q) !in db.regions
    requires RegionCode(q) == RegionCode(p)
    ensures RegionStep(RegionStep(db, p).1, q).0 == Err(RegionCodeTaken(RegionCode(q)))
  {
    var r := RegionStep(db, p).1;
    assert r.regions[RegionName(p)] == RegionCode(p);
    assert RegionCode(p) in r.regions.Values;
  }

  // ---------------------------------------------------------------------------------------
  // The duplicate rule, full_clean and save
  // ---------------------------------------------------------------------------------------

  /**
   * The four outcomes of writing an offer: created when no offer has its URL and it is clean,
   * skipped when one has it and `update` is off, updated when `update` is on and the existing
   * offer, overwritten, is clean, refused otherwise. The companies and regions stay as they are.
   */
  lemma WriteStepOutcome(db: Db, fields: Offer, update: bool, urlValid: string -> bool)
    ensures var dup := FirstWithUrl(db.offers, PrepValue(fields.urlOffre, UrlLength));
      var (r, after) := WriteStep(db, fields, update, urlValid);
      && after.companies == db.companies && after.regions == db.regions
      && (r == Ok(Created) <==> dup.None? && FullClean(fields, urlValid) == [])
      && (r == Ok(Created) ==> after.offers == db.offers + [fields])
      && (r == Ok(Skipped) <==> dup.Some? && !update)
      && (r == Ok(Updated) <==>
            dup.Some? && update && FullClean(Overwritten(db.offers[dup.value], fields), urlValid) == [])
      && (r == Ok(Updated) ==>
            after.offers == db.offers[dup.value := Overwritten(db.offers[dup.value], fields)])
      && (r.Err? ==> r.error.Invalid? && after == db)
      && (r == Ok(Skipped) ==> after == db)
  {
    var dup := FirstWithUrl(db.offers, PrepValue(fields.urlOffre, UrlLength));
    if dup.None? && FullClean(fields, urlValid) == [] {
      CleanOfferStoredUnchanged(fields, urlValid);
    }
    if dup.Some? && update {
      var o := Overwritten(db.offers[dup.value], fields);
      if FullClean(o, urlValid) == [] {
        CleanOfferStoredUnchanged(o, urlValid);
      }
    }
  }

  /** An offer stored under a URL no other offer has, clean and linked, keeps the database consistent. */
  lemma AppendKeepsValid(db: Db, o: Offer, urlValid: string -> bool)
    requires ValidDb(db, urlValid) && FullClean(o, urlValid) == []
    requires forall j :: 0 <= j < |db.offers| ==> db.offers[j].urlOffre != o.urlOffre
    requires o.entreprise in db.companies && (o.region.Some? ==> o.region.value in db.regions)
    ensures ValidDb(db.(offers := db.offers + [o]), urlValid)
  {
    var offers := db.offers + [o];
    assert forall j :: 0 <= j < |db.offers| ==> offers[j] == db.offers[j];
    assert offers[|db.offers|] == o;
  }

  /** An offer put in the place of one with the same URL, clean and linked, keeps the database consistent. */
  lemma ReplaceKeepsValid(db: Db, i: nat, o: Offer, urlValid: string -> bool)
    requires ValidDb(db, urlValid) && FullClean(o, urlValid) == []
    requires i < |db.offers| && o.urlOffre == db.offers[i].urlOffre
    requires o.entreprise in db.companies && (o.region.Some? ==> o.region.value in db.regions)
    ensures ValidDb(db.(offers := db.offers[i := o]), urlValid)
  {
    var offers := db.offers[i := o];
    assert forall j :: 0 <= j < |offers| ==> offers[j].urlOffre == db.offers[j].urlOffre;
  }

  /** Writing an offer that refers to a stored company and region keeps the database consistent. */
  lemma WriteStepKeepsValid(db: Db, fields: Offer, update: bool, urlValid: string -> bool)
    requires ValidDb(db, urlValid)
    requires fields.entreprise in db.companies
    requires fields.region.Some? ==> fields.region.value in db.regions
    ensures ValidDb(WriteStep(db, fields, update, urlValid).1, urlValid)
  {
    WriteStepOutcome(db, fields, update, urlValid);
    var dup := FirstWithUrl(db.offers, PrepValue(fields.urlOffre, UrlLength));
    var r := WriteStep(db, fields, update, urlValid).0;
    if r == Ok(Created) {
      assert PrepValue(fields.urlOffre, UrlLength) == fields.urlOffre;
      AppendKeepsValid(db, fields, urlValid);
    } else if r == Ok(Updated) {
      ReplaceKeepsValid(db, dup.value, Overwritten(db.offers[dup.value], fields), urlValid);
    }
  }

  // ---------------------------------------------------------------------------------------
  // One record
  // ---------------------------------------------------------------------------------------

  /** New companies and regions, under unique codes, keep a database consistent. */
  lemma GrowKeepsValid(db: Db, grown: Db, urlValid: string -> bool)
    requires ValidDb(db, urlValid) && grown.offers == db.offers && CodesUnique(grown.regions)
    requires db.companies.Keys <= grown.companies.Keys && db.regions.Keys <= grown.regions.Keys
    ensures ValidDb(grown, urlValid)
  {
  }

  /**
   * `process_single_job` keeps the database consistent, whatever its outcome: the distinct
   * URLs and the unique region codes, the links to companies and regions, and `full_clean`
   * of every offer.
   */
  lemma CommitKeepsValid(db: Db, p: Prepared, update: bool, urlValid: string -> bool)
    requires ValidDb(db, urlValid)
    ensures ValidDb(Commit(db, p, update, urlValid).1, urlValid)
  {
    if MissingRequired(p) == [] {
      var db1 := CompanyStep(db, p);
      CompanyStepFacts(db, p);
      GrowKeepsValid(db, db1, urlValid);
      var (region, db2) := RegionStep(db1, p);
      RegionStepFacts(db1, p);
      RegionStepKeepsCodesUnique(db1, p);
      GrowKeepsValid(db1, db2, urlValid);
      if region.Ok? {
        WriteStepKeepsValid(db2, CreateFields(p, CompanyName(p), region.value), update, urlValid);
      }
    }
  }

  /** The region a record refers to once `get_or_create` has succeeded. */
  function RegionOf(p: Prepared): Option<string> {
    if p.region == "" || p.region == "NA" then None else Some(RegionName(p))
  }

  /** A record with a required field missing changes nothing and names the missing fields. */
  lemma MissingFieldsRefused(db: Db, p: Prepared, update: bool, urlValid: string -> bool)
    requires exists f: Required :: IsMissing(p, f)
    ensures Commit(db, p, update, urlValid) == (Err(MissingFields(MissingRequired(p))), db)
    ensures MissingRequired(p) != []
  {
    NothingMissing(p);
  }

  /**
   * A record that is taken leaves its company stored and, when it names one, its region; a
   * created offer is appended and is exactly what `get_create_fields` describes.
   */
  lemma CommitStores(db: Db, p: Prepared, update: bool, urlValid: string -> bool)
    requires Commit(db, p, update, urlValid).0.Ok?
    ensures var (r, after) := Commit(db, p, update, urlValid);
      && MissingRequired(p) == []
      && CompanyName(p) in after.companies
      && (RegionOf(p).Some? ==> RegionOf(p).value in after.regions)
      && (r.value == Created ==> after.offers == db.offers + [CreateFields(p, CompanyName(p), RegionOf(p))])
      && (r.value == Skipped ==> after.offers == db.offers)
  {
    var db1 := CompanyStep(db, p);
    CompanyStepFacts(db, p);
    RegionStepFacts(db1, p);
    var (region, db2) := RegionStep(db1, p);
    assert region == Ok(RegionOf(p));
    WriteStepOutcome(db2, CreateFields(p, CompanyName(p), RegionOf(p)), update, urlValid);
  }

  /**
   * The model's choices refuse the importer's `INTERIM`, `DEBUTANT` and `CONFIRME`: such a
   * record is never created nor used for an update; at most it is skipped as a duplicate.
   */
  lemma UnknownCodesNeverStored(db: Db, p: Prepared, update: bool, urlValid: string -> bool)
    requires p.typeContrat == "INTERIM" || p.niveauExperience == "DEBUTANT" || p.niveauExperience == "CONFIRME"
    ensures var r := Commit(db, p, update, urlValid).0;
      r.Ok? ==> r.value == Skipped
  {
    if MissingRequired(p) == [] {
      var db1 := CompanyStep(db, p);
      var (region, db2) := RegionStep(db1, p);
      if region.Ok? {
        var fields := CreateFields(p, CompanyName(p), region.value);
        WriteStepOutcome(db2, fields, update, urlValid);
        var dup := FirstWithUrl(db2.offers, PrepValue(fields.urlOffre, UrlLength));
        if p.typeContrat == "INTERIM" {
          InterimRejected(fields, urlValid);
          if dup.Some? {
            InterimRejected(Overwritten(db2.offers[dup.value], fields), urlValid);
          }
        } else {
          UnknownLevelRejected(fields, urlValid);
          if dup.Some? {
            UnknownLevelRejected(Overwritten(db2.offers[dup.value], fields), urlValid);
          }
        }
      }
    }
  }

  /**
   * A record whose URL is longer than the 300-character column is never created; its
   * duplicate test still looks for the first 300 characters, so it can update an offer.
   */
  lemma LongUrlNeverCreated(db: Db, p: Prepared, update: bool, urlValid: string -> bool)
    requires |p.urlOffre| > UrlLength
    ensures Commit(db, p, update, urlValid).0 != Ok(Created)
  {
    if MissingRequired(p) == [] {
      var db1 := CompanyStep(db, p);
      var (region, db2) := RegionStep(db1, p);
      if region.Ok? {
        var fields := CreateFields(p, CompanyName(p), region.value);
        WriteStepOutcome(db2, fields, update, urlValid);
        LongUrlRejected(fields, urlValid);
      }
    }
  }

  /**
   * A record whose URL is longer than the column finds, as its duplicate, the offer stored
   * under its first 300 characters: that offer is skipped, or updated with its own URL kept.
   */
  lemma LongUrlMatchesPrefix(db: Db, fields: Offer, i: nat, urlValid: string -> bool)
    requires |fields.urlOffre| > UrlLength
    requires FirstWithUrl(db.offers, fields.urlOffre[..UrlLength]) == Some(i)
    ensures WriteStep(db, fields, false, urlValid) == (Ok(Skipped), db)
    ensures var o := Overwritten(db.offers[i], fields);
      FullClean(o, urlValid) == [] ==>
        && o.urlOffre == db.offers[i].urlOffre
        && WriteStep(db, fields, true, urlValid) == (Ok(Updated), db.(offers := db.offers[i := Stored(o)]))
  {
    assert PrepValue(fields.urlOffre, UrlLength) == fields.urlOffre[..UrlLength];
  }

  /** The first offer with a URL is found wherever it is. */
  lemma FirstAt(offers: seq<Offer>, key: string, i: nat)
    requires i < |offers| && offers[i].urlOffre == key
    requires forall j :: 0 <= j < i ==> offers[j].urlOffre != key
    ensures FirstWithUrl(offers, key) == Some(i)
  {
  }

  /** A duplicate that already holds everything the record would write is left as it is. */
  lemma WriteExisting(db: Db, fields: Offer, i: nat, again: bool, urlValid: string -> bool)
    requires FirstWithUrl(db.offers, PrepValue(fields.urlOffre, UrlLength)) == Some(i)
    requires Overwritten(db.offers[i], fields) == db.offers[i] && FullClean(db.offers[i], urlValid) == []
    ensures WriteStep(db, fields, again, urlValid) == (Ok(if again then Updated else Skipped), db)
  {
    var o := db.offers[i];
    CleanOfferStoredUnchanged(o, urlValid);
    assert db.offers[i := o] == db.offers;
  }

  /** Writing the same offer again after it was created or updated changes nothing. */
  lemma WriteAgain(db: Db, fields: Offer, update: bool, again: bool, urlValid: string -> bool)
    requires WriteStep(db, fields, update, urlValid).0 == Ok(Created) || WriteStep(db, fields, update, urlValid).0 == Ok(Updated)
    ensures var after := WriteStep(db, fields, update, urlValid).1;
      WriteStep(after, fields, again, urlValid) == (Ok(if again then Updated else Skipped), after)
  {
    var key := PrepValue(fields.urlOffre, UrlLength);
    var (r, after) := WriteStep(db, fields, update, urlValid);
    WriteStepOutcome(db, fields, update, urlValid);
    if r == Ok(Created) {
      var i := |db.offers|;
      assert key == fields.urlOffre;
      assert after.offers[i] == fields;
      FirstAt(after.offers, key, i);
      WriteExisting(after, fields, i, again, urlValid);
    } else {
      var i := FirstWithUrl(db.offers, key).value;
      assert forall j :: 0 <= j < i ==> after.offers[j] == db.offers[j];
      FirstAt(after.offers, key, i);
      WriteExisting(after, fields, i, again, urlValid);
    }
  }

  /**
   * Importing a record a second time once it was created or updated changes nothing: it is
   * skipped without `update` and rewritten to the same row with it.
   */
  lemma ReimportChangesNothing(db: Db, p: Prepared, update: bool, again: bool, urlValid: string -> bool)
    requires Commit(db, p, update, urlValid).0 == Ok(Created) || Commit(db, p, update, urlValid).0 == Ok(Updated)
    ensures var after := Commit(db, p, update, urlValid).1;
      Commit(after, p, again, urlValid) == (Ok(if again then Updated else Skipped), after)
  {
    var db1 := CompanyStep(db, p);
    CompanyStepFacts(db, p);
    RegionStepFacts(db1, p);
    var db2 := RegionStep(db1, p).1;
    var fields := CreateFields(p, CompanyName(p), RegionOf(p));
    WriteStepOutcome(db2, fields, update, urlValid);
    var after := WriteStep(db2, fields, update, urlValid).1;
    WriteAgain(db2, fields, update, again, urlValid);
    assert CompanyStep(after, p) == after;
    RegionStepFacts(after, p);
    assert RegionStep(after, p) == (Ok(RegionOf(p)), after);
  }

  // ---------------------------------------------------------------------------------------
  // Batches
  // ---------------------------------------------------------------------------------------

  /** The records a batch has settled: created, updated, skipped or failed. */
  function Settled(st: Stats): nat {
    st.created + st.updated + st.skipped + st.errors
  }

  /**
   * The accounting of the record loops: every counted record is settled exactly once, as
   * created, updated, skipped or failed, and `missing_fields` never grows.
   */
  lemma {:induction false} FoldAccounting(pr: Progress, items: seq<Item>, s: Setting)
    ensures var f := Fold(pr, items, s);
      && Settled(f.stats) + pr.stats.total == Settled(pr.stats) + f.stats.total
      && f.stats.missingFields == pr.stats.missingFields
    decreases |items|
  {
    if items != [] {
      if items[0].blank {
        FoldBlank(pr, items, s);
        FoldAccounting(Counted(pr).(stats := Counted(pr).stats.(skipped := pr.stats.skipped + 1)), items[1..], s);
      } else {
        var outcome := Outcome(pr.db, items[0].row, s);
        FoldRecord(pr, items, s, outcome);
        if outcome.0.Ok? {
          FoldAccounting(Kept(Counted(pr), outcome.0.value, outcome.1), items[1..], s);
        } else if Flag(s.options, "skip_invalid", false) {
          FoldAccounting(Failed(Counted(pr), items[0].at, items[0].row, outcome.0.error), items[1..], s);
        }
      }
    }
  }

  /** Every failure the loops count is listed, after the failures listed before. */
  lemma {:induction false} FoldListsErrors(pr: Progress, items: seq<Item>, s: Setting)
    ensures var f := Fold(pr, items, s);
      && |f.errors| + pr.stats.errors == |pr.errors| + f.stats.errors
      && pr.errors <= f.errors
    decreases |items|
  {
    if items != [] {
      if items[0].blank {
        FoldBlank(pr, items, s);
        FoldListsErrors(Counted(pr).(stats := Counted(pr).stats.(skipped := pr.stats.skipped + 1)), items[1..], s);
      } else {
        var outcome := Outcome(pr.db, items[0].row, s);
        FoldRecord(pr, items, s, outcome);
        if outcome.0.Ok? {
          FoldListsErrors(Kept(Counted(pr), outcome.0.value, outcome.1), items[1..], s);
        } else if Flag(s.options, "skip_invalid", false) {
          FoldListsErrors(Failed(Counted(pr), items[0].at, items[0].row, outcome.0.error), items[1..], s);
        }
      }
    }
  }

  /**
   * How far the record loops get: no record is counted twice, all are counted with
   * `skip_invalid`, and without it the loop stops at its first failure.
   */
  lemma {:induction false} FoldReach(pr: Progress, items: seq<Item>, s: Setting)
    ensures var f := Fold(pr, items, s);
      && pr.stats.total <= f.stats.total <= pr.stats.total + |items|
      && (Flag(s.options, "skip_invalid", false) ==> f.stats.total == pr.stats.total + |items|)
      && (!Flag(s.options, "skip_invalid", false) ==> f.stats.errors <= pr.stats.errors + 1)
    decreases |items|
  {
    if items != [] {
      if items[0].blank {
        FoldBlank(pr, items, s);
        FoldReach(Counted(pr).(stats := Counted(pr).stats.(skipped := pr.stats.skipped + 1)), items[1..], s);
      } else {
        var outcome := Outcome(pr.db, items[0].row, s);
        FoldRecord(pr, items, s, outcome);
        if outcome.0.Ok? {
          FoldReach(Kept(Counted(pr), outcome.0.value, outcome.1), items[1..], s);
        } else if Flag(s.options, "skip_invalid", false) {
          FoldReach(Failed(Counted(pr), items[0].at, items[0].row, outcome.0.error), items[1..], s);
        }
      }
    }
  }

  /** A batch keeps the database consistent: each record is kept consistent or rolled back. */
  lemma {:induction false} FoldKeepsValid(pr: Progress, items: seq<Item>, s: Setting)
    requires ValidDb(pr.db, s.urlValid)
    ensures ValidDb(Fold(pr, items, s).db, s.urlValid)
    decreases |items|
  {
    if items != [] {
      if items[0].blank {
        FoldBlank(pr, items, s);
        FoldKeepsValid(Counted(pr).(stats := Counted(pr).stats.(skipped := pr.stats.skipped + 1)), items[1..], s);
      } else {
        var outcome := Outcome(pr.db, items[0].row, s);
        FoldRecord(pr, items, s, outcome);
        if outcome.0.Ok? {
          CommitKeepsValid(pr.db, Prepare(items[0].row, s.now), Flag(s.options, "update", false), s.urlValid);
          FoldKeepsValid(Kept(Counted(pr), outcome.0.value, outcome.1), items[1..], s);
        } else if Flag(s.options, "skip_invalid", false) {
          FoldKeepsValid(Failed(Counted(pr), items[0].at, items[0].row, outcome.0.error), items[1..], s);
        }
      }
    }
  }

  /** Error entries whose record numbers strictly increase. */
  ghost predicate InOrder(errors: seq<ErrorEntry>) {
    forall i, j :: 0 <= i < j < |errors| ==> errors[i].at.number < errors[j].at.number
  }

  /** Records whose numbers strictly increase, as lines and list positions do. */
  ghost predicate Ascending(items: seq<Item>) {
    forall i, j :: 0 <= i < j < |items| ==> items[i].at.number < items[j].at.number
  }

  /** Error entries all about records numbered below `n`. */
  ghost predicate Before(errors: seq<ErrorEntry>, n: nat) {
    forall k :: 0 <= k < |errors| ==> errors[k].at.number < n
  }

  /** A failure listed after earlier ones keeps the list in order. */
  lemma FailedInOrder(pr: Progress, at: Locator, row: Row, e: JobError, n: nat)
    requires InOrder(pr.errors) && Before(pr.errors, at.number) && at.number < n
    ensures InOrder(Failed(pr, at, row, e).errors) && Before(Failed(pr, at, row, e).errors, n)
  {
    var errors := Failed(pr, at, row, e).errors;
    assert forall k :: 0 <= k < |pr.errors| ==> errors[k] == pr.errors[k];
    assert errors[|pr.errors|].at == at;
  }

  /** Entries before one record are before every later one. */
  lemma BeforeLater(errors: seq<ErrorEntry>, n: nat, m: nat)
    requires Before(errors, n) && n <= m
    ensures Before(errors, m)
  {
  }

  /** The loops list failures in the order of the records. */
  lemma {:induction false} FoldErrorsInOrder(pr: Progress, items: seq<Item>, s: Setting)
    requires InOrder(pr.errors) && Ascending(items)
    requires items != [] ==> Before(pr.errors, items[0].at.number)
    ensures InOrder(Fold(pr, items, s).errors)
    decreases |items|
  {
    if items != [] {
      var rest := items[1..];
      assert Ascending(rest);
      var n := if rest == [] then items[0].at.number + 1 else rest[0].at.number;
      assert items[0].at.number < n;
      BeforeLater(pr.errors, items[0].at.number, n);
      if items[0].blank {
        FoldBlank(pr, items, s);
        FoldErrorsInOrder(Counted(pr).(stats := Counted(pr).stats.(skipped := pr.stats.skipped + 1)), rest, s);
      } else {
        var outcome := Outcome(pr.db, items[0].row, s);
        FoldRecord(pr, items, s, outcome);
        if outcome.0.Ok? {
          FoldErrorsInOrder(Kept(Counted(pr), outcome.0.value, outcome.1), rest, s);
        } else {
          FailedInOrder(Counted(pr), items[0].at, items[0].row, outcome.0.error, n);
          if Flag(s.options, "skip_invalid", false) {
            FoldErrorsInOrder(Failed(Counted(pr), items[0].at, items[0].row, outcome.0.error), rest, s);
          }
        }
      }
    }
  }

  /**
   * The statistics of a finished batch of `n` records, started from zero: at most `n`
   * counted (all of them with `skip_invalid`), each settled once, and no missing fields.
   */
  ghost predicate Accounted(stats: Stats, n: nat, skip: bool) {
    && stats.total <= n
    && (skip ==> stats.total == n)
    && Settled(stats) == stats.total
    && stats.missingFields == 0
  }

  /** A batch started from zero is accounted for. */
  lemma BatchAccounted(start: Progress, items: seq<Item>, s: Setting)
    requires start.stats == NoStats && start.errors == []
    ensures var f := Fold(start, items, s);
      Accounted(f.stats, |items|, Flag(s.options, "skip_invalid", false))
  {
    FoldAccounting(start, items, s);
    FoldReach(start, items, s);
  }

  /** The first ten of a list of errors in order are in order. */
  lemma FirstErrorsInOrder(errors: seq<ErrorEntry>)
    requires InOrder(errors)
    ensures InOrder(FirstErrors(errors))
    ensures |FirstErrors(errors)| == if |errors| <= 10 then |errors| else 10
  {
  }

  /**
   * `handle_job_list`: an empty list is refused and changes nothing; otherwise the response is
   * accounted for over the jobs, and lists the first ten errors in the order of the jobs.
   */
  lemma ImportJobsResponse(db: Db, jobs: seq<Row>, s: Setting)
    ensures var (response, after) := ImportJobs(db, jobs, s);
      && (jobs == [] <==> response.Failure?)
      && (response.Failure? ==> after == db)
      && (response.Success? ==>
            && Accounted(response.stats, |jobs|, Flag(s.options, "skip_invalid", false))
            && |response.errors| == (if response.stats.errors <= 10 then response.stats.errors else 10)
            && InOrder(response.errors))
  {
    if jobs != [] {
      var start := Progress(db, NoStats, []);
      BatchAccounted(start, JobItems(jobs), s);
      FoldListsErrors(start, JobItems(jobs), s);
      FoldErrorsInOrder(start, JobItems(jobs), s);
      FirstErrorsInOrder(Fold(start, JobItems(jobs), s).errors);
    }
  }

  /** `handle_job_list` keeps the database consistent. */
  lemma ImportJobsKeepsValid(db: Db, jobs: seq<Row>, s: Setting)
    requires ValidDb(db, s.urlValid)
    ensures ValidDb(ImportJobs(db, jobs, s).1, s.urlValid)
  {
    if jobs != [] {
      FoldKeepsValid(Progress(db, NoStats, []), JobItems(jobs), s);
    }
  }

  /**
   * `process_csv_content`: an empty file or one without a header is refused and changes
   * nothing; otherwise the response is accounted for over the non-empty records, blank lines
   * among them counted as skipped, and lists the first ten errors in the order of the lines.
   */
  lemma ImportCsvResponse(db: Db, content: string, header: seq<string>, records: seq<seq<string>>, s: Setting)
    ensures var (response, after) := ImportCsv(db, content, header, records, s);
      && (response.Failure? <==> Strip(content) == "" || header == [])
      && (response.Failure? ==> after == db)
      && (response.Success? ==>
            && Accounted(response.stats, |NonEmptyRecords(records)|, Flag(s.options, "skip_invalid", false))
            && |response.errors| == (if response.stats.errors <= 10 then response.stats.errors else 10)
            && InOrder(response.errors))
  {
    if Strip(content) != "" && header != [] {
      var start := Progress(db, NoStats, []);
      BatchAccounted(start, CsvItems(header, records), s);
      FoldListsErrors(start, CsvItems(header, records), s);
      FoldErrorsInOrder(start, CsvItems(header, records), s);
      FirstErrorsInOrder(Fold(start, CsvItems(header, records), s).errors);
    }
  }

  /** `process_csv_content` keeps the database consistent. */
  lemma ImportCsvKeepsValid(db: Db, content: string, header: seq<string>, records: seq<seq<string>>, s: Setting)
    requires ValidDb(db, s.urlValid)
    ensures ValidDb(ImportCsv(db, content, header, records, s).1, s.urlValid)
  {
    if Strip(content) != "" && header != [] {
      FoldKeepsValid(Progress(db, NoStats, []), CsvItems(header, records), s);
    }
  }

  // ---------------------------------------------------------------------------------------
  // CSV records
  // ---------------------------------------------------------------------------------------

  /**
   * `csv.DictReader`'s dictionary: a header name gets the field at its last position in the
   * header, or `None` when the record stops before it.
   */
  lemma {:induction false} ZipLastWins(header: seq<string>, fields: seq<string>, i: nat)
    requires i < |header|
    requires forall j :: i < j < |header| ==> header[j] != header[i]
    ensures header[i] in Zip(header, fields)
    ensures Zip(header, fields)[header[i]] == if i < |fields| then Some(fields[i]) else None
    decreases |header|
  {
    var n := |header| - 1;
    if i < n {
      assert header[..n][i] == header[i];
      ZipLastWins(header[..n], fields, i);
    }
  }

  /** A record with a filled field under some header name is not skipped as blank. */
  lemma FilledNotBlank(header: seq<string>, fields: seq<string>, i: nat)
    requires i < |header| && i < |fields| && fields[i] != ""
    requires forall j :: i < j < |header| ==> header[j] != header[i]
    ensures !BlankRecord(header, fields)
  {
    ZipLastWins(header, fields, i);
  }

  /** A record longer than the header always counts as filled: its extra fields are data. */
  lemma LongRecordNotBlank(header: seq<string>, fields: seq<string>)
    requires |fields| > |header|
    ensures !BlankRecord(header, fields)
  {
  }
}
