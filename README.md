# Job-offer import pipeline, modelled in Dafny

This project models the import pipeline of the job-offer site: the API view that takes a JSON
list of offers or a CSV file and writes them into the offer database (api/views.py), together
with the field rules of the offer models it relies on (emploi/models.py).

The model follows the pipeline record by record:

- **Preparation** (module `Normalize`): `get_field` with its null words and defaults, the
  salary parser, the contract type and experience level lists of the importer, the cut-off widths
  of every prepared field, the publication date falling back to "now", and `get_create_fields`.
- **Dates** (module `Dates`): `parse_date`, with its "Publié le" prefix, its French month table
  and its format list, over a model of CPython's `datetime.strptime` (a backtracking regular
  expression built from each directive's alternatives). The loops of `parse_date` are methods
  proved equal to the specification functions.
- **Model rules** (module `Fields`): the truncating field types' `get_prep_value`, the column
  widths, the choice lists, the contract mapping of `OffreEmploi.save`, the `salaire_range` text
  and the checks `full_clean` runs on an offer.
- **Commit and batch** (module `Importer`): the database as a value (offers, companies by name,
  regions by name with their codes) and the specification functions of `process_single_job`
  (required fields, get-or-create of the company and region, the duplicate rule on
  `url_offre`, create or update through `full_clean` and `save`) and of the record loops of
  `handle_job_list` and `process_csv_content` with their `stats` and `errors` (`Commit`,
  `WriteStep`, `Fold`, `ImportJobs`, `ImportCsv`).
- **Store** (module `ImportStore`): the in-memory database as a class whose methods are the
  view's methods, the transaction of each record as a snapshot and a rollback. Each method is
  proved to compute its specification function and to keep the store consistent.
- **Options** (module `Requests`): `to_bool` and the form options, and how a JSON request's
  options are read as Python truth values.
- **Properties** (module `ImportProperties`): what the batch promises over all inputs. The
  counters account for every record, errors are listed in input order and capped at ten, a
  stop comes right after the first error unless `skip_invalid` is set, the store stays
  consistent (distinct URLs, unique region codes, every offer linked and clean), duplicates are
  skipped or overwritten, and a re-import changes nothing.

Python string built-ins (`strip`, `lower`, `upper`, `split`, `replace`, `in`, `int`, `zfill`,
`format(n, ',')`) are modelled in module `Text`, with `Option` and `Result` in `Wrappers`.

The two layers disagree, and the model states where. The importer admits `INTERIM`, `DEBUTANT`
and `CONFIRME`, and URLs up to 500 characters. The model's choice lists and the 300-character
URL column reject them, so `full_clean` refuses such a record. A record with one of those codes
is never stored, neither created nor written over an offer (`UnknownCodesNeverStored`). A
record with a longer URL is never created (`LongUrlNeverCreated`). Its duplicate lookup runs
on the first 300 characters, though: when an offer is stored under them, the record is skipped,
or it updates that offer, which keeps its own URL (`LongUrlMatchesPrefix`).

Some decisions follow the code and the framework rather than the prose description:

- The duplicate lookup compares `url_offre[:300]`, because the field's `get_prep_value` runs on
  the lookup value.
- `get_or_create` does not call `full_clean`, so a company's tagline is stored cut to 255
  characters by its column, not to 500.
- A second new region with an already used code raises an integrity error. That record then
  fails and is rolled back.
- A skipped duplicate still keeps the company or region its transaction created.
- `missing_fields` never moves. `get_field` counts only when the default is `'NA'`, and no call
  passes that default.

## Model

| member | source | states |
|---|---|---|
| Text.Strip | api/views.py:382 | the stripped text has no white space at either end and is no longer than the input |
| Text.StripIsInfix | api/views.py:382 | the stripped text is exactly the text between the leading and the trailing white space |
| Text.StripIdempotent | api/views.py:382 | stripping a stripped text changes nothing |
| Text.Lower | api/views.py:384 | `lower` keeps the length and lowers each character |
| Text.Upper | api/views.py:412 | `upper` keeps the length and upper-cases each character |
| Text.UpperIdempotent | api/views.py:412 | upper-casing twice is upper-casing once |
| Text.ContainsAt | api/views.py:474 | `sub in s` holds exactly when `sub` occurs at some position of `s` |
| Text.RemoveAll | api/views.py:476 | `replace(pat, '')` never makes a text longer |
| Text.RemoveAllAbsent | api/views.py:476 | `replace(pat, '')` leaves a text without `pat` unchanged |
| Text.Words | api/views.py:490 | `split()` yields non-empty words without white space |
| Text.WordsOfThree | api/views.py:490 | three words joined by spaces split back into those three words |
| Text.Split | api/views.py:402 | `split(sep)` yields at least one piece and no piece holds the separator |
| Text.SplitCount | api/views.py:402-403 | `split(sep)` yields one piece more than there are separators |
| Text.Truncate | api/views.py:424-441 | the slice `[:n]` is a prefix of length min(len, n), so a short value is unchanged |
| Text.Zfill | api/views.py:495 | `zfill(w)` pads to width `w` and leaves a long enough text alone |
| Text.ParseInt | api/views.py:404-407 | `int()` succeeds exactly when the stripped text is a non-empty run of digits |
| Text.DecimalParses | api/views.py:404-407 | `int(str(n)) == n` |
| Text.GroupedValue | emploi/models.py:121 | the digits of `format(n, ',')`, commas ignored, are worth `n` |
| Text.GroupedChars | emploi/models.py:121 | `format(n, ',')` is made of digits and commas |
| Dates.DaysInMonth | api/views.py:496 | every month `strptime` accepts has 28 to 31 days |
| Dates.Strptime | api/views.py:496 | every `strptime` result is a real calendar time |
| Dates.MonthNameNeverMatches | api/views.py:509 | a format that reaches `%B` never matches |
| Dates.FullMonthFormatsNeverMatch | api/views.py:509 | the two `%B` formats at the end of the list never produce a date |
| Dates.ParseDateSpec | api/views.py:467-468 | an absent value, an empty one or `NA` gives no date |
| Dates.FrenchMonthLoop | api/views.py:486-502 | the month loop, with its `continue` past a failing month and its `break`, computes `FrenchFrom` |
| Dates.FormatLoop | api/views.py:512-521 | the format loop, skipping failures and implausible years, computes `FormatsFrom` |
| Dates.ParseDate | api/views.py:465-524 | the method computes `ParseDateSpec`: clean, then months, then formats |
| Dates.FrenchFromSound | api/views.py:486-499 | a date from the month loop is a real date at most ten years after now |
| Dates.FormatsFromSound | api/views.py:512-519 | a date from the format loop is a real date at most ten years after now |
| Dates.ParseDateSound | api/views.py:465-524 | every date `parse_date` returns is a real date at most ten years after now |
| Dates.IsoDateRoundTrip | api/views.py:505-506 | `%Y-%m-%d` reads back every midnight date it writes |
| Dates.SlashDateRoundTrip | api/views.py:505-506 | `%d/%m/%Y` reads back every midnight date it writes |
| Dates.IsoRejectsSlashText | api/views.py:505-506 | the ISO format does not read a day-first slash text |
| Dates.FrenchFromSkip | api/views.py:486-487 | months whose names do not occur in the lowered text are passed over |
| Dates.PlainText | api/views.py:471-487 | a stripped text without letters is not cleaned further and names no French month |
| Dates.ParseDateByFormats | api/views.py:486-521 | a clean text the month loop passes over is read by the format loop |
| Dates.ParseDateByMonth | api/views.py:486-499 | a clean text the month loop dates is read as that date |
| Dates.FormatsFromFirst | api/views.py:512-519 | the first format that reads a plausible date decides |
| Dates.ParseIsoDate | api/views.py:505-519 | `parse_date` reads an ISO date back when it is at most ten years ahead |
| Dates.ParseSlashDate | api/views.py:505-519 | `parse_date` reads `dd/mm/yyyy` back, day first |
| Dates.AmbiguousSlashDate | api/views.py:506 | "05/06/2025" is the 5th of June, since `%d/%m/%Y` is tried before `%m/%d/%Y` |
| Dates.ZfillDay | api/views.py:495 | `str(day).zfill(2)` is the day with its leading zero |
| Dates.JuneSkipsEarlierMonths | api/views.py:479-487 | the five months before June are passed over on a June text |
| Dates.JuneText | api/views.py:487-490 | "dd juin yyyy" names June and splits into its three words |
| Dates.JuneIso | api/views.py:490-496 | the words of a June date rearranged as an ISO text parse to that date |
| Dates.JuneInTable | api/views.py:479-483 | the sixth entry of the twelve-month table is `juin` with `06` |
| Dates.JuneEntry | api/views.py:487-499 | the `juin` entry of the table returns the date of "dd juin yyyy" |
| Dates.FrenchJuneDate | api/views.py:485-499 | `parse_date` reads "day juin year" as that day of June |
| Dates.FrenchExample | api/views.py:485-499 | "18 juin 2025" is the 18th of June 2025 |
| Dates.HeadingCleaned | api/views.py:471-476 | cleaning "Publié le " plus a clean text leaves that text |
| Dates.SameCleaned | api/views.py:471-476 | two texts that clean to the same text get the same date |
| Dates.PublishedPrefixIgnored | api/views.py:474-476 | a leading "Publié le " changes nothing about the date read |
| Dates.JuneClean | api/views.py:471-476 | "day juin year" is already clean |
| Dates.PublishedFrenchJuneDate | api/views.py:474-499 | "Publié le day juin year" is read like "day juin year" |
| Dates.PublishedFrenchExample | api/views.py:474-499 | "Publié le 18 juin 2025" is the 18th of June 2025 |
| Dates.NoAlternative | api/views.py:496 | a numeric directive fails when no alternative lets the rest match |
| Dates.FirstAlternative | api/views.py:496 | the first matching alternative after which the rest matches decides |
| Dates.FormatsFromNone | api/views.py:512-524 | when every format fails, the format loop finds nothing |
| Dates.YearFormatsFail | api/views.py:505-508 | the `%Y` formats fail unless the text starts with four digits |
| Dates.DaySlashFails | api/views.py:506 | `%d/%m/%Y` fails without a slash at the second or third position |
| Dates.MonthSlashFails | api/views.py:506 | `%m/%d/%Y` fails without a slash at the second or third position |
| Dates.DayDashFails | api/views.py:507 | `%d-%m-%Y` fails without a hyphen at the second or third position |
| Dates.FormatsRejectSpacedText | api/views.py:505-521 | no format reads a text whose second or third character is a space |
| Dates.FormatsRejectJuneText | api/views.py:505-521 | no format reads "day juin year" |
| Dates.FarFrenchDateRefused | api/views.py:496-502 | a French date more than ten years ahead breaks the month loop and gives no date |
| Fields.PrepValue | emploi/models.py:8-20 | `get_prep_value` gives a prefix of the value, unchanged within the width, cut to the width otherwise |
| Fields.PrepAfterSlice | emploi/models.py:8-20 | a value already sliced within the width is stored unchanged, and the result never exceeds the width |
| Fields.Persisted | emploi/models.py:65-82 | every stored truncating column is within its `max_length`; the other columns are kept |
| Fields.ConsultingBeforePartTime | emploi/models.py:103-108 | "consultant temps partiel" mentions CONSULT before TEMPS PARTIEL and is saved as `CONSULTING` |
| Fields.ServicesBeforeConsulting | emploi/models.py:103-106 | "prestation consulting" mentions PRESTATION first and is saved as `PRESTATION DE SERVICES` |
| Fields.PartTimeMentioned | emploi/models.py:103-110 | "Temps partiel", upper-cased, mentions only TEMPS PARTIEL and is saved as `TEMPS_PARTIEL` |
| Fields.PlainCodeKept | emploi/models.py:103-110 | a stripped capital code without the three mentions is kept |
| Fields.PlainCapitalsKept | emploi/models.py:103-110 | a code of capitals and underscores without O or U is kept |
| Fields.OpeningMentionReplaced | emploi/models.py:105-108 | a code starting with PRESTATION or CONSULT is replaced by its choice |
| Fields.SaveContractKeepsChoices | emploi/models.py:47-56 | `save` keeps every code of `TYPE_CONTRAT_CHOICES` |
| Fields.ConsultingKept | emploi/models.py:103-107 | `CONSULTING` is mapped to itself |
| Fields.ServicesKept | emploi/models.py:103-105 | `PRESTATION DE SERVICES` is mapped to itself |
| Fields.SaveContractIdempotent | emploi/models.py:103-110 | applying the `save` mapping to its own output changes nothing |
| Fields.SalaryRange | emploi/models.py:119-124 | without a truthy minimum the text is "Non spécifié" |
| Fields.FullClean | emploi/models.py:65-82 | `full_clean` finds nothing exactly when every checked column is within its width and choices |
| Fields.CleanOfferStoredUnchanged | emploi/models.py:101-112 | an offer that passes `full_clean` is saved exactly as it is |
| Fields.InterimRejected | emploi/models.py:47-56 | `INTERIM` is refused as a contract type |
| Fields.UnknownLevelRejected | emploi/models.py:58-63 | `DEBUTANT` and `CONFIRME` are refused as levels |
| Fields.LongUrlRejected | emploi/models.py:71 | a URL longer than 300 characters is refused |
| Normalize.FieldValue | api/views.py:377-388 | a blank or null-word field gives the default, any other field its raw text stripped |
| Normalize.FieldValueReread | api/views.py:377-388 | a value read from a present field is its raw text with only the surrounding white space removed; it is non-empty and no null word, and reading it again gives it back |
| Normalize.GetField | api/views.py:377-388 | the method returns the default for a blank field and the stripped raw text otherwise, never `None` under a default, and counts a miss only for a blank field with default `'NA'` |
| Normalize.SalaryChars | api/views.py:399 | only digits, hyphens and spaces are kept |
| Normalize.ParseSalary | api/views.py:394-409 | an upper bound comes only with a lower bound, and only when there is a hyphen |
| Normalize.ManyHyphensNoSalary | api/views.py:401-403 | two hyphens or more give no salary at all |
| Normalize.CleanedPair | api/views.py:401-405 | one hyphen after a readable amount keeps that minimum, with a maximum only if the right side reads |
| Normalize.HyphenPair | api/views.py:401-405 | "left-right" with two readable sides gives both bounds |
| Normalize.SingleAmount | api/views.py:406-407 | a readable text without hyphen gives the minimum only |
| Normalize.WordsGiveNoSalary | api/views.py:406-409 | a text with no digit or hyphen, such as "garbage", gives no salary |
| Normalize.OpenUpperBound | api/views.py:403-409 | "500000-" keeps the minimum and has no maximum |
| Normalize.DecimalRangeParses | api/views.py:396-405 | "500000-800000" gives (500000, 800000), for any two numbers |
| Normalize.PaddedGrouped | api/views.py:399-407 | a comma-grouped amount between non-digit text reads as that amount |
| Normalize.SalaryRangeReadBack | emploi/models.py:120-121 | the `salaire_range` text of two bounds parses back to both |
| Normalize.LowerBoundReadBack | emploi/models.py:122-123 | the "À partir de" text parses back to the minimum alone |
| Normalize.NoSalaryReadBack | emploi/models.py:124 | "Non spécifié" parses to no salary |
| Normalize.NormContract | api/views.py:412-415 | the contract is in the importer's list: its upper-cased form if listed, otherwise `INDEFINI` |
| Normalize.NormLevel | api/views.py:418-421 | the level is in the importer's list or blank: its upper-cased form if listed, otherwise blank |
| Normalize.ImportedContractChoice | api/views.py:413 | an imported contract is a model choice exactly when it is not `INTERIM` |
| Normalize.ImportedLevelChoice | api/views.py:419 | an imported level is blank or a model choice exactly when not `DEBUTANT`/`CONFIRME`; `INTERMEDIAIRE` never comes in |
| Normalize.PublicationDate | api/views.py:433 | the date is now, or a real date at most ten years after now |
| Normalize.ReadPublicationDate | api/views.py:391 | the method computes `PublicationDate` and counts no miss |
| Normalize.PreparedBounds | api/views.py:423-442 | every prepared text is within its width, the contract and level are in their lists, a maximum comes with a minimum, the region is never `NA` |
| Normalize.PrepareOffreData | api/views.py:373-444 | the method computes `Prepare` and returns a missing count of 0 |
| Normalize.CreateFields | api/views.py:446-463 | the create fields refer to the given company and region |
| Requests.ToBoolIgnoresCase | api/views.py:528-531 | `to_bool` ignores case |
| Requests.ToBoolText | api/views.py:528-531 | `to_bool` of a text holds exactly for true, 1, on, yes in any case; "false", "0", "" are false |
| Requests.FormOptions | api/views.py:533-537 | a form gives exactly `update`, `skip_invalid` and `delimiter`, the first two as booleans |
| Requests.SkipInvalidDefaults | api/views.py:533-537 | a form without `skip_invalid` goes on after errors; a JSON request without it stops |
| Requests.TextFlagsDiffer | api/views.py:528-534 | "false" is false in a form but true as a JSON string option |
| Importer.MissingAmong | api/views.py:317-322 | the listed fields are exactly the blank ones among those checked, in the order they are checked |
| Importer.CheckRequired | api/views.py:317-323 | the loop computes `MissingAmong`: exactly the blank fields among those checked, in the order they are checked |
| Importer.CompanyName | api/views.py:329 | the company key is a prefix of the name within 200 characters |
| Importer.NewCompany | api/views.py:330-334 | a new company's texts fit their columns |
| Importer.FirstWithUrl | api/views.py:349-356 | the index found is the first offer with that URL, or no offer has it |
| Importer.Overwritten | api/views.py:357-359 | the updated offer keeps its URL and takes every other column from the record |
| Importer.SetAttrMix | api/views.py:357-359 | one `setattr` copies one more column |
| Importer.SetAllMix | api/views.py:357-359 | the `setattr` loop copies exactly the listed columns except the URL |
| Importer.SetAllOverwrites | api/views.py:357-359 | the loop over all create fields gives `Overwritten` |
| Importer.OverwriteFields | api/views.py:357-359 | the update loop computes `Overwritten` |
| Importer.Tally | api/views.py:209 | one action raises exactly one of created/updated/skipped by one |
| Importer.Excerpt | api/views.py:218 | the error entry keeps only title, company and place, with their values |
| Importer.FoldBlank | api/views.py:276-278 | a blank CSV row is counted and skipped |
| Importer.FoldRecord | api/views.py:206-223 | a record is counted, then kept, or rolled back and listed, stopping unless `skip_invalid` |
| Importer.FoldAttempt | api/views.py:280-297 | the loop goes on from the `try` block's result unless it stops |
| Importer.JobItems | api/views.py:202-204 | the JSON records are numbered from 1 in order |
| Importer.NonEmptyRecords | api/views.py:271 | the records kept are exactly the non-empty ones, and all of them when none is empty |
| Importer.Zip | api/views.py:262 | a CSV row has exactly the header's names as keys |
| Importer.CsvItems | api/views.py:271-276 | each record read is numbered index + 2 and marked blank when its values are all empty |
| Importer.FirstErrors | api/views.py:228 | `errors[:10]` is a prefix of at most ten entries, all of them when ten or fewer |
| ImportStore.Store.Rollback | api/views.py:207 | the transaction's rollback restores the snapshot, so a consistent snapshot leaves the store consistent |
| ImportStore.Store.GetOrCreateCompany | api/views.py:328-335 | the company is looked up by its key and created if absent |
| ImportStore.Store.GetOrCreateRegion | api/views.py:338-343 | a non-blank region is looked up by name and created if absent, failing on a used code |
| ImportStore.Store.FindDuplicate | api/views.py:349-356 | the lookup finds the first offer with the URL |
| ImportStore.Store.Save | emploi/models.py:101-112 | `save` stores the normalised row in place or appends it, leaving companies and regions alone |
| ImportStore.Store.WriteOffer | api/views.py:345-371 | the method computes `WriteStep`: skip or update a duplicate, otherwise create, each after `full_clean` |
| ImportStore.Store.ProcessSingleJob | api/views.py:312-371 | the method computes `Commit` of the prepared record, with a missing count of 0, and keeps the store consistent |
| ImportStore.Store.ImportRecord | api/views.py:203-223 | one `try` block computes `Attempt`, with the store rolled back on an error, and keeps the store consistent |
| ImportStore.Store.HandleJobList | api/views.py:183-229 | the method computes `ImportJobs` and keeps the store consistent |
| ImportStore.Store.ImportLine | api/views.py:271-297 | one CSV turn advances the loop specification `Fold` by one record and keeps the store consistent |
| ImportStore.Store.ProcessCsvContent | api/views.py:231-303 | the method computes `ImportCsv` and keeps the store consistent |
| ImportProperties.NothingMissing | api/views.py:317-324 | nothing is listed exactly when no required field is blank |
| ImportProperties.ImportContractPresent | api/views.py:412-415 | a contract from the importer's list is never blank |
| ImportProperties.ContractNeverMissing | api/views.py:317-322 | `type_contrat` is never among the missing fields |
| ImportProperties.CompanyStepFacts | api/views.py:328-335 | get-or-create adds only the company key and leaves offers and regions alone |
| ImportProperties.RegionStepFacts | api/views.py:338-343 | no region for blank or `NA`; an error exactly for a new name with a used code; existing regions kept |
| ImportProperties.RegionStepKeepsCodesUnique | emploi/models.py:40-41 | region codes stay unique |
| ImportProperties.SharedCodeRefused | emploi/models.py:41 | a second new region with the same code is refused |
| ImportProperties.WriteStepOutcome | api/views.py:345-371 | each action happens exactly in its case of the duplicate rule, with exactly its change to the offers |
| ImportProperties.WriteStepKeepsValid | api/views.py:345-371 | writing an offer keeps the store consistent |
| ImportProperties.CommitKeepsValid | api/views.py:312-371 | `process_single_job` keeps the store consistent |
| ImportProperties.MissingFieldsRefused | api/views.py:324-325 | a blank required field fails the record and changes nothing |
| ImportProperties.CommitStores | api/views.py:327-371 | an accepted record's company and region are stored; a created offer is appended; a skip changes no offer |
| ImportProperties.UnknownCodesNeverStored | api/views.py:360-369 | a record with `INTERIM`, `DEBUTANT` or `CONFIRME` can at most be skipped |
| ImportProperties.LongUrlNeverCreated | api/views.py:367-368 | a URL over 300 characters is never created |
| ImportProperties.LongUrlMatchesPrefix | api/views.py:349-359 | a URL over 300 characters finds the offer stored under its first 300 as its duplicate: it is skipped, or updated with that offer's URL kept |
| ImportProperties.WriteExisting | api/views.py:353-364 | a duplicate that an update would not change is updated or skipped with the store unchanged |
| ImportProperties.WriteAgain | api/views.py:345-371 | writing the same fields again changes nothing |
| ImportProperties.ReimportChangesNothing | api/views.py:312-371 | importing an accepted record a second time changes nothing |
| ImportProperties.FoldAccounting | api/views.py:202-223 | every counted record is settled once, as created, updated, skipped or error |
| ImportProperties.FoldListsErrors | api/views.py:212-219 | every error adds one entry, after the earlier ones |
| ImportProperties.FoldReach | api/views.py:202-223 | with `skip_invalid` every record is counted; without it at most one error is recorded before the loop stops |
| ImportProperties.FoldKeepsValid | api/views.py:206-208 | each record's transaction keeps the store consistent |
| ImportProperties.FoldErrorsInOrder | api/views.py:215-219 | errors are listed in input order |
| ImportProperties.BatchAccounted | api/views.py:191-223 | a batch from zero accounts for every record it reached |
| ImportProperties.FirstErrorsInOrder | api/views.py:228 | the first ten errors stay in order, min(errors, 10) of them |
| ImportProperties.ImportJobsResponse | api/views.py:183-229 | an empty list fails without change; otherwise the counters add up and the first min(errors, 10) errors are returned in order |
| ImportProperties.ImportJobsKeepsValid | api/views.py:183-229 | a JSON import keeps the store consistent |
| ImportProperties.ImportCsvResponse | api/views.py:231-303 | empty content or no header fails without change; otherwise the counters add up and the first errors come in order |
| ImportProperties.ImportCsvKeepsValid | api/views.py:231-303 | a CSV import keeps the store consistent |
| ImportProperties.ZipLastWins | api/views.py:262 | a column read by header name takes the field under the last occurrence of that name, or nothing past the end of a short row |
| ImportProperties.FilledNotBlank | api/views.py:276 | a row with a filled field is not blank |
| ImportProperties.LongRecordNotBlank | api/views.py:276 | a row with more fields than the header is not blank |

## Left out

- HTTP framing is not part of this model: the request dispatch on `jobs`, `csv_content` and `csv_url`, JSON decoding, status codes, CORS and the documentation endpoint.
- The remote fetch of a CSV URL (`requests.get`) and byte decoding are I/O. Content is taken as already decoded text.
- `csv.Sniffer` and the quoting rules of `csv.DictReader` are library behaviour. The CSV input is a header and records of already split fields. Blank lines are dropped by `NonEmptyRecords`, and fields are zipped by header name, with the surplus fields of a long row kept out of the row.
- The Django ORM and `transaction.atomic` are replaced by the in-memory store, a snapshot and `Rollback`.
- `URLValidator` is an abstract predicate `urlValid`, given to the store.
- The clock is the parameter `now`. Time zones and `make_aware` are not modelled, and dates are naive.
- `%B` depends on the locale. The model never matches it.
- Digits are the ASCII digits only, where `str.isdigit` accepts every Unicode digit.
- `lower` covers ASCII and the Latin-1 capitals. `upper` covers ASCII only.
- Text.Upper: non-ASCII lower-case letters are not upper-cased, unlike Python's `upper`.
- JSON entries that are not objects are not modelled: a record is a map from names to optional texts.
- Values are taken after `str()`: a JSON number or boolean is given as its text.
- The integer range checks of `IntegerField` are not modelled inside `full_clean`.
- The order `first()` returns under the model's `ordering` is taken as insertion order.
- Error messages are kept as data (`JobError`), not as their formatted text.
- Logging is left out.
- `is_recent`, `StatistiquesGlobales`, `emploi/views.py`, the template filters and the URL tables are outside the pipeline.
- ImportStore.Store.ImportRecord: `stats['missing_fields'] += missing_count` is not executed, because `ProcessSingleJob` proves the count is always 0.
- Text.ParseInt: does not model CPython's limit of 4300 digits on `int()` of a text (a `ValueError` since Python 3.11). A longer amount reads as its number here, where the source's `ValueError` leaves that bound, and any bound after it, unset.
- Concurrent requests are not modelled. `url_offre` has no unique constraint (emploi/models.py:71), so stored URLs stay distinct only because each record's duplicate check sees every earlier insert; two simultaneous imports of the same URL could both insert it.
- JSON option values other than booleans, integers, strings and `null` are not modelled: the truthiness of a float (`0.0`), a list or an object given as `update` or `skip_invalid` is outside the model.
