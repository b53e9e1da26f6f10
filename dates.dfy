/**
 * `parse_date` of the import view (api/views.py:465-524) and the part of CPython's
 * `datetime.strptime` it relies on.
 *
 * `strptime` compiles a format into a regular expression (case-insensitive, `\s+` for white
 * space), matches it at the start of the text and then demands that nothing is left over; the
 * numeric directives use the alternatives of CPython's `_strptime` (for `%d`, a space followed by
 * a digit is one of them). Backtracking follows the regular-expression engine: alternatives in
 * order, `\s+` longest first, first overall success wins. The locale-dependent `%B` never matches.
 */
module Dates {
  import opened Wrappers
  import opened Text

  /** A naive timestamp; time zones are not modelled. */
  datatype DateTime = DateTime(year: int, month: int, day: int, hour: int, minute: int, second: int)

  predicate IsLeap(y: int) { y % 4 == 0 && (y % 100 != 0 || y % 400 == 0) }

  function DaysInMonth(y: int, m: int): (n: int)
    requires 1 <= m <= 12
    ensures 28 <= n <= 31
  {
    if m == 2 then (if IsLeap(y) then 29 else 28)
    else if m == 4 || m == 6 || m == 9 || m == 11 then 30
    else 31
  }

  /** What `datetime(...)` accepts. */
  predicate ValidDateTime(d: DateTime) {
    && 1 <= d.year <= 9999 && 1 <= d.month <= 12 && 1 <= d.day <= DaysInMonth(d.year, d.month)
    && 0 <= d.hour < 24 && 0 <= d.minute < 60 && 0 <= d.second < 60
  }

  // ---------------------------------------------------------------- strptime

  /** One character position of a regular-expression alternative. */
  /** A character range `[lo-hi]` of the pattern; `\d` is taken as the ASCII digits. */
  datatype CharClass = Range(lo: char, hi: char)

  predicate InClass(c: char, k: CharClass) {
    k.lo <= c <= k.hi
  }

  type Alternative = seq<CharClass>

  /** The alternative matches a prefix of `s` of its own length. */
  predicate AltMatches(a: Alternative, s: string)
    ensures AltMatches(a, s) ==> |a| <= |s|
  {
    a == [] || (s != [] && InClass(s[0], a[0]) && AltMatches(a[1..], s[1..]))
  }

  datatype Field = Year | Month | Day | Hour | Minute | Second

  /** A format is a sequence of directives: `%Y` etc., a literal character, white space, `%B`. */
  datatype Directive = Num(field: Field) | Lit(c: char) | Blank | MonthName

  const AnyDigit := Range('0', '9')

  /** A single character. */
  function Char(c: char): CharClass { Range(c, c) }

  /** The alternatives of CPython's `_strptime` patterns, in the order the engine tries them. */
  function Alternatives(f: Field): seq<Alternative> {
    match f
    case Year => [[AnyDigit, AnyDigit, AnyDigit, AnyDigit]]
    case Month => [[Char('1'), Range('0', '2')], [Char('0'), Range('1', '9')], [Range('1', '9')]]
    case Day => [[Char('3'), Range('0', '1')], [Range('1', '2'), AnyDigit], [Char('0'), Range('1', '9')],
                 [Range('1', '9')], [Char(' '), Range('1', '9')]]
    case Hour => [[Char('2'), Range('0', '3')], [Range('0', '1'), AnyDigit], [AnyDigit]]
    case Minute => [[Range('0', '5'), AnyDigit], [AnyDigit]]
    case Second => [[Char('6'), Range('0', '1')], [Range('0', '5'), AnyDigit], [AnyDigit]]
  }

  /** A literal of the pattern under `re.IGNORECASE`. */
  predicate LitMatches(c: char, pat: char) {
    c == pat || (('A' <= pat <= 'Z' || 'a' <= pat <= 'z') && LowerChar(c) == LowerChar(pat))
  }

  /** The fields collected so far; `_strptime` starts from 1900-01-01 00:00:00. */
  datatype Parts = Parts(year: int, month: int, day: int, hour: int, minute: int, second: int)

  const Defaults: Parts := Parts(1900, 1, 1, 0, 0, 0)

  function SetField(p: Parts, f: Field, v: int): Parts {
    match f
    case Year => p.(year := v)
    case Month => p.(month := v)
    case Day => p.(day := v)
    case Hour => p.(hour := v)
    case Minute => p.(minute := v)
    case Second => p.(second := v)
  }

  /** A successful regular-expression match: the fields and the text after the match. */
  datatype Match = Match(parts: Parts, rest: string)

  function MatchFrom(fmt: seq<Directive>, s: string, p: Parts): (r: Option<Match>)
    ensures r.Some? ==> |r.value.rest| <= |s|
    decreases |fmt|, 2, 0
  {
    if fmt == [] then Some(Match(p, s))
    else match fmt[0]
      case Lit(c) => if s != [] && LitMatches(s[0], c) then MatchFrom(fmt[1..], s[1..], p) else None
      case Blank => TryBlank(fmt[1..], s, LeadingSpaces(s), p)
      case MonthName => None
      case Num(f) => TryAlternatives(f, Alternatives(f), fmt[1..], s, p)
  }

  /** Try each alternative of a numeric directive, then the rest of the pattern after it. */
  function TryAlternatives(f: Field, alts: seq<Alternative>, rest: seq<Directive>, s: string, p: Parts): (r: Option<Match>)
    ensures r.Some? ==> |r.value.rest| <= |s|
    decreases |rest| + 1, 1, |alts|
  {
    if alts == [] then None
    else if AltMatches(alts[0], s) then
      var n := |alts[0]|;
      var r := MatchFrom(rest, s[n..], SetField(p, f, DigitsValue(s[..n])));
      if r.Some? then r else TryAlternatives(f, alts[1..], rest, s, p)
    else TryAlternatives(f, alts[1..], rest, s, p)
  }

  /** `\s+`: take `n` white-space characters, giving them back one at a time on failure. */
  function TryBlank(rest: seq<Directive>, s: string, n: nat, p: Parts): (r: Option<Match>)
    requires n <= |s|
    ensures r.Some? ==> |r.value.rest| <= |s|
    decreases |rest| + 1, 1, n
  {
    if n == 0 then None
    else
      var r := MatchFrom(rest, s[n..], p);
      if r.Some? then r else TryBlank(rest, s, n - 1, p)
  }

  function ToDateTime(p: Parts): DateTime {
    DateTime(p.year, p.month, p.day, p.hour, p.minute, p.second)
  }

  /** `datetime.strptime(s, fmt)`, `None` standing for the `ValueError`. */
  function Strptime(s: string, fmt: seq<Directive>): (r: Option<DateTime>)
    ensures r.Some? ==> ValidDateTime(r.value)
  {
    match MatchFrom(fmt, s, Defaults)
    case None => None
    case Some(m) =>
      if m.rest == [] && ValidDateTime(ToDateTime(m.parts)) then Some(ToDateTime(m.parts)) else None
  }

  /** A format that reaches `%B` never matches. */
  lemma {:induction false} MonthNameNeverMatches(fmt: seq<Directive>, s: string, p: Parts)
    requires MonthName in fmt
    ensures MatchFrom(fmt, s, p) == None
    decreases |fmt|, 2, 0
  {
    match fmt[0]
    case Lit(c) =>
      if s != [] && LitMatches(s[0], c) { MonthNameNeverMatches(fmt[1..], s[1..], p); }
    case Blank => MonthNameNeverMatchesBlank(fmt[1..], s, LeadingSpaces(s), p);
    case MonthName =>
    case Num(f) => MonthNameNeverMatchesAlts(f, Alternatives(f), fmt[1..], s, p);
  }

  lemma {:induction false} MonthNameNeverMatchesBlank(rest: seq<Directive>, s: string, n: nat, p: Parts)
    requires MonthName in rest && n <= |s|
    ensures TryBlank(rest, s, n, p) == None
    decreases |rest| + 1, 1, n
  {
    if n > 0 {
      MonthNameNeverMatches(rest, s[n..], p);
      MonthNameNeverMatchesBlank(rest, s, n - 1, p);
    }
  }

  lemma {:induction false} MonthNameNeverMatchesAlts(f: Field, alts: seq<Alternative>, rest: seq<Directive>, s: string, p: Parts)
    requires MonthName in rest
    ensures TryAlternatives(f, alts, rest, s, p) == None
    decreases |rest| + 1, 1, |alts|
  {
    if alts != [] {
      if AltMatches(alts[0], s) {
        var n := |alts[0]|;
        MonthNameNeverMatches(rest, s[n..], SetField(p, f, DigitsValue(s[..n])));
      }
      MonthNameNeverMatchesAlts(f, alts[1..], rest, s, p);
    }
  }

  // ---------------------------------------------------------------- the formats of parse_date

  /** `'%Y-%m-%d'` */
  const IsoDate: seq<Directive> := [Num(Year), Lit('-'), Num(Month), Lit('-'), Num(Day)]

  /** The format list of parse_date, in the order it is tried. */
  const Formats: seq<seq<Directive>> := [
    IsoDate,                                                                  // %Y-%m-%d
    [Num(Day), Lit('/'), Num(Month), Lit('/'), Num(Year)],                    // %d/%m/%Y
    [Num(Month), Lit('/'), Num(Day), Lit('/'), Num(Year)],                    // %m/%d/%Y
    [Num(Day), Lit('-'), Num(Month), Lit('-'), Num(Year)],                    // %d-%m-%Y
    [Num(Year), Lit('/'), Num(Month), Lit('/'), Num(Day)],                    // %Y/%m/%d
    IsoDate + [Blank, Num(Hour), Lit(':'), Num(Minute), Lit(':'), Num(Second)],          // %Y-%m-%d %H:%M:%S
    IsoDate + [Lit('T'), Num(Hour), Lit(':'), Num(Minute), Lit(':'), Num(Second)],       // %Y-%m-%dT%H:%M:%S
    IsoDate + [Lit('T'), Num(Hour), Lit(':'), Num(Minute), Lit(':'), Num(Second), Lit('Z')], // ...Z
    [Num(Day), Blank, MonthName, Blank, Num(Year)],                           // %d %B %Y
    [MonthName, Blank, Num(Day), Lit(','), Blank, Num(Year)]                  // %B %d, %Y
  ]

  /** The two `%B` formats at the end of the list never produce a date. */
  lemma FullMonthFormatsNeverMatch(s: string)
    ensures Strptime(s, Formats[8]) == None && Strptime(s, Formats[9]) == None
  {
    assert MonthName in Formats[8] by { assert Formats[8][2] == MonthName; }
    assert MonthName in Formats[9] by { assert Formats[9][0] == MonthName; }
    MonthNameNeverMatches(Formats[8], s, Defaults);
    MonthNameNeverMatches(Formats[9], s, Defaults);
  }

  /** The French month table, in dictionary order. */
  const FrenchMonths: seq<(string, string)> := [
    ("janvier", "01"), ("février", "02"), ("mars", "03"), ("avril", "04"),
    ("mai", "05"), ("juin", "06"), ("juillet", "07"), ("août", "08"),
    ("septembre", "09"), ("octobre", "10"), ("novembre", "11"), ("décembre", "12")
  ]

  /** What the French-month loop ends with: a date returned, or falling through to the formats. */
  datatype FrenchStep = Return(date: DateTime) | Fallthrough

  /** The candidate ISO text built from "<day> <month> <year>": `f"{annee}-{mois_num}-{jour.zfill(2)}"`. */
  function FrenchIso(parts: seq<string>, monthNumber: string): string
    requires |parts| >= 3
  {
    parts[2] + ("-" + (monthNumber + ("-" + Zfill(parts[0], 2))))
  }

  /**
   * The French-month loop over the remaining table entries: the first month whose name occurs in
   * the lowered text decides, unless building its date raises, in which case the next months are tried.
   */
  function FrenchFrom(s: string, months: seq<(string, string)>, nowYear: int): (r: FrenchStep)
  {
    if months == [] then Fallthrough
    else if !Contains(Lower(s), months[0].0) then FrenchFrom(s, months[1..], nowYear)
    else
      var parts := Words(Lower(s));
      if |parts| < 3 then Fallthrough
      else match Strptime(FrenchIso(parts, months[0].1), IsoDate)
        case None => FrenchFrom(s, months[1..], nowYear)
        case Some(d) => if d.year <= nowYear + 10 then Return(d) else Fallthrough
  }

  /** The format loop over the remaining formats: the first that parses to a plausible year wins. */
  function FormatsFrom(s: string, fmts: seq<seq<Directive>>, nowYear: int): (r: Option<DateTime>)
  {
    if fmts == [] then None
    else match Strptime(s, fmts[0])
      case Some(d) => if d.year > nowYear + 10 then FormatsFrom(s, fmts[1..], nowYear) else Some(d)
      case None => FormatsFrom(s, fmts[1..], nowYear)
  }

  const PublishedPrefix: string := "publié le"

  /** The text after cleaning: stripped, and lowered with every "publié le " removed when it mentions one. */
  function Cleaned(v: string): string {
    var t := Strip(v);
    if Contains(Lower(t), PublishedPrefix) then Strip(RemoveAll(Lower(t), PublishedPrefix + " ")) else t
  }

  /** `parse_date(date_str)` with `now.year` passed in. */
  function ParseDateSpec(v: Option<string>, nowYear: int): (r: Option<DateTime>)
    ensures v.None? || v == Some("") || v == Some("NA") ==> r.None?
  {
    if v.None? || v.value == "" || v.value == "NA" then None
    else
      var s := Cleaned(v.value);
      match FrenchFrom(s, FrenchMonths, nowYear)
      case Return(d) => Some(d)
      case Fallthrough => FormatsFrom(s, Formats, nowYear)
  }

  /** The French-month loop of parse_date: `continue` past a month whose date raises, `break` otherwise. */
  method FrenchMonthLoop(s: string, months: seq<(string, string)>, nowYear: int) returns (step: FrenchStep)
    ensures step == FrenchFrom(s, months, nowYear)
  {
    var i := 0;
    while i < |months|
      invariant 0 <= i <= |months|
      invariant FrenchFrom(s, months[i..], nowYear) == FrenchFrom(s, months, nowYear)
    {
      assert months[i..][0] == months[i] && months[i..][1..] == months[i + 1..];
      if Contains(Lower(s), months[i].0) {
        var parts := Words(Lower(s));
        if |parts| >= 3 {
          var candidate := Strptime(FrenchIso(parts, months[i].1), IsoDate);
          if candidate.None? {
            i := i + 1;
            continue;
          }
          if candidate.value.year <= nowYear + 10 {
            return Return(candidate.value);
          }
        }
        break;
      }
      i := i + 1;
    }
    return Fallthrough;
  }

  /** The format loop of parse_date: `continue` past a failed parse or an implausible year. */
  method FormatLoop(s: string, fmts: seq<seq<Directive>>, nowYear: int) returns (r: Option<DateTime>)
    ensures r == FormatsFrom(s, fmts, nowYear)
  {
    var j := 0;
    while j < |fmts|
      invariant 0 <= j <= |fmts|
      invariant FormatsFrom(s, fmts[j..], nowYear) == FormatsFrom(s, fmts, nowYear)
    {
      assert fmts[j..][0] == fmts[j] && fmts[j..][1..] == fmts[j + 1..];
      var candidate := Strptime(s, fmts[j]);
      if candidate.Some? {
        if candidate.value.year > nowYear + 10 {
          j := j + 1;
          continue;
        }
        return candidate;
      }
      j := j + 1;
    }
    return None;
  }

  /** parse_date: clean the text, run the French-month loop, then the format loop. */
  method ParseDate(v: Option<string>, nowYear: int) returns (r: Option<DateTime>)
    ensures r == ParseDateSpec(v, nowYear)
  {
    if v.None? || v.value == "" || v.value == "NA" {
      return None;
    }
    var s := Strip(v.value);
    if Contains(Lower(s), PublishedPrefix) {
      s := Strip(RemoveAll(Lower(s), PublishedPrefix + " "));
    }
    assert s == Cleaned(v.value);
    var step := FrenchMonthLoop(s, FrenchMonths, nowYear);
    if step.Return? {
      return Some(step.date);
    }
    r := FormatLoop(s, Formats, nowYear);
  }

  // ---------------------------------------------------------------- what parse_date promises

  lemma {:induction false} FrenchFromSound(s: string, months: seq<(string, string)>, nowYear: int)
    ensures FrenchFrom(s, months, nowYear).Return? ==>
              ValidDateTime(FrenchFrom(s, months, nowYear).date) && FrenchFrom(s, months, nowYear).date.year <= nowYear + 10
  {
    if months != [] { FrenchFromSound(s, months[1..], nowYear); }
  }

  lemma {:induction false} FormatsFromSound(s: string, fmts: seq<seq<Directive>>, nowYear: int)
    ensures FormatsFrom(s, fmts, nowYear).Some? ==>
              ValidDateTime(FormatsFrom(s, fmts, nowYear).value) && FormatsFrom(s, fmts, nowYear).value.year <= nowYear + 10
  {
    if fmts != [] { FormatsFromSound(s, fmts[1..], nowYear); }
  }

  /** Every date parse_date returns is a real calendar date no more than ten years past `now`. */
  lemma ParseDateSound(v: Option<string>, nowYear: int)
    ensures ParseDateSpec(v, nowYear).Some? ==>
              ValidDateTime(ParseDateSpec(v, nowYear).value) && ParseDateSpec(v, nowYear).value.year <= nowYear + 10
  {
    if v.Some? && v.value != "" && v.value != "NA" {
      FrenchFromSound(Cleaned(v.value), FrenchMonths, nowYear);
      FormatsFromSound(Cleaned(v.value), Formats, nowYear);
    }
  }

  // ---------------------------------------------------------------- dates written out with leading zeros

  /** `f"{n:02d}"` */
  function TwoDigits(n: nat): (s: string)
    requires n < 100
    ensures |s| == 2 && AllDigits(s)
  {
    [DigitChar(n / 10), DigitChar(n % 10)]
  }

  /** `f"{n:04d}"` */
  function FourDigits(n: nat): (s: string)
    requires n < 10000
    ensures |s| == 4 && AllDigits(s)
  {
    [DigitChar(n / 1000), DigitChar(n / 100 % 10), DigitChar(n / 10 % 10), DigitChar(n % 10)]
  }

  lemma TwoDigitsValue(n: nat)
    requires n < 100
    ensures DigitsValue(TwoDigits(n)) == n
  {
    var s := TwoDigits(n);
    assert s[..1] == [s[0]] && [s[0]][..0] == [];
    assert DigitsValue([s[0]]) == n / 10;
    assert DigitsValue(s) == DigitsValue([s[0]]) * 10 + n % 10;
  }

  lemma FourDigitsValue(n: nat)
    requires n < 10000
    ensures DigitsValue(FourDigits(n)) == n
  {
    var s := FourDigits(n);
    var s1, s2, s3 := [s[0]], [s[0], s[1]], [s[0], s[1], s[2]];
    assert s[..3] == s3 && s3[..2] == s2 && s2[..1] == s1 && s1[..0] == [];
    var q1, q2, q3 := n / 1000, n / 100, n / 10;
    assert q2 == q1 * 10 + n / 100 % 10 && q3 == q2 * 10 + n / 10 % 10 && n == q3 * 10 + n % 10;
    assert DigitsValue(s1) == q1;
    assert DigitsValue(s2) == q2;
    assert DigitsValue(s3) == q3;
  }

  /** A two-position alternative tests the first two characters. */
  lemma AltMatchesTwo(c0: CharClass, c1: CharClass, s: string)
    ensures AltMatches([c0, c1], s) <==> |s| >= 2 && InClass(s[0], c0) && InClass(s[1], c1)
  {
    assert [c0, c1][1..] == [c1] && [c1][1..] == [];
    if |s| >= 2 {
      assert s[1..][0] == s[1];
      assert AltMatches([c1], s[1..]) <==> InClass(s[1], c1);
    }
  }

  /** The first alternative that matches decides when the rest of the pattern then succeeds. */
  lemma {:induction false} FirstAlternative(f: Field, alts: seq<Alternative>, k: nat, rest: seq<Directive>, s: string, p: Parts)
    requires k < |alts| && AltMatches(alts[k], s)
    requires forall j :: 0 <= j < k ==> !AltMatches(alts[j], s)
    requires MatchFrom(rest, s[|alts[k]|..], SetField(p, f, DigitsValue(s[..|alts[k]|]))).Some?
    ensures TryAlternatives(f, alts, rest, s, p) == MatchFrom(rest, s[|alts[k]|..], SetField(p, f, DigitsValue(s[..|alts[k]|])))
    decreases k
  {
    if k > 0 {
      assert !AltMatches(alts[0], s);
      FirstAlternative(f, alts[1..], k - 1, rest, s, p);
    }
  }

  /** The values a field of a valid date can take. */
  predicate InFieldRange(f: Field, n: int) {
    match f
    case Year => 1 <= n <= 9999
    case Month => 1 <= n <= 12
    case Day => 1 <= n <= 31
    case Hour => 0 <= n <= 23
    case Minute => 0 <= n <= 59
    case Second => 0 <= n <= 59
  }

  /** Which alternative of a two-digit field first matches the value written with its leading zero. */
  function TwoDigitAlternative(f: Field, n: nat): nat {
    match f
    case Month => if n >= 10 then 0 else 1
    case Day => if n >= 30 then 0 else if n >= 10 then 1 else 2
    case Hour => if n >= 20 then 0 else 1
    case Minute => 0
    case _ => 1
  }

  lemma TwoDigitAlternativeMatches(f: Field, n: nat, s: string)
    requires f != Year && InFieldRange(f, n) && |s| >= 2 && s[..2] == TwoDigits(n)
    ensures TwoDigitAlternative(f, n) < |Alternatives(f)|
    ensures |Alternatives(f)[TwoDigitAlternative(f, n)]| == 2
    ensures AltMatches(Alternatives(f)[TwoDigitAlternative(f, n)], s)
    ensures forall j :: 0 <= j < TwoDigitAlternative(f, n) ==> !AltMatches(Alternatives(f)[j], s)
  {
    assert s[0] == DigitChar(n / 10) && s[1] == DigitChar(n % 10);
    match f
    case Month =>
      AltMatchesTwo(Char('1'), Range('0', '2'), s);
      AltMatchesTwo(Char('0'), Range('1', '9'), s);
    case Day =>
      AltMatchesTwo(Char('3'), Range('0', '1'), s);
      AltMatchesTwo(Range('1', '2'), AnyDigit, s);
      AltMatchesTwo(Char('0'), Range('1', '9'), s);
    case Hour =>
      AltMatchesTwo(Char('2'), Range('0', '3'), s);
      AltMatchesTwo(Range('0', '1'), AnyDigit, s);
    case Minute =>
      AltMatchesTwo(Range('0', '5'), AnyDigit, s);
    case Second =>
      AltMatchesTwo(Char('6'), Range('0', '1'), s);
      AltMatchesTwo(Range('0', '5'), AnyDigit, s);
  }

  /** A two-digit field written with its leading zero is read back by its directive. */
  lemma TwoDigitField(f: Field, n: nat, rest: seq<Directive>, t: string, p: Parts)
    requires f != Year && InFieldRange(f, n)
    requires MatchFrom(rest, t, SetField(p, f, n)).Some?
    ensures MatchFrom([Num(f)] + rest, TwoDigits(n) + t, p) == MatchFrom(rest, t, SetField(p, f, n))
  {
    var s := TwoDigits(n) + t;
    assert ([Num(f)] + rest)[1..] == rest;
    assert s[2..] == t && s[..2] == TwoDigits(n);
    TwoDigitsValue(n);
    TwoDigitAlternativeMatches(f, n, s);
    FirstAlternative(f, Alternatives(f), TwoDigitAlternative(f, n), rest, s, p);
  }

  /** A year written with four digits is read back by `%Y`. */
  lemma YearField(n: nat, rest: seq<Directive>, t: string, p: Parts)
    requires n < 10000
    requires MatchFrom(rest, t, SetField(p, Year, n)).Some?
    ensures MatchFrom([Num(Year)] + rest, FourDigits(n) + t, p) == MatchFrom(rest, t, SetField(p, Year, n))
  {
    var s := FourDigits(n) + t;
    assert ([Num(Year)] + rest)[1..] == rest;
    assert s[4..] == t && s[..4] == FourDigits(n);
    FourDigitsValue(n);
    var a := [AnyDigit, AnyDigit, AnyDigit, AnyDigit];
    assert a[1..] == [AnyDigit, AnyDigit, AnyDigit] && a[2..] == [AnyDigit, AnyDigit] && a[3..] == [AnyDigit];
    assert s[1..][1..] == s[2..] && s[2..][1..] == s[3..] && s[3..][1..] == s[4..];
    assert AltMatches(a[3..], s[3..]);
    assert AltMatches(a[2..], s[2..]);
    assert AltMatches(a, s);
    FirstAlternative(Year, Alternatives(Year), 0, rest, s, p);
  }

  /** A literal of the format matches the same character. */
  lemma LitField(c: char, rest: seq<Directive>, t: string, p: Parts)
    ensures MatchFrom([Lit(c)] + rest, [c] + t, p) == MatchFrom(rest, t, p)
  {
    assert ([Lit(c)] + rest)[1..] == rest && ([c] + t)[1..] == t;
  }

  // ---------------------------------------------------------------- the formats read back what they describe

  /** A date as `%Y-%m-%d` writes it. */
  function IsoText(d: DateTime): string
    requires ValidDateTime(d)
  {
    FourDigits(d.year) + ("-" + (TwoDigits(d.month) + ("-" + TwoDigits(d.day))))
  }

  /** A date as `%d/%m/%Y` writes it. */
  function SlashText(d: DateTime): string
    requires ValidDateTime(d)
  {
    TwoDigits(d.day) + ("/" + (TwoDigits(d.month) + ("/" + FourDigits(d.year))))
  }

  predicate Midnight(d: DateTime) { d.hour == 0 && d.minute == 0 && d.second == 0 }

  /** The month and day of `%Y-%m-%d`, after the year. */
  lemma IsoMonthDay(month: nat, day: nat, p: Parts)
    requires 1 <= month <= 12 && 1 <= day <= 31
    ensures MatchFrom(IsoDate[1..], "-" + (TwoDigits(month) + ("-" + TwoDigits(day))), p)
            == Some(Match(p.(month := month, day := day), []))
  {
    var pM := SetField(p, Month, month);
    var t := TwoDigits(day);
    assert MatchFrom([], [], SetField(pM, Day, day)) == Some(Match(p.(month := month, day := day), []));
    TwoDigitField(Day, day, [], [], pM);
    assert [Num(Day)] + [] == IsoDate[4..] && t + [] == t;
    LitField('-', IsoDate[4..], t, pM);
    assert [Lit('-')] + IsoDate[4..] == IsoDate[3..];
    TwoDigitField(Month, month, IsoDate[3..], "-" + t, p);
    assert [Num(Month)] + IsoDate[3..] == IsoDate[2..];
    LitField('-', IsoDate[2..], TwoDigits(month) + ("-" + t), p);
    assert [Lit('-')] + IsoDate[2..] == IsoDate[1..];
  }

  /** `%Y-%m-%d` reads back every date it writes. */
  lemma IsoDateRoundTrip(d: DateTime)
    requires ValidDateTime(d) && Midnight(d)
    ensures Strptime(IsoText(d), IsoDate) == Some(d)
  {
    var pY := SetField(Defaults, Year, d.year);
    IsoMonthDay(d.month, d.day, pY);
    YearField(d.year, IsoDate[1..], "-" + (TwoDigits(d.month) + ("-" + TwoDigits(d.day))), Defaults);
    assert [Num(Year)] + IsoDate[1..] == IsoDate;
    assert ToDateTime(pY.(month := d.month, day := d.day)) == d;
  }

  /** `%d/%m/%Y` reads back every date it writes. */
  lemma SlashDateRoundTrip(d: DateTime)
    requires ValidDateTime(d) && Midnight(d)
    ensures Strptime(SlashText(d), Formats[1]) == Some(d)
  {
    var fmt := Formats[1];
    var pD := SetField(Defaults, Day, d.day);
    var pM := SetField(pD, Month, d.month);
    var done := Some(Match(pM.(year := d.year), []));
    var y := FourDigits(d.year);
    assert MatchFrom([], [], SetField(pM, Year, d.year)) == done;
    YearField(d.year, [], [], pM);
    assert [Num(Year)] + [] == fmt[4..] && y + [] == y;
    LitField('/', fmt[4..], y, pM);
    assert [Lit('/')] + fmt[4..] == fmt[3..];
    TwoDigitField(Month, d.month, fmt[3..], "/" + y, pD);
    assert [Num(Month)] + fmt[3..] == fmt[2..];
    LitField('/', fmt[2..], TwoDigits(d.month) + ("/" + y), pD);
    assert [Lit('/')] + fmt[2..] == fmt[1..];
    TwoDigitField(Day, d.day, fmt[1..], "/" + (TwoDigits(d.month) + ("/" + y)), Defaults);
    assert [Num(Day)] + fmt[1..] == fmt;
    assert ToDateTime(pM.(year := d.year)) == d;
  }

  /** An alternative matches exactly when each of its positions does. */
  lemma {:induction false} AltMatchesChars(a: Alternative, s: string)
    ensures AltMatches(a, s) <==> |a| <= |s| && forall k :: 0 <= k < |a| ==> InClass(s[k], a[k])
  {
    if a != [] && s != [] {
      AltMatchesChars(a[1..], s[1..]);
      assert forall k :: 1 <= k < |a| && k < |s| ==> a[1..][k - 1] == a[k] && s[1..][k - 1] == s[k];
    }
  }

  /** The ISO format does not read a `%d/%m/%Y` text: its year needs four digits in front. */
  lemma IsoRejectsSlashText(d: DateTime)
    requires ValidDateTime(d)
    ensures Strptime(SlashText(d), IsoDate) == None
  {
    var s := SlashText(d);
    assert s[2] == '/';
    AltMatchesChars(Alternatives(Year)[0], s);
    assert !AltMatches(Alternatives(Year)[0], s);
    assert Alternatives(Year)[1..] == [];
  }

  // ---------------------------------------------------------------- what parse_date makes of whole texts

  /** Every character comes before 'A': digits, white space and the usual date punctuation. */
  predicate NoLetters(s: string) { forall k :: 0 <= k < |s| ==> s[k] < 'A' }

  /** Months whose names do not occur in the lowered text are passed over. */
  lemma {:induction false} FrenchFromSkip(s: string, months: seq<(string, string)>, n: nat, nowYear: int)
    requires n <= |months|
    requires forall k :: 0 <= k < n ==> !Contains(Lower(s), months[k].0)
    ensures FrenchFrom(s, months, nowYear) == FrenchFrom(s, months[n..], nowYear)
  {
    if n > 0 {
      assert !Contains(Lower(s), months[0].0);
      assert forall k :: 0 <= k < |months| - 1 ==> months[1..][k] == months[k + 1];
      FrenchFromSkip(s, months[1..], n - 1, nowYear);
      assert months[1..][n - 1..] == months[n..];
    }
  }

  /** A text without letters is left alone by the cleaning and names no French month. */
  lemma PlainText(s: string, nowYear: int)
    requires s != [] && NoLetters(s) && !IsSpace(s[0]) && !IsSpace(s[|s| - 1])
    ensures Cleaned(s) == s && FrenchFrom(s, FrenchMonths, nowYear) == Fallthrough
  {
    StripNoop(s);
    assert Lower(s) == s;
    NotContainsMissingChar(s, PublishedPrefix, 'p');
    forall k | 0 <= k < |FrenchMonths|
      ensures !Contains(Lower(s), FrenchMonths[k].0)
    {
      var name := FrenchMonths[k].0;
      assert name != [] && 'a' <= name[0] <= 'z';
      NotContainsMissingChar(s, name, name[0]);
    }
    FrenchFromSkip(s, FrenchMonths, |FrenchMonths|, nowYear);
    assert FrenchMonths[|FrenchMonths|..] == [];
  }

  /** A clean text the French-month loop passes over is read by the format loop. */
  lemma ParseDateByFormats(v: string, nowYear: int)
    requires v != "" && v != "NA" && Cleaned(v) == v && FrenchFrom(v, FrenchMonths, nowYear) == Fallthrough
    ensures ParseDateSpec(Some(v), nowYear) == FormatsFrom(v, Formats, nowYear)
  {
  }

  /** A clean text the French-month loop dates is read as that date. */
  lemma ParseDateByMonth(v: string, d: DateTime, nowYear: int)
    requires v != "" && v != "NA" && Cleaned(v) == v && FrenchFrom(v, FrenchMonths, nowYear) == Return(d)
    ensures ParseDateSpec(Some(v), nowYear) == Some(d)
  {
  }

  /** The format loop stops at a first format that reads a plausible date. */
  lemma FormatsFromFirst(v: string, fmts: seq<seq<Directive>>, d: DateTime, nowYear: int)
    requires fmts != [] && Strptime(v, fmts[0]) == Some(d) && d.year <= nowYear + 10
    ensures FormatsFrom(v, fmts, nowYear) == Some(d)
  {
  }

  /** parse_date reads an ISO date back, whatever year `now` is in, provided it is at most ten years ahead. */
  lemma ParseIsoDate(d: DateTime, nowYear: int)
    requires ValidDateTime(d) && Midnight(d) && d.year <= nowYear + 10
    ensures ParseDateSpec(Some(IsoText(d)), nowYear) == Some(d)
  {
    var s := IsoText(d);
    assert NoLetters(s);
    PlainText(s, nowYear);
    assert s[0] != 'N';
    ParseDateByFormats(s, nowYear);
    IsoDateRoundTrip(d);
    FormatsFromFirst(s, Formats, d, nowYear);
  }

  /** parse_date reads `dd/mm/yyyy` day first, so an ambiguous "05/06/2025" is the 5th of June. */
  lemma ParseSlashDate(d: DateTime, nowYear: int)
    requires ValidDateTime(d) && Midnight(d) && d.year <= nowYear + 10
    ensures ParseDateSpec(Some(SlashText(d)), nowYear) == Some(d)
  {
    var s := SlashText(d);
    assert NoLetters(s);
    PlainText(s, nowYear);
    IsoRejectsSlashText(d);
    SlashDateRoundTrip(d);
    var tail := Formats[1..];
    assert tail[0] == Formats[1];
    assert FormatsFrom(s, tail, nowYear) == Some(d);
    assert FormatsFrom(s, Formats, nowYear) == FormatsFrom(s, tail, nowYear);
  }

  lemma AmbiguousSlashDate(nowYear: int)
    requires nowYear >= 2015
    ensures ParseDateSpec(Some("05/06/2025"), nowYear) == Some(DateTime(2025, 6, 5, 0, 0, 0))
  {
    var d := DateTime(2025, 6, 5, 0, 0, 0);
    assert SlashText(d) == "05/06/2025";
    ParseSlashDate(d, nowYear);
  }

  /** `str(day).zfill(2)` is the day with its leading zero. */
  lemma ZfillDay(day: nat)
    requires 1 <= day <= 99
    ensures Zfill(Decimal(day), 2) == TwoDigits(day)
  {
    if day >= 10 {
      assert Decimal(day / 10) == [DigitChar(day / 10)];
    }
  }

  /** The characters of "<day> juin <year>". */
  predicate JuneChars(s: string) {
    forall k :: 0 <= k < |s| ==> IsDigit(s[k]) || s[k] == ' ' || s[k] == 'j' || s[k] == 'u' || s[k] == 'i' || s[k] == 'n'
  }

  lemma JuneCleaned(s: string)
    requires s != [] && JuneChars(s) && IsDigit(s[0]) && IsDigit(s[|s| - 1])
    ensures Lower(s) == s && Cleaned(s) == s
  {
    LowerNoop(s);
    StripNoop(s);
    NotContainsMissingChar(s, PublishedPrefix, 'p');
  }

  /** The five months before June each miss a letter of such a text. */
  lemma JuneSkipsEarlierMonths(s: string, nowYear: int)
    requires JuneChars(s) && Lower(s) == s
    ensures FrenchFrom(s, FrenchMonths, nowYear) == FrenchFrom(s, FrenchMonths[5..], nowYear)
  {
    var months := FrenchMonths;
    NotContainsMissingChar(s, "janvier", 'v');
    NotContainsMissingChar(s, "février", 'f');
    NotContainsMissingChar(s, "mars", 'm');
    NotContainsMissingChar(s, "avril", 'v');
    NotContainsMissingChar(s, "mai", 'm');
    var m1, m2, m3, m4, m5 := months[1..], months[2..], months[3..], months[4..], months[5..];
    assert months[0].0 == "janvier" && m1[0].0 == "février" && m2[0].0 == "mars" && m3[0].0 == "avril" && m4[0].0 == "mai";
    assert m1[1..] == m2 && m2[1..] == m3 && m3[1..] == m4 && m4[1..] == m5;
    assert FrenchFrom(s, m4, nowYear) == FrenchFrom(s, m5, nowYear);
    assert FrenchFrom(s, m3, nowYear) == FrenchFrom(s, m4, nowYear);
    assert FrenchFrom(s, m2, nowYear) == FrenchFrom(s, m3, nowYear);
    assert FrenchFrom(s, m1, nowYear) == FrenchFrom(s, m2, nowYear);
    assert FrenchFrom(s, months, nowYear) == FrenchFrom(s, m1, nowYear);
  }

  /** "<dd> juin <yyyy>": its characters, its words, and the month name in it. */
  lemma JuneText(dd: string, yyyy: string)
    requires dd != [] && yyyy != [] && AllDigits(dd) && AllDigits(yyyy)
    ensures var s := dd + (" " + ("juin" + (" " + yyyy)));
      && JuneChars(s) && IsDigit(s[0]) && IsDigit(s[|s| - 1])
      && Contains(s, "juin") && Words(s) == [dd, "juin", yyyy]
  {
    var s := dd + (" " + ("juin" + (" " + yyyy)));
    assert "juin" == ['j', 'u', 'i', 'n'];
    assert JuneChars(s);
    assert s[|dd| + 1..|dd| + 5] == "juin";
    OccursContains(s, "juin", |dd| + 1);
    DigitsNoSpaces(dd);
    DigitsNoSpaces(yyyy);
    WordsOfThree(dd, "juin", yyyy);
  }

  /**
   * "<day> juin <year>" is read by the French-month loop: the five earlier months are passed over
   * and "juin" builds the ISO text.
   */
  lemma FrenchJuneDate(day: nat, year: nat, nowYear: int)
    requires 1 <= day <= 30 && 1 <= year <= 9999 && year <= nowYear + 10
    ensures ParseDateSpec(Some(Decimal(day) + (" " + ("juin" + (" " + FourDigits(year))))), nowYear)
            == Some(DateTime(year, 6, day, 0, 0, 0))
  {
    var d := DateTime(year, 6, day, 0, 0, 0);
    var dd, yyyy := Decimal(day), FourDigits(year);
    var s := dd + (" " + ("juin" + (" " + yyyy)));
    JuneText(dd, yyyy);
    JuneCleaned(s);
    JuneSkipsEarlierMonths(s, nowYear);
    JuneEntry(day, year, nowYear);
    assert s[0] != 'N';
    ParseDateByMonth(s, d, nowYear);
  }

  /** The `juin` entry of the table builds the ISO text of the date and reads it back. */
  lemma JuneEntry(day: nat, year: nat, nowYear: int)
    requires 1 <= day <= 30 && 1 <= year <= 9999 && year <= nowYear + 10
    ensures var s := Decimal(day) + (" " + ("juin" + (" " + FourDigits(year))));
      FrenchFrom(s, FrenchMonths[5..], nowYear) == Return(DateTime(year, 6, day, 0, 0, 0))
  {
    var dd, yyyy := Decimal(day), FourDigits(year);
    var s := dd + (" " + ("juin" + (" " + yyyy)));
    JuneText(dd, yyyy);
    JuneCleaned(s);
    JuneInTable();
    JuneIso(day, year);
    MonthEntryReturns(s, FrenchMonths[5..], [dd, "juin", yyyy], DateTime(year, 6, day, 0, 0, 0), nowYear);
  }

  /** The words of a June date, rearranged as an ISO date, parse back to that date. */
  lemma JuneIso(day: nat, year: nat)
    requires 1 <= day <= 30 && 1 <= year <= 9999
    ensures Strptime(FrenchIso([Decimal(day), "juin", FourDigits(year)], "06"), IsoDate)
      == Some(DateTime(year, 6, day, 0, 0, 0))
  {
    var d := DateTime(year, 6, day, 0, 0, 0);
    assert ValidDateTime(d) && Midnight(d);
    ZfillDay(day);
    assert FrenchIso([Decimal(day), "juin", FourDigits(year)], "06") == IsoText(d);
    IsoDateRoundTrip(d);
  }

  /** The sixth entry of the month table is June. */
  lemma JuneInTable()
    ensures |FrenchMonths| == 12 && FrenchMonths[5..][0] == ("juin", "06")
  {
    assert FrenchMonths[5] == ("juin", "06");
  }

  /** The first entry of a table whose name occurs in the text decides when its ISO text reads back. */
  lemma MonthEntryReturns(s: string, months: seq<(string, string)>, parts: seq<string>, d: DateTime, nowYear: int)
    requires months != [] && Contains(Lower(s), months[0].0) && parts == Words(Lower(s)) && |parts| >= 3
    requires Strptime(FrenchIso(parts, months[0].1), IsoDate) == Some(d) && d.year <= nowYear + 10
    ensures FrenchFrom(s, months, nowYear) == Return(d)
  {
  }

  /** "18 juin 2025" is the 18th of June 2025. */
  lemma FrenchExample(nowYear: int)
    requires nowYear >= 2015
    ensures ParseDateSpec(Some("18 juin 2025"), nowYear) == Some(DateTime(2025, 6, 18, 0, 0, 0))
  {
    assert Decimal(18) + (" " + ("juin" + (" " + FourDigits(2025)))) == "18 juin 2025";
    FrenchJuneDate(18, 2025, nowYear);
  }

  /** A text that is already clean: no surrounding white space, no capitals, no "publié le". */
  predicate CleanText(t: string) {
    t != [] && !IsSpace(t[0]) && !IsSpace(t[|t| - 1]) && Lower(t) == t && !Contains(t, PublishedPrefix)
  }

  lemma CleanTextCleaned(t: string)
    requires CleanText(t)
    ensures Cleaned(t) == t
  {
    StripNoop(t);
  }

  /** Lowering "Publié le " + `t` for a clean `t` puts the prefix in front of `t` unchanged. */
  lemma LoweredHeading(t: string)
    requires CleanText(t)
    ensures Lower("Publié le " + t) == PublishedPrefix + " " + t
  {
    var heading := "Publié le ";
    assert Lower(heading) == PublishedPrefix + " ";
    LowerConcat(heading, t);
  }

  /** Cleaning "Publié le " + `t` for a clean `t` leaves `t`. */
  lemma HeadingCleaned(t: string)
    requires CleanText(t)
    ensures Cleaned("Publié le " + t) == t
  {
    var v := "Publié le " + t;
    var pat := PublishedPrefix + " ";
    assert v[0] == 'P' && v[|v| - 1] == t[|t| - 1];
    StripNoop(v);
    LoweredHeading(t);
    var low := pat + t;
    assert low[..|PublishedPrefix|] == PublishedPrefix;
    OccursContains(low, PublishedPrefix, 0);
    assert low[..|pat|] == pat && low[|pat|..] == t;
    assert RemoveAll(low, pat) == RemoveAll(t, pat);
    if Contains(t, pat) { ContainsLonger(t, PublishedPrefix, " "); }
    RemoveAllAbsent(t, pat);
    StripNoop(t);
  }

  /** Two texts that clean to the same text are parsed alike. */
  lemma SameCleaned(v: string, w: string, nowYear: int)
    requires v != "" && v != "NA" && w != "" && w != "NA" && Cleaned(v) == Cleaned(w)
    ensures ParseDateSpec(Some(v), nowYear) == ParseDateSpec(Some(w), nowYear)
  {
  }

  /** A leading "Publié le " is dropped: the date after it is read as if it stood alone. */
  lemma PublishedPrefixIgnored(t: string, nowYear: int)
    requires CleanText(t)
    ensures ParseDateSpec(Some("Publié le " + t), nowYear) == ParseDateSpec(Some(t), nowYear)
  {
    var v := "Publié le " + t;
    HeadingCleaned(t);
    CleanTextCleaned(t);
    assert v[0] == 'P' && t != [] && t[0] != 'P';
    assert v != "" && v != "NA" && t != "" && t != "NA";
    SameCleaned(v, t, nowYear);
  }

  /** "<day> juin <year>" is a clean text. */
  lemma JuneClean(day: nat, year: nat)
    requires 1 <= day <= 30 && 1 <= year <= 9999
    ensures CleanText(Decimal(day) + (" " + ("juin" + (" " + FourDigits(year)))))
  {
    var t := Decimal(day) + (" " + ("juin" + (" " + FourDigits(year))));
    JuneText(Decimal(day), FourDigits(year));
    JuneCleaned(t);
    NotContainsMissingChar(t, PublishedPrefix, 'p');
  }

  /** "Publié le <day> juin <year>" is read like "<day> juin <year>". */
  lemma PublishedFrenchJuneDate(day: nat, year: nat, nowYear: int)
    requires 1 <= day <= 30 && 1 <= year <= 9999 && year <= nowYear + 10
    ensures ParseDateSpec(Some("Publié le " + (Decimal(day) + (" " + ("juin" + (" " + FourDigits(year)))))), nowYear)
            == Some(DateTime(year, 6, day, 0, 0, 0))
  {
    var t := Decimal(day) + (" " + ("juin" + (" " + FourDigits(year))));
    JuneClean(day, year);
    PublishedPrefixIgnored(t, nowYear);
    FrenchJuneDate(day, year, nowYear);
  }

  /** "Publié le 18 juin 2025" is the 18th of June 2025. */
  lemma PublishedFrenchExample(nowYear: int)
    requires nowYear >= 2015
    ensures ParseDateSpec(Some("Publié le 18 juin 2025"), nowYear) == Some(DateTime(2025, 6, 18, 0, 0, 0))
  {
    assert "Publié le " + (Decimal(18) + (" " + ("juin" + (" " + FourDigits(2025))))) == "Publié le 18 juin 2025";
    PublishedFrenchJuneDate(18, 2025, nowYear);
  }

  // ---------------------------------------------------------------- texts no format reads

  /** No alternative leads to a match of the rest of the pattern: the directive fails. */
  lemma {:induction false} NoAlternative(f: Field, alts: seq<Alternative>, rest: seq<Directive>, s: string, p: Parts)
    requires forall j :: 0 <= j < |alts| && AltMatches(alts[j], s) ==>
               MatchFrom(rest, s[|alts[j]|..], SetField(p, f, DigitsValue(s[..|alts[j]|]))) == None
    ensures TryAlternatives(f, alts, rest, s, p) == None
  {
    if alts != [] {
      assert forall j :: 0 <= j < |alts| - 1 ==> alts[1..][j] == alts[j + 1];
      NoAlternative(f, alts[1..], rest, s, p);
    }
  }

  /** A numeric directive followed by a punctuation literal fails when no match of it is followed by that character. */
  lemma NumThenLitFails(f: Field, c: char, rest: seq<Directive>, s: string, p: Parts)
    requires !('A' <= c <= 'Z' || 'a' <= c <= 'z')
    requires forall j :: 0 <= j < |Alternatives(f)| && AltMatches(Alternatives(f)[j], s) ==>
               |Alternatives(f)[j]| < |s| && s[|Alternatives(f)[j]|] != c
    ensures MatchFrom([Num(f), Lit(c)] + rest, s, p) == None
  {
    var fmt := [Num(f), Lit(c)] + rest;
    assert fmt[0] == Num(f) && fmt[1..] == [Lit(c)] + rest;
    forall j | 0 <= j < |Alternatives(f)| && AltMatches(Alternatives(f)[j], s)
      ensures MatchFrom(fmt[1..], s[|Alternatives(f)[j]|..], SetField(p, f, DigitsValue(s[..|Alternatives(f)[j]|]))) == None
    {
      var n := |Alternatives(f)[j]|;
      assert s[n..][0] == s[n];
    }
    NoAlternative(f, Alternatives(f), fmt[1..], s, p);
  }

  /** `%Y` fails on a text that does not start with four digits. */
  lemma YearFails(rest: seq<Directive>, s: string, p: Parts)
    requires |s| < 4 || !IsDigit(s[0]) || !IsDigit(s[1]) || !IsDigit(s[2]) || !IsDigit(s[3])
    ensures MatchFrom([Num(Year)] + rest, s, p) == None
  {
    assert ([Num(Year)] + rest)[0] == Num(Year);
    AltMatchesChars(Alternatives(Year)[0], s);
    NoAlternative(Year, Alternatives(Year), ([Num(Year)] + rest)[1..], s, p);
  }

  /** When every format fails, the format loop finds nothing. */
  lemma {:induction false} FormatsFromNone(s: string, fmts: seq<seq<Directive>>, nowYear: int)
    requires forall k :: 0 <= k < |fmts| ==> Strptime(s, fmts[k]) == None
    ensures FormatsFrom(s, fmts, nowYear) == None
  {
    if fmts != [] {
      assert Strptime(s, fmts[0]) == None;
      assert forall k :: 0 <= k < |fmts| - 1 ==> fmts[1..][k] == fmts[k + 1];
      FormatsFromNone(s, fmts[1..], nowYear);
    }
  }

  /** The formats starting with `%Y` fail on a text with a non-digit among its first four characters. */
  lemma YearFormatsFail(s: string)
    requires |s| < 4 || !IsDigit(s[0]) || !IsDigit(s[1]) || !IsDigit(s[2]) || !IsDigit(s[3])
    ensures forall k :: 0 <= k < |Formats| && Formats[k][0] == Num(Year) ==> Strptime(s, Formats[k]) == None
  {
    forall k | 0 <= k < |Formats| && Formats[k][0] == Num(Year)
      ensures Strptime(s, Formats[k]) == None
    {
      assert Formats[k] == [Num(Year)] + Formats[k][1..];
      YearFails(Formats[k][1..], s, Defaults);
    }
  }

  /** The day and month directives match one or two characters. */
  lemma ShortAlternatives(f: Field)
    requires f == Day || f == Month
    ensures forall j :: 0 <= j < |Alternatives(f)| ==> 1 <= |Alternatives(f)[j]| <= 2
  {
  }

  /** `%d/%m/%Y` fails when neither the second nor the third character is `/`. */
  lemma DaySlashFails(s: string)
    requires |s| >= 3 && s[1] != '/' && s[2] != '/'
    ensures Strptime(s, Formats[1]) == None
  {
    ShortAlternatives(Day);
    var rest := [Num(Month), Lit('/'), Num(Year)];
    assert Formats[1] == [Num(Day), Lit('/')] + rest;
    NumThenLitFails(Day, '/', rest, s, Defaults);
  }

  /** `%m/%d/%Y` fails when neither the second nor the third character is `/`. */
  lemma MonthSlashFails(s: string)
    requires |s| >= 3 && s[1] != '/' && s[2] != '/'
    ensures Strptime(s, Formats[2]) == None
  {
    ShortAlternatives(Month);
    var rest := [Num(Day), Lit('/'), Num(Year)];
    assert Formats[2] == [Num(Month), Lit('/')] + rest;
    NumThenLitFails(Month, '/', rest, s, Defaults);
  }

  /** `%d-%m-%Y` fails when neither the second nor the third character is `-`. */
  lemma DayDashFails(s: string)
    requires |s| >= 3 && s[1] != '-' && s[2] != '-'
    ensures Strptime(s, Formats[3]) == None
  {
    ShortAlternatives(Day);
    var rest := [Num(Month), Lit('-'), Num(Year)];
    assert Formats[3] == [Num(Day), Lit('-')] + rest;
    NumThenLitFails(Day, '-', rest, s, Defaults);
  }

  /** Which format begins with which directive. */
  lemma FormatHeads()
    ensures forall k :: 0 <= k < |Formats| ==> Formats[k] != []
    ensures forall k :: 0 <= k < |Formats| ==> Formats[k][0] == Num(Year) || k in {1, 2, 3, 8, 9}
  {
  }

  /**
   * A text with a non-digit at its second or third character that is neither `/` nor `-` is read by
   * no format of the list.
   */
  lemma FormatsRejectSpacedText(s: string, nowYear: int)
    requires |s| >= 3 && (!IsDigit(s[1]) || !IsDigit(s[2]))
    requires s[1] != '/' && s[1] != '-' && s[2] != '/' && s[2] != '-'
    ensures FormatsFrom(s, Formats, nowYear) == None
  {
    YearFormatsFail(s);
    DaySlashFails(s);
    MonthSlashFails(s);
    DayDashFails(s);
    FullMonthFormatsNeverMatch(s);
    FormatHeads();
    FormatsFromNone(s, Formats, nowYear);
  }

  /** No format of the list reads "<day> juin <year>". */
  lemma FormatsRejectJuneText(day: nat, year: nat, nowYear: int)
    requires 1 <= day <= 30 && 1 <= year <= 9999
    ensures FormatsFrom(Decimal(day) + (" " + ("juin" + (" " + FourDigits(year)))), Formats, nowYear) == None
  {
    var dd := Decimal(day);
    var s := dd + (" " + ("juin" + (" " + FourDigits(year))));
    if day >= 10 { assert Decimal(day / 10) == [DigitChar(day / 10)]; }
    assert |dd| <= 2 && s[|dd|] == ' ';
    assert s[1] == ' ' || s[2] == ' ';
    assert s[1] != '/' && s[1] != '-' && s[2] != '/' && s[2] != '-';
    FormatsRejectSpacedText(s, nowYear);
  }

  /**
   * A French date more than ten years ahead is refused: the loop stops at its month (it does not try
   * the later months), and no format reads the text either.
   */
  lemma FarFrenchDateRefused(day: nat, year: nat, nowYear: int)
    requires 1 <= day <= 30 && 1 <= year <= 9999 && year > nowYear + 10
    ensures ParseDateSpec(Some(Decimal(day) + (" " + ("juin" + (" " + FourDigits(year))))), nowYear) == None
  {
    var dd, yyyy := Decimal(day), FourDigits(year);
    var s := dd + (" " + ("juin" + (" " + yyyy)));
    JuneText(dd, yyyy);
    JuneCleaned(s);
    JuneSkipsEarlierMonths(s, nowYear);
    JuneInTable();
    JuneIso(day, year);
    MonthEntryTooFar(s, FrenchMonths[5..], [dd, "juin", yyyy], DateTime(year, 6, day, 0, 0, 0), nowYear);
    assert s[0] != 'N';
    ParseDateByFormats(s, nowYear);
    FormatsRejectJuneText(day, year, nowYear);
  }

  /** The first entry of a table whose name occurs in the text ends the loop when its date is too far ahead. */
  lemma MonthEntryTooFar(s: string, months: seq<(string, string)>, parts: seq<string>, d: DateTime, nowYear: int)
    requires months != [] && Contains(Lower(s), months[0].0) && parts == Words(Lower(s)) && |parts| >= 3
    requires Strptime(FrenchIso(parts, months[0].1), IsoDate) == Some(d) && d.year > nowYear + 10
    ensures FrenchFrom(s, months, nowYear) == Fallthrough
  {
  }
}
