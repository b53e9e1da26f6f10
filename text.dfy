/**
 * The Python string built-ins the importer relies on, over `seq<char>` (one char per code point):
 * `str.isspace`, `strip`, `lower`, `upper`, `split`, `replace(old, '')`, `zfill`, `int` on ASCII
 * digits, `str(n)` and the `{:,}` thousands format.
 */
module Text {

  /** `str.isspace`: exactly the code points CPython treats as white space. */
  predicate IsSpace(c: char) {
    ('\t' <= c <= '\r') || ('\U{1C}' <= c <= '\U{1F}') || c == ' ' || c == '\U{85}' || c == '\U{A0}'
    || c == '\U{1680}' || ('\U{2000}' <= c <= '\U{200A}') || c == '\U{2028}' || c == '\U{2029}'
    || c == '\U{202F}' || c == '\U{205F}' || c == '\U{3000}'
  }

  predicate IsDigit(c: char) { '0' <= c <= '9' }

  function DigitValue(c: char): nat requires IsDigit(c) { c as nat - '0' as nat }

  function DigitChar(d: nat): (c: char)
    requires d < 10
    ensures IsDigit(c) && DigitValue(c) == d
  {
    ('0' as nat + d) as char
  }

  predicate AllDigits(s: string) { forall k :: 0 <= k < |s| ==> IsDigit(s[k]) }

  // ---------------------------------------------------------------- strip

  /** Number of leading white-space characters: the longest all-space prefix. */
  function LeadingSpaces(s: string): (n: nat)
    ensures n <= |s|
    ensures forall k :: 0 <= k < n ==> IsSpace(s[k])
    ensures n < |s| ==> !IsSpace(s[n])
  {
    if s != [] && IsSpace(s[0]) then 1 + LeadingSpaces(s[1..]) else 0
  }

  /** Number of trailing white-space characters: the longest all-space suffix. */
  function TrailingSpaces(s: string): (n: nat)
    ensures n <= |s|
    ensures forall k :: |s| - n <= k < |s| ==> IsSpace(s[k])
    ensures n < |s| ==> !IsSpace(s[|s| - 1 - n])
  {
    if s != [] && IsSpace(s[|s| - 1]) then 1 + TrailingSpaces(s[..|s| - 1]) else 0
  }

  /** `str.strip()` with no argument. */
  function Strip(s: string): (r: string)
    ensures r == [] || (!IsSpace(r[0]) && !IsSpace(r[|r| - 1]))
    ensures |r| <= |s|
  {
    var a := LeadingSpaces(s);
    if a == |s| then [] else s[a..|s| - TrailingSpaces(s)]
  }

  /** A stripped string is the text between the leading and the trailing white space. */
  lemma StripIsInfix(s: string)
    ensures LeadingSpaces(s) + |Strip(s)| <= |s|
    ensures Strip(s) == s[LeadingSpaces(s)..LeadingSpaces(s) + |Strip(s)|]
    ensures forall k :: LeadingSpaces(s) + |Strip(s)| <= k < |s| ==> IsSpace(s[k])
  {
    var a := LeadingSpaces(s);
    if a < |s| {
      assert !IsSpace(s[a]);
      assert TrailingSpaces(s) < |s| - a;
    }
  }

  /** A string without surrounding white space is its own strip. */
  lemma StripNoop(s: string)
    requires s == [] || (!IsSpace(s[0]) && !IsSpace(s[|s| - 1]))
    ensures Strip(s) == s
  {
    if s != [] {
      assert LeadingSpaces(s) == 0;
      assert TrailingSpaces(s) == 0;
    }
  }

  lemma StripIdempotent(s: string)
    ensures Strip(Strip(s)) == Strip(s)
  {
    StripNoop(Strip(s));
  }

  predicate AllSpaces(s: string) { forall k :: 0 <= k < |s| ==> IsSpace(s[k]) }

  /** Stripping a text padded with white space on both sides gives the text back. */
  lemma StripPadded(a: string, d: string, b: string)
    requires AllSpaces(a) && AllSpaces(b)
    requires d != [] && !IsSpace(d[0]) && !IsSpace(d[|d| - 1])
    ensures Strip(a + d + b) == d
  {
    var s := a + d + b;
    var n, m := LeadingSpaces(s), TrailingSpaces(s);
    assert s[|a|] == d[0];
    assert s[|s| - 1 - |b|] == d[|d| - 1];
    assert forall k :: 0 <= k < |a| ==> s[k] == a[k];
    assert forall k :: |s| - |b| <= k < |s| ==> s[k] == b[k - (|s| - |b|)];
    assert n == |a| && m == |b|;
    assert s[|a|..|s| - |b|] == d;
  }

  // ---------------------------------------------------------------- case mapping

  /** `str.lower` on ASCII and Latin-1 capitals (the accented letters of French words). */
  function LowerChar(c: char): char {
    if 'A' <= c <= 'Z' || ('\U{C0}' <= c <= '\U{DE}' && c != '\U{D7}') then (c as int + 32) as char else c
  }

  /** `lower` leaves a text without capitals unchanged. */
  lemma LowerNoop(s: string)
    requires forall k :: 0 <= k < |s| ==> LowerChar(s[k]) == s[k]
    ensures Lower(s) == s
  {
  }

  lemma LowerConcat(a: string, b: string)
    ensures Lower(a + b) == Lower(a) + Lower(b)
  {
  }

  /** `str.upper` on ASCII letters. */
  function UpperChar(c: char): char {
    if 'a' <= c <= 'z' then (c as int - 32) as char else c
  }

  function Lower(s: string): (r: string)
    ensures |r| == |s| && forall k :: 0 <= k < |s| ==> r[k] == LowerChar(s[k])
  {
    seq(|s|, k requires 0 <= k < |s| => LowerChar(s[k]))
  }

  function Upper(s: string): (r: string)
    ensures |r| == |s| && forall k :: 0 <= k < |s| ==> r[k] == UpperChar(s[k])
  {
    seq(|s|, k requires 0 <= k < |s| => UpperChar(s[k]))
  }

  /** `upper` leaves a text without lower-case letters unchanged. */
  lemma UpperNoop(s: string)
    requires forall k :: 0 <= k < |s| ==> !('a' <= s[k] <= 'z')
    ensures Upper(s) == s
  {
  }

  /** Upper-casing leaves no ASCII lower-case letter behind, so doing it twice changes nothing. */
  lemma UpperIdempotent(s: string)
    ensures Upper(Upper(s)) == Upper(s)
  {
  }

  // ---------------------------------------------------------------- search and replace

  predicate StartsWith(s: string, p: string) { |p| <= |s| && s[..|p|] == p }

  /** `sub in s`. */
  predicate Contains(s: string, sub: string)
    decreases |s|
  {
    StartsWith(s, sub) || (s != [] && Contains(s[1..], sub))
  }

  /** `sub` occurs in `s` at position `i`. */
  predicate OccursAt(s: string, sub: string, i: int) {
    0 <= i <= |s| - |sub| && s[i..i + |sub|] == sub
  }

  /** `sub in s` holds exactly when `sub` occurs at some position of `s`. */
  lemma {:induction false} ContainsAt(s: string, sub: string)
    ensures Contains(s, sub) <==> exists i :: OccursAt(s, sub, i)
  {
    if StartsWith(s, sub) {
      assert OccursAt(s, sub, 0);
    } else if s == [] {
    } else {
      ContainsAt(s[1..], sub);
      if Contains(s[1..], sub) {
        var i :| OccursAt(s[1..], sub, i);
        assert s[1..][i..i + |sub|] == s[i + 1..i + 1 + |sub|];
        assert OccursAt(s, sub, i + 1);
      }
      if exists i :: OccursAt(s, sub, i) {
        var i :| OccursAt(s, sub, i);
        assert i != 0;
        assert s[1..][i - 1..i - 1 + |sub|] == s[i..i + |sub|];
        assert OccursAt(s[1..], sub, i - 1);
      }
    }
  }

  lemma OccursContains(s: string, sub: string, i: int)
    requires OccursAt(s, sub, i)
    ensures Contains(s, sub)
  {
    ContainsAt(s, sub);
  }

  /** A text shorter than `sub` does not contain it. */
  lemma ShortNotContains(s: string, sub: string)
    requires |s| < |sub|
    ensures !Contains(s, sub)
  {
    ContainsAt(s, sub);
  }

  /** A text as long as `sub` contains it only by being it. */
  lemma SameLengthContains(s: string, sub: string)
    requires |s| == |sub|
    ensures Contains(s, sub) <==> s == sub
  {
    ContainsAt(s, sub);
    if s == sub {
      assert OccursAt(s, sub, 0);
    }
  }

  /** A text without spaces occurs in `a + " " + b` only inside `a` or inside `b`. */
  lemma NotContainsAcrossSpace(a: string, b: string, sub: string)
    requires ' ' !in sub && !Contains(a, sub) && !Contains(b, sub)
    ensures !Contains(a + " " + b, sub)
  {
    var s := a + " " + b;
    ContainsAt(a, sub);
    ContainsAt(b, sub);
    forall i | 0 <= i <= |s| - |sub|
      ensures !OccursAt(s, sub, i)
    {
      if i + |sub| <= |a| {
        assert s[i..i + |sub|] == a[i..i + |sub|];
        assert !OccursAt(a, sub, i);
      } else if i > |a| {
        assert s[i..i + |sub|] == b[i - |a| - 1..i - |a| - 1 + |sub|];
        assert !OccursAt(b, sub, i - |a| - 1);
      } else {
        assert s[|a|] == ' ';
        assert s[i..i + |sub|][|a| - i] == s[|a|];
      }
    }
    ContainsAt(s, sub);
  }

  /** A text contains its own beginning. */
  lemma PrefixContained(p: string, rest: string)
    ensures Contains(p + rest, p)
  {
    assert (p + rest)[..|p|] == p;
  }

  /** Two words, each shorter than `sub` or as long but different, do not contain `sub`. */
  lemma TwoWordsMiss(a: string, b: string, sub: string)
    requires ' ' !in sub && |a| <= |sub| && a != sub && |b| <= |sub| && b != sub
    ensures !Contains(a + " " + b, sub)
  {
    if |a| < |sub| { ShortNotContains(a, sub); } else { SameLengthContains(a, sub); }
    if |b| < |sub| { ShortNotContains(b, sub); } else { SameLengthContains(b, sub); }
    NotContainsAcrossSpace(a, b, sub);
  }

  /** A text lacking one of the characters of `sub` does not contain `sub`. */
  lemma NotContainsMissingChar(s: string, sub: string, c: char)
    requires c in sub && c !in s
    ensures !Contains(s, sub)
  {
    var k :| 0 <= k < |sub| && sub[k] == c;
    forall i | 0 <= i <= |s| - |sub|
      ensures !OccursAt(s, sub, i)
    {
      assert s[i..i + |sub|][k] == s[i + k];
      assert s[i + k] in s;
    }
    ContainsAt(s, sub);
  }

  /** `s.replace(pat, '')`: every non-overlapping occurrence, scanned left to right, is removed. */
  function RemoveAll(s: string, pat: string): (r: string)
    requires pat != []
    ensures |r| <= |s|
    decreases |s|
  {
    if |s| < |pat| then s
    else if s[..|pat|] == pat then RemoveAll(s[|pat|..], pat)
    else [s[0]] + RemoveAll(s[1..], pat)
  }

  /** `s.replace(pat, '')` leaves a text without `pat` unchanged. */
  lemma {:induction false} RemoveAllAbsent(s: string, pat: string)
    requires pat != [] && !Contains(s, pat)
    ensures RemoveAll(s, pat) == s
    decreases |s|
  {
    if |s| >= |pat| {
      assert !StartsWith(s, pat);
      RemoveAllAbsent(s[1..], pat);
      assert [s[0]] + s[1..] == s;
    }
  }

  /** A text containing `p + q` contains `p`. */
  lemma ContainsLonger(s: string, p: string, q: string)
    requires Contains(s, p + q)
    ensures Contains(s, p)
  {
    ContainsAt(s, p + q);
    var i :| OccursAt(s, p + q, i);
    assert s[i..i + |p|] == (p + q)[..|p|] == p;
    assert OccursAt(s, p, i);
    ContainsAt(s, p);
  }

  // ---------------------------------------------------------------- splitting

  /** Length of the leading run of non-space characters. */
  function WordLength(s: string): (n: nat)
    ensures n <= |s|
    ensures forall k :: 0 <= k < n ==> !IsSpace(s[k])
    ensures n < |s| ==> IsSpace(s[n])
  {
    if s == [] || IsSpace(s[0]) then 0 else 1 + WordLength(s[1..])
  }

  /** `str.split()` with no argument: the maximal runs of non-space characters, in order. */
  function Words(s: string): (ws: seq<string>)
    ensures forall i :: 0 <= i < |ws| ==> ws[i] != [] && forall k :: 0 <= k < |ws[i]| ==> !IsSpace(ws[i][k])
    decreases |s|
  {
    if s == [] then []
    else if IsSpace(s[0]) then Words(s[1..])
    else var n := WordLength(s); [s[..n]] + Words(s[n..])
  }

  predicate NoSpaces(w: string) { forall k :: 0 <= k < |w| ==> !IsSpace(w[k]) }

  lemma {:induction false} WordLengthOf(w: string, t: string)
    requires NoSpaces(w) && (t == [] || IsSpace(t[0]))
    ensures WordLength(w + t) == |w|
  {
    if w != [] {
      assert (w + t)[1..] == w[1..] + t;
      WordLengthOf(w[1..], t);
    }
  }

  lemma DigitsNoSpaces(s: string)
    requires AllDigits(s)
    ensures NoSpaces(s)
  {
    forall k | 0 <= k < |s| ensures !IsSpace(s[k]) { assert '0' <= s[k] <= '9'; }
  }

  /** A word followed by white space or the end is the first word `split()` returns. */
  lemma WordsCons(w: string, t: string)
    requires w != [] && NoSpaces(w) && (t == [] || IsSpace(t[0]))
    ensures Words(w + t) == [w] + Words(t)
  {
    WordLengthOf(w, t);
    assert (w + t)[..|w|] == w && (w + t)[|w|..] == t;
  }

  /** `" ".join(ws).split() == ws` for three words. */
  lemma WordsOfThree(a: string, b: string, c: string)
    requires a != [] && b != [] && c != [] && NoSpaces(a) && NoSpaces(b) && NoSpaces(c)
    ensures Words(a + (" " + (b + (" " + c)))) == [a, b, c]
  {
    var t2 := " " + c;
    var u := b + t2;
    var t1 := " " + u;
    WordsCons(c, []);
    assert c + [] == c;
    assert t2[1..] == c && IsSpace(t2[0]);
    assert Words(t2) == [c];
    WordsCons(b, t2);
    assert t1[1..] == u && IsSpace(t1[0]);
    assert Words(t1) == [b, c];
    WordsCons(a, t1);
  }

  /** `str.split(sep)` with a one-character separator: every piece between separators, empty ones included. */
  function Split(s: string, sep: char): (parts: seq<string>)
    ensures |parts| >= 1
    ensures forall i :: 0 <= i < |parts| ==> sep !in parts[i]
    decreases |s|
  {
    if s == [] then [[]]
    else
      var rest := Split(s[1..], sep);
      if s[0] == sep then [[]] + rest else [[s[0]] + rest[0]] + rest[1..]
  }

  /** Occurrences of `c` in `s`. */
  function Count(s: string, c: char): nat {
    if s == [] then 0 else (if s[0] == c then 1 else 0) + Count(s[1..], c)
  }

  /** `str.split(sep)` yields one piece more than there are separators. */
  lemma {:induction false} SplitCount(s: string, sep: char)
    ensures |Split(s, sep)| == Count(s, sep) + 1
  {
    if s != [] { SplitCount(s[1..], sep); }
  }

  lemma {:induction false} SplitNoSep(s: string, sep: char)
    requires sep !in s
    ensures Split(s, sep) == [s]
  {
    if s != [] {
      SplitNoSep(s[1..], sep);
      assert [s[0]] + s[1..] == s;
    }
  }

  lemma {:induction false} SplitAround(x: string, sep: char, y: string)
    requires sep !in x
    ensures Split(x + [sep] + y, sep) == [x] + Split(y, sep)
  {
    if x == [] {
      assert ([] + [sep] + y)[1..] == y;
    } else {
      assert (x + [sep] + y)[1..] == x[1..] + [sep] + y;
      SplitAround(x[1..], sep, y);
      assert [x[0]] + x[1..] == x;
    }
  }

  /** The Python slice `s[:n]`. */
  function Truncate(s: string, n: nat): (r: string)
    ensures r <= s && |r| == if |s| <= n then |s| else n
  {
    if |s| <= n then s else s[..n]
  }

  /** `s.zfill(width)`: pad with zeros on the left to `width`, keeping a leading sign first. */
  function Zfill(s: string, width: nat): (r: string)
    ensures |r| == if |s| >= width then |s| else width
    ensures |s| >= width ==> r == s
  {
    if |s| >= width then s
    else
      var zeros := seq(width - |s|, _ => '0');
      if s != [] && (s[0] == '+' || s[0] == '-') then [s[0]] + zeros + s[1..] else zeros + s
  }

  // ---------------------------------------------------------------- numbers

  /** The decimal value of the digits of `s`, other characters (separators) ignored. */
  function DigitsValue(s: string): nat
    decreases |s|
  {
    if s == [] then 0
    else if IsDigit(s[|s| - 1]) then DigitsValue(s[..|s| - 1]) * 10 + DigitValue(s[|s| - 1])
    else DigitsValue(s[..|s| - 1])
  }

  /** `int(s)` on text made of ASCII digits and white space: the stripped text must be a non-empty digit run. */
  function ParseInt(s: string): (r: Option<nat>)
    ensures r.Some? <==> Strip(s) != [] && AllDigits(Strip(s))
  {
    var t := Strip(s);
    if t != [] && AllDigits(t) then Some(DigitsValue(t)) else None
  }

  /** `str(n)` for a natural number. */
  function Decimal(n: nat): (s: string)
    ensures s != [] && AllDigits(s)
  {
    if n < 10 then [DigitChar(n)] else Decimal(n / 10) + [DigitChar(n % 10)]
  }

  /** `int(str(n)) == n`. */
  lemma {:induction false} DecimalValue(n: nat)
    ensures DigitsValue(Decimal(n)) == n
  {
    if n >= 10 {
      var s := Decimal(n);
      assert s[..|s| - 1] == Decimal(n / 10);
      DecimalValue(n / 10);
    }
  }

  lemma DecimalParses(n: nat)
    ensures ParseInt(Decimal(n)) == Some(n)
  {
    StripNoop(Decimal(n));
    DecimalValue(n);
  }

  /** The three digits of `k < 1000`, with leading zeros. */
  function ThreeDigits(k: nat): (s: string)
    requires k < 1000
    ensures |s| == 3 && AllDigits(s)
  {
    [DigitChar(k / 100), DigitChar(k / 10 % 10), DigitChar(k % 10)]
  }

  /** `format(n, ',')` for a natural number: digits grouped by three with commas. */
  function Grouped(n: nat): (s: string)
    ensures s != []
  {
    if n < 1000 then Decimal(n) else Grouped(n / 1000) + "," + ThreeDigits(n % 1000)
  }

  /** One more character at the end: a digit shifts the value, a separator is ignored. */
  lemma DigitsValueSnoc(s: string, c: char)
    ensures DigitsValue(s + [c]) == if IsDigit(c) then DigitsValue(s) * 10 + DigitValue(c) else DigitsValue(s)
  {
    assert (s + [c])[..|s + [c]| - 1] == s;
  }

  /** Three digits appended to a value `m` make `m * 1000 + k`. */
  lemma ThreeDigitsShift(m: nat, k: nat)
    requires k < 1000
    ensures ((m * 10 + k / 100) * 10 + k / 10 % 10) * 10 + k % 10 == m * 1000 + k
  {
    var x, y, z := k / 100, k / 10 % 10, k % 10;
    assert k / 10 / 10 == x;
    assert k / 10 == x * 10 + y;
    assert k == (k / 10) * 10 + z;
    assert (m * 10 + x) * 10 == m * 100 + x * 10;
    assert (m * 100 + x * 10 + y) * 10 == m * 1000 + x * 100 + y * 10;
  }

  /** Reading the digits of `format(n, ',')` back, commas ignored, gives `n`. */
  lemma {:induction false} GroupedValue(n: nat)
    ensures DigitsValue(Grouped(n)) == n
  {
    if n < 1000 {
      DecimalValue(n);
    } else {
      var g := Grouped(n / 1000);
      var k := n % 1000;
      var a, b, c := DigitChar(k / 100), DigitChar(k / 10 % 10), DigitChar(k % 10);
      GroupedValue(n / 1000);
      var s0 := g + [','];
      var s1, s2, s3 := s0 + [a], s0 + [a, b], s0 + [a, b, c];
      assert Grouped(n) == s3;
      assert s2 == s1 + [b] && s3 == s2 + [c];
      DigitsValueSnoc(g, ',');
      DigitsValueSnoc(s0, a);
      DigitsValueSnoc(s1, b);
      DigitsValueSnoc(s2, c);
      ThreeDigitsShift(n / 1000, k);
    }
  }

  /** `format(n, ',')` is made of digits and commas. */
  lemma {:induction false} GroupedChars(n: nat)
    ensures forall k :: 0 <= k < |Grouped(n)| ==> IsDigit(Grouped(n)[k]) || Grouped(n)[k] == ','
  {
    if n >= 1000 {
      GroupedChars(n / 1000);
      var g, t := Grouped(n / 1000), ThreeDigits(n % 1000);
      assert Grouped(n) == g + "," + t;
      forall k | 0 <= k < |Grouped(n)| ensures IsDigit(Grouped(n)[k]) || Grouped(n)[k] == ',' {
        if k < |g| { assert Grouped(n)[k] == g[k]; }
        else if k > |g| { assert Grouped(n)[k] == t[k - |g| - 1]; }
      }
    }
  }

  /** `format(n, ',')` for any integer: negative numbers carry a leading minus. */
  function GroupedInt(n: int): string {
    if n < 0 then "-" + Grouped(-n) else Grouped(n)
  }

  import opened Wrappers
}
