/** QueryAgent: the pure parts of the assistant -- the chapter and
    subsection range extractors, which implement the patterns
    `第(\d+)(?:-(\d+))?章` and `第(\d+)(?:-(\d+))?小节` as a scanner, and the
    missing-field check of `handle_query`. The language model that produces
    the text, and the cookie, token and course-id extractors, are inputs. */
module Agent {
  import opened Wrappers
  import opened Slices
  import opened Ranges
  import opened Worker

  /** The character that opens both patterns. */
  const Ordinal: char := '第'

  /** The suffixes of the chapter and subsection patterns. */
  const ChapterSuffix: string := "章"
  const SubsectionSuffix: string := "小节"

  /** An ASCII decimal digit (what `\d` matches in the texts modelled). */
  predicate IsDigit(c: char) {
    '0' <= c <= '9'
  }

  /** Every character of `s` in `[lo, hi)` is a digit. */
  predicate DigitsIn(s: string, lo: nat, hi: nat)
    requires lo <= hi <= |s|
  {
    forall k :: lo <= k < hi ==> IsDigit(s[k])
  }

  /** The length of the maximal run of digits of `s` from position `j`. */
  function DigitRun(s: string, j: nat): (n: nat)
    requires j <= |s|
    ensures j + n <= |s|
    ensures DigitsIn(s, j, j + n)
    ensures j + n == |s| || !IsDigit(s[j + n])
    decreases |s| - j
  {
    if j < |s| && IsDigit(s[j]) then 1 + DigitRun(s, j + 1) else 0
  }

  /** Any run of digits followed by a non-digit (or the end) is the maximal
      run: the pattern's `\d+` can only match it in full. */
  lemma {:induction false} DigitRunUnique(s: string, j: nat, n: nat)
    requires j + n <= |s|
    requires DigitsIn(s, j, j + n)
    requires j + n == |s| || !IsDigit(s[j + n])
    ensures DigitRun(s, j) == n
    decreases n
  {
    if n > 0 {
      DigitRunUnique(s, j + 1, n - 1);
    }
  }

  /** `int()` of the digits of `s` in `[lo, hi)`; leading zeros are ignored. */
  function DigitsValue(s: string, lo: nat, hi: nat): int
    requires lo <= hi <= |s|
    decreases hi - lo
  {
    if lo == hi then 0
    else DigitsValue(s, lo, hi - 1) * 10 + (s[hi - 1] as int - '0' as int)
  }

  /** `suffix` occurs in `s` at position `p`. */
  predicate SuffixAt(s: string, p: nat, suffix: string) {
    p + |suffix| <= |s| && forall k :: 0 <= k < |suffix| ==> s[p + k] == suffix[k]
  }

  /** The single-number form `第<n digits><suffix>` at position `i`. */
  ghost predicate SingleForm(s: string, i: nat, suffix: string, n: nat) {
    && i + 1 + n <= |s| && s[i] == Ordinal && n > 0
    && DigitsIn(s, i + 1, i + 1 + n) && SuffixAt(s, i + 1 + n, suffix)
  }

  /** The span form `第<n digits>-<m digits><suffix>` at position `i`. */
  ghost predicate SpanForm(s: string, i: nat, suffix: string, n: nat, m: nat) {
    && i + 2 + n + m <= |s| && s[i] == Ordinal && n > 0 && m > 0
    && DigitsIn(s, i + 1, i + 1 + n) && s[i + 1 + n] == '-'
    && DigitsIn(s, i + 2 + n, i + 2 + n + m) && SuffixAt(s, i + 2 + n + m, suffix)
  }

  /** The pattern `第(\d+)(?:-(\d+))?<suffix>` matches at position `i`
      yielding `r`: the reference definition, with no choice among the ways
      to match. */
  ghost predicate PatternAt(s: string, i: nat, suffix: string, r: RangeSpec) {
    || (exists n :: SingleForm(s, i, suffix, n) &&
          r == RangeSpec(DigitsValue(s, i + 1, i + 1 + n), DigitsValue(s, i + 1, i + 1 + n)))
    || (exists n, m :: SpanForm(s, i, suffix, n, m) &&
          r == RangeSpec(DigitsValue(s, i + 1, i + 1 + n), DigitsValue(s, i + 2 + n, i + 2 + n + m)))
  }

  /** A suffix the scanner can handle: it starts with neither a digit nor
      the range dash. */
  predicate PlainSuffix(suffix: string) {
    suffix != [] && !IsDigit(suffix[0]) && suffix[0] != '-'
  }

  /** The scanner at position `i`: the maximal digit run after `第`, then an
      optional `-` and second maximal run, then the suffix. A second number
      without the suffix after it does not fall back to the one-number
      form, since the dash cannot start the suffix. */
  function MatchAt(s: string, i: nat, suffix: string): Option<RangeSpec>
    requires i <= |s|
  {
    if i == |s| || s[i] != Ordinal then None
    else
      var n := DigitRun(s, i + 1);
      if n == 0 then None
      else
        var a := DigitsValue(s, i + 1, i + 1 + n);
        var p := i + 1 + n;
        if p < |s| && s[p] == '-' && DigitRun(s, p + 1) > 0 then
          var m := DigitRun(s, p + 1);
          if SuffixAt(s, p + 1 + m, suffix) then Some(RangeSpec(a, DigitsValue(s, p + 1, p + 1 + m)))
          else None
        else if SuffixAt(s, p, suffix) then Some(RangeSpec(a, a))
        else None
  }

  /** What the scanner finds is a match of the pattern. */
  lemma MatchAtSound(s: string, i: nat, suffix: string)
    requires i <= |s|
    requires MatchAt(s, i, suffix).Some?
    ensures PatternAt(s, i, suffix, MatchAt(s, i, suffix).value)
  {
    var n := DigitRun(s, i + 1);
    var p := i + 1 + n;
    if p < |s| && s[p] == '-' && DigitRun(s, p + 1) > 0 {
      var m := DigitRun(s, p + 1);
      assert SpanForm(s, i, suffix, n, m);
    } else {
      assert SingleForm(s, i, suffix, n);
    }
  }

  lemma SingleComplete(s: string, i: nat, suffix: string, n: nat)
    requires PlainSuffix(suffix) && SingleForm(s, i, suffix, n)
    ensures MatchAt(s, i, suffix) == Some(RangeSpec(DigitsValue(s, i + 1, i + 1 + n), DigitsValue(s, i + 1, i + 1 + n)))
  {
    assert s[i + 1 + n + 0] == suffix[0];
    DigitRunUnique(s, i + 1, n);
  }

  lemma SpanComplete(s: string, i: nat, suffix: string, n: nat, m: nat)
    requires PlainSuffix(suffix) && SpanForm(s, i, suffix, n, m)
    ensures MatchAt(s, i, suffix) == Some(RangeSpec(DigitsValue(s, i + 1, i + 1 + n), DigitsValue(s, i + 2 + n, i + 2 + n + m)))
  {
    DigitRunUnique(s, i + 1, n);
    assert s[i + 2 + n + m + 0] == suffix[0];
    DigitRunUnique(s, i + 2 + n, m);
  }

  /** Every match of the pattern at `i` is the one the scanner finds: the
      pattern matches at most one way at each position. */
  lemma MatchAtComplete(s: string, i: nat, suffix: string, r: RangeSpec)
    requires i <= |s| && PlainSuffix(suffix)
    requires PatternAt(s, i, suffix, r)
    ensures MatchAt(s, i, suffix) == Some(r)
  {
    if exists n :: SingleForm(s, i, suffix, n) &&
         r == RangeSpec(DigitsValue(s, i + 1, i + 1 + n), DigitsValue(s, i + 1, i + 1 + n)) {
      var n :| SingleForm(s, i, suffix, n) &&
         r == RangeSpec(DigitsValue(s, i + 1, i + 1 + n), DigitsValue(s, i + 1, i + 1 + n));
      SingleComplete(s, i, suffix, n);
    } else {
      var n, m :| SpanForm(s, i, suffix, n, m) &&
         r == RangeSpec(DigitsValue(s, i + 1, i + 1 + n), DigitsValue(s, i + 2 + n, i + 2 + n + m));
      SpanComplete(s, i, suffix, n, m);
    }
  }

  /** `re.search` from position `i`: the scanner's result at the first
      position where it finds a match. */
  function Search(s: string, i: nat, suffix: string): Option<RangeSpec>
    requires i <= |s|
    decreases |s| - i
  {
    if MatchAt(s, i, suffix).Some? then MatchAt(s, i, suffix)
    else if i == |s| then None
    else Search(s, i + 1, suffix)
  }

  /** `Search` finds nothing exactly when no position from `i` on matches. */
  lemma {:induction false} SearchNone(s: string, i: nat, suffix: string)
    requires i <= |s|
    ensures Search(s, i, suffix).None? <==> forall j :: i <= j <= |s| ==> MatchAt(s, j, suffix).None?
    decreases |s| - i
  {
    if MatchAt(s, i, suffix).None? && i < |s| {
      SearchNone(s, i + 1, suffix);
      if Search(s, i + 1, suffix).None? {
        forall j | i <= j <= |s| ensures MatchAt(s, j, suffix).None? {
          if j > i {
            assert i + 1 <= j;
          }
        }
      }
    }
  }

  /** What `Search` finds is the match at the leftmost matching position
      from `i` on. */
  lemma {:induction false} SearchLeftmost(s: string, i: nat, suffix: string) returns (j: nat)
    requires i <= |s|
    requires Search(s, i, suffix).Some?
    ensures i <= j <= |s| && Search(s, i, suffix) == MatchAt(s, j, suffix)
    ensures forall j' :: i <= j' < j ==> MatchAt(s, j', suffix).None?
    decreases |s| - i
  {
    if MatchAt(s, i, suffix).Some? {
      j := i;
    } else {
      j := SearchLeftmost(s, i + 1, suffix);
    }
  }

  /** `_extract_chapter_range` (lines 105-113). */
  function ExtractChapterRange(text: string): Option<RangeSpec> {
    Search(text, 0, ChapterSuffix)
  }

  /** `_extract_subsection_range` (lines 115-123). */
  function ExtractSubsectionRange(text: string): Option<RangeSpec> {
    Search(text, 0, SubsectionSuffix)
  }

  /** The extractors find a match exactly when the pattern matches somewhere
      in the text, and what they return is a match of the pattern. */
  lemma ExtractorsFollowPattern(text: string, r: RangeSpec, i: nat)
    requires i <= |text|
    ensures PatternAt(text, i, ChapterSuffix, r) ==> ExtractChapterRange(text).Some?
    ensures PatternAt(text, i, SubsectionSuffix, r) ==> ExtractSubsectionRange(text).Some?
    ensures ExtractChapterRange(text).Some? ==>
              exists j :: 0 <= j <= |text| && PatternAt(text, j, ChapterSuffix, ExtractChapterRange(text).value)
    ensures ExtractSubsectionRange(text).Some? ==>
              exists j :: 0 <= j <= |text| && PatternAt(text, j, SubsectionSuffix, ExtractSubsectionRange(text).value)
  {
    SearchNone(text, 0, ChapterSuffix);
    SearchNone(text, 0, SubsectionSuffix);
    if PatternAt(text, i, ChapterSuffix, r) {
      MatchAtComplete(text, i, ChapterSuffix, r);
    }
    if PatternAt(text, i, SubsectionSuffix, r) {
      MatchAtComplete(text, i, SubsectionSuffix, r);
    }
    if ExtractChapterRange(text).Some? {
      var j := SearchLeftmost(text, 0, ChapterSuffix);
      MatchAtSound(text, j, ChapterSuffix);
    }
    if ExtractSubsectionRange(text).Some? {
      var j := SearchLeftmost(text, 0, SubsectionSuffix);
      MatchAtSound(text, j, SubsectionSuffix);
    }
  }

  /** No match starts at a character other than `第`. */
  lemma NoMatchOff(s: string, i: nat, suffix: string)
    requires i < |s| && s[i] != Ordinal
    ensures Search(s, i, suffix) == Search(s, i + 1, suffix)
  {
  }

  /** `第5小节` names no chapter -- a `章` must follow the digits -- and
      subsection 5. */
  lemma SubsectionOnlyExample(s: string)
    requires s == "第5小节"
    ensures ExtractChapterRange(s) == None
    ensures ExtractSubsectionRange(s) == Some(RangeSpec(5, 5))
  {
    assert DigitsValue(s, 1, 2) == 5;
    assert SuffixAt(s, 2, SubsectionSuffix);
    SingleComplete(s, 0, SubsectionSuffix, 1);
    DigitRunUnique(s, 1, 1);
    assert s[2 + 0] != ChapterSuffix[0];
    assert MatchAt(s, 0, ChapterSuffix) == None;
    NoMatchOff(s, 1, ChapterSuffix);
    NoMatchOff(s, 2, ChapterSuffix);
    NoMatchOff(s, 3, ChapterSuffix);
  }

  /** `第3章第5小节` names chapter 3 and subsection 5. */
  lemma ChapterAndSubsectionExample(s: string)
    requires s == "第3章第5小节"
    ensures ExtractChapterRange(s) == Some(RangeSpec(3, 3))
    ensures ExtractSubsectionRange(s) == Some(RangeSpec(5, 5))
  {
    assert DigitsValue(s, 1, 2) == 3 && DigitsValue(s, 4, 5) == 5;
    assert SuffixAt(s, 2, ChapterSuffix);
    SingleComplete(s, 0, ChapterSuffix, 1);
    assert SuffixAt(s, 5, SubsectionSuffix);
    SingleComplete(s, 3, SubsectionSuffix, 1);
    DigitRunUnique(s, 1, 1);
    assert s[2 + 0] != SubsectionSuffix[0];
    assert MatchAt(s, 0, SubsectionSuffix) == None;
    NoMatchOff(s, 1, SubsectionSuffix);
    NoMatchOff(s, 2, SubsectionSuffix);
  }

  /** `第2-5章` names chapters 2 to 5. */
  lemma SpanExample(s: string)
    requires s == "第2-5章"
    ensures ExtractChapterRange(s) == Some(RangeSpec(2, 5))
  {
    assert DigitsValue(s, 1, 2) == 2 && DigitsValue(s, 3, 4) == 5;
    assert SuffixAt(s, 4, ChapterSuffix);
    SpanComplete(s, 0, ChapterSuffix, 1, 1);
  }

  /** A reversed span `第5-2章` is taken as written, with no check that the
      start does not exceed the end. */
  lemma ReversedSpanExample(s: string)
    requires s == "第5-2章"
    ensures ExtractChapterRange(s) == Some(RangeSpec(5, 2))
  {
    assert DigitsValue(s, 1, 2) == 5 && DigitsValue(s, 3, 4) == 2;
    assert SuffixAt(s, 4, ChapterSuffix);
    SpanComplete(s, 0, ChapterSuffix, 1, 1);
  }

  /** A single subsection `第5小节` becomes the window `slice(4, 6)`, which
      takes subsections 5 and 6. */
  lemma SingleSubsectionTakesTwo(len: nat, k: int)
    ensures SubsectionSlice(RangeSpec(5, 5)) == Slice(Some(4), Some(6))
    ensures Selects(SubsectionSlice(RangeSpec(5, 5)), len, k) <==> 0 <= k < len && (k + 1 == 5 || k + 1 == 6)
  {
  }

  /** The fields `extract_info_from_query` returns, in dictionary order. */
  datatype Field = Cookies | Token | CourseId | ChapterRangeField | SubsectionRangeField

  /** The extracted information; `None` is a failed extraction. */
  datatype Info = Info(
    cookies: Option<string>,
    token: Option<string>,
    courseId: Option<string>,
    chapterRange: Option<RangeSpec>,
    subsectionRange: Option<RangeSpec>)

  /** `r` is the range named by the leftmost occurrence of the pattern in
      `s`: it matches at some position and nothing matches before it. */
  ghost predicate LeftmostPattern(s: string, suffix: string, r: RangeSpec) {
    exists j :: 0 <= j <= |s| && PatternAt(s, j, suffix, r) &&
      forall k, r' :: 0 <= k < j ==> !PatternAt(s, k, suffix, r')
  }

  /** Searching the whole text finds nothing exactly when the pattern occurs
      nowhere, and otherwise finds the range of its leftmost occurrence. */
  lemma FirstPattern(s: string, suffix: string)
    requires PlainSuffix(suffix)
    ensures Search(s, 0, suffix).None? <==> forall j, r :: 0 <= j <= |s| ==> !PatternAt(s, j, suffix, r)
    ensures Search(s, 0, suffix).Some? ==> LeftmostPattern(s, suffix, Search(s, 0, suffix).value)
  {
    SearchNone(s, 0, suffix);
    forall j, r | 0 <= j <= |s| && PatternAt(s, j, suffix, r) ensures MatchAt(s, j, suffix).Some? {
      MatchAtComplete(s, j, suffix, r);
    }
    if Search(s, 0, suffix).Some? {
      var j := SearchLeftmost(s, 0, suffix);
      MatchAtSound(s, j, suffix);
      forall k, r' | 0 <= k < j ensures !PatternAt(s, k, suffix, r') {
        if PatternAt(s, k, suffix, r') {
          MatchAtComplete(s, k, suffix, r');
        }
      }
    } else {
      forall j | 0 <= j <= |s| ensures MatchAt(s, j, suffix).None? { }
      forall j, r | 0 <= j <= |s| && PatternAt(s, j, suffix, r) ensures false {
        MatchAtComplete(s, j, suffix, r);
      }
    }
  }

  /** `extract_info_from_query` once the language model has answered with
      `response`: the credential and course-id fields come from their own
      extractors and are kept as given; a range is absent exactly when its
      pattern occurs nowhere in the response, and otherwise it is the range
      of the pattern's leftmost occurrence. */
  function ExtractInfo(response: string, cookies: Option<string>, token: Option<string>, courseId: Option<string>): (info: Info)
    ensures info.cookies == cookies && info.token == token && info.courseId == courseId
    ensures info.chapterRange.None? <==>
              forall j, r :: 0 <= j <= |response| ==> !PatternAt(response, j, ChapterSuffix, r)
    ensures info.chapterRange.Some? ==> LeftmostPattern(response, ChapterSuffix, info.chapterRange.value)
    ensures info.subsectionRange.None? <==>
              forall j, r :: 0 <= j <= |response| ==> !PatternAt(response, j, SubsectionSuffix, r)
    ensures info.subsectionRange.Some? ==> LeftmostPattern(response, SubsectionSuffix, info.subsectionRange.value)
  {
    FirstPattern(response, ChapterSuffix);
    FirstPattern(response, SubsectionSuffix);
    Info(cookies, token, courseId, ExtractChapterRange(response), ExtractSubsectionRange(response))
  }

  /** The position of a field in the dictionary. */
  function Rank(f: Field): nat {
    match f
    case Cookies => 0
    case Token => 1
    case CourseId => 2
    case ChapterRangeField => 3
    case SubsectionRangeField => 4
  }

  /** Whether a field is falsy: absent, or an empty string. */
  predicate Falsy(info: Info, f: Field) {
    match f
    case Cookies => info.cookies.GetOr("") == []
    case Token => info.token.GetOr("") == []
    case CourseId => info.courseId.GetOr("") == []
    case ChapterRangeField => info.chapterRange.None?
    case SubsectionRangeField => info.subsectionRange.None?
  }

  /** The fields in dictionary order. */
  const FieldOrder: seq<Field> := [Cookies, Token, CourseId, ChapterRangeField, SubsectionRangeField]

  lemma FieldListed(f: Field)
    ensures f in FieldOrder
  {
    match f
    case Cookies => assert FieldOrder[0] == f;
    case Token => assert FieldOrder[1] == f;
    case CourseId => assert FieldOrder[2] == f;
    case ChapterRangeField => assert FieldOrder[3] == f;
    case SubsectionRangeField => assert FieldOrder[4] == f;
  }

  /** Strictly increasing dictionary positions. */
  predicate InOrder(fs: seq<Field>) {
    forall a, b :: 0 <= a < b < |fs| ==> Rank(fs[a]) < Rank(fs[b])
  }

  /** The falsy fields among `fields`, in their order. */
  function FalsyAmong(info: Info, fields: seq<Field>): seq<Field> {
    if fields == [] then []
    else (if Falsy(info, fields[0]) then [fields[0]] else []) + FalsyAmong(info, fields[1..])
  }

  lemma {:induction false} FalsyAmongMembers(info: Info, fields: seq<Field>, f: Field)
    ensures f in FalsyAmong(info, fields) <==> f in fields && Falsy(info, f)
  {
    if fields != [] {
      FalsyAmongMembers(info, fields[1..], f);
      assert f in fields <==> f == fields[0] || f in fields[1..];
    }
  }

  lemma {:induction false} FalsyAmongInOrder(info: Info, fields: seq<Field>)
    requires InOrder(fields)
    ensures InOrder(FalsyAmong(info, fields))
  {
    if fields != [] {
      var rest := FalsyAmong(info, fields[1..]);
      FalsyAmongInOrder(info, fields[1..]);
      if Falsy(info, fields[0]) {
        var fs := FalsyAmong(info, fields);
        assert fs == [fields[0]] + rest;
        forall b | 0 < b < |fs| ensures Rank(fs[0]) < Rank(fs[b]) {
          FalsyAmongMembers(info, fields[1..], fs[b]);
          var k :| 0 <= k < |fields[1..]| && fields[1..][k] == fs[b];
          assert fields[k + 1] == fs[b];
        }
        forall a, b | 0 <= a < b < |fs| ensures Rank(fs[a]) < Rank(fs[b]) {
          if a > 0 {
            assert fs[a] == rest[a - 1] && fs[b] == rest[b - 1];
          }
        }
      }
    }
  }

  /** The `missing_info` list of `handle_query`: exactly the falsy fields,
      each once, in dictionary order. */
  function Missing(info: Info): (fs: seq<Field>)
    ensures forall f :: f in fs <==> Falsy(info, f)
    ensures InOrder(fs)
  {
    var fs := FalsyAmong(info, FieldOrder);
    FalsyAmongInOrder(info, FieldOrder);
    forall f ensures f in fs <==> Falsy(info, f) {
      FieldListed(f);
      FalsyAmongMembers(info, FieldOrder, f);
    }
    fs
  }

  /** What `handle_query` does: ask for the missing fields, or launch a
      worker with the range windows updated. The worker's config carries no
      `courses` key, so its course list comes from the configuration file
      whatever course id was extracted. */
  datatype Answer = AskFor(fields: seq<Field>) | Launched(windows: Windows, source: CourseSource)

  /** `handle_query` (lines 156-179), given the extracted information, the
      current windows and the configuration file's course list. */
  function HandleQuery(info: Info, w: Windows, fileCourses: Option<seq<Course>>): (a: Answer)
    ensures a.Launched? <==> forall f :: !Falsy(info, f)
    ensures a.AskFor? ==> a.fields == Missing(info) && a.fields != []
    ensures a.Launched? ==>
              && a.windows == Configure(w, info.chapterRange, info.subsectionRange)
              && a.windows.chapters.Some? && a.windows.subsections.Some?
              && a.source == FromFile(fileCourses)
  {
    var missing := Missing(info);
    if missing != [] then
      assert Falsy(info, missing[0]);
      AskFor(missing)
    else
      assert ChapterRangeField !in missing && SubsectionRangeField !in missing;
      Launched(Configure(w, info.chapterRange, info.subsectionRange), FromFile(fileCourses))
  }
}
