/** The handful of Python string primitives the core relies on, over
    `string` = `seq<char>` of Unicode scalar values: `str.isspace`,
    `str.splitlines`, `str.strip`, the substring test `p in s`, and `str()`
    of an integer. */
module PyText {

  /** Characters for which Python's `str.isspace()` holds. */
  predicate IsSpace(c: char) {
    || c == ' '
    || ('\t' <= c <= '\r')
    || ('\U{1C}' <= c <= '\U{1F}')
    || c == '\U{85}'
    || c == '\U{A0}'
    || c == '\U{1680}'
    || ('\U{2000}' <= c <= '\U{200A}')
    || c == '\U{2028}'
    || c == '\U{2029}'
    || c == '\U{202F}'
    || c == '\U{205F}'
    || c == '\U{3000}'
  }

  /** Characters that `str.splitlines()` treats as line boundaries
      (`\n`, `\v`, `\f`, `\r`, `\x1c`-`\x1e`, `\x85`, `\u2028`, `\u2029`). */
  predicate IsLineBreak(c: char) {
    || ('\n' <= c <= '\r')
    || ('\U{1C}' <= c <= '\U{1E}')
    || c == '\U{85}'
    || c == '\U{2028}'
    || c == '\U{2029}'
  }

  predicate NoBreak(s: string) {
    forall i :: 0 <= i < |s| ==> !IsLineBreak(s[i])
  }

  /** `p` occurs in `s` starting at position `i`. */
  predicate OccursAt(p: string, s: string, i: int) {
    0 <= i <= |s| - |p| && s[i..i + |p|] == p
  }

  /** A string with nothing for `str.strip()` to remove. */
  predicate IsStripped(s: string) {
    s == [] || (!IsSpace(s[0]) && !IsSpace(s[|s| - 1]))
  }

  /** `s.lstrip()`: the suffix left after dropping leading whitespace. */
  function StripLeft(s: string): (r: string)
    ensures |r| <= |s| && r == s[|s| - |r|..]
    ensures r == [] || !IsSpace(r[0])
    ensures forall i :: 0 <= i < |s| - |r| ==> IsSpace(s[i])
  {
    if s != [] && IsSpace(s[0]) then StripLeft(s[1..]) else s
  }

  /** `s.rstrip()`: the prefix left after dropping trailing whitespace. */
  function StripRight(s: string): (r: string)
    ensures |r| <= |s| && r == s[..|r|]
    ensures r == [] || !IsSpace(r[|r| - 1])
    ensures forall i :: |r| <= i < |s| ==> IsSpace(s[i])
  {
    if s != [] && IsSpace(s[|s| - 1]) then StripRight(s[..|s| - 1]) else s
  }

  /** `s.strip()`: `s` with leading and trailing whitespace removed. */
  function Strip(s: string): string {
    StripRight(StripLeft(s))
  }

  /** A suffix `l` of `s` cut after whitespace, and a prefix `r` of `l`
      cut before whitespace, sit in `s` framed by whitespace. */
  lemma WhitespaceFrame(s: string, l: string, r: string) returns (a: nat)
    requires |l| <= |s| && l == s[|s| - |l|..]
    requires forall i :: 0 <= i < |s| - |l| ==> IsSpace(s[i])
    requires |r| <= |l| && r == l[..|r|]
    requires forall i :: |r| <= i < |l| ==> IsSpace(l[i])
    ensures a == |s| - |l|
    ensures OccursAt(r, s, a)
    ensures forall i :: 0 <= i < a ==> IsSpace(s[i])
    ensures forall i :: a + |r| <= i < |s| ==> IsSpace(s[i])
  {
    a := |s| - |l|;
    assert s[a..a + |r|] == l[..|r|];
    forall i | a + |r| <= i < |s| ensures IsSpace(s[i]) {
      assert s[i] == l[i - a];
    }
  }

  /** Where `s.strip()` sits in `s`: at a position `a` with only whitespace
      before it and only whitespace after it. */
  lemma StripFrame(s: string) returns (a: nat)
    ensures OccursAt(Strip(s), s, a)
    ensures forall i :: 0 <= i < a ==> IsSpace(s[i])
    ensures forall i :: a + |Strip(s)| <= i < |s| ==> IsSpace(s[i])
  {
    var l := StripLeft(s);
    a := WhitespaceFrame(s, l, StripRight(l));
  }

  /** `s.strip()` is empty exactly when `s` is all whitespace. */
  lemma StripEmpty(s: string)
    ensures Strip(s) == [] <==> forall i :: 0 <= i < |s| ==> IsSpace(s[i])
  {
    var l := StripLeft(s);
    if l != [] {
      assert l[0] == s[|s| - |l|];
    }
  }

  /** `s.strip()` is the longest infix of `s` that neither starts nor ends
      with whitespace, everything cut away being whitespace; it is empty
      exactly when `s` is all whitespace. */
  lemma StripSpec(s: string)
    ensures IsStripped(Strip(s))
    ensures exists a :: OccursAt(Strip(s), s, a)
                        && (forall i :: 0 <= i < a ==> IsSpace(s[i]))
                        && (forall i :: a + |Strip(s)| <= i < |s| ==> IsSpace(s[i]))
    ensures Strip(s) == [] <==> forall i :: 0 <= i < |s| ==> IsSpace(s[i])
  {
    var a := StripFrame(s);
    StripEmpty(s);
  }

  lemma StripStripped(s: string)
    requires IsStripped(s)
    ensures Strip(s) == s
  {
  }

  /** Position of the first line boundary in `s`, or `|s|` when there is none. */
  function BreakAt(s: string): (k: nat)
    ensures k <= |s|
    ensures NoBreak(s[..k])
    ensures k < |s| ==> IsLineBreak(s[k])
  {
    if s == [] then 0
    else if IsLineBreak(s[0]) then 0
    else
      var k := 1 + BreakAt(s[1..]);
      assert s[..k] == [s[0]] + s[1..][..k - 1];
      k
  }

  /** Length of the boundary at position `k` of `s`: "\r\n" is one boundary. */
  function BreakWidth(s: string, k: nat): nat
    requires k < |s|
  {
    if s[k] == '\r' && k + 1 < |s| && s[k + 1] == '\n' then 2 else 1
  }

  /** Python's `s.splitlines()`: the lines between boundaries, without their
      boundaries; a boundary at the very end does not open an empty last line,
      and the empty string has no lines. */
  function SplitLines(s: string): (lines: seq<string>)
    ensures forall i :: 0 <= i < |lines| ==> NoBreak(lines[i])
    decreases |s|
  {
    if s == [] then []
    else
      var k := BreakAt(s);
      if k == |s| then
        assert s[..k] == s;
        [s]
      else
        [s[..k]] + SplitLines(s[k + BreakWidth(s, k)..])
  }

  /** A line boundary as `str.splitlines()` consumes it: one boundary
      character, or the pair "\r\n". */
  predicate IsBoundary(b: string) {
    (|b| == 1 && IsLineBreak(b[0])) || b == "\r\n"
  }

  /** Each line followed by its separator. */
  function Interleave(lines: seq<string>, seps: seq<string>): string
    requires |seps| == |lines|
  {
    if lines == [] then "" else lines[0] + seps[0] + Interleave(lines[1..], seps[1..])
  }

  /** Separators for a run of lines: a boundary after every line but the
      last, and a boundary or nothing after the last. */
  predicate Separators(seps: seq<string>) {
    && (forall k :: 0 <= k < |seps| - 1 ==> IsBoundary(seps[k]))
    && (seps != [] ==> seps[|seps| - 1] == [] || IsBoundary(seps[|seps| - 1]))
  }

  lemma SeparatorsCons(b: string, rest: seq<string>)
    requires IsBoundary(b) && Separators(rest)
    ensures Separators([b] + rest)
  {
    var seps := [b] + rest;
    forall k | 1 <= k < |seps| ensures seps[k] == rest[k - 1] { }
  }

  /** The boundary `SplitLines` skips at a line-break position. */
  lemma BoundaryAt(s: string, k: nat)
    requires k < |s| && IsLineBreak(s[k])
    ensures k + BreakWidth(s, k) <= |s|
    ensures IsBoundary(s[k..k + BreakWidth(s, k)])
  {
    var b := s[k..k + BreakWidth(s, k)];
    if BreakWidth(s, k) == 2 {
      assert b == [s[k], s[k + 1]];
    } else {
      assert b == [s[k]];
    }
  }

  /** The text after the first boundary of `s`. */
  function AfterBreak(s: string): string
    requires BreakAt(s) < |s|
  {
    s[BreakAt(s) + BreakWidth(s, BreakAt(s))..]
  }

  /** A line, its boundary and separated text after them interleave to
      the whole text. */
  lemma InterleaveCons(s: string, line: string, b: string, tail: string,
                       tailLines: seq<string>, rest: seq<string>) returns (seps: seq<string>)
    requires s == line + b + tail
    requires IsBoundary(b) && Separators(rest) && |rest| == |tailLines|
    requires Interleave(tailLines, rest) == tail
    ensures |seps| == 1 + |tailLines| && Separators(seps)
    ensures Interleave([line] + tailLines, seps) == s
  {
    SeparatorsCons(b, rest);
    seps := [b] + rest;
    var lines := [line] + tailLines;
    assert lines[1..] == tailLines && seps[1..] == rest;
  }

  /** Separators for the text after the first boundary extend, by that
      boundary, to separators for the whole text. */
  lemma RebuildStep(s: string, rest: seq<string>) returns (seps: seq<string>)
    requires BreakAt(s) < |s|
    requires |rest| == |SplitLines(AfterBreak(s))| && Separators(rest)
    requires Interleave(SplitLines(AfterBreak(s)), rest) == AfterBreak(s)
    ensures |seps| == |SplitLines(s)| && Separators(seps)
    ensures Interleave(SplitLines(s), seps) == s
  {
    var k := BreakAt(s);
    var w := BreakWidth(s, k);
    BoundaryAt(s, k);
    CutThree(s, k, w);
    SplitLinesAtBreak(s);
    seps := InterleaveCons(s, s[..k], s[k..k + w], AfterBreak(s), SplitLines(AfterBreak(s)), rest);
  }

  lemma CutThree(s: string, k: nat, w: nat)
    requires k + w <= |s|
    ensures s == s[..k] + s[k..k + w] + s[k + w..]
  {
    assert s[..k] + s[k..k + w] == s[..k + w];
  }

  /** The first line of a text with a boundary ends at that boundary. */
  lemma SplitLinesAtBreak(s: string)
    requires BreakAt(s) < |s|
    ensures SplitLines(s) == [s[..BreakAt(s)]] + SplitLines(AfterBreak(s))
  {
  }

  /** `s` is its lines put back together with the boundaries that separated
      them: every line but the last is followed by a boundary, and the last
      by a boundary or by nothing. */
  lemma {:induction false} SplitLinesRebuild(s: string) returns (seps: seq<string>)
    ensures |seps| == |SplitLines(s)| && Separators(seps)
    ensures Interleave(SplitLines(s), seps) == s
    decreases |s|
  {
    if s == [] {
      seps := [];
    } else if BreakAt(s) == |s| {
      seps := [[]];
      assert s[..|s|] == s;
      assert SplitLines(s) == [s];
      assert Interleave([s], seps) == s + [] + Interleave([], []);
    } else {
      var rest := SplitLinesRebuild(AfterBreak(s));
      seps := RebuildStep(s, rest);
    }
  }

  /** The lines joined with "\n" (the inverse direction of `SplitLines`). */
  function JoinLines(lines: seq<string>): string {
    if |lines| <= 1 then (if lines == [] then "" else lines[0])
    else lines[0] + "\n" + JoinLines(lines[1..])
  }

  lemma BreakAtOfJoin(a: string, rest: string)
    requires NoBreak(a)
    ensures BreakAt(a + "\n" + rest) == |a|
    decreases |a|
  {
    if a != [] {
      assert (a + "\n" + rest)[1..] == a[1..] + "\n" + rest;
      BreakAtOfJoin(a[1..], rest);
    }
  }

  lemma BreakAtOfLine(a: string)
    requires NoBreak(a)
    ensures BreakAt(a) == |a|
    decreases |a|
  {
    if a != [] {
      BreakAtOfLine(a[1..]);
    }
  }

  /** Splitting undoes joining, for non-empty lines without boundaries. */
  lemma {:induction false} SplitJoin(lines: seq<string>)
    requires forall i :: 0 <= i < |lines| ==> lines[i] != [] && NoBreak(lines[i])
    ensures SplitLines(JoinLines(lines)) == lines
  {
    if |lines| == 0 {
    } else if |lines| == 1 {
      BreakAtOfLine(lines[0]);
    } else {
      var a := lines[0];
      var s := JoinLines(lines);
      assert s == a + "\n" + JoinLines(lines[1..]);
      BreakAtOfJoin(a, JoinLines(lines[1..]));
      assert s[|a|] == '\n';
      assert BreakWidth(s, |a|) == 1;
      assert s[..|a|] == a;
      assert s[|a| + 1..] == JoinLines(lines[1..]);
      SplitJoin(lines[1..]);
    }
  }

  /** `p occurs in s` in the sense of Python's `p in s`. */
  ghost predicate Occurs(p: string, s: string) {
    exists i :: OccursAt(p, s, i)
  }

  /** A pattern with a character that does not occur in `s` does not occur
      in `s`. */
  lemma CharAbsent(p: string, s: string, j: nat)
    requires j < |p| && p[j] !in s
    ensures !Occurs(p, s)
  {
    assert forall i :: OccursAt(p, s, i) ==> s[i + j] == p[j] && s[i + j] in s;
  }

  /** Whether `p` occurs in `s` at some position from `i` on, trying the
      positions left to right. */
  function ContainsFrom(p: string, s: string, i: nat): (b: bool)
    ensures b <==> exists k :: i <= k && OccursAt(p, s, k)
    decreases |s| - i
  {
    if i + |p| > |s| then false
    else if s[i..i + |p|] == p then
      assert OccursAt(p, s, i);
      true
    else
      ContainsFrom(p, s, i + 1)
  }

  /** Python's `p in s`. */
  function Contains(p: string, s: string): (b: bool)
    ensures b <==> Occurs(p, s)
  {
    ContainsFrom(p, s, 0)
  }

  /** Decimal digits of a natural number, most significant first. */
  function NatDigits(n: nat): (r: string)
    ensures |r| >= 1
    ensures forall i :: 0 <= i < |r| ==> '0' <= r[i] <= '9'
    decreases n
  {
    if n < 10 then ["0123456789"[n]]
    else NatDigits(n / 10) + ["0123456789"[n % 10]]
  }

  /** Python's `str(n)` for an integer. */
  function IntStr(n: int): string {
    if n < 0 then "-" + NatDigits(-n) else NatDigits(n)
  }
}
