/** RangeSelector: the conversion of 1-based `{start, end}` selections into
    the slices kept in the worker module's `RANGE` / `SUBRANGE` globals
    (`create_brush_worker`), and the fixed windows of the command-line script. */
module Ranges {
  import opened Wrappers
  import opened Slices

  /** A 1-based `{start, end}` selection as the host or the agent sends it. */
  datatype RangeSpec = RangeSpec(start: int, end: int)

  /** The module-level `RANGE` (chapters) / `SUBRANGE` (subsections) pair;
      `None` is the Python `None` they hold until first set. */
  datatype Windows = Windows(chapters: Option<Slice>, subsections: Option<Slice>)

  /** The globals at import time: never set. */
  const Unset: Windows := Windows(None, None)

  /** The chapter window `slice(start - 1, end)`: for `start >= 1` and a
      non-negative `end` it takes exactly the chapters numbered `start..end`
      (1-based, inclusive) that exist. */
  function ChapterSlice(r: RangeSpec): (sl: Slice)
    ensures r.start >= 1 && r.end >= 0 ==>
              forall len: nat, k: int :: Selects(sl, len, k) <==> 0 <= k < len && r.start <= k + 1 <= r.end
  {
    Slice(Some(r.start - 1), Some(r.end))
  }

  /** The subsection window: `slice(start - 1, None)` when `end == 0`, which
      takes every subsection from number `start` on, and otherwise
      `slice(start - 1, end + 1)`, which takes numbers `start..end + 1` --
      one more at the top than the chapter formula. */
  function SubsectionSlice(r: RangeSpec): (sl: Slice)
    ensures r.start >= 1 && r.end == 0 ==>
              forall len: nat, k: int :: Selects(sl, len, k) <==> 0 <= k < len && r.start <= k + 1
    ensures r.start >= 1 && r.end > 0 ==>
              forall len: nat, k: int :: Selects(sl, len, k) <==> 0 <= k < len && r.start <= k + 1 <= r.end + 1
  {
    if r.end == 0 then Slice(Some(r.start - 1), None)
    else Slice(Some(r.start - 1), Some(r.end + 1))
  }

  /** `create_brush_worker`'s update of the globals: a present (truthy)
      range replaces its window, an absent one leaves the window of an
      earlier call -- or `None` -- in place. */
  function Configure(w: Windows, chapterRange: Option<RangeSpec>, subsectionRange: Option<RangeSpec>): (w': Windows)
    ensures chapterRange.None? ==> w'.chapters == w.chapters
    ensures subsectionRange.None? ==> w'.subsections == w.subsections
    ensures chapterRange.Some? ==> w'.chapters == Some(ChapterSlice(chapterRange.value))
    ensures subsectionRange.Some? ==> w'.subsections == Some(SubsectionSlice(subsectionRange.value))
  {
    Windows(
      if chapterRange.Some? then Some(ChapterSlice(chapterRange.value)) else w.chapters,
      if subsectionRange.Some? then Some(SubsectionSlice(subsectionRange.value)) else w.subsections)
  }

  /** A run configured without ranges since import has both windows `None`;
      a later call without ranges keeps whatever an earlier call set. */
  lemma RangesPersist(w: Windows, c: Option<RangeSpec>, s: Option<RangeSpec>)
    ensures Configure(Unset, None, None) == Unset
    ensures Configure(Configure(w, c, s), None, None) == Configure(w, c, s)
  {
  }

  /** A start of 0 is not rejected: `slice(-1, None)` wraps to the end, so a
      subsection range `{0, 0}` takes only the last subsection. */
  lemma ZeroStartWrapsToLast(len: nat, k: int)
    requires len > 0
    ensures Selects(SubsectionSlice(RangeSpec(0, 0)), len, k) <==> k == len - 1
  {
  }

  /** The command-line script's fixed chapter window `slice(2, None)`. */
  const ScriptChapters: Slice := Slice(Some(2), None)

  /** The command-line script's fixed subsection window `slice(7, None)`. */
  const ScriptSubsections: Slice := Slice(Some(7), None)

  /** The script's windows skip the first two chapters and the first seven
      subsections of every remaining chapter. */
  lemma ScriptWindows<T>(chapters: seq<T>, subsections: seq<T>)
    ensures Apply(chapters, ScriptChapters) == (if |chapters| <= 2 then [] else chapters[2..])
    ensures Apply(subsections, ScriptSubsections) == (if |subsections| <= 7 then [] else subsections[7..])
  {
  }
}
