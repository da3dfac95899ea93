/** CourseCatalogFetcher: `get_course_details` in the worker module and in the
    command-line script. The catalog reply's chapter tree is windowed by the
    chapter and subsection slices and flattened into tagged study tasks. */
module Catalog {
  import opened Wrappers
  import opened PyText
  import opened Slices
  import opened Ranges
  import opened Replies

  /** A JSON identifier: the platform may send numbers or strings, and
      `.get` of a missing key yields `None`. */
  datatype IdValue = NoneId | IntId(n: int) | StrId(s: string)

  /** Python's `str()` of an identifier. */
  function IdStr(id: IdValue): string {
    match id
    case NoneId => "None"
    case IntId(n) => IntStr(n)
    case StrId(s) => s
  }

  /** A catalog subsection; `secondTime` is `None` when missing or null.
      Missing names and ids are taken as already defaulted. */
  datatype Subsection = Subsection(id: IdValue, name: string, secondTime: Option<int>)

  /** A catalog chapter with its subsections in declared order (a missing
      `studySubsections` list is the empty sequence). */
  datatype Chapter = Chapter(id: IdValue, name: string, subsections: seq<Subsection>)

  /** One flattened study unit, tagged with its course and parent chapter. */
  datatype Task = Task(
    courseId: string,
    chapterId: IdValue,
    chapterName: string,
    subsectionId: IdValue,
    subsectionName: string,
    secondTime: int)

  /** The record built for subsection `s` of chapter `ch`; a missing or
      falsy `secondTime` becomes 0. */
  function MakeTask(courseId: string, ch: Chapter, s: Subsection): (t: Task)
    ensures t.courseId == courseId && t.chapterId == ch.id && t.chapterName == ch.name
    ensures t.subsectionId == s.id && t.subsectionName == s.name
    ensures s.secondTime.None? ==> t.secondTime == 0
    ensures s.secondTime.Some? ==> t.secondTime == s.secondTime.value
  {
    Task(courseId, ch.id, ch.name, s.id, s.name, s.secondTime.GetOr(0))
  }

  /** The tasks of one chapter: its subsections under the window, in order. */
  function TasksOf(courseId: string, ch: Chapter, sub: Slice): seq<Task> {
    var picked := Apply(ch.subsections, sub);
    seq(|picked|, j requires 0 <= j < |picked| => MakeTask(courseId, ch, picked[j]))
  }

  /** The nested loops of `get_course_details`: chapter by chapter, the
      windowed subsections of each appended in order. */
  function Flatten(courseId: string, chapters: seq<Chapter>, sub: Slice): seq<Task> {
    if chapters == [] then []
    else TasksOf(courseId, chapters[0], sub) + Flatten(courseId, chapters[1..], sub)
  }

  /** Flattening a concatenation of chapter lists concatenates the task
      lists: all tasks of an earlier chapter precede those of a later one. */
  lemma {:induction false} FlattenAppend(courseId: string, a: seq<Chapter>, b: seq<Chapter>, sub: Slice)
    ensures Flatten(courseId, a + b, sub) == Flatten(courseId, a, sub) + Flatten(courseId, b, sub)
    decreases |a|
  {
    if a == [] {
      assert a + b == b;
    } else {
      assert (a + b)[1..] == a[1..] + b;
      FlattenAppend(courseId, a[1..], b, sub);
    }
  }

  /** `t` is the task of some windowed subsection of chapter `ch`. */
  ghost predicate Yields(courseId: string, ch: Chapter, sub: Slice, t: Task) {
    exists j :: 0 <= j < |Apply(ch.subsections, sub)| && t == MakeTask(courseId, ch, Apply(ch.subsections, sub)[j])
  }

  lemma TasksOfMembers(courseId: string, ch: Chapter, sub: Slice, t: Task)
    ensures t in TasksOf(courseId, ch, sub) <==> Yields(courseId, ch, sub, t)
  {
    var head := TasksOf(courseId, ch, sub);
    if t in head {
      var j :| 0 <= j < |head| && head[j] == t;
      assert t == MakeTask(courseId, ch, Apply(ch.subsections, sub)[j]);
    }
    if Yields(courseId, ch, sub, t) {
      var j :| 0 <= j < |Apply(ch.subsections, sub)| && t == MakeTask(courseId, ch, Apply(ch.subsections, sub)[j]);
      assert head[j] == t;
    }
  }

  /** Some chapter of `chapters` yields `t`. */
  ghost predicate FromSomeChapter(courseId: string, chapters: seq<Chapter>, sub: Slice, t: Task) {
    exists i :: 0 <= i < |chapters| && Yields(courseId, chapters[i], sub, t)
  }

  lemma FromSomeChapterCons(courseId: string, chapters: seq<Chapter>, sub: Slice, t: Task)
    requires chapters != []
    ensures FromSomeChapter(courseId, chapters, sub, t) <==>
            Yields(courseId, chapters[0], sub, t) || FromSomeChapter(courseId, chapters[1..], sub, t)
  {
    if FromSomeChapter(courseId, chapters, sub, t) {
      var i :| 0 <= i < |chapters| && Yields(courseId, chapters[i], sub, t);
      if i > 0 {
        assert chapters[1..][i - 1] == chapters[i];
      }
    }
    if FromSomeChapter(courseId, chapters[1..], sub, t) {
      var i :| 0 <= i < |chapters[1..]| && Yields(courseId, chapters[1..][i], sub, t);
      assert chapters[i + 1] == chapters[1..][i];
    }
  }

  /** Every flattened task comes from a windowed subsection of one of the
      chapters, and every windowed subsection of every chapter yields one. */
  lemma {:induction false} FlattenMembers(courseId: string, chapters: seq<Chapter>, sub: Slice, t: Task)
    ensures t in Flatten(courseId, chapters, sub) <==> FromSomeChapter(courseId, chapters, sub, t)
  {
    if chapters != [] {
      FlattenMembers(courseId, chapters[1..], sub, t);
      TasksOfMembers(courseId, chapters[0], sub, t);
      FromSomeChapterCons(courseId, chapters, sub, t);
    }
  }

  /** Every flattened task carries the course id it was fetched for. */
  lemma {:induction false} FlattenCourseId(courseId: string, chapters: seq<Chapter>, sub: Slice)
    ensures forall t :: t in Flatten(courseId, chapters, sub) ==> t.courseId == courseId
  {
    if chapters != [] {
      FlattenCourseId(courseId, chapters[1..], sub);
    }
  }

  /** The worker's `get_course_details` after its reply arrived, with the
      globals `w`: indexing with a `None` window raises `TypeError`, which
      the handler turns into `None`. The subsection window is only used
      once some chapter is selected. */
  function Select(courseId: string, chapters: seq<Chapter>, w: Windows): (r: Option<seq<Task>>)
    ensures w.chapters.None? ==> r.None?
    ensures w.chapters.Some? && Apply(chapters, w.chapters.value) == [] ==> r == Some([])
    ensures w.chapters.Some? && Apply(chapters, w.chapters.value) != [] ==>
              (r.None? <==> w.subsections.None?)
    ensures r.Some? && r.value != [] ==> w.chapters.Some? && w.subsections.Some?
    ensures w.chapters.Some? && w.subsections.Some? ==>
              r == Some(Flatten(courseId, Apply(chapters, w.chapters.value), w.subsections.value))
    ensures r.Some? ==> forall t :: t in r.value ==> t.courseId == courseId
  {
    match w.chapters
    case None => None
    case Some(chapterWindow) =>
      var picked := Apply(chapters, chapterWindow);
      if picked == [] then Some([])
      else if w.subsections.None? then None
      else
        FlattenCourseId(courseId, picked, w.subsections.value);
        Some(Flatten(courseId, picked, w.subsections.value))
  }

  /** The worker's `get_course_details`: `None` on a non-200 status, an
      unparseable body, a `returnCode` other than `"200"`, or a `None`
      window; otherwise the flattened tasks of the windowed catalog. */
  function FetchDetails(reply: Reply<seq<Chapter>>, courseId: string, w: Windows): (r: Option<seq<Task>>)
    ensures !Accepted(reply) ==> r.None?
    ensures Accepted(reply) ==> r == Select(courseId, reply.body.data, w)
    ensures r.Some? ==> forall t :: t in r.value ==> t.courseId == courseId
  {
    match reply
    case TransportError => None
    case Http(status, body) =>
      if status != 200 then None
      else
        match body
        case Malformed => None
        case Json(code, chapters) =>
          if code != Sentinel then None
          else
            Select(courseId, chapters, w)
  }

  /** What the script's `get_course_details` does: return a value, or let an
      exception escape. */
  datatype Fetch = Returned(tasks: Option<seq<Task>>) | Raised

  /** The script's `get_course_details`, with its fixed windows
      `slice(2, None)` / `slice(7, None)`: `None` on a bad status or
      `returnCode`; a transport error or an unparseable body lands in a
      handler whose argument-less `with_traceback()` raises a fresh
      `TypeError`, so the failure escapes instead of returning `None`. */
  function ScriptFetchDetails(reply: Reply<seq<Chapter>>, courseId: string): (r: Fetch)
    ensures r.Raised? <==> reply.TransportError? || (reply.status == 200 && reply.body.Malformed?)
    ensures r == Returned(None) <==> reply.Http? && (reply.status != 200 || (reply.body.Json? && reply.body.returnCode != Sentinel))
    ensures r.Returned? && r.tasks.Some? <==> Accepted(reply)
    ensures Accepted(reply) ==>
              r.tasks.value == Flatten(courseId, Apply(reply.body.data, ScriptChapters), ScriptSubsections)
  {
    match reply
    case TransportError => Raised
    case Http(status, body) =>
      if status != 200 then Returned(None)
      else
        match body
        case Malformed => Raised
        case Json(code, chapters) =>
          if code != Sentinel then Returned(None)
          else Returned(Some(Flatten(courseId, Apply(chapters, ScriptChapters), ScriptSubsections)))
  }
}
