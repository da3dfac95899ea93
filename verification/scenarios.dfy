/** End-to-end runs of the worker on small catalogs: two courses of which
    only the second can be fetched, and a catalog whose first subsection has
    no duration -- once with a chapter range and once without. */
module Scenarios {
  import opened Wrappers
  import opened Slices
  import opened Ranges
  import opened Replies
  import opened Catalog
  import opened Protocol
  import opened Worker

  /** A record POST the platform accepts. */
  const RecordAccepted: Reply<()> := Http(200, Json(Sentinel, ()))

  /** A progress reply that lists the chapter `chapterId`. */
  function ConfirmFor(chapterId: IdValue): Reply<seq<ProgressEntry>> {
    Http(200, Json(Sentinel, [ProgressEntry(chapterId)]))
  }

  /** Every record call is accepted and confirmed for `chapterId`. */
  function AllConfirmed(chapterId: IdValue): nat -> Attempt {
    _ => Attempt(RecordAccepted, ConfirmFor(chapterId))
  }

  /** An accepted catalog reply. */
  function CatalogReply(chapters: seq<Chapter>): Reply<seq<Chapter>> {
    Http(200, Json(Sentinel, chapters))
  }

  /** The windows a host sets for "chapter 1, every subsection". */
  const FirstChapterAllSubsections: Windows := Configure(Unset, Some(RangeSpec(1, 1)), Some(RangeSpec(1, 0)))

  lemma ConfirmedRecordSucceeds(chapterId: IdValue)
    ensures RecordStudyTime(WorkerSettleSeconds, RecordAccepted, ConfirmFor(chapterId), chapterId).ok
  {
    var reply := ConfirmFor(chapterId);
    assert IdStr(reply.body.data[0].chapterId) == IdStr(chapterId);
  }

  /** With one chapter selected by `{1, 1}` and all subsections by
      `{1, 0}`, a one-chapter catalog is flattened whole. */
  lemma FirstChapterFlattensWhole(courseId: string, ch: Chapter)
    requires ch.subsections != []
    ensures FetchDetails(CatalogReply([ch]), courseId, FirstChapterAllSubsections) ==
            Some(TasksOf(courseId, ch, Slice(Some(0), None)))
    ensures Apply(ch.subsections, Slice(Some(0), None)) == ch.subsections
  {
    var w := FirstChapterAllSubsections;
    assert w.chapters == Some(Slice(Some(0), Some(1)));
    assert w.subsections == Some(Slice(Some(0), None));
    assert Apply([ch], Slice(Some(0), Some(1))) == [ch];
    assert [ch][1..] == [];
    assert Flatten(courseId, [ch], Slice(Some(0), None)) == TasksOf(courseId, ch, Slice(Some(0), None)) + [];
    assert Select(courseId, [ch], w) == Some(Flatten(courseId, [ch], Slice(Some(0), None)));
    assert Accepted(CatalogReply([ch])) && CatalogReply([ch]).body.data == [ch];
    assert FetchDetails(CatalogReply([ch]), courseId, w) == Select(courseId, [ch], w);
    assert Flatten(courseId, [ch], Slice(Some(0), None)) == TasksOf(courseId, ch, Slice(Some(0), None));
    assert ch.subsections[0..|ch.subsections|] == ch.subsections;
  }

  /** Courses `[A, B]`: A's catalog fetch fails, B has one subsection of
      30 seconds that is recorded and confirmed. The run reports two
      courses of which one succeeded. */
  lemma OneOfTwoCoursesSucceeds(a: Course, b: Course, ch: Chapter, env: Env)
    requires ch.subsections == [Subsection(IntId(11), "s1", Some(30))]
    requires env.stopAt.None?
    requires env.course(0) == CourseEnv(CatalogReply([]), TransportError, AllConfirmed(ch.id))
    requires env.course(1) == CourseEnv(CatalogReply([]), CatalogReply([ch]), AllConfirmed(ch.id))
    ensures var r := Run(env, Given([a, b]), FirstChapterAllSubsections);
            r.events[|r.events| - 1] == Finished(true, 2, 1) && r.succeeded == 1 && r.failed == 1
  {
    var courses := [a, b];
    var w := FirstChapterAllSubsections;
    assert !CourseSucceeds(courses, 0, env, w);
    FirstChapterFlattensWhole(b.id, ch);
    var tasks := TasksOf(b.id, ch, Slice(Some(0), None));
    assert tasks[0].secondTime == 30;
    ConfirmedRecordSucceeds(ch.id);
    assert RecordOk(CourseCtx(2, 2, AllConfirmed(ch.id), None), tasks, 0);
    assert CourseSucceeds(courses, 1, env, w);
    assert CountSucceeding(courses, 2, env, w) == 0;
    assert CountSucceeding(courses, 1, env, w) == 1;
    assert CountSucceeding(courses, 0, env, w) == 1;
  }

  /** A chapter whose first subsection has no duration. */
  predicate ZeroThenThirty(ch: Chapter) {
    |ch.subsections| == 2 && ch.subsections[0].secondTime == Some(0) && ch.subsections[1].secondTime == Some(30)
  }

  /** Without a stop request, a zero-duration task followed by a timed one
      gives exactly one record call, for the second task. */
  lemma SkipThenRecord(tasks: seq<Task>, ctx: CourseCtx)
    requires |tasks| == 2 && tasks[0].secondTime == 0 && tasks[1].secondTime != 0
    requires ctx.stopAt.None?
    ensures StudyLoop(tasks, 0, ctx, 0).calls == [RecordCall(1, tasks[1], RecordOk(ctx, tasks, 1))]
  {
    assert StudyLoop(tasks, 2, ctx, 3).calls == [];
    var second := StudyLoop(tasks, 1, ctx, 1);
    assert second.calls == [RecordCall(1, tasks[1], RecordOk(ctx, tasks, 1))] + [];
  }

  /** With a chapter range and the subsection range `{1, 0}`, both
      subsections are fetched; the zero-duration one is skipped and the
      other is the only record call. */
  lemma ZeroDurationSkipped(c: Course, ch: Chapter, attempts: nat -> Attempt)
    requires ZeroThenThirty(ch)
    ensures var tasks := FetchDetails(CatalogReply([ch]), c.id, FirstChapterAllSubsections);
            && tasks.Some? && |tasks.value| == 2
            && var calls := StudyLoop(tasks.value, 0, CourseCtx(1, 1, attempts, None), 0).calls;
               |calls| == 1 && calls[0].position == 1 && calls[0].task == tasks.value[1]
  {
    FirstChapterFlattensWhole(c.id, ch);
    var tasks := TasksOf(c.id, ch, Slice(Some(0), None));
    assert |tasks| == 2;
    assert tasks[0].secondTime == 0 && tasks[1].secondTime == 30;
    SkipThenRecord(tasks, CourseCtx(1, 1, attempts, None));
  }

  /** Without a chapter range the chapter window stays `None`: every fetch
      fails, so even a catalog that would succeed yields a failed course. */
  lemma NoChapterRangeFailsEveryCourse(c: Course, ch: Chapter, env: Env)
    requires env.stopAt.None?
    ensures var w := Configure(Unset, None, Some(RangeSpec(1, 0)));
            && FetchDetails(CatalogReply([ch]), c.id, w).None?
            && var r := Run(env, Given([c]), w);
               r.events[|r.events| - 1] == Finished(true, 1, 0) && r.succeeded == 0 && r.failed == 1
  {
    var w := Configure(Unset, None, Some(RangeSpec(1, 0)));
    assert !CourseSucceeds([c], 0, env, w);
    assert CountSucceeding([c], 0, env, w) == 0;
  }
}
