/** WorkerEngine: `BrushWorker.run` as a pure function from an abstract
    environment to an event trace and counters.

    The environment supplies, per course position, the replies of the auth
    probe, of the catalog fetch and of every record/confirm pair, and a stop
    oracle. The stop flag is an `Event` that is only ever set, so the run can
    only observe it as a run of `False` answers followed by `True` answers:
    each observation (`is_set()` before a course, before a subsection and
    after a record, and the result of the cooldown `wait`) consumes one tick
    of a clock, and it answers `True` exactly from tick `stopAt` on. */
module Worker {
  import opened Wrappers
  import opened Ranges
  import opened Replies
  import opened Catalog
  import opened Protocol

  /** A course-list entry: `{id, name?}`. */
  datatype Course = Course(id: string, name: Option<string>)

  /** Where `run` takes its course list from: the `courses` key of the
      worker's own config when present, otherwise the `courses` key of the
      config file, `None` when the file cannot be loaded or is empty. */
  datatype CourseSource = Given(courses: seq<Course>) | FromFile(loaded: Option<seq<Course>>)

  /** The replies to one `record_study_time` call: the record POST and the
      chapter-progress GET. */
  datatype Attempt = Attempt(record: Reply<()>, confirm: Reply<seq<ProgressEntry>>)

  /** The platform's answers while one course is processed; `attempts(k)` is
      for the task at position `k` of the fetched list. */
  datatype CourseEnv = CourseEnv(auth: Reply<seq<Chapter>>, catalog: Reply<seq<Chapter>>, attempts: nat -> Attempt)

  /** The environment of a run: answers per course position, and the first
      stop observation that answers `True` (`None`: stop is never requested). */
  datatype Env = Env(course: nat -> CourseEnv, stopAt: Option<nat>)

  /** Whether the stop observation at tick `clock` answers `True`. */
  predicate StopSet(stopAt: Option<nat>, clock: nat) {
    stopAt.Some? && stopAt.value <= clock
  }

  /** The log lines `run` emits, by the line that emits them. */
  datatype LogTag =
    | FetchingUser | NoCourses | ConfigUnreadable | RangeInfo | Plan
    | Interrupted | CourseBanner | CourseStart | AuthCheck | AuthFailed | AuthPassed
    | FetchingDetails | DetailsFailed | StudyStart | SubsectionStart | SkippedZero
    | Recorded | RecordFailed | Waiting | CourseDone | SubsectionTotal
    | RecordsSucceeded | RecordsFailed | Cooldown
    | AllDone | CourseTotal | CoursesSucceeded | CoursesFailed

  /** A progress report: the inputs of the per-subsection formula, or the
      final 100. */
  datatype ProgressPoint =
    | Step(courseNumber: nat, totalCourses: nat, subsectionNumber: nat, totalSubsections: nat)
    | Complete

  /** The four callback kinds; message text is not modelled. */
  datatype Event =
    | Log(tag: LogTag)
    | Progress(point: ProgressPoint)
    | UserInfo
    | Finished(success: bool, total: nat, succeeded: nat)

  /** An event that only the run's head or tail emits. */
  predicate Framing(e: Event) {
    e.Finished? || e.UserInfo? || e == Progress(Complete)
  }

  /** One call of `record_study_time`: the task's position, the task, and
      what the call returned. */
  datatype RecordCall = RecordCall(position: nat, task: Task, ok: bool)

  /** How many of the calls returned `True`. */
  function Successes(calls: seq<RecordCall>): nat {
    if calls == [] then 0
    else (if calls[0].ok then 1 else 0) + Successes(calls[1..])
  }

  lemma SuccessesCons(c: RecordCall, rest: seq<RecordCall>)
    ensures Successes([c] + rest) == (if c.ok then 1 else 0) + Successes(rest)
  {
    assert ([c] + rest)[1..] == rest;
  }

  /** `Successes` is positive exactly when some call returned `True`. */
  lemma SuccessesPositive(calls: seq<RecordCall>)
    ensures Successes(calls) > 0 <==> exists c :: c in calls && c.ok
  {
    if calls != [] {
      SuccessesPositive(calls[1..]);
      assert forall c :: c in calls <==> c == calls[0] || c in calls[1..];
    }
  }

  /** What the subsection loop of one course is given. */
  datatype CourseCtx = CourseCtx(courseNumber: nat, totalCourses: nat, attempts: nat -> Attempt, stopAt: Option<nat>)

  /** Whether the record call for the task at position `k` succeeds. */
  predicate RecordOk(ctx: CourseCtx, tasks: seq<Task>, k: nat)
    requires k < |tasks|
  {
    var a := ctx.attempts(k);
    RecordStudyTime(WorkerSettleSeconds, a.record, a.confirm, tasks[k].chapterId).ok
  }

  /** The result of the subsection loop: its events, its record calls in
      order, `success_count`, the clock after it, and whether it ended on a
      stop observation. */
  datatype Study = Study(events: seq<Event>, calls: seq<RecordCall>, successes: nat, clock: nat, interrupted: bool)

  /** The subsection loop of `run` from position `j` on (lines 135-163):
      `success_count` counts the record calls that returned `True`, and an
      interrupted loop has seen the stop flag, so every later observation
      sees it too. */
  function StudyLoop(tasks: seq<Task>, j: nat, ctx: CourseCtx, clock: nat): (r: Study)
    requires j <= |tasks|
    ensures r.successes == Successes(r.calls)
    ensures r.clock >= clock
    ensures r.interrupted ==> StopSet(ctx.stopAt, r.clock)
    ensures ctx.stopAt.None? ==> !r.interrupted
    decreases |tasks| - j
  {
    if j == |tasks| then Study([], [], 0, clock, false)
    else if StopSet(ctx.stopAt, clock) then Study([Log(Interrupted)], [], 0, clock + 1, true)
    else
      var head := [Progress(Step(ctx.courseNumber, ctx.totalCourses, j + 1, |tasks|)), Log(SubsectionStart)];
      if tasks[j].secondTime == 0 then
        var rest := StudyLoop(tasks, j + 1, ctx, clock + 1);
        Study(head + [Log(SkippedZero)] + rest.events, rest.calls, rest.successes, rest.clock, rest.interrupted)
      else
        var ok := RecordOk(ctx, tasks, j);
        var call := RecordCall(j, tasks[j], ok);
        var outcome := if ok then Log(Recorded) else Log(RecordFailed);
        var n := if ok then 1 else 0;
        SuccessesCons(call, []);
        if StopSet(ctx.stopAt, clock + 1) then
          Study(head + [outcome], [call], n, clock + 2, true)
        else
          var rest := StudyLoop(tasks, j + 1, ctx, clock + 2);
          SuccessesCons(call, rest.calls);
          Study(head + [outcome, Log(Waiting)] + rest.events, [call] + rest.calls, n + rest.successes, rest.clock, rest.interrupted)
  }

  /** The record calls of the subsection loop, in increasing task order:
      each is for a task of the list with a non-zero `secondTime` -- a
      zero-duration task is never passed to `record_study_time` -- and
      reports what that call returned. */
  lemma {:induction false} StudyCalls(tasks: seq<Task>, j: nat, ctx: CourseCtx, clock: nat)
    requires j <= |tasks|
    ensures forall c :: c in StudyLoop(tasks, j, ctx, clock).calls ==>
              && j <= c.position < |tasks|
              && c.task == tasks[c.position]
              && c.task.secondTime != 0
              && c.ok == RecordOk(ctx, tasks, c.position)
    decreases |tasks| - j
  {
    if j < |tasks| && !StopSet(ctx.stopAt, clock) {
      if tasks[j].secondTime == 0 {
        StudyCalls(tasks, j + 1, ctx, clock + 1);
      } else if !StopSet(ctx.stopAt, clock + 1) {
        StudyCalls(tasks, j + 1, ctx, clock + 2);
        var rest := StudyLoop(tasks, j + 1, ctx, clock + 2).calls;
        assert StudyLoop(tasks, j, ctx, clock).calls == [RecordCall(j, tasks[j], RecordOk(ctx, tasks, j))] + rest;
      }
    }
  }

  /** Calls in strictly increasing task order. */
  predicate Ordered(calls: seq<RecordCall>) {
    forall a, b :: 0 <= a < b < |calls| ==> calls[a].position < calls[b].position
  }

  /** The record calls are made in strictly increasing task order. */
  lemma {:induction false} StudyCallsOrdered(tasks: seq<Task>, j: nat, ctx: CourseCtx, clock: nat)
    requires j <= |tasks|
    ensures Ordered(StudyLoop(tasks, j, ctx, clock).calls)
    decreases |tasks| - j
  {
    if j < |tasks| && !StopSet(ctx.stopAt, clock) {
      if tasks[j].secondTime == 0 {
        StudyCallsOrdered(tasks, j + 1, ctx, clock + 1);
      } else if !StopSet(ctx.stopAt, clock + 1) {
        StudyCallsOrdered(tasks, j + 1, ctx, clock + 2);
        StudyCalls(tasks, j + 1, ctx, clock + 2);
        var rest := StudyLoop(tasks, j + 1, ctx, clock + 2).calls;
        var calls := [RecordCall(j, tasks[j], RecordOk(ctx, tasks, j))] + rest;
        assert calls == StudyLoop(tasks, j, ctx, clock).calls;
        forall a, b | 0 <= a < b < |calls|
          ensures calls[a].position < calls[b].position
        {
          assert calls[b] == rest[b - 1] && rest[b - 1] in rest;
          if a > 0 {
            assert calls[a] == rest[a - 1];
          }
        }
      }
    }
  }

  /** Without a stop request the subsection loop records every task whose
      `secondTime` is not zero. */
  lemma {:induction false} StudyCoversNonZero(tasks: seq<Task>, j: nat, ctx: CourseCtx, clock: nat)
    requires j <= |tasks|
    requires ctx.stopAt.None?
    ensures forall k :: j <= k < |tasks| && tasks[k].secondTime != 0 ==>
              exists c :: c in StudyLoop(tasks, j, ctx, clock).calls && c.position == k
    decreases |tasks| - j
  {
    if j < |tasks| {
      if tasks[j].secondTime == 0 {
        StudyCoversNonZero(tasks, j + 1, ctx, clock + 1);
      } else {
        StudyCoversNonZero(tasks, j + 1, ctx, clock + 2);
        var call := RecordCall(j, tasks[j], RecordOk(ctx, tasks, j));
        assert call in StudyLoop(tasks, j, ctx, clock).calls;
      }
    }
  }

  /** The subsection loop emits neither course headers nor any of the
      run's framing events. */
  lemma {:induction false} StudyEvents(tasks: seq<Task>, j: nat, ctx: CourseCtx, clock: nat)
    requires j <= |tasks|
    ensures forall e :: e in StudyLoop(tasks, j, ctx, clock).events ==> !Framing(e) && e != Log(CourseStart)
    decreases |tasks| - j
  {
    if j < |tasks| && !StopSet(ctx.stopAt, clock) {
      if tasks[j].secondTime == 0 {
        StudyEvents(tasks, j + 1, ctx, clock + 1);
      } else if !StopSet(ctx.stopAt, clock + 1) {
        StudyEvents(tasks, j + 1, ctx, clock + 2);
      }
    }
  }

  /** The result of one course's pass through the loop body: its events,
      its record calls, whether it counts as a success, the clock after it,
      whether the cooldown wait saw the stop flag, and whether its subsection
      loop was interrupted. */
  datatype CourseStep = CourseStep(events: seq<Event>, calls: seq<RecordCall>, success: bool, clock: nat, halt: bool, interrupted: bool)

  /** The tasks the worker fetches for course `i`, or `None`. */
  function Fetched(courses: seq<Course>, i: nat, ce: CourseEnv, w: Windows): Option<seq<Task>>
    requires i < |courses|
  {
    FetchDetails(ce.catalog, courses[i].id, w)
  }

  /** The log lines of a course that opens with an auth check. */
  const Opening: seq<Event> := [Log(CourseBanner), Log(CourseStart), Log(CourseBanner), Log(AuthCheck)]

  /** The summary log lines after a course's subsection loop. */
  const Summary: seq<Event> := [Log(CourseDone), Log(SubsectionTotal), Log(RecordsSucceeded), Log(RecordsFailed)]

  /** The events of a course whose tasks were fetched: the subsection
      loop's events framed by the fetch and summary lines, then the cooldown
      line unless it is the last course. */
  function StudyBlock(studyEvents: seq<Event>, cooldown: bool): seq<Event> {
    [Log(AuthPassed), Log(FetchingDetails), Log(StudyStart)] + studyEvents + Summary
      + (if cooldown then [Log(Cooldown)] else [])
  }

  lemma StudyBlockQuiet(studyEvents: seq<Event>, cooldown: bool)
    requires forall e :: e in studyEvents ==> !Framing(e) && e != Log(CourseStart)
    ensures forall e :: e in StudyBlock(studyEvents, cooldown) ==> !Framing(e) && e != Log(CourseStart)
  {
  }

  /** The events after the opening lines of a course that got past the
      top-of-loop check. */
  function CourseRest(courses: seq<Course>, i: nat, ce: CourseEnv, w: Windows, stopAt: Option<nat>, clock: nat): seq<Event>
    requires i < |courses|
  {
    if !TestAuth(ce.auth) then [Log(AuthFailed)]
    else
      var fetched := Fetched(courses, i, ce, w);
      if fetched.None? || fetched.value == [] then [Log(AuthPassed), Log(FetchingDetails), Log(DetailsFailed)]
      else
        var st := StudyLoop(fetched.value, 0, CourseCtx(i + 1, |courses|, ce.attempts, stopAt), clock);
        StudyBlock(st.events, i + 1 < |courses|)
  }

  /** One course after the top-of-loop stop check passed (lines 93-181). An
      auth failure or a `None`/empty fetch fails the course and skips the
      cooldown; otherwise the course succeeds iff some record call returned
      `True` (`success_count > 0`), and a cooldown wait follows unless it is
      the last course. A stop seen by the subsection loop is seen again by
      that wait, which ends the course loop. */
  function ProcessCourse(courses: seq<Course>, i: nat, ce: CourseEnv, w: Windows, stopAt: Option<nat>, clock: nat): (r: CourseStep)
    requires i < |courses|
    ensures !TestAuth(ce.auth) ==> !r.success && r.calls == [] && !r.halt && r.clock == clock
    ensures TestAuth(ce.auth) && (Fetched(courses, i, ce, w).None? || Fetched(courses, i, ce, w) == Some([])) ==>
              !r.success && r.calls == [] && !r.halt && r.clock == clock
    ensures TestAuth(ce.auth) && Fetched(courses, i, ce, w).Some? && Fetched(courses, i, ce, w).value != [] ==>
              r.calls == StudyLoop(Fetched(courses, i, ce, w).value, 0, CourseCtx(i + 1, |courses|, ce.attempts, stopAt), clock).calls
    ensures r.success <==> exists c :: c in r.calls && c.ok
    ensures r.clock >= clock
    ensures r.halt ==> StopSet(stopAt, r.clock)
    ensures r.interrupted ==> StopSet(stopAt, r.clock) && (i + 1 < |courses| ==> r.halt)
    ensures stopAt.None? ==> !r.halt && !r.interrupted
  {
    var events := Opening + CourseRest(courses, i, ce, w, stopAt, clock);
    if !TestAuth(ce.auth) then
      CourseStep(events, [], false, clock, false, false)
    else
      var fetched := Fetched(courses, i, ce, w);
      if fetched.None? || fetched.value == [] then
        CourseStep(events, [], false, clock, false, false)
      else
        var ctx := CourseCtx(i + 1, |courses|, ce.attempts, stopAt);
        var st := StudyLoop(fetched.value, 0, ctx, clock);
        SuccessesPositive(st.calls);
        if i + 1 < |courses| then
          CourseStep(events, st.calls, st.successes > 0, st.clock + 1, StopSet(stopAt, st.clock), st.interrupted)
        else
          CourseStep(events, st.calls, st.successes > 0, st.clock, false, st.interrupted)
  }

  /** The record calls of one course are those of its subsection loop over
      the fetched tasks: in task order, each for a fetched task of this
      course with a non-zero duration, reporting that task's verdict. */
  lemma CourseCalls(courses: seq<Course>, i: nat, ce: CourseEnv, w: Windows, stopAt: Option<nat>, clock: nat)
    requires i < |courses|
    ensures var r := ProcessCourse(courses, i, ce, w, stopAt, clock);
            && Ordered(r.calls)
            && (r.calls != [] ==> TestAuth(ce.auth) && Fetched(courses, i, ce, w).Some?)
            && forall c :: c in r.calls ==>
                 && c.position < |Fetched(courses, i, ce, w).value|
                 && c.task == Fetched(courses, i, ce, w).value[c.position]
                 && c.task.courseId == courses[i].id
                 && c.task.secondTime != 0
                 && c.ok == RecordOk(CourseCtx(i + 1, |courses|, ce.attempts, stopAt), Fetched(courses, i, ce, w).value, c.position)
  {
    var fetched := Fetched(courses, i, ce, w);
    if TestAuth(ce.auth) && fetched.Some? && fetched.value != [] {
      var ctx := CourseCtx(i + 1, |courses|, ce.attempts, stopAt);
      StudyCalls(fetched.value, 0, ctx, clock);
      StudyCallsOrdered(fetched.value, 0, ctx, clock);
      assert forall k :: 0 <= k < |fetched.value| ==> fetched.value[k] in fetched.value;
    }
  }

  /** Occurrences of `e` in `s`. */
  function Count(s: seq<Event>, e: Event): nat {
    if s == [] then 0 else (if s[0] == e then 1 else 0) + Count(s[1..], e)
  }

  lemma CountAppend(a: seq<Event>, b: seq<Event>, e: Event)
    ensures Count(a + b, e) == Count(a, e) + Count(b, e)
    decreases |a|
  {
    if a == [] {
      assert a + b == b;
    } else {
      assert (a + b)[1..] == a[1..] + b;
      CountAppend(a[1..], b, e);
    }
  }

  lemma CountAbsent(s: seq<Event>, e: Event)
    requires e !in s
    ensures Count(s, e) == 0
    decreases |s|
  {
    if s != [] {
      CountAbsent(s[1..], e);
    }
  }

  lemma OpeningCount()
    ensures Count(Opening, Log(CourseStart)) == 1
    ensures forall e :: e in Opening ==> !Framing(e)
  {
    var cs := Log(CourseStart);
    assert Opening == [Log(CourseBanner)] + [cs] + [Log(CourseBanner), Log(AuthCheck)];
    CountAppend([Log(CourseBanner)] + [cs], [Log(CourseBanner), Log(AuthCheck)], cs);
    CountAppend([Log(CourseBanner)], [cs], cs);
    CountAbsent([Log(CourseBanner)], cs);
    CountAbsent([Log(CourseBanner), Log(AuthCheck)], cs);
    assert Count([cs], cs) == 1 by { assert [cs][1..] == []; }
  }

  lemma CourseRestEvents(courses: seq<Course>, i: nat, ce: CourseEnv, w: Windows, stopAt: Option<nat>, clock: nat)
    requires i < |courses|
    ensures forall e :: e in CourseRest(courses, i, ce, w, stopAt, clock) ==> !Framing(e) && e != Log(CourseStart)
  {
    if TestAuth(ce.auth) {
      var fetched := Fetched(courses, i, ce, w);
      if fetched.Some? && fetched.value != [] {
        var ctx := CourseCtx(i + 1, |courses|, ce.attempts, stopAt);
        StudyEvents(fetched.value, 0, ctx, clock);
        StudyBlockQuiet(StudyLoop(fetched.value, 0, ctx, clock).events, i + 1 < |courses|);
      }
    }
  }

  /** Every course that gets past the top-of-loop check logs exactly one
      course header, and no framing event. */
  lemma ProcessCourseEvents(courses: seq<Course>, i: nat, ce: CourseEnv, w: Windows, stopAt: Option<nat>, clock: nat)
    requires i < |courses|
    ensures var r := ProcessCourse(courses, i, ce, w, stopAt, clock);
            Count(r.events, Log(CourseStart)) == 1 && forall e :: e in r.events ==> !Framing(e)
  {
    var after := CourseRest(courses, i, ce, w, stopAt, clock);
    CourseRestEvents(courses, i, ce, w, stopAt, clock);
    OpeningCount();
    CountAppend(Opening, after, Log(CourseStart));
    CountAbsent(after, Log(CourseStart));
  }

  /** The counters and trace of the course loop. */
  datatype Tally = Tally(events: seq<Event>, succeeded: nat, failed: nat, started: nat, clock: nat)

  /** The course loop of `run` from position `i` on (lines 88-181). Every
      course that passes the top-of-loop stop check is counted exactly once,
      as a success or a failure; once a stop observation answers `True` no
      further course starts. */
  function CourseLoop(courses: seq<Course>, i: nat, env: Env, w: Windows, clock: nat): (r: Tally)
    ensures r.succeeded + r.failed == r.started
    ensures r.started <= |courses| - i || (i >= |courses| && r.started == 0)
    ensures StopSet(env.stopAt, clock) ==> r.started == 0
    decreases |courses| - i
  {
    if i >= |courses| then Tally([], 0, 0, 0, clock)
    else if StopSet(env.stopAt, clock) then Tally([Log(Interrupted)], 0, 0, 0, clock + 1)
    else
      var step := ProcessCourse(courses, i, env.course(i), w, env.stopAt, clock + 1);
      var s := if step.success then 1 else 0;
      if step.halt then Tally(step.events, s, 1 - s, 1, step.clock)
      else
        var rest := CourseLoop(courses, i + 1, env, w, step.clock);
        Tally(step.events + rest.events, s + rest.succeeded, (1 - s) + rest.failed, 1 + rest.started, rest.clock)
  }

  /** The course loop logs one course header per started course and no
      framing event. */
  lemma {:induction false} CourseLoopEvents(courses: seq<Course>, i: nat, env: Env, w: Windows, clock: nat)
    ensures var r := CourseLoop(courses, i, env, w, clock);
            Count(r.events, Log(CourseStart)) == r.started && forall e :: e in r.events ==> !Framing(e)
    decreases |courses| - i
  {
    var r := CourseLoop(courses, i, env, w, clock);
    if i < |courses| && !StopSet(env.stopAt, clock) {
      var step := ProcessCourse(courses, i, env.course(i), w, env.stopAt, clock + 1);
      ProcessCourseEvents(courses, i, env.course(i), w, env.stopAt, clock + 1);
      if !step.halt {
        var rest := CourseLoop(courses, i + 1, env, w, step.clock);
        CourseLoopEvents(courses, i + 1, env, w, step.clock);
        CountAppend(step.events, rest.events, Log(CourseStart));
      }
    } else if i < |courses| {
      assert r.events == [Log(Interrupted)];
      CountAbsent(r.events, Log(CourseStart));
    }
  }

  /** Whether course `i` succeeds when nothing stops the run: the auth
      probe passes, the fetch yields tasks, and the record call of some
      non-zero-duration task returns `True`. */
  predicate CourseSucceeds(courses: seq<Course>, i: nat, env: Env, w: Windows)
    requires i < |courses|
  {
    var ce := env.course(i);
    var f := Fetched(courses, i, ce, w);
    && TestAuth(ce.auth)
    && f.Some?
    && exists k :: 0 <= k < |f.value| && f.value[k].secondTime != 0 &&
         RecordOk(CourseCtx(i + 1, |courses|, ce.attempts, env.stopAt), f.value, k)
  }

  /** How many of the courses from position `i` on succeed. */
  function CountSucceeding(courses: seq<Course>, i: nat, env: Env, w: Windows): nat
    decreases |courses| - i
  {
    if i >= |courses| then 0
    else (if CourseSucceeds(courses, i, env, w) then 1 else 0) + CountSucceeding(courses, i + 1, env, w)
  }

  /** Without a stop request, one course succeeds exactly when
      `CourseSucceeds` says so. */
  lemma NoStopCourseOutcome(courses: seq<Course>, i: nat, env: Env, w: Windows, clock: nat)
    requires env.stopAt.None?
    requires i < |courses|
    ensures ProcessCourse(courses, i, env.course(i), w, env.stopAt, clock).success <==> CourseSucceeds(courses, i, env, w)
  {
    var ce := env.course(i);
    var step := ProcessCourse(courses, i, ce, w, env.stopAt, clock);
    var f := Fetched(courses, i, ce, w);
    if TestAuth(ce.auth) && f.Some? && f.value != [] {
      var ctx := CourseCtx(i + 1, |courses|, ce.attempts, env.stopAt);
      var st := StudyLoop(f.value, 0, ctx, clock);
      assert step.calls == st.calls;
      StudyCalls(f.value, 0, ctx, clock);
      if CourseSucceeds(courses, i, env, w) {
        var k :| 0 <= k < |f.value| && f.value[k].secondTime != 0 && RecordOk(ctx, f.value, k);
        StudyCoversNonZero(f.value, 0, ctx, clock);
        var c :| c in st.calls && c.position == k;
        assert c.ok;
      }
      if step.success {
        var c :| c in st.calls && c.ok;
        assert 0 <= c.position < |f.value| && f.value[c.position].secondTime != 0 && RecordOk(ctx, f.value, c.position);
      }
    }
  }

  /** Without a stop request, every course is processed and the success
      counter equals the number of courses that `CourseSucceeds` describes. */
  lemma NoStopCountsEveryCourse(courses: seq<Course>, i: nat, env: Env, w: Windows, clock: nat)
    requires i <= |courses|
    ensures env.stopAt.None? ==> CourseLoop(courses, i, env, w, clock).started == |courses| - i
    ensures env.stopAt.None? ==> CourseLoop(courses, i, env, w, clock).succeeded == CountSucceeding(courses, i, env, w)
  {
    if env.stopAt.None? {
      NoStopStartsEvery(courses, i, env, w, clock);
      NoStopSucceeding(courses, i, env, w, clock);
    }
  }

  lemma {:induction false} NoStopStartsEvery(courses: seq<Course>, i: nat, env: Env, w: Windows, clock: nat)
    requires i <= |courses| && env.stopAt.None?
    ensures CourseLoop(courses, i, env, w, clock).started == |courses| - i
    decreases |courses| - i
  {
    if i < |courses| {
      var next := NoStopLoopStep(courses, i, env, w, clock);
      NoStopStartsEvery(courses, i + 1, env, w, next);
      assert CourseLoop(courses, i, env, w, clock).started == 1 + CourseLoop(courses, i + 1, env, w, next).started;
    }
  }

  lemma {:induction false} NoStopSucceeding(courses: seq<Course>, i: nat, env: Env, w: Windows, clock: nat)
    requires i <= |courses| && env.stopAt.None?
    ensures CourseLoop(courses, i, env, w, clock).succeeded == CountSucceeding(courses, i, env, w)
    decreases |courses| - i
  {
    if i < |courses| {
      var next := NoStopLoopStep(courses, i, env, w, clock);
      NoStopSucceeding(courses, i + 1, env, w, next);
      var b := if CourseSucceeds(courses, i, env, w) then 1 else 0;
      assert CountSucceeding(courses, i, env, w) == b + CountSucceeding(courses, i + 1, env, w);
      assert CourseLoop(courses, i, env, w, clock).succeeded == b + CourseLoop(courses, i + 1, env, w, next).succeeded;
    }
  }

  /** Without a stop request, the course loop at `i` is course `i` --
      counted as `CourseSucceeds` says -- followed by the loop from `i + 1`
      at the clock `next` the course leaves behind. */
  lemma NoStopLoopStep(courses: seq<Course>, i: nat, env: Env, w: Windows, clock: nat) returns (next: nat)
    requires env.stopAt.None? && i < |courses|
    ensures var rest := CourseLoop(courses, i + 1, env, w, next);
            var r := CourseLoop(courses, i, env, w, clock);
            && r.started == 1 + rest.started
            && r.succeeded == (if CourseSucceeds(courses, i, env, w) then 1 else 0) + rest.succeeded
  {
    var step := ProcessCourse(courses, i, env.course(i), w, env.stopAt, clock + 1);
    NoStopCourseOutcome(courses, i, env, w, clock + 1);
    assert !StopSet(env.stopAt, clock) && !step.halt;
    next := step.clock;
  }

  /** A stop seen inside a course's subsection loop ends the run's course
      processing: that course is the last one started. */
  lemma StopInStudyEndsCourses(courses: seq<Course>, i: nat, env: Env, w: Windows, clock: nat)
    requires i < |courses|
    requires !StopSet(env.stopAt, clock)
    requires ProcessCourse(courses, i, env.course(i), w, env.stopAt, clock + 1).interrupted
    ensures CourseLoop(courses, i, env, w, clock).started == 1
  {
    var step := ProcessCourse(courses, i, env.course(i), w, env.stopAt, clock + 1);
    if !step.halt {
      assert i + 1 >= |courses|;
    }
  }

  /** The result of `run`: the event trace and the final counters. */
  datatype RunResult = RunResult(events: seq<Event>, succeeded: nat, failed: nat)

  /** The course list `run` settles on, or `None` when it terminates early:
      a given list is used when it is non-empty, otherwise the configuration
      file's list when the file loads and its list is non-empty. */
  function Resolve(source: CourseSource): (r: Option<seq<Course>>)
    ensures r.Some? ==> r.value != []
    ensures source.Given? ==> (r.Some? <==> source.courses != []) && (r.Some? ==> r.value == source.courses)
    ensures source.FromFile? ==>
              && (r.Some? <==> source.loaded.Some? && source.loaded.value != [])
              && (r.Some? ==> r.value == source.loaded.value)
  {
    match source
    case Given(cs) => if cs == [] then None else Some(cs)
    case FromFile(loaded) => if loaded.None? || loaded.value == [] then None else Some(loaded.value)
  }

  /** Whether `Finished` occurs only as the last event of `s`. */
  predicate FinishedOnlyLast(s: seq<Event>) {
    forall k :: 0 <= k < |s| - 1 ==> !s[k].Finished?
  }

  lemma FinishedOnlyLastAppend(a: seq<Event>, e: Event)
    requires forall x :: x in a ==> !x.Finished?
    ensures FinishedOnlyLast(a + [e])
  {
    forall k | 0 <= k < |a + [e]| - 1
      ensures !(a + [e])[k].Finished?
    {
      assert (a + [e])[k] == a[k];
    }
  }

  /** The log lines `run` emits before the course loop. */
  function Prelude(w: Windows): seq<Event> {
    [Log(FetchingUser), UserInfo] + (if w.chapters.Some? || w.subsections.Some? then [Log(RangeInfo)] else []) + [Log(Plan)]
  }

  /** The summary `run` emits after the course loop, up to the final
      progress event. */
  const Closing: seq<Event> := [Log(AllDone), Log(CourseTotal), Log(CoursesSucceeded), Log(CoursesFailed), Progress(Complete)]

  /** `run` once a non-empty course list is settled (lines 80-189): after a
      stop as well as after the last course, it reports `Progress(100)` and
      then `Finished(True, len(courses), total_success)`. */
  function RunCourses(env: Env, courses: seq<Course>, w: Windows): (r: RunResult)
    requires courses != []
    ensures |r.events| >= 2 && r.events[0] == Log(FetchingUser) && r.events[1] == UserInfo
    ensures r.succeeded + r.failed <= |courses|
    ensures r.events[|r.events| - 2] == Progress(Complete)
    ensures r.events[|r.events| - 1] == Finished(true, |courses|, r.succeeded)
    ensures env.stopAt.None? ==>
              r.succeeded + r.failed == |courses| && r.succeeded == CountSucceeding(courses, 0, env, w)
  {
    var t := CourseLoop(courses, 0, env, w, 0);
    NoStopCountsEveryCourse(courses, 0, env, w, 0);
    CourseLoopEvents(courses, 0, env, w, 0);
    var pre := Prelude(w);
    var last := Finished(true, |courses|, t.succeeded);
    var body := pre + t.events + Closing;
    var ev := body + [last];
    assert ev[0] == pre[0] && ev[1] == pre[1];
    RunResult(ev, t.succeeded, t.failed)
  }

  /** The trace of a run over a non-empty course list holds one course
      header per counted course, and its only `Finished` event is the last. */
  lemma RunCoursesTrace(env: Env, courses: seq<Course>, w: Windows)
    requires courses != []
    ensures var r := RunCourses(env, courses, w);
            Count(r.events, Log(CourseStart)) == r.succeeded + r.failed && FinishedOnlyLast(r.events)
  {
    RunCoursesHeaders(env, courses, w);
    RunCoursesFinishedOnce(env, courses, w);
  }

  /** One course header per counted course. */
  lemma RunCoursesHeaders(env: Env, courses: seq<Course>, w: Windows)
    requires courses != []
    ensures var r := RunCourses(env, courses, w);
            Count(r.events, Log(CourseStart)) == r.succeeded + r.failed
  {
    var r := RunCourses(env, courses, w);
    var t := CourseLoop(courses, 0, env, w, 0);
    CourseLoopEvents(courses, 0, env, w, 0);
    var pre := Prelude(w);
    var tail := Closing + [Finished(true, |courses|, t.succeeded)];
    assert r.events == pre + t.events + tail;
    CountAbsent(pre, Log(CourseStart));
    CountAbsent(tail, Log(CourseStart));
    CountAppend(pre, t.events, Log(CourseStart));
    CountAppend(pre + t.events, tail, Log(CourseStart));
  }

  /** The closing `finished` event is the only one. */
  lemma RunCoursesFinishedOnce(env: Env, courses: seq<Course>, w: Windows)
    requires courses != []
    ensures FinishedOnlyLast(RunCourses(env, courses, w).events)
  {
    var t := CourseLoop(courses, 0, env, w, 0);
    CourseLoopEvents(courses, 0, env, w, 0);
    var body := Prelude(w) + t.events + Closing;
    assert forall x :: x in body ==> !x.Finished? by {
      forall x | x in body ensures !x.Finished? {
        if x in t.events {
          assert !Framing(x);
        }
      }
    }
    FinishedOnlyLastAppend(body, Finished(true, |courses|, t.succeeded));
  }

  /** `BrushWorker.run` (lines 30-189). It always reports the user lookup
      first and ends with exactly one `Finished` event: `Finished(False, 0,
      0)` when there is no course list, otherwise `Progress(100)` followed by
      `Finished(True, len(courses), total_success)` -- also after a stop.
      The course headers in the trace are as many as the counted courses. */
  function Run(env: Env, source: CourseSource, w: Windows): (r: RunResult)
    ensures |r.events| >= 2 && r.events[0] == Log(FetchingUser) && r.events[1] == UserInfo
    ensures Count(r.events, Log(CourseStart)) == r.succeeded + r.failed
    ensures Resolve(source).None? ==>
              r.events[|r.events| - 1] == Finished(false, 0, 0) && r.succeeded == 0 && r.failed == 0
    ensures Resolve(source).Some? ==>
              && r.succeeded + r.failed <= |Resolve(source).value|
              && r.events[|r.events| - 2] == Progress(Complete)
              && r.events[|r.events| - 1] == Finished(true, |Resolve(source).value|, r.succeeded)
    ensures Resolve(source).Some? && env.stopAt.None? ==>
              && r.succeeded + r.failed == |Resolve(source).value|
              && r.succeeded == CountSucceeding(Resolve(source).value, 0, env, w)
    ensures FinishedOnlyLast(r.events)
  {
    match Resolve(source)
    case None =>
      var tag := if source.FromFile? && source.loaded.None? then ConfigUnreadable else NoCourses;
      var ev := [Log(FetchingUser), UserInfo, Log(tag), Finished(false, 0, 0)];
      CountAbsent(ev, Log(CourseStart));
      RunResult(ev, 0, 0)
    case Some(courses) =>
      RunCoursesTrace(env, courses, w);
      RunCourses(env, courses, w)
  }
}
