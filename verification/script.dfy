/** The command-line script: `auto_study` for one course and the main loop
    over a list of course ids. It has no stop flag and no callbacks; its
    catalog windows are the fixed `slice(2, None)` / `slice(7, None)`. */
module Script {
  import opened Wrappers
  import opened Slices
  import opened Ranges
  import opened Replies
  import opened Catalog
  import opened Protocol
  import opened Worker

  /** How one `auto_study` call ends: rejected by the auth probe, without
      tasks (a `None` or empty list), after studying with its record calls
      and `success_count`, or by letting the fetch's exception escape. */
  datatype StudyOutcome =
    | AuthRejected
    | NoDetails
    | Studied(calls: seq<RecordCall>, successes: nat)
    | Crashed

  /** Whether the script's record call for the task at position `k`
      succeeds; it settles for 3 seconds before confirming. */
  predicate ScriptRecordOk(attempts: nat -> Attempt, tasks: seq<Task>, k: nat)
    requires k < |tasks|
  {
    RecordStudyTime(ScriptSettleSeconds, attempts(k).record, attempts(k).confirm, tasks[k].chapterId).ok
  }

  /** The subsection loop of `auto_study` from position `j` on (lines
      272-282): every call is for a task with a non-zero `secondTime`, at
      its own position, reporting that call's verdict, in increasing task
      order. */
  function ScriptCalls(tasks: seq<Task>, j: nat, attempts: nat -> Attempt): (calls: seq<RecordCall>)
    requires j <= |tasks|
    ensures forall c :: c in calls ==>
              && j <= c.position < |tasks|
              && c.task == tasks[c.position]
              && c.task.secondTime != 0
              && c.ok == ScriptRecordOk(attempts, tasks, c.position)
    ensures forall a, b :: 0 <= a < b < |calls| ==> calls[a].position < calls[b].position
    decreases |tasks| - j
  {
    if j == |tasks| then []
    else
      var rest := ScriptCalls(tasks, j + 1, attempts);
      if tasks[j].secondTime == 0 then rest
      else
        var calls := [RecordCall(j, tasks[j], ScriptRecordOk(attempts, tasks, j))] + rest;
        assert forall b :: 0 < b < |calls| ==> calls[b] == rest[b - 1] && calls[b] in rest;
        calls
  }

  /** No task with a non-zero `secondTime` is left out of the script's
      record calls. */
  lemma {:induction false} ScriptCallsCover(tasks: seq<Task>, j: nat, attempts: nat -> Attempt, k: nat)
    requires j <= k < |tasks| && tasks[k].secondTime != 0
    ensures exists c :: c in ScriptCalls(tasks, j, attempts) && c.position == k
    decreases |tasks| - j
  {
    var calls := ScriptCalls(tasks, j, attempts);
    if k == j {
      assert calls[0] in calls && calls[0].position == k;
    } else {
      ScriptCallsCover(tasks, j + 1, attempts, k);
      var c :| c in ScriptCalls(tasks, j + 1, attempts) && c.position == k;
      assert c in calls;
    }
  }

  /** `auto_study` for the course `courseId` (lines 247-290): an auth
      rejection or a `None`/empty task list ends it before any record call;
      an exception from the fetch escapes to the caller; otherwise every
      non-zero-duration task is recorded and `success_count` is the number
      of record calls that returned `True`. */
  function AutoStudy(ce: CourseEnv, courseId: string): (o: StudyOutcome)
    ensures o == AuthRejected <==> !ScriptTestAuth(ce.auth)
    ensures o == Crashed <==> ScriptTestAuth(ce.auth) && ScriptFetchDetails(ce.catalog, courseId).Raised?
    ensures o == NoDetails <==>
              && ScriptTestAuth(ce.auth)
              && ScriptFetchDetails(ce.catalog, courseId).Returned?
              && (ScriptFetchDetails(ce.catalog, courseId).tasks.None? || ScriptFetchDetails(ce.catalog, courseId).tasks == Some([]))
    ensures o.Studied? ==>
              && Accepted(ce.catalog)
              && ScriptFetchDetails(ce.catalog, courseId).tasks.Some?
              && o.calls == ScriptCalls(ScriptFetchDetails(ce.catalog, courseId).tasks.value, 0, ce.attempts)
              && o.successes == Successes(o.calls)
              && forall c :: c in o.calls ==> c.task.courseId == courseId
  {
    if !ScriptTestAuth(ce.auth) then AuthRejected
    else
      match ScriptFetchDetails(ce.catalog, courseId)
      case Raised => Crashed
      case Returned(None) => NoDetails
      case Returned(Some(tasks)) =>
        if tasks == [] then NoDetails
        else
          var calls := ScriptCalls(tasks, 0, ce.attempts);
          FlattenCourseId(courseId, Apply(ce.catalog.body.data, ScriptChapters), ScriptSubsections);
          assert forall c :: c in calls ==> c.task in tasks;
          Studied(calls, Successes(calls))
  }

  /** The script's main block (lines 292-321): for every id in order it sets
      `COURSE_ID`, runs `auto_study` -- an escaping exception is caught and
      the loop goes on -- and cools down between consecutive courses. */
  method RunIds(ids: seq<string>, env: nat -> CourseEnv) returns (outcomes: seq<StudyOutcome>, cooldowns: nat)
    ensures |outcomes| == |ids|
    ensures forall k :: 0 <= k < |ids| ==> outcomes[k] == AutoStudy(env(k), ids[k])
    ensures cooldowns == if ids == [] then 0 else |ids| - 1
  {
    outcomes := [];
    cooldowns := 0;
    var index := 0;
    while index < |ids|
      invariant 0 <= index <= |ids|
      invariant |outcomes| == index
      invariant forall k :: 0 <= k < index ==> outcomes[k] == AutoStudy(env(k), ids[k])
      invariant cooldowns == if index == |ids| && index > 0 then index - 1 else index
    {
      var outcome := AutoStudy(env(index), ids[index]);
      outcomes := outcomes + [outcome];
      if index + 1 < |ids| {
        cooldowns := cooldowns + 1;
      }
      index := index + 1;
    }
  }
}
