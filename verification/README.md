# littleWatchC course-study automation, modelled in Dafny

littleWatchC automates a teacher-training platform. It logs in with a token and a
cookie and fetches each course's chapter tree. It then selects chapters and
subsections by 1-based ranges. For every selected subsection it runs a two-phase
"record, then confirm" protocol, and it counts which courses got at least one
confirmed record. Four programs share this logic:

- a background worker with callbacks and a stop flag (`brush_api.py`);
- a stand-alone command-line script with fixed windows (`core.py`);
- a web host that manages sessions and classifies log lines (`app.py`);
- a chat assistant that pulls ranges out of free text (`ai_agent.py`).

This project is a functional model of that core. Every HTTP reply is input data
(`Replies.Reply`). The stop flag is an oracle that is only ever set. A run is a
pure function from its environment to an event trace and counters.

Modules, one per concern:

- `Wrappers`: `Option`.
- `PyText`: the Python string primitives used. These are `str.isspace`, `str.splitlines`, `str.strip`, `in` and `str(int)`.
- `Slices`: Python slicing with step 1.
- `Ranges`: how 1-based ranges become the `RANGE`/`SUBRANGE` windows, and how the windows persist.
- `Replies`: the reply datatypes.
- `Catalog`: the `get_course_details` flattening, in both programs' variants.
- `Protocol`: `test_auth`, `record_study_time` and `confirm_chapter_process`.
- `Worker`: `BrushWorker.run`.
- `Script`: `auto_study` and the script's main loop.
- `Host`: the web host's pure parts.
- `Agent`: the range extractors and `handle_query`.
- `Scenarios`: end-to-end runs on small catalogs.

How the stop flag is modelled:

- Every observation of the flag consumes one clock tick. The observations are the `is_set()` checks before a course and before a subsection, the check after a record, and the result of the cooldown `wait`.
- `stopAt` is the first tick that answers `True`.
- The subsection delay's `wait` (brush_api.py line 163) discards its result, so it is not an observation. A stop during that delay is seen at the next `is_set()`.

## Model
| member | source | states |
|---|---|---|
| Slices.Apply | brush_api.py:283-288 | `s[slice(a, b)]` is one contiguous run of `s`, in order. It holds exactly the indices that the language's definition of slicing selects: negative bounds count from the end, and the result is clamped. |
| Ranges.ChapterSlice | brush_api.py:445-448 | For `start >= 1` and `end >= 0`, the chapter window `slice(start-1, end)` takes exactly the chapters numbered `start..end` that exist. |
| Ranges.SubsectionSlice | brush_api.py:450-456 | `end == 0` takes every subsection numbered from `start` on. `end > 0` takes numbers `start..end+1`, one more than the chapter formula. |
| Ranges.Configure | brush_api.py:440-458 | A present range replaces its window. An absent range leaves the window from an earlier call in place. |
| Ranges.RangesPersist | brush_api.py:17-18 | Windows that were never set are `None`. A later call without ranges keeps the windows a previous call set. |
| Ranges.ZeroStartWrapsToLast | brush_api.py:450-454 | A subsection range `{0, 0}` is not rejected: `slice(-1, None)` takes only the last subsection. |
| Ranges.ScriptWindows | core.py:13-14 | The script's fixed windows drop the first two chapters, and the first seven subsections of each remaining chapter. |
| Catalog.MakeTask | brush_api.py:289-300 | Each task carries the course id and its parent chapter's id and name. A missing `secondTime` becomes 0. |
| Catalog.FlattenAppend | brush_api.py:283-302 | Flattening is chapter by chapter: all tasks of an earlier chapter come before those of a later one. |
| Catalog.FlattenMembers | brush_api.py:283-302 | A task is in the flattened list iff it is the task of some windowed subsection of some windowed chapter. |
| Catalog.FlattenCourseId | brush_api.py:294 | Every flattened task carries the course id it was fetched for. |
| Catalog.Select | brush_api.py:278-304 | A `None` chapter window always fails, because indexing with `None` raises. No selected chapter gives `[]`. A `None` subsection window fails only when some chapter is selected. With both windows set, the result is exactly the flattened windowed catalog. |
| Catalog.FetchDetails | brush_api.py:264-311 | A non-200 status, an unparseable body or a returnCode other than "200" gives `None`. Otherwise the result is `Select` on the reply's chapters. |
| Catalog.ScriptFetchDetails | core.py:35-94 | A bad status or returnCode returns `None`. A transport error or an unparseable body raises, because `with_traceback()` needs an argument. An accepted reply gives the flattened catalog under the fixed windows. |
| Protocol.TestAuth | brush_api.py:396-420 | The worker's auth probe passes iff the reply is HTTP 200 with a parseable body whose returnCode is "200". |
| Protocol.ScriptTestAuth | core.py:214-245 | The script's probe passes iff the reply is HTTP 200 with a JSON-object body, whatever the returnCode. |
| Protocol.ScriptAuthIsWeaker | core.py:228-233 | Everything the worker's probe accepts, the script's probe accepts too. The script's probe also accepts a rejected returnCode. |
| Protocol.ConfirmChapterProcess | brush_api.py:353-394 | Returns true iff: the reply is accepted, its progress list is non-empty, and some entry's `str(chapterId)` equals `str(chapter_id)`. |
| Protocol.ScriptConfirmChapterProcess | core.py:153-212 | For progress entries that are JSON objects, it gives the same verdict as the worker's confirm, although it scans every entry instead of stopping at the first match. |
| Protocol.RecordStudyTime | brush_api.py:313-351 | Progress is queried iff the record POST is accepted. The settling delay happens only then. The result is true iff the record is accepted and the confirm succeeds. |
| Protocol.ConfirmMatchesAcrossTypes | brush_api.py:379 | An integer chapter id matches its decimal string in the progress list, because both sides are compared through `str()`. |
| Worker.SuccessesPositive | brush_api.py:170-173 | `success_count > 0` iff some record call returned true. |
| Worker.StudyLoop | brush_api.py:135-163 | `success_count` counts the record calls that returned true. An interrupted subsection loop has seen the stop flag. Without a stop request the loop is never interrupted. |
| Worker.StudyCalls | brush_api.py:143-150 | Each record call is for a task with a non-zero `secondTime`, and reports that call's verdict. A zero-duration task is never recorded. |
| Worker.StudyCallsOrdered | brush_api.py:135-150 | Record calls are made in strictly increasing task order. |
| Worker.StudyCoversNonZero | brush_api.py:135-150 | Without a stop request, every task with a non-zero `secondTime` is recorded. |
| Worker.ProcessCourse | brush_api.py:93-181 | An auth failure or a `None`/empty fetch fails the course with no record call and no cooldown tick. Otherwise the calls are exactly the subsection loop's calls over the fetched tasks, and the course succeeds iff one of them returned true. A stop seen in the subsection loop also ends the course loop. |
| Worker.CourseCalls | brush_api.py:135-163 | Whether or not a stop interrupts it, a course's record calls come in task order, each for a fetched task of this course with a non-zero duration, and report that task's verdict. |
| Worker.ProcessCourseEvents | brush_api.py:96-98 | Each course that passes the top-of-loop check logs exactly one course header, and no framing event. |
| Worker.CourseLoop | brush_api.py:88-181 | Every started course is counted exactly once, as a success or a failure. A stop seen at the top of the loop starts no course. |
| Worker.CourseLoopEvents | brush_api.py:88-100 | The course loop logs one course header per started course. |
| Worker.NoStopCourseOutcome | brush_api.py:104-173 | Without a stop request, a course succeeds iff three things hold: auth passes, the fetch yields tasks, and some non-zero-duration task's record call returns true. |
| Worker.NoStopCountsEveryCourse | brush_api.py:88-181 | Without a stop request, every course is started, and `total_success` is the number of courses that succeed. |
| Worker.StopInStudyEndsCourses | brush_api.py:156-181 | A stop seen inside a course's subsection loop makes that course the last one started. |
| Worker.Resolve | brush_api.py:46-67 | A non-empty given list is used. Without a given list, the configuration file's list is used when the file loads and the list is non-empty. Otherwise the run ends early. |
| Worker.RunCourses | brush_api.py:69-189 | With courses, the run ends with `progress(100)` and then `finished(True, len(courses), total_success)`, even after a stop. |
| Worker.RunCoursesTrace | brush_api.py:88-189 | The trace holds one course header per counted course. Its only `finished` event is the last one. |
| Worker.Run | brush_api.py:30-189 | The run always starts with the user lookup and ends with exactly one `finished` event. With no course list that event is `finished(False, 0, 0)`; otherwise `finished(True, …)` follows `progress(100)`. Course counts and headers agree. |
| Script.ScriptCalls | core.py:272-282 | Every record call of the script is for a task with a non-zero `secondTime`, at its own position, with that call's verdict. The calls are in task order. |
| Script.ScriptCallsCover | core.py:272-278 | No task with a non-zero `secondTime` is left unrecorded. |
| Script.AutoStudy | core.py:247-290 | An auth rejection, or a `None` or empty task list, ends `auto_study` before any record call. A fetch exception escapes. Otherwise the calls are exactly the subsection loop's calls over the fetched tasks, and `success_count` counts the successful ones. |
| Script.RunIds | core.py:292-321 | The main loop runs `auto_study` once per id, in order and with that id; a failure never stops the loop. It cools down only between courses. |
| Host.Classify | app.py:240-251 | The log level is chosen in priority order: a check mark means success, otherwise a cross means error, otherwise the warning or stop sign means warning, otherwise info. |
| Host.ClassifyWorkerLines | app.py:243-249 | A line with both a check mark and a cross is a success. The interrupt line is a warning. A warning sign without its variation selector is info. |
| Host.KeepStrippedShape | app.py:169 | The kept ids are non-empty and already stripped, and there are at most as many as there are lines. |
| Host.KeepStrippedFrom | app.py:169 | Every kept id is the stripped form of one of the lines. |
| Host.KeepStrippedEmpty | app.py:169-170 | Nothing is kept iff every line strips to nothing. |
| Host.KeepStrippedSnoc | app.py:169 | An appended line adds its stripped form as the last id iff it is not blank: every non-blank line gives an id, in line order. |
| Host.ParseCourseIds | app.py:167-170 | Parsed ids are non-empty, stripped and free of line boundaries. The parse is empty iff the input is all whitespace. |
| Host.ParseJoinedIds | app.py:167-169 | Ids written one per line parse back to the same ids, in order. |
| Host.SavedCourseInput | app.py:167-177 | An all-whitespace course input keeps the previous `COURSE_INPUT_ID` (or "" without one). Any other input stores a non-empty id list that parses back to itself when written one id per line. |
| Host.CreateSession | app.py:38-48 | A new session is idle, with no worker and no logs, keyed by its own id. Every other session is unchanged. |
| Host.GetSession | app.py:50-52 | Returns the stored session for a known id, and `None` otherwise. |
| Host.UpdateStatus | app.py:54-57 | Only the status of a known session changes. An unknown id changes nothing. |
| Host.AddLog | app.py:59-66 | Exactly one entry is appended at the end of a known session's logs. Earlier entries and other sessions are untouched, and an unknown id changes nothing. |
| Host.DeleteSession | app.py:68-71 | Removes exactly the given id. |
| Host.EmitLog | app.py:240-251 | The message is appended to the known session's logs with its classified level. Nothing else in that session or any other changes, and an unknown id changes nothing. |
| Host.EmitFinished | app.py:278-288 | Only the given session changes, and only its status, which becomes finished. An unknown id changes nothing. |
| Host.StopSessions | app.py:215-227 | Sessions with a live worker are marked stopped. All others are unchanged. |
| Host.FinishedOverridesStopped | app.py:278-288 | Whatever status a session had before a trace's last event, a trace that ends with `finished` leaves it finished. |
| Host.RunEndsFinished | app.py:278-288 | Every worker run leaves its session finished, even after a stop request set it to stopped. |
| Host.StartBrush | app.py:141-212 | A missing body gives 500, and a missing or empty token or cookie gives 400, both with no session. Otherwise: one new running session with a worker, the windows updated, and the credentials and parsed course input saved when the path guard passes. The worker's course list comes from its configuration file, not from the request. |
| Agent.DigitRun | ai_agent.py:108 | The digit run from a position is all digits and maximal. |
| Agent.DigitRunUnique | ai_agent.py:108 | Any digit run that ends before a non-digit is the maximal run. |
| Agent.MatchAtSound | ai_agent.py:108-112 | What the scanner finds at a position is a match of `第(\d+)(?:-(\d+))?<suffix>`, with the values of its numbers. |
| Agent.MatchAtComplete | ai_agent.py:108-112 | Every match of the pattern at a position is the one the scanner finds, so each position matches at most one way. |
| Agent.SearchNone | ai_agent.py:108 | `re.search` finds nothing iff the pattern matches at no position. |
| Agent.SearchLeftmost | ai_agent.py:108 | What `re.search` finds is the match at the leftmost matching position. |
| Agent.ExtractorsFollowPattern | ai_agent.py:105-123 | Each extractor finds a range iff the pattern matches somewhere, and what it returns is a match of the pattern. |
| Agent.SubsectionOnlyExample | ai_agent.py:105-123 | `第5小节` names no chapter, because a `章` must follow the digits. It names subsection `{5, 5}`. |
| Agent.ChapterAndSubsectionExample | ai_agent.py:105-123 | `第3章第5小节` names chapter `{3, 3}` and subsection `{5, 5}`. |
| Agent.SpanExample | ai_agent.py:108-112 | `第2-5章` names chapters `{2, 5}`. |
| Agent.ReversedSpanExample | ai_agent.py:108-112 | `第5-2章` gives `{5, 2}`: there is no check that start does not exceed end. |
| Agent.SingleSubsectionTakesTwo | ai_agent.py:121-122 | The agent's single subsection `{5, 5}` becomes `slice(4, 6)`, which takes subsections 5 and 6. |
| Agent.ExtractInfo | ai_agent.py:67-87 | The credential and course-id fields are kept as extracted. A range is absent iff its pattern occurs nowhere in the model's answer, and otherwise it is the range of the leftmost occurrence. |
| Agent.FirstPattern | ai_agent.py:105-123 | `re.search` over the whole text finds nothing iff the pattern occurs nowhere, and otherwise returns the range of the leftmost occurrence. |
| Agent.Missing | ai_agent.py:162-165 | The missing list holds exactly the falsy fields, each once, in dictionary order. |
| Agent.HandleQuery | ai_agent.py:156-179 | A worker is launched iff no field is falsy, and then with the windows updated. The worker's course list comes from the configuration file. |
| PyText.StripSpec | app.py:169 | `strip()` returns an infix of the input that neither starts nor ends with whitespace, and everything cut away before and after it is whitespace. It is empty iff the input is all whitespace. |
| PyText.SplitLines | app.py:169 | No line of `str.splitlines()` contains a line boundary. |
| PyText.SplitLinesRebuild | app.py:169 | The text is its lines, each followed by the boundary that ended it (one break character or "\r\n"), the last one followed by a boundary or nothing. |
| PyText.SplitJoin | app.py:169 | `splitlines` undoes joining non-empty, boundary-free lines with "\n". |
| PyText.Contains | app.py:244 | The left-to-right scan finds `p` in `s` iff `p` occurs in `s`. |
| Scenarios.FirstChapterFlattensWhole | brush_api.py:283-302 | With ranges `{1,1}` and `{1,0}`, a one-chapter catalog is flattened whole. |
| Scenarios.OneOfTwoCoursesSucceeds | brush_api.py:88-189 | Courses `[A, B]`, where A's fetch fails and B's single 30-second subsection is confirmed, end with `finished(True, 2, 1)`. |
| Scenarios.ZeroDurationSkipped | brush_api.py:143-145 | For subsections of 0 and 30 seconds, both are fetched, and only the second is recorded. |
| Scenarios.NoChapterRangeFailsEveryCourse | brush_api.py:283-311 | With no chapter range ever set, the fetch fails and the course is counted as failed: `finished(True, 1, 0)`. |

## Left out

- Network transport, headers and `get_user_info`: replies are inputs. The user lookup is only the `UserInfo` event, without its text.
- Threads, `time.sleep`, `random.randint` delays and the 30-second `threading.Timer` that deletes a finished session. Delays are no-ops. The stop flag is the `stopAt` oracle described above, and `BrushWorker.stop` is the choice of `stopAt`.
- Floating point: the progress value `int(idx/total*100) * (index/total_courses)`, and `studyTime = secondTime - 0.1`. A progress event carries the formula's inputs (the `Step` progress point), not the float.
- Log message text: events carry a tag, not the formatted string. `Host.Classify` works on arbitrary message strings.
- Worker.Resolve: an empty given list (brush_api.py:49) and a configuration file without courses (brush_api.py:64) end the run with the same `NoCourses` tag, although their log lines differ. A file that cannot be loaded and a file that loads as an empty object are both `FromFile(None)` with the `ConfigUnreadable` tag, as in the code's `if not course_config`. Whether the worker's config has a `courses` key is the choice between `Given` and `FromFile`.
- Protocol.ScriptTestAuth: every reply body is a JSON object. A parseable body that is not an object (`[]`, `1`) makes `json_response.get` raise at core.py:231, and the handler at core.py:234-237 returns False. `Body` cannot express such a body.
- Catalog.MakeTask: `int(second_time)` of a non-integer value (a float or a numeric string) is not modelled. `secondTime` is taken as an integer or missing. Identifiers are `None`, an integer or a string, as `IdValue`.
- A malformed range dict (missing `start`/`end`, or non-integer values) raises `KeyError`/`TypeError` in `create_brush_worker`. Ranges are modelled as well-formed `RangeSpec`s.
- The exception handlers of `run` around `test_auth`, `get_course_details` and `record_study_time` cannot fire, because those functions catch everything. `_emit` swallows callback exceptions; callbacks are the event trace.
- Script.AutoStudy: the bare `except:` around the script's subsection loop (core.py:289) only matters for `KeyboardInterrupt`, a signal. It is not modelled.
- Flask/SocketIO routing, `emit` rooms, `/api/config` and `/api/login`, and the `normpath`/`startswith` path guard. The guard's outcome is the `pathOk` input of `Host.StartBrush`. `stop_brush`'s scan for live threads is the `alive` input of `Host.StopSessions`.
- Host.StartBrush: `str()` of a non-string `course_id` is not modelled, because the raw input is a string. A UUID collision in `create_session` would overwrite a session, as in the source. Timestamps are inputs.
- JSON configuration load/save. The configuration is a `Host.Config` value, and the worker's course list read from its file is an input.
- The language model, and the cookie/token/course-id regexes (case-insensitive, Unicode `\s`). Their results are inputs to `Agent.ExtractInfo`.
- Protocol.ScriptConfirmChapterProcess: every progress entry is a JSON object with a `chapterId`. A non-object entry after the first match makes the script's `.get` raise (core.py:185), and its handler returns False (core.py:210). The worker has already stopped at the match and returns True (brush_api.py:381). `ProgressEntry` cannot express such an entry.
- Worker.Run: a run sees one fixed set of windows, token and course id. In the code these are module globals. A second `create_brush_worker` call (brush_api.py:440-458) or a second `start_brush` request (app.py:141-212, which does not stop a running worker) rebinds them mid-run, and so does the write to `CONFIG['COURSE_ID']` at brush_api.py:101. The model assumes no other worker runs and no other `create_brush_worker` call happens at the same time.
- Agent.DigitRun: Python's `\d` also matches non-ASCII decimal digits. The scanner accepts ASCII digits only.
- `debug_app.py` is not part of this model.

### Behaviour of the code worth knowing

- `RANGE` and `SUBRANGE` start as `None`, and `chapters[None]` raises `TypeError`, which `get_course_details` turns into `None`. So every fetch fails, and every course counts as failed, until some call sets a chapter range (`Scenarios.NoChapterRangeFailsEveryCourse`). With a chapter range the subsections are fetched and recorded (`Scenarios.ZeroDurationSkipped`).
- `run` looks up the user before it checks whether the course list is empty, so an empty list still produces the `user_info` event (`Worker.Run`).
- The result of the wait after a subsection's record is ignored, so a stop set during that wait is seen at the next subsection check (`Worker.StudyLoop`).
- The script's auth probe checks only the HTTP status and ignores `returnCode` (`Protocol.ScriptAuthIsWeaker`).
- The worker always emits `finished`, and `emit_finished` overwrites the status, so a stopped run ends `finished` (`Host.RunEndsFinished`).
- The settling delay before the confirm is 25 s in the worker and 3 s in the script (`Protocol.WorkerSettleSeconds`, `Protocol.ScriptSettleSeconds`). It does not affect any verdict.
