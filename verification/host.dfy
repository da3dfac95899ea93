/** HostServer: the pure parts of the web host -- the log-level classifier of
    `emit_log`, the course-id parsing of `start_brush`, the `SessionManager`
    as a finite map, and the effect of `start_brush` on the sessions, the
    saved configuration and the worker module's range windows. */
module Host {
  import opened Wrappers
  import opened PyText
  import opened Ranges
  import Worker

  /** The level `emit_log` attaches to a message. */
  datatype Level = Success | Error | Warning | Info

  /** The markers the classifier looks for. The warning and stop markers are
      emoji presentation sequences: a base character followed by U+FE0F. */
  const CheckMark: string := "\U{2705}"
  const CrossMark: string := "\U{274C}"
  const WarningSign: string := "\U{26A0}\U{FE0F}"
  const StopSign: string := "\U{23F9}\U{FE0F}"

  /** `emit_log`'s level, decided in priority order: a check mark wins over a
      cross, which wins over the warning and stop signs; a message with none
      of them is informational. */
  function Classify(message: string): (l: Level)
    ensures l == Success <==> Occurs(CheckMark, message)
    ensures l == Error <==> !Occurs(CheckMark, message) && Occurs(CrossMark, message)
    ensures l == Warning <==>
              && !Occurs(CheckMark, message) && !Occurs(CrossMark, message)
              && (Occurs(WarningSign, message) || Occurs(StopSign, message))
  {
    if Contains(CheckMark, message) then Success
    else if Contains(CrossMark, message) then Error
    else if Contains(WarningSign, message) || Contains(StopSign, message) then Warning
    else Info
  }

  /** Messages the worker emits, classified: a line holding both a check
      mark and a cross is a success, the interrupt line is a warning, and a
      bare U+26A0 without its variation selector is not. */
  lemma ClassifyWorkerLines()
    ensures Classify("\U{2705} a \U{274C}") == Success
    ensures Classify("\U{23F9}\U{FE0F} stop") == Warning
    ensures Classify("\U{26A0} x") == Info
  {
    assert OccursAt(CheckMark, "\U{2705} a \U{274C}", 0);
    var stop := "\U{23F9}\U{FE0F} stop";
    assert OccursAt(StopSign, stop, 0);
    CharAbsent(CheckMark, stop, 0);
    CharAbsent(CrossMark, stop, 0);
    CharAbsent(WarningSign, stop, 0);
    var m := "\U{26A0} x";
    CharAbsent(CheckMark, m, 0);
    CharAbsent(CrossMark, m, 0);
    CharAbsent(StopSign, m, 0);
    CharAbsent(WarningSign, m, 1);
  }

  /** Every line, stripped. */
  function StripAll(lines: seq<string>): seq<string> {
    seq(|lines|, k requires 0 <= k < |lines| => Strip(lines[k]))
  }

  /** The non-empty strings of `xs`, in order. */
  function DropEmpty(xs: seq<string>): seq<string> {
    if xs == [] then []
    else (if xs[0] == [] then [] else [xs[0]]) + DropEmpty(xs[1..])
  }

  /** The position in `xs` that the `i`-th kept string comes from. */
  lemma {:induction false} DropEmptySource(xs: seq<string>, i: nat) returns (k: nat)
    requires i < |DropEmpty(xs)|
    ensures k < |xs| && DropEmpty(xs)[i] == xs[k]
  {
    var rest := DropEmpty(xs[1..]);
    if xs[0] != [] && i == 0 {
      k := 0;
    } else {
      var i' := if xs[0] == [] then i else i - 1;
      assert DropEmpty(xs)[i] == rest[i'];
      var k' := DropEmptySource(xs[1..], i');
      k := k' + 1;
    }
  }

  lemma {:induction false} DropEmptyShape(xs: seq<string>)
    ensures |DropEmpty(xs)| <= |xs|
    ensures forall i :: 0 <= i < |DropEmpty(xs)| ==> DropEmpty(xs)[i] != []
  {
    if xs != [] {
      DropEmptyShape(xs[1..]);
      var ids := DropEmpty(xs);
      var rest := DropEmpty(xs[1..]);
      if xs[0] != [] {
        forall i | 0 <= i < |ids| ensures ids[i] != [] {
          if i > 0 {
            assert ids[i] == rest[i - 1];
          }
        }
      }
    }
  }

  lemma {:induction false} DropEmptyNone(xs: seq<string>)
    ensures DropEmpty(xs) == [] <==> forall k :: 0 <= k < |xs| ==> xs[k] == []
  {
    if xs != [] {
      DropEmptyNone(xs[1..]);
      if xs[0] == [] && DropEmpty(xs[1..]) == [] {
        forall k | 1 <= k < |xs| ensures xs[k] == [] {
          assert xs[k] == xs[1..][k - 1];
        }
      }
    }
  }

  lemma {:induction false} DropEmptyUnchanged(xs: seq<string>)
    requires forall k :: 0 <= k < |xs| ==> xs[k] != []
    ensures DropEmpty(xs) == xs
  {
    if xs != [] {
      DropEmptyUnchanged(xs[1..]);
    }
  }

  /** Dropping empty strings works line by line: a string appended to the
      input is appended to the output exactly when it is non-empty. */
  lemma {:induction false} DropEmptySnoc(xs: seq<string>, x: string)
    ensures DropEmpty(xs + [x]) == DropEmpty(xs) + (if x == [] then [] else [x])
  {
    if xs == [] {
      assert xs + [x] == [x];
    } else {
      assert (xs + [x])[1..] == xs[1..] + [x];
      DropEmptySnoc(xs[1..], x);
    }
  }

  /** Each line stripped, empty results dropped, order kept. */
  function KeepStripped(lines: seq<string>): seq<string> {
    DropEmpty(StripAll(lines))
  }

  /** The kept ids are non-empty and already stripped, and there are no
      more of them than lines. */
  lemma KeepStrippedShape(lines: seq<string>)
    ensures |KeepStripped(lines)| <= |lines|
    ensures forall i :: 0 <= i < |KeepStripped(lines)| ==>
              KeepStripped(lines)[i] != [] && IsStripped(KeepStripped(lines)[i])
  {
    var ids := KeepStripped(lines);
    DropEmptyShape(StripAll(lines));
    forall i | 0 <= i < |ids| ensures IsStripped(ids[i]) {
      var k := DropEmptySource(StripAll(lines), i);
      StripSpec(lines[k]);
    }
  }

  /** Every parsed id is the stripped form of one of the lines. */
  lemma KeepStrippedFrom(lines: seq<string>, i: nat)
    requires i < |KeepStripped(lines)|
    ensures exists k :: 0 <= k < |lines| && KeepStripped(lines)[i] == Strip(lines[k])
  {
    var k := DropEmptySource(StripAll(lines), i);
  }

  /** One more line contributes its stripped form as the last id when it
      is not blank, and nothing when it is: every non-blank line gives an
      id, in line order. */
  lemma KeepStrippedSnoc(lines: seq<string>, line: string)
    ensures KeepStripped(lines + [line]) ==
            KeepStripped(lines) + (if Strip(line) == [] then [] else [Strip(line)])
  {
    var ts := StripAll(lines + [line]);
    var us := StripAll(lines) + [Strip(line)];
    assert |ts| == |us|;
    forall k | 0 <= k < |ts| ensures ts[k] == us[k] {
      if k < |lines| {
        assert (lines + [line])[k] == lines[k];
      }
    }
    assert ts == us;
    DropEmptySnoc(StripAll(lines), Strip(line));
  }

  /** Stripping a line cannot introduce a line boundary. */
  lemma KeepStrippedNoBreak(lines: seq<string>)
    requires forall k :: 0 <= k < |lines| ==> NoBreak(lines[k])
    ensures forall i :: 0 <= i < |KeepStripped(lines)| ==> NoBreak(KeepStripped(lines)[i])
  {
    var ids := KeepStripped(lines);
    forall i | 0 <= i < |ids| ensures NoBreak(ids[i]) {
      var k := DropEmptySource(StripAll(lines), i);
      var a := StripFrame(lines[k]);
      forall j | 0 <= j < |ids[i]| ensures !IsLineBreak(ids[i][j]) {
        assert ids[i][j] == lines[k][a + j];
      }
    }
  }

  /** Nothing is parsed exactly when every line strips to nothing. */
  lemma KeepStrippedEmpty(lines: seq<string>)
    ensures KeepStripped(lines) == [] <==> AllBlank(lines)
  {
    var ts := StripAll(lines);
    DropEmptyNone(ts);
    assert forall k :: 0 <= k < |lines| ==> ts[k] == Strip(lines[k]);
  }

  /** Every line strips to nothing. */
  ghost predicate AllBlank(lines: seq<string>) {
    forall k :: 0 <= k < |lines| ==> Strip(lines[k]) == []
  }

  /** Every character is whitespace. */
  predicate AllSpace(s: string) {
    forall i :: 0 <= i < |s| ==> IsSpace(s[i])
  }

  lemma AllSpaceAppend(a: string, b: string)
    ensures AllSpace(a + b) <==> AllSpace(a) && AllSpace(b)
  {
    if AllSpace(a) && AllSpace(b) {
      forall i | 0 <= i < |a + b| ensures IsSpace((a + b)[i]) {
        if i >= |a| { assert (a + b)[i] == b[i - |a|]; }
      }
    }
    if AllSpace(a + b) {
      assert forall i :: 0 <= i < |a| ==> a[i] == (a + b)[i];
      assert forall i :: 0 <= i < |b| ==> b[i] == (a + b)[|a| + i];
    }
  }

  /** The course ids `start_brush` reads from the raw course input: its
      lines (Python `splitlines`), stripped, without the blank ones. */
  function ParseCourseIds(raw: string): (ids: seq<string>)
    ensures forall i :: 0 <= i < |ids| ==> ids[i] != [] && IsStripped(ids[i]) && NoBreak(ids[i])
    ensures ids == [] <==> AllSpace(raw)
  {
    var lines := SplitLines(raw);
    SplitLinesCoversText(raw);
    KeepStrippedEmpty(lines);
    KeepStrippedShape(lines);
    KeepStrippedNoBreak(lines);
    KeepStripped(lines)
  }

  /** Every element of `xs` maps to the empty string under `f`. */
  ghost predicate AllMapEmpty(f: string -> string, xs: seq<string>) {
    forall k :: 0 <= k < |xs| ==> f(xs[k]) == []
  }

  lemma AllMapEmptyCons(f: string -> string, x: string, rest: seq<string>)
    ensures AllMapEmpty(f, [x] + rest) <==> f(x) == [] && AllMapEmpty(f, rest)
  {
    var xs := [x] + rest;
    assert xs[0] == x;
    if AllMapEmpty(f, xs) {
      forall k | 0 <= k < |rest| ensures f(rest[k]) == [] {
        assert rest[k] == xs[k + 1];
      }
    }
    if f(x) == [] && AllMapEmpty(f, rest) {
      forall k | 1 <= k < |xs| ensures f(xs[k]) == [] {
        assert xs[k] == rest[k - 1];
      }
    }
  }

  lemma AllBlankCons(x: string, rest: seq<string>)
    ensures AllBlank([x] + rest) <==> Strip(x) == [] && AllBlank(rest)
  {
    AllMapEmptyCons(Strip, x, rest);
    assert AllBlank([x] + rest) <==> AllMapEmpty(Strip, [x] + rest);
    assert AllBlank(rest) <==> AllMapEmpty(Strip, rest);
  }

  /** Line boundaries are whitespace, so a text is all whitespace exactly
      when the parts before and after a boundary are. */
  lemma SpaceAroundBreak(s: string, k: nat, w: nat)
    requires k < |s| && IsLineBreak(s[k]) && w == BreakWidth(s, k)
    ensures k + w <= |s|
    ensures AllSpace(s) <==> AllSpace(s[..k]) && AllSpace(s[k + w..])
  {
    assert forall i :: k <= i < k + w ==> s[i] == s[k] || s[i] == '\n';
    assert AllSpace(s[k..k + w]);
    assert s == s[..k] + s[k..k + w] + s[k + w..];
    AllSpaceAppend(s[..k], s[k..k + w]);
    AllSpaceAppend(s[..k] + s[k..k + w], s[k + w..]);
  }

  /** A text is all whitespace exactly when each of its lines strips to
      nothing. */
  lemma {:induction false} SplitLinesCoversText(s: string)
    ensures AllSpace(s) <==> AllBlank(SplitLines(s))
    decreases |s|
  {
    if s != [] {
      var k := BreakAt(s);
      var lines := SplitLines(s);
      if k < |s| {
        var w := BreakWidth(s, k);
        var tail := s[k + w..];
        SplitLinesCoversText(tail);
        assert lines == [s[..k]] + SplitLines(tail);
        SpaceAroundBreak(s, k, w);
        AllBlankCons(s[..k], SplitLines(tail));
        StripSpec(s[..k]);
      } else {
        assert s[..k] == s;
        assert lines == [s] + [];
        AllBlankCons(s, []);
        StripSpec(s);
      }
    }
  }

  /** Parsing the ids back out of their one-per-line rendering returns them
      unchanged. */
  lemma ParseJoinedIds(ids: seq<string>)
    requires forall i :: 0 <= i < |ids| ==> ids[i] != [] && IsStripped(ids[i]) && NoBreak(ids[i])
    ensures ParseCourseIds(JoinLines(ids)) == ids
  {
    SplitJoin(ids);
    KeepStrippedUnchanged(ids);
  }

  lemma KeepStrippedUnchanged(lines: seq<string>)
    requires forall i :: 0 <= i < |lines| ==> lines[i] != [] && IsStripped(lines[i])
    ensures KeepStripped(lines) == lines
  {
    forall k | 0 <= k < |lines| ensures StripAll(lines)[k] == lines[k] {
      StripStripped(lines[k]);
    }
    assert StripAll(lines) == lines;
    DropEmptyUnchanged(lines);
  }

  /** The value saved under `COURSE_INPUT_ID`: the parsed ids as a list of
      `{id}` objects, or whatever value the configuration already held (the
      empty string if none). */
  datatype CourseInput = IdList(ids: seq<string>) | Text(text: string)

  /** The parts of the configuration file `start_brush` reads and writes. */
  datatype Config = Config(
    token: Option<string>,
    cookie: Option<string>,
    courseId: Option<string>,
    courseInput: Option<CourseInput>)

  const EmptyConfig: Config := Config(None, None, None, None)

  /** The raw course input: the request's `course_id` unless it is missing
      or empty, then the configuration's `COURSE_ID`, then the empty
      string. */
  function RawCourse(requested: Option<string>, saved: Config): string {
    if requested.Some? && requested.value != [] then requested.value else saved.courseId.GetOr("")
  }

  /** The new `COURSE_INPUT_ID`: a non-empty parse replaces it, an empty one
      keeps the previous value or, without one, stores the empty string. */
  function StoreCourseInput(prior: Option<CourseInput>, ids: seq<string>): CourseInput {
    if ids != [] then IdList(ids) else prior.GetOr(Text(""))
  }

  /** What `start_brush` saves under `COURSE_INPUT_ID` for the raw input
      `raw`: a text that is all whitespace keeps the previous value (the
      empty string if there was none); any other text stores a non-empty id
      list that the same parse, applied to the ids written one per line,
      gives back unchanged. */
  lemma SavedCourseInput(prior: Option<CourseInput>, raw: string)
    ensures AllSpace(raw) ==> StoreCourseInput(prior, ParseCourseIds(raw)) == prior.GetOr(Text(""))
    ensures !AllSpace(raw) ==>
              var saved := StoreCourseInput(prior, ParseCourseIds(raw));
              && saved.IdList? && saved.ids != []
              && ParseCourseIds(JoinLines(saved.ids)) == saved.ids
  {
    var ids := ParseCourseIds(raw);
    if ids != [] {
      ParseJoinedIds(ids);
    }
  }

  /** A session's status. */
  datatype Status = Idle | Running | Stopped | Finished

  /** One stored log line; the timestamp is supplied by the caller. */
  datatype LogEntry = LogEntry(message: string, level: Level, time: string)

  /** A session record: `hasWorker` says whether its `thread` slot holds a
      worker; the creation time is supplied by the caller. */
  datatype Session = Session(id: string, hasWorker: bool, status: Status, createdAt: nat, logs: seq<LogEntry>)

  /** `SessionManager.sessions`. */
  type Sessions = map<string, Session>

  /** `create_session` with the fresh id `sid` (a UUID): a new idle session
      without worker or logs is stored under its own id; every other
      session is unchanged. */
  function CreateSession(m: Sessions, sid: string, now: nat): (r: Sessions)
    ensures r.Keys == m.Keys + {sid}
    ensures r[sid] == Session(sid, false, Idle, now, [])
    ensures forall k :: k in m && k != sid ==> r[k] == m[k]
  {
    m[sid := Session(sid, false, Idle, now, [])]
  }

  /** `get_session`: the stored session, or `None`. */
  function GetSession(m: Sessions, sid: string): (r: Option<Session>)
    ensures r.Some? <==> sid in m
    ensures r.Some? ==> r.value == m[sid]
  {
    if sid in m then Some(m[sid]) else None
  }

  /** `update_status`: sets the status of a known session and changes
      nothing else; an unknown id leaves the map as it was. */
  function UpdateStatus(m: Sessions, sid: string, status: Status): (r: Sessions)
    ensures sid !in m ==> r == m
    ensures r.Keys == m.Keys
    ensures sid in m ==> r[sid].status == status && r[sid] == m[sid].(status := status)
    ensures forall k :: k in m && k != sid ==> r[k] == m[k]
  {
    if sid in m then m[sid := m[sid].(status := status)] else m
  }

  /** `add_log`: appends exactly one entry at the end of a known session's
      logs; an unknown id leaves the map as it was. */
  function AddLog(m: Sessions, sid: string, entry: LogEntry): (r: Sessions)
    ensures sid !in m ==> r == m
    ensures r.Keys == m.Keys
    ensures sid in m ==>
              && |r[sid].logs| == |m[sid].logs| + 1
              && r[sid].logs[..|m[sid].logs|] == m[sid].logs
              && r[sid].logs[|m[sid].logs|] == entry
              && r[sid].(logs := m[sid].logs) == m[sid]
    ensures forall k :: k in m && k != sid ==> r[k] == m[k]
  {
    if sid in m then m[sid := m[sid].(logs := m[sid].logs + [entry])] else m
  }

  /** `delete_session`: removes the given id and nothing else. */
  function DeleteSession(m: Sessions, sid: string): (r: Sessions)
    ensures r.Keys == m.Keys - {sid}
    ensures forall k :: k in r ==> r[k] == m[k]
  {
    m - {sid}
  }

  /** `emit_log`: the message is stored with its classified level. */
  function EmitLog(m: Sessions, sid: string, message: string, time: string): (r: Sessions)
    ensures r.Keys == m.Keys
    ensures sid in m ==> r[sid].logs == m[sid].logs + [LogEntry(message, Classify(message), time)]
    ensures sid in m ==> r[sid].(logs := m[sid].logs) == m[sid]
    ensures sid !in m ==> r == m
    ensures forall k :: k in m && k != sid ==> r[k] == m[k]
  {
    var r := AddLog(m, sid, LogEntry(message, Classify(message), time));
    assert sid in m ==> r[sid].logs == r[sid].logs[..|m[sid].logs|] + [r[sid].logs[|m[sid].logs|]];
    r
  }

  /** `emit_finished`: the session is marked finished. Its deletion 30
      seconds later is a timer and is not part of this function. */
  function EmitFinished(m: Sessions, sid: string): (r: Sessions)
    ensures sid !in m ==> r == m
    ensures sid in m ==> r.Keys == m.Keys && r[sid] == m[sid].(status := Finished)
    ensures forall k :: k in m && k != sid ==> r[k] == m[k]
  {
    UpdateStatus(m, sid, Finished)
  }

  /** `stop_brush` once its scan has found which sessions have a live
      worker thread: those are marked stopped, the rest are untouched. */
  function StopSessions(m: Sessions, alive: set<string>): (r: Sessions)
    ensures r.Keys == m.Keys
    ensures forall k :: k in m && k in alive && m[k].hasWorker ==> r[k] == m[k].(status := Stopped)
    ensures forall k :: k in m && !(k in alive && m[k].hasWorker) ==> r[k] == m[k]
  {
    map k | k in m :: if k in alive && m[k].hasWorker then m[k].(status := Stopped) else m[k]
  }

  /** A session's status after the worker's callbacks have run: only the
      `finished` callback touches the status. */
  function StatusAfter(s: Status, events: seq<Worker.Event>): Status
    decreases |events|
  {
    if events == [] then s
    else StatusAfter(if events[0].Finished? then Finished else s, events[1..])
  }

  /** However the status was set before the worker's last event -- by a stop
      request in particular -- a trace that ends with `finished` leaves the
      session finished. */
  lemma {:induction false} FinishedOverridesStopped(s: Status, events: seq<Worker.Event>, p: nat)
    requires events != [] && events[|events| - 1].Finished?
    requires p < |events|
    ensures StatusAfter(s, events[p..]) == Finished
    decreases |events| - p
  {
    var t := events[p..];
    assert t[1..] == events[p + 1..];
    if p == |events| - 1 {
      assert t == [events[p]];
    } else {
      FinishedOverridesStopped(if t[0].Finished? then Finished else s, events, p + 1);
    }
  }

  /** Every run of the worker ends its session in `finished`, even when a
      stop request set it to `stopped` before the last event. */
  lemma RunEndsFinished(env: Worker.Env, source: Worker.CourseSource, w: Windows, s: Status, p: nat)
    requires p < |Worker.Run(env, source, w).events|
    ensures StatusAfter(s, Worker.Run(env, source, w).events[p..]) == Finished
  {
    FinishedOverridesStopped(s, Worker.Run(env, source, w).events, p);
  }

  /** The body of a `start-brush` request; `pathOk` is the outcome of the
      configuration-path guard. */
  datatype StartRequest = StartRequest(
    token: Option<string>,
    cookie: Option<string>,
    courseId: Option<string>,
    chapterRange: Option<RangeSpec>,
    subsectionRange: Option<RangeSpec>,
    pathOk: bool)

  /** What the host keeps between requests: the sessions, the worker
      module's range windows, and the configuration file (`None`: absent or
      unreadable). */
  datatype HostState = HostState(sessions: Sessions, windows: Windows, config: Option<Config>)

  /** The HTTP status and, on success, the new session's id. */
  datatype StartResponse = StartResponse(code: nat, sessionId: Option<string>)

  /** What `start_brush` hands the worker: where its course list comes from. */
  datatype Started = Started(state: HostState, response: StartResponse, source: Worker.CourseSource)

  /** `start_brush` (lines 141-212). A missing JSON body fails with 500 and a
      missing or empty token or cookie with 400, both before any session
      exists. Otherwise a fresh session is created and set running, the
      configuration is saved with the credentials and the parsed course
      input (when the path guard passes), the range windows are updated,
      and the worker -- whose config carries no `courses` key -- reads its
      course list `fileCourses` from the worker module's configuration file,
      whatever course ids the request carried. */
  function StartBrush(st: HostState, request: Option<StartRequest>, sid: string, now: nat, fileCourses: Option<seq<Worker.Course>>): (r: Started)
    ensures request.None? ==> r.response.code == 500 && r.state == st
    ensures request.Some? && (request.value.token.GetOr("") == [] || request.value.cookie.GetOr("") == []) ==>
              r.response.code == 400 && r.state == st
    ensures r.response.code == 200 <==>
              request.Some? && request.value.token.GetOr("") != [] && request.value.cookie.GetOr("") != []
    ensures r.response.code == 200 ==>
              && r.response.sessionId == Some(sid)
              && r.state.sessions.Keys == st.sessions.Keys + {sid}
              && r.state.sessions[sid].status == Running
              && r.state.sessions[sid].hasWorker
              && (forall k :: k in st.sessions && k != sid ==> r.state.sessions[k] == st.sessions[k])
              && r.state.windows == Configure(st.windows, request.value.chapterRange, request.value.subsectionRange)
              && r.source == Worker.FromFile(fileCourses)
    ensures r.response.code == 200 && !request.value.pathOk ==> r.state.config == st.config
    ensures r.response.code == 200 && request.value.pathOk ==>
              var saved := st.config.GetOr(EmptyConfig);
              var ids := ParseCourseIds(RawCourse(request.value.courseId, saved));
              && r.state.config.Some?
              && r.state.config.value.token == request.value.token
              && r.state.config.value.cookie == request.value.cookie
              && r.state.config.value.courseInput == Some(StoreCourseInput(saved.courseInput, ids))
  {
    match request
    case None => Started(st, StartResponse(500, None), Worker.FromFile(None))
    case Some(req) =>
      if req.token.GetOr("") == [] || req.cookie.GetOr("") == [] then
        Started(st, StartResponse(400, None), Worker.FromFile(None))
      else
        var created := UpdateStatus(CreateSession(st.sessions, sid, now), sid, Running);
        var config :=
          if req.pathOk then
            var saved := st.config.GetOr(EmptyConfig);
            var ids := ParseCourseIds(RawCourse(req.courseId, saved));
            Some(saved.(token := req.token, cookie := req.cookie, courseInput := Some(StoreCourseInput(saved.courseInput, ids))))
          else st.config;
        var windows := Configure(st.windows, req.chapterRange, req.subsectionRange);
        var sessions := created[sid := created[sid].(hasWorker := true)];
        Started(HostState(sessions, windows, config), StartResponse(200, Some(sid)), Worker.FromFile(fileCourses))
  }
}
