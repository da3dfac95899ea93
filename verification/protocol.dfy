/** AuthProbe and StudyRecorder: `test_auth`, `record_study_time` and
    `confirm_chapter_process`, in the worker module and in the command-line
    script. Each takes the platform's replies as input. */
module Protocol {
  import opened Replies
  import opened Catalog
  import opened PyText

  /** One entry of the chapter-progress reply's `studySubsectionUsers`; only
      its chapter id is consulted. */
  datatype ProgressEntry = ProgressEntry(chapterId: IdValue)

  /** The worker's `test_auth`: a GET of the current course's catalog that
      succeeds only on HTTP 200 with `returnCode == "200"`; a transport
      error or an unparseable body is caught and reads as failure. */
  function TestAuth<T>(reply: Reply<T>): (ok: bool)
    ensures ok <==> Accepted(reply)
  {
    match reply
    case TransportError => false
    case Http(status, body) =>
      if status != 200 then false
      else
        match body
        case Malformed => false
        case Json(code, _) => code == Sentinel
  }

  /** The script's `test_auth`: any parseable body under HTTP 200 passes,
      whatever its `returnCode`. */
  function ScriptTestAuth<T>(reply: Reply<T>): (ok: bool)
    ensures ok <==> reply.Http? && reply.status == 200 && reply.body.Json?
  {
    match reply
    case TransportError => false
    case Http(status, body) =>
      if status != 200 then false
      else body.Json?
  }

  /** The script's probe is strictly weaker than the worker's: everything the
      worker accepts it accepts, and it also accepts a rejected `returnCode`. */
  lemma ScriptAuthIsWeaker<T>(reply: Reply<T>, data: T)
    ensures TestAuth(reply) ==> ScriptTestAuth(reply)
    ensures ScriptTestAuth(Http(200, Json("401", data))) && !TestAuth(Http(200, Json("401", data)))
  {
  }

  /** The confirm verdict: HTTP 200, `returnCode == "200"`, a non-empty
      progress list, and some entry whose `str(chapterId)` equals
      `str(chapter_id)` of the chapter under confirmation. */
  predicate Confirms(reply: Reply<seq<ProgressEntry>>, chapterId: IdValue) {
    && Accepted(reply)
    && |reply.body.data| > 0
    && exists i :: 0 <= i < |reply.body.data| && IdStr(reply.body.data[i].chapterId) == IdStr(chapterId)
  }

  /** The worker's `confirm_chapter_process`: scans the progress entries and
      stops at the first match. */
  method ConfirmChapterProcess(reply: Reply<seq<ProgressEntry>>, chapterId: IdValue) returns (ok: bool)
    ensures ok == Confirms(reply, chapterId)
  {
    if !reply.Http? || reply.status != 200 || reply.body.Malformed? {
      return false;
    }
    if reply.body.returnCode != Sentinel {
      return false;
    }
    var entries := reply.body.data;
    if |entries| == 0 {
      return false;
    }
    var found := false;
    var i := 0;
    while i < |entries|
      invariant 0 <= i <= |entries|
      invariant !found
      invariant forall k :: 0 <= k < i ==> IdStr(entries[k].chapterId) != IdStr(chapterId)
    {
      if IdStr(entries[i].chapterId) == IdStr(chapterId) {
        found := true;
        break;
      }
      i := i + 1;
    }
    return found;
  }

  /** The script's `confirm_chapter_process`: the same verdict, reached by
      scanning every entry without stopping at a match. */
  method ScriptConfirmChapterProcess(reply: Reply<seq<ProgressEntry>>, chapterId: IdValue) returns (ok: bool)
    ensures ok == Confirms(reply, chapterId)
  {
    if !reply.Http? || reply.status != 200 || reply.body.Malformed? {
      return false;
    }
    if reply.body.returnCode != Sentinel {
      return false;
    }
    var entries := reply.body.data;
    if |entries| == 0 {
      return false;
    }
    var found := false;
    var i := 0;
    while i < |entries|
      invariant 0 <= i <= |entries|
      invariant found <==> exists k :: 0 <= k < i && IdStr(entries[k].chapterId) == IdStr(chapterId)
    {
      if IdStr(entries[i].chapterId) == IdStr(chapterId) {
        found := true;
      }
      i := i + 1;
    }
    return found;
  }

  /** The settling delay, in seconds, before the confirm query. */
  const WorkerSettleSeconds: nat := 25
  const ScriptSettleSeconds: nat := 3

  /** What one `record_study_time` call did and returned. */
  datatype RecordOutcome = RecordOutcome(ok: bool, confirmQueried: bool, settledSeconds: nat)

  /** `record_study_time`: POST the record; only on HTTP 200 with
      `returnCode == "200"` sleep `settle` seconds and return the confirm
      verdict. Every other path, exceptions included, returns `False`
      without querying progress. */
  function RecordStudyTime(settle: nat, record: Reply<()>, confirm: Reply<seq<ProgressEntry>>, chapterId: IdValue): (r: RecordOutcome)
    ensures r.confirmQueried <==> Accepted(record)
    ensures r.ok <==> Accepted(record) && Confirms(confirm, chapterId)
    ensures r.settledSeconds == (if r.confirmQueried then settle else 0)
  {
    match record
    case TransportError => RecordOutcome(false, false, 0)
    case Http(status, body) =>
      if status != 200 then RecordOutcome(false, false, 0)
      else
        match body
        case Malformed => RecordOutcome(false, false, 0)
        case Json(code, _) =>
          if code != Sentinel then RecordOutcome(false, false, 0)
          else RecordOutcome(Confirms(confirm, chapterId), true, settle)
  }

  /** An integer chapter id and its decimal string form name the same
      chapter, since both sides are compared through `str()`. */
  lemma ConfirmMatchesAcrossTypes(n: int)
    ensures Confirms(Http(200, Json(Sentinel, [ProgressEntry(StrId(IntStr(n)))])), IntId(n))
  {
    var reply: Reply<seq<ProgressEntry>> := Http(200, Json(Sentinel, [ProgressEntry(StrId(IntStr(n)))]));
    assert IdStr(reply.body.data[0].chapterId) == IdStr(IntId(n));
  }
}
