/**
  The pieces of one job's journey on the worker and on the callback server: executing,
  reporting, and accepting the report. What the operating system and the network answer
  is a parameter.
*/
module Worker {
  import opened Prelude
  import opened Messages
  import opened Text

  datatype RunOutcome =
    | NotRun(error: string)
    | Exited(stdout: seq<byte>, stderr: seq<byte>, exitCode: int)

  /** One call of the walk function; a missing error is success. */
  datatype Visit =
    | Unvisitable(error: string)
    | Directory
    | NoRelativePath(error: string)
    | File(path: string, content: Result<seq<byte>, string>)

  /** What the machine answers while one job runs. */
  datatype Machine = Machine(
    makeDir: Option<string>,
    writeBinary: Option<string>,
    run: RunOutcome,
    compilePattern: Option<string>,
    matches: string -> bool,
    walk: seq<Visit>)

  /** The walk stops at this visit with an error. */
  predicate Breaks(v: Visit, matches: string -> bool) {
    v.Unvisitable? || v.NoRelativePath? || (v.File? && matches(v.path) && v.content.Err?)
  }

  /**
    The files are those at the positions `at` of the first `n` visits, in order: every file whose
    path matches, under its path and with its content, and nothing else.
  */
  ghost predicate Collected(walk: seq<Visit>, matches: string -> bool, n: nat, at: seq<nat>, files: seq<FileContent>)
    requires n <= |walk|
  {
    && |at| == |files|
    && (forall i, j :: 0 <= i < j < |at| ==> at[i] < at[j])
    && (forall i :: 0 <= i < |at| ==>
          at[i] < n && walk[at[i]] == File(files[i].filename, Ok(files[i].content)) && matches(files[i].filename))
    && (forall k: nat :: k < n && walk[k].File? && matches(walk[k].path) ==> k in at)
  }

  /** The files captured: none without a usable pattern, else all that the walk comes by before it breaks. */
  ghost predicate Captures(pattern: string, m: Machine, files: seq<FileContent>) {
    if pattern == "" || m.compilePattern.Some? then files == []
    else
      exists n: nat, at ::
        && n <= |m.walk| && (forall k :: 0 <= k < n ==> !Breaks(m.walk[k], m.matches))
        && (n < |m.walk| ==> Breaks(m.walk[n], m.matches))
        && Collected(m.walk, m.matches, n, at, files)
  }

  ghost predicate CaptureFails(pattern: string, m: Machine) {
    pattern != ""
    && (m.compilePattern.Some?
        || exists v :: v in m.walk
                       && (v.Unvisitable? || v.NoRelativePath? || (v.File? && m.matches(v.path) && v.content.Err?)))
  }

  /** On every path a result or an error, and an error always says something. */
  predicate WellShaped(result: Option<ExecuteResult>, err: Option<string>) {
    (result.Some? || err.Some?) && (err.Some? ==> err.value != "")
  }

  /** What executing a job on a machine yields. */
  ghost predicate Yields(spec: Option<JobSpec>, m: Machine, result: Option<ExecuteResult>, err: Option<string>) {
    && WellShaped(result, err)
    && (result.Some? <==>
          spec.Some? && spec.value.binary != [] && m.makeDir.None? && m.writeBinary.None? && m.run.Exited?)
    && (result.Some? ==>
          && result.value.stdout == m.run.stdout && result.value.stderr == m.run.stderr
          && result.value.exitCode == m.run.exitCode
          && Captures(spec.value.capturePattern, m, result.value.files)
          && (err.Some? <==> CaptureFails(spec.value.capturePattern, m)))
  }

  method Execute(spec: Option<JobSpec>, m: Machine) returns (result: Option<ExecuteResult>, err: Option<string>)
    ensures Yields(spec, m, result, err)
  {
    if spec.None? {
      return None, Some("job spec is nil");
    }
    if |spec.value.binary| == 0 {
      return None, Some("job binary is empty");
    }
    if m.makeDir.Some? {
      return None, Some("create temp dir: " + m.makeDir.value);
    }
    if m.writeBinary.Some? {
      return None, Some("write binary: " + m.writeBinary.value);
    }
    match m.run {
      case NotRun(e) =>
        return None, Some("execute binary: " + e);
      case Exited(out, errOut, code) =>
        result, err := Some(ExecuteResult(out, errOut, code, [])), None;
    }
    // The deferred capture changes the named results after the return statement.
    result, err := Capture(spec.value.capturePattern, m, result.value);
  }

  method Capture(pattern: string, m: Machine, ran: ExecuteResult)
    returns (result: Option<ExecuteResult>, err: Option<string>)
    requires ran.files == []
    ensures result.Some? && result.value == ran.(files := result.value.files)
    ensures Captures(pattern, m, result.value.files)
    ensures (err.Some? <==> CaptureFails(pattern, m)) && (err.Some? ==> err.value != "")
  {
    result, err := Some(ran), None;
    if pattern == "" {
      return;
    }
    if m.compilePattern.Some? {
      err := Some("capture outputs: compile capture pattern: " + m.compilePattern.value);
      return;
    }
    var i := 0;
    ghost var at: seq<nat> := [];
    while i < |m.walk|
      invariant i <= |m.walk| && forall k :: 0 <= k < i ==> !Breaks(m.walk[k], m.matches)
      invariant err == None && result.Some? && result.value == ran.(files := result.value.files)
      invariant Collected(m.walk, m.matches, i, at, result.value.files)
    {
      assert m.walk[i] in m.walk;
      match m.walk[i] {
        case Unvisitable(e) =>
          err := Some("capture outputs: walk files error: " + e);
          return;
        case Directory =>
        case NoRelativePath(e) =>
          err := Some("capture outputs: walk files error: " + e);
          return;
        case File(path, content) =>
          if m.matches(path) {
            if content.Err? {
              err := Some("capture outputs: walk files error: " + content.error);
              return;
            }
            result := Some(result.value.(files := result.value.files + [FileContent(path, content.value)]));
            at := at + [i];
          }
      }
      i := i + 1;
    }
  }

  // ---- Reporting ----

  function PayloadFor(job: JobSpec, result: Option<ExecuteResult>, err: Option<string>): ReportPayload {
    ReportPayload(job.id, Response(result, if err.Some? then err.value else ""))
  }

  datatype Attempt = NotSent(error: string) | NoAnswer(error: string) | Answered(status: nat)

  /** What leaves the worker, if anything: the payload for the job, at the job's own trimmed URL. */
  predicate Sends(spec: Option<JobSpec>, result: Option<ExecuteResult>, execErr: Option<string>, net: Attempt,
                  sent: Option<(string, ReportPayload)>) {
    && (sent.Some? <==> spec.Some? && TrimSpace(spec.value.callbackURL) != "" && !net.NotSent?)
    && (sent.Some? ==>
          && sent.value.0 == TrimSpace(spec.value.callbackURL)
          && sent.value.1 == ReportPayload(spec.value.id, Response(result, if execErr.Some? then execErr.value else "")))
  }

  /** One callback attempt: `sent` is what left the worker, whether or not it was answered. */
  method Report(spec: Option<JobSpec>, result: Option<ExecuteResult>, execErr: Option<string>, net: Attempt)
    returns (sent: Option<(string, ReportPayload)>, err: Option<string>)
    ensures Sends(spec, result, execErr, net, sent)
    ensures err.None? <==> sent.Some? && net.Answered? && 200 <= net.status < 300
  {
    if spec.None? {
      return None, Some("job spec is nil");
    }
    var callbackURL := TrimSpace(spec.value.callbackURL);
    if callbackURL == "" {
      return None, Some("job is missing callback URL");
    }
    var payload := ReportPayload(spec.value.id, Response(None, ""));
    payload := payload.(exec := payload.exec.(result := result));
    if execErr.Some? {
      payload := payload.(exec := payload.exec.(error := execErr.value));
    }
    match net {
      case NotSent(e) => return None, Some("create callback request: " + e);
      case NoAnswer(e) => return Some((callbackURL, payload)), Some("send callback request: " + e);
      case Answered(status) =>
        if status < 200 || status >= 300 {
          return Some((callbackURL, payload)), Some("callback failed");
        }
        return Some((callbackURL, payload)), None;
    }
  }

  // ---- Accepting a report ----

  const CALLBACK: string := "/callback/"

  /** The id and reply that a request makes the server deliver, if any. */
  function Accepted(isPost: bool, path: string, body: Option<ReportPayload>): Option<(string, Response)> {
    var jobID := TrimSpace(TrimPrefix(path, CALLBACK));
    if !isPost || jobID == "" || body.None? || (body.value.id != "" && body.value.id != jobID) then None
    else Some((jobID, body.value.exec))
  }

  function CallbackURL(base: string, id: string): string {
    base + CALLBACK + id
  }

  /** The job an `Exec` makes of its request. */
  function JobFor(base: string, id: string, req: ExecRequest): JobSpec {
    JobSpec(CallbackURL(base, id), id, req.binary, req.capturePattern, req.args)
  }

  /** A reply with no error has a result, so that unpacking it is defined. */
  predicate Usable(r: Response) {
    r.error == "" ==> r.result.Some?
  }

  /** Executing, reporting and accepting a job keep the shape that the proxy relies on. */
  lemma ShapeSurvives(job: JobSpec, result: Option<ExecuteResult>, err: Option<string>, isPost: bool, path: string)
    requires WellShaped(result, err) && job.id != ""
    ensures var got := Accepted(isPost, path, Some(PayloadFor(job, result, err)));
      got.Some? ==> got.value.0 == job.id && Usable(got.value.1)
                    && got.value.1.result == result && got.value.1.error == (if err.Some? then err.value else "")
  {}

  /** The URL the proxy puts into a job leads back to that job's id. */
  lemma CallbackURLLeadsBack(base: string, id: string, exec: Response)
    requires base != "" && !IsSpace(base[0])
    requires id != "" && forall c :: c in id ==> !IsSpace(c)
    ensures CallbackURL(base, id) == base + "/callback/" + id
    ensures var url := TrimSpace(CallbackURL(base, id));
      && base <= url
      && Accepted(true, url[|base|..], Some(ReportPayload(id, exec))) == Some((id, exec))
  {
    var url := CallbackURL(base, id);
    assert url[0] == base[0] && url[|url| - 1] == id[|id| - 1];
    assert url[|base|..] == CALLBACK + id;
    assert (CALLBACK + id)[|CALLBACK|..] == id;
  }

  // ---- The worker's loop ----

  datatype Fetch = FetchError(contextDone: bool, isCancellation: bool) | NoJob | Job(job: JobSpec)

  /**
    One turn of the loop as the world answers it: the stop flag each time it is read, what
    the fetch yields, and how the machine and the network treat the job.
  */
  datatype Turn = Turn(stopAtTop: bool, fetch: Fetch, stopAfterError: bool, m: Machine, net: Attempt, stopAtEnd: bool)

  /** The loop ends in this turn: told to stop at its top, after an error that may mean stopping, or after its job. */
  predicate LeavesLoop(t: Turn) {
    || t.stopAtTop
    || (t.fetch.FetchError? && (t.fetch.contextDone || t.fetch.isCancellation) && t.stopAfterError)
    || (t.fetch.Job? && t.stopAtEnd)
  }

  datatype ReportCall = ReportCall(result: Option<ExecuteResult>, err: Option<string>, sent: Option<(string, ReportPayload)>)

  /** The report is of this turn's job, executed on this turn's machine, and went where that job says. */
  ghost predicate Reports(t: Turn, r: ReportCall)
    requires t.fetch.Job?
  {
    Yields(Some(t.fetch.job), t.m, r.result, r.err) && Sends(Some(t.fetch.job), r.result, r.err, t.net, r.sent)
  }

  ghost predicate GoesOn(turns: seq<Turn>, n: nat)
    requires n <= |turns|
  {
    forall i :: 0 <= i < n ==> !LeavesLoop(turns[i])
  }

  /** The turns, of the first `n`, that the loop comes to and that fetch a job. */
  ghost function JobsAt(turns: seq<Turn>, n: nat): seq<nat>
    requires n <= |turns|
  {
    if n == 0 then []
    else if turns[n - 1].fetch.Job? && !turns[n - 1].stopAtTop && GoesOn(turns, n - 1)
    then JobsAt(turns, n - 1) + [n - 1]
    else JobsAt(turns, n - 1)
  }

  /** They are in order and none is missed: the loop goes on until it is told to stop, at one of the three places it asks. */
  lemma {:induction false} JobsAtMeans(turns: seq<Turn>, n: nat)
    requires n <= |turns|
    ensures forall i | 0 <= i < |JobsAt(turns, n)| :: JobsAt(turns, n)[i] < n
    ensures forall i, j :: 0 <= i < j < |JobsAt(turns, n)| ==> JobsAt(turns, n)[i] < JobsAt(turns, n)[j]
    ensures forall k :: k in JobsAt(turns, n) <==>
              0 <= k < n && turns[k].fetch.Job? && !turns[k].stopAtTop
              && forall i :: 0 <= i < k ==>
                   !turns[i].stopAtTop
                   && !(turns[i].fetch.FetchError? && (turns[i].fetch.contextDone || turns[i].fetch.isCancellation)
                        && turns[i].stopAfterError)
                   && !(turns[i].fetch.Job? && turns[i].stopAtEnd)
  {
    if n > 0 { JobsAtMeans(turns, n - 1); }
  }

  lemma {:induction false} NoMoreJobs(turns: seq<Turn>, i: nat, n: nat)
    requires i < n <= |turns| && LeavesLoop(turns[i])
    ensures JobsAt(turns, n) == JobsAt(turns, i + 1)
    decreases n
  {
    if i + 1 < n { NoMoreJobs(turns, i, n - 1); }
  }

  lemma NextJob(turns: seq<Turn>, i: nat)
    requires i < |turns| && GoesOn(turns, i)
    ensures GoesOn(turns, i + 1) <==> !LeavesLoop(turns[i])
    ensures JobsAt(turns, i + 1)
            == if turns[i].fetch.Job? && !turns[i].stopAtTop then JobsAt(turns, i) + [i] else JobsAt(turns, i)
    ensures LeavesLoop(turns[i]) ==> JobsAt(turns, |turns|) == JobsAt(turns, i + 1)
  {
    if LeavesLoop(turns[i]) { NoMoreJobs(turns, i, |turns|); }
  }

  /** One report for each of these turns, in order. */
  ghost predicate Reported(turns: seq<Turn>, at: seq<nat>, reports: seq<ReportCall>) {
    && |reports| == |at|
    && forall k | 0 <= k < |at| :: at[k] < |turns| && turns[at[k]].fetch.Job? && Reports(turns[at[k]], reports[k])
  }

  lemma OneMoreReport(turns: seq<Turn>, at: seq<nat>, reports: seq<ReportCall>, i: nat, r: ReportCall)
    requires i < |turns| && turns[i].fetch.Job? && Reported(turns, at, reports)
    requires Yields(Some(turns[i].fetch.job), turns[i].m, r.result, r.err)
    requires Sends(Some(turns[i].fetch.job), r.result, r.err, turns[i].net, r.sent)
    ensures Reported(turns, at + [i], reports + [r])
  {
    hide Yields, Sends;
    assert Reports(turns[i], r);
    hide Reports;
  }

  /**
    Each job fetched is executed and gets exactly one report, in order, also when told to stop
    meanwhile.
  */
  method Loop(turns: seq<Turn>) returns (reports: seq<ReportCall>)
    ensures |reports| == |JobsAt(turns, |turns|)|
    ensures forall k | 0 <= k < |reports| ::
              var i := JobsAt(turns, |turns|)[k];
              i < |turns| && turns[i].fetch.Job? && Reports(turns[i], reports[k])
  {
    hide Yields, Sends, TrimSpace, JobsAt, GoesOn, Reported, Reports;
    reports := [];
    NoJobsYet(turns);
    var i := 0;
    while i < |turns|
      invariant 0 <= i <= |turns|
      invariant GoesOn(turns, i)
      invariant Reported(turns, JobsAt(turns, i), reports)
    {
      var t := turns[i];
      NextJob(turns, i);
      if t.stopAtTop {
        break;
      }
      i := i + 1;
      if t.fetch.FetchError? {
        if t.fetch.contextDone && t.stopAfterError {
          break;
        }
        if t.fetch.isCancellation {
          if t.stopAfterError {
            break;
          }
          continue;
        }
        continue;
      }
      if t.fetch.NoJob? {
        continue;
      }
      var job := t.fetch.job;
      var result, execErr := Execute(Some(job), t.m);
      var sent, err := Report(Some(job), result, execErr, t.net);
      OneMoreReport(turns, JobsAt(turns, i - 1), reports, i - 1, ReportCall(result, execErr, sent));
      reports := reports + [ReportCall(result, execErr, sent)];
      if t.stopAtEnd {
        break;
      }
    }
    ReportedMeans(turns, JobsAt(turns, |turns|), reports);
  }

  lemma ReportedMeans(turns: seq<Turn>, at: seq<nat>, reports: seq<ReportCall>)
    requires Reported(turns, at, reports)
    ensures |reports| == |at|
    ensures forall k | 0 <= k < |reports| ::
              at[k] < |turns| && turns[at[k]].fetch.Job? && Reports(turns[at[k]], reports[k])
  {
    hide Reports;
  }

  lemma NoJobsYet(turns: seq<Turn>)
    ensures GoesOn(turns, 0) && Reported(turns, JobsAt(turns, 0), [])
  {}
}
