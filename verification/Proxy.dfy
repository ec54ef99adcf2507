/** The proxy's handlers, and the shared queues, as they are written. */
module Proxy {
  import opened Prelude
  import opened Messages
  import opened Text
  import opened Worker
  import StoreSpec
  import opened ResponseStore

  const NO_CONTENT: nat := 204
  const BAD_REQUEST: nat := 400
  const METHOD_NOT_ALLOWED: nat := 405

  class CallbackServer {
    const store: ResponseStore

    constructor (store: ResponseStore)
      ensures this.store == store
    {
      this.store := store;
    }

    /** Delivers exactly the accepted reports; a refused request leaves the store alone. */
    method HandleCallback(isPost: bool, path: string, body: Option<ReportPayload>, now: int)
      returns (status: nat)
      requires store.Valid()
      modifies store, store.bufs.Keys
      ensures store.Valid()
      ensures status == 204 || status == 400 || status == 405
      ensures status == 405 <==> !isPost
      ensures var id := TrimSpace(TrimPrefix(path, "/callback/"));
        && (status == 204 <==> isPost && id != "" && body.Some? && (body.value.id == "" || body.value.id == id))
        && store.State() == if status == 204 then StoreSpec.Deliver(old(store.State()), id, body.value.exec, now, store.ttl)
                            else old(store.State())
      ensures status == 204 <==> Accepted(isPost, path, body).Some?
    {
      if !isPost {
        return METHOD_NOT_ALLOWED;
      }
      var jobID := TrimPrefix(path, CALLBACK);
      jobID := TrimSpace(jobID);
      if jobID == "" {
        return BAD_REQUEST;
      }
      if body.None? {
        return BAD_REQUEST;
      }
      var payload := body.value;
      if payload.id != "" && payload.id != jobID {
        return BAD_REQUEST;
      }
      if payload.id == "" {
        payload := payload.(id := jobID);
      }
      store.Deliver(payload.id, payload.exec, now);
      return NO_CONTENT;
    }
  }

  datatype ExecResponse = ExecResponse(exitCode: nat, stdout: seq<byte>, stderr: seq<byte>, files: seq<(string, seq<byte>)>)

  /** The same output and files, with the exit code as 32 unsigned bits. */
  predicate Unpacks(result: ExecuteResult, x: ExecResponse) {
    && x.stdout == result.stdout && x.stderr == result.stderr
    && x.exitCode < UINT32 && (x.exitCode - result.exitCode) % UINT32 == 0
    && |x.files| == |result.files|
    && forall k :: 0 <= k < |x.files| ==> x.files[k] == (result.files[k].filename, result.files[k].content)
  }

  datatype UnpackError =
    | Remote(text: string)
    | NilDereference  // the process would stop with a run-time error

  /** The end of `Exec`: a reply becomes an error or a response, file by file. */
  method Unpack(resp: Response) returns (r: Result<ExecResponse, UnpackError>)
    ensures resp.error != "" ==> r == Err(Remote(resp.error))
    ensures r == Err(NilDereference) <==> resp.error == "" && resp.result.None?
    ensures r.Ok? <==> resp.error == "" && resp.result.Some?
    ensures r.Ok? ==> Unpacks(resp.result.value, r.value)
  {
    if resp.error != "" {
      return Err(Remote(resp.error));
    }
    if resp.result.None? {
      return Err(NilDereference);
    }
    var result := resp.result.value;
    var files := [];
    for i := 0 to |result.files|
      invariant |files| == i
      invariant forall k :: 0 <= k < i ==> files[k] == (result.files[k].filename, result.files[k].content)
    {
      files := files + [(result.files[i].filename, result.files[i].content)];
    }
    r := Ok(ExecResponse(result.exitCode % UINT32, result.stdout, result.stderr, files));
  }

  // ---- The shared queues ----

  function Queue(lists: map<string, seq<JobSpec>>, name: string): seq<JobSpec> {
    if name in lists then lists[name] else []
  }

  datatype Push = Pushed | PushedUnheard | NotPushed

  /** At most the trimmed queue has changed: it has the job at its tail, unless there was no job, no queue or no push. */
  ghost predicate Appended(lists: map<string, seq<JobSpec>>, now: map<string, seq<JobSpec>>, queue: string,
                           spec: Option<JobSpec>, outcome: Push) {
    forall q :: Queue(now, q) ==
                if q == TrimSpace(queue) && q != "" && spec.Some? && !outcome.NotPushed?
                then Queue(lists, q) + [spec.value] else Queue(lists, q)
  }

  class Redis {
    var lists: map<string, seq<JobSpec>>

    constructor ()
      ensures lists == map[]
    {
      lists := map[];
    }

    /** Pushes to the tail of the trimmed queue; a failed push may still have happened. */
    method Enqueue(queue: string, spec: Option<JobSpec>, outcome: Push) returns (ok: bool)
      modifies this
      ensures ok <==> spec.Some? && TrimSpace(queue) != "" && outcome.Pushed?
      ensures Appended(old(lists), lists, queue, spec, outcome)
    {
      if spec.None? {
        return false;
      }
      var name := TrimSpace(queue);
      if name == "" {
        return false;
      }
      if !outcome.NotPushed? {
        lists := lists[name := Queue(lists, name) + [spec.value]];
      }
      return outcome.Pushed?;
    }

    /** A completed blocking pop takes the head of the queue. */
    method Fetch(queueName: string) returns (job: JobSpec)
      requires Queue(lists, queueName) != []
      modifies this
      ensures [job] + Queue(lists, queueName) == Queue(old(lists), queueName)
      ensures forall q :: q != queueName ==> Queue(lists, q) == Queue(old(lists), q)
    {
      job := lists[queueName][0];
      lists := lists[queueName := lists[queueName][1..]];
    }
  }

  function IndexOf(s: string, c: char): (i: nat)
    ensures i <= |s| && (i < |s| ==> s[i] == c) && forall k :: 0 <= k < i ==> s[k] != c
  {
    if s == [] || s[0] == c then 0 else 1 + IndexOf(s[1..], c)
  }

  /** Splits a worker's address at its first `#` into a server and a queue name. */
  function ParseQueueName(raw: string): (r: Option<(string, string)>)
    ensures r.Some? ==> r.value.1 != "" && TrimSpace(r.value.1) == r.value.1
  {
    var i := IndexOf(raw, '#');
    if i == |raw| then None
    else
      var queue := TrimSpace(raw[i + 1..]);
      if queue == "" then None else Some((TrimSpace(raw[..i]), queue))
  }

  /**
    A worker started on `server#q` and a proxy enqueueing to `q` use the same list. Only the
    first `#` splits, and without one, or with nothing behind it, there is no queue.
  */
  lemma QueueNamesAgree(server: string, q: string)
    requires '#' !in server
    ensures ParseQueueName(server) == None
    ensures ParseQueueName(server + "#" + q) == if TrimSpace(q) == "" then None else Some((TrimSpace(server), TrimSpace(q)))
  {
    hide TrimSpace;
    FirstHash(server, q);
  }

  lemma FirstHash(server: string, q: string)
    requires '#' !in server
    ensures IndexOf(server, '#') == |server|
    ensures var raw := server + "#" + q;
            IndexOf(raw, '#') == |server| && raw[..|server|] == server && raw[|server| + 1..] == q
  {
    var raw := server + "#" + q;
    assert forall k :: 0 <= k < |server| ==> raw[k] == server[k] && server[k] in server;
    assert raw[|server|] == '#';
  }
}
