/**
  The whole service as a step system: any number of `Exec` calls, workers, callbacks and
  cleanup ticks, interleaved in any order. One action is one critical section, queue
  operation, channel receive, or callback. Callbacks may be late, repeated, sent to any
  path, or never arrive; contexts may be cancelled at any time; pushes may fail after
  taking effect.
*/
module Dispatch {
  import opened Prelude
  import opened Messages
  import opened Text
  import opened StoreSpec
  import opened Worker
  import opened Proxy

  // ---- The proxy ----

  datatype Outcome = Replied(r: Response) | Failed

  /** `Leaving` is after the outcome is decided and before the deferred close has run. */
  datatype Phase = Registered | Enqueued | Leaving(out: Outcome) | Returned(out: Outcome)

  datatype Exec = Exec(req: ExecRequest, ch: nat, phase: Phase)

  /** One call of `Report` by a worker, and the job it was about. */
  datatype Attempted = Attempted(
    queue: string, at: nat, worker: nat, job: JobSpec, result: Option<ExecuteResult>, err: Option<string>)

  /**
    `owners` (the `Exec` each channel was made for) and `delivered` (the reports delivered
    for each id) only record history.
  */
  datatype Front = Front(
    store: Store<nat, Response>,
    execs: map<string, Exec>,
    nextCh: nat,
    owners: map<nat, string>,
    delivered: map<string, seq<Attempted>>)

  const TTL: nat := 300_000_000_000

  function Log<T>(m: map<string, seq<T>>, k: string): seq<T> {
    if k in m then m[k] else []
  }

  function Append<T>(m: map<string, seq<T>>, k: string, x: T): map<string, seq<T>> {
    m[k := Log(m, k) + [x]]
  }

  function ReplyOf(a: Attempted): Response {
    PayloadFor(a.job, a.result, a.err).exec
  }

  predicate Awaiting(e: Exec) {
    e.phase.Registered? || e.phase.Enqueued?
  }

  function StartExec(f: Front, id: string, req: ExecRequest): Front {
    var (st, ok) := Register(f.store, id, f.nextCh);
    if ok then
      Front(st, f.execs[id := Exec(req, f.nextCh, Registered)], f.nextCh + 1, f.owners[f.nextCh := id], f.delivered)
    else f
  }

  function SetPhase(f: Front, id: string, p: Phase): Front
    requires id in f.execs
  {
    f.(execs := f.execs[id := f.execs[id].(phase := p)])
  }

  predicate CanTake(f: Front, id: string) {
    && id in f.execs && f.execs[id].phase.Enqueued?
    && f.execs[id].ch in f.store.bufs && f.store.bufs[f.execs[id].ch] != []
  }

  function TakeReply(f: Front, id: string): Front
    requires CanTake(f, id)
  {
    var c := f.execs[id].ch;
    SetPhase(f.(store := Receive(f.store, c)), id, Leaving(Replied(f.store.bufs[c][0])))
  }

  function CloseWaiter(f: Front, id: string): Front
    requires id in f.execs && f.execs[id].phase.Leaving?
  {
    SetPhase(f.(store := Release(f.store, id, f.execs[id].ch)), id, Returned(f.execs[id].phase.out))
  }

  function CallBack(f: Front, a: Attempted, isPost: bool, path: string, now: int): Front {
    match Accepted(isPost, path, Some(PayloadFor(a.job, a.result, a.err)))
    case Some((id, r)) => f.(store := Deliver(f.store, id, r, now, TTL), delivered := Append(f.delivered, id, a))
    case None => f
  }

  function CleanUp(f: Front, now: int): Front {
    f.(store := Tick(f.store, now))
  }

  /**
    The registered waiter of an id belongs to its `Exec`. As long as an `Exec` may still
    take a reply, either nothing has been delivered for it and its waiter is registered,
    or the first delivered reply sits in its channel; a reply taken was the first.
  */
  ghost predicate SlotOk(f: Front, id: string) {
    && (id in f.store.entries && f.store.entries[id].ch.Some? ==>
          && id in f.execs && f.store.entries[id].ch == Some(f.execs[id].ch)
          && !f.execs[id].phase.Returned? && Log(f.delivered, id) == [])
    && (id in f.store.entries || Log(f.delivered, id) != [] ==> id in f.execs)
    && (id in f.execs ==>
          var e, d := f.execs[id], Log(f.delivered, id);
          && id != "" && e.ch in f.store.bufs && e.ch in f.owners && f.owners[e.ch] == id
          && (Awaiting(e) && d == [] ==> id in f.store.entries && f.store.entries[id].ch == Some(e.ch))
          && (Awaiting(e) && d != [] ==> f.store.bufs[e.ch] == [ReplyOf(d[0])])
          && (!Awaiting(e) && e.phase.out.Replied? ==>
                d != [] && e.phase.out.r == ReplyOf(d[0]) && f.store.bufs[e.ch] == []))
  }

  ghost predicate FrontOk(f: Front) {
    && Coherent(f.store)
    && (forall c :: c in f.store.bufs || c in f.owners ==> c < f.nextCh)
    && (forall id :: SlotOk(f, id))
  }

  /** A fresh id always gets a waiter. */
  lemma StartKeepsFront(f: Front, id: string, req: ExecRequest)
    requires FrontOk(f) && id !in f.execs && id != ""
    ensures FrontOk(StartExec(f, id, req)) && Register(f.store, id, f.nextCh).1
  {
    RegisterKeepsCoherent(f.store, id, f.nextCh);
    hide Coherent;
    assert SlotOk(f, id);
    forall x ensures SlotOk(StartExec(f, id, req), x) { assert SlotOk(f, x); }
  }

  lemma PhaseKeepsFront(f: Front, id: string, p: Phase)
    requires FrontOk(f) && id in f.execs && Awaiting(f.execs[id]) && (p.Enqueued? || p == Leaving(Failed))
    ensures FrontOk(SetPhase(f, id, p))
  {
    hide Coherent;
    forall x ensures SlotOk(SetPhase(f, id, p), x) { assert SlotOk(f, x); }
  }

  lemma TakeReplyKeepsFront(f: Front, id: string)
    requires FrontOk(f) && CanTake(f, id)
    ensures FrontOk(TakeReply(f, id))
  {
    ReceiveKeepsCoherent(f.store, f.execs[id].ch);
    assert SlotOk(f, id);
    forall x ensures SlotOk(TakeReply(f, id), x) { assert SlotOk(f, x); }
  }

  lemma CloseKeepsFront(f: Front, id: string)
    requires FrontOk(f) && id in f.execs && f.execs[id].phase.Leaving?
    ensures FrontOk(CloseWaiter(f, id))
  {
    ReleaseKeepsCoherent(f.store, id, f.execs[id].ch);
    assert SlotOk(f, id);
    forall x ensures SlotOk(CloseWaiter(f, id), x) { assert SlotOk(f, x); }
  }

  lemma CallBackKeepsFront(f: Front, a: Attempted, isPost: bool, path: string, now: int)
    requires FrontOk(f) && a.job.id in f.execs
    ensures FrontOk(CallBack(f, a, isPost, path, now))
  {
    assert SlotOk(f, a.job.id);
    DeliverKeepsCoherent(f.store, a.job.id, ReplyOf(a), now, TTL);
    forall x ensures SlotOk(CallBack(f, a, isPost, path, now), x) { assert SlotOk(f, x); }
  }

  lemma CleanUpKeepsFront(f: Front, now: int)
    requires FrontOk(f)
    ensures FrontOk(CleanUp(f, now))
  {
    TickKeepsCoherent(f.store, now);
    hide Coherent;
    forall x ensures SlotOk(CleanUp(f, now), x) { assert SlotOk(f, x); }
  }

  // ---- The queues and the workers ----

  /** Where a worker is in its loop; `at` is the position of its job among all jobs popped from its queue. */
  datatype LoopPhase =
    | Checking
    | Fetching
    | Running(at: nat, job: JobSpec)
    | Reporting(at: nat, job: JobSpec, result: Option<ExecuteResult>, err: Option<string>)
    | Stopped

  datatype WorkerState = WorkerState(queue: string, stop: bool, phase: LoopPhase)

  datatype Popped = Popped(job: JobSpec, worker: nat)

  /** `pushed`, `popped`, `attempts` and `sent` only record history. */
  datatype Back = Back(
    lists: map<string, seq<JobSpec>>,
    workers: map<nat, WorkerState>,
    pushed: map<string, seq<JobSpec>>,
    popped: map<string, seq<Popped>>,
    attempts: set<Attempted>,
    sent: set<Attempted>)

  function PushJob(b: Back, q: string, job: JobSpec): Back {
    b.(lists := Append(b.lists, q, job), pushed := Append(b.pushed, q, job))
  }

  function SetLoop(b: Back, w: nat, p: LoopPhase): Back
    requires w in b.workers
  {
    b.(workers := b.workers[w := b.workers[w].(phase := p)])
  }

  predicate CanPop(b: Back, w: nat) {
    w in b.workers && b.workers[w].phase == Fetching && Log(b.lists, b.workers[w].queue) != []
  }

  function PopJob(b: Back, w: nat): Back
    requires CanPop(b, w)
  {
    var q := b.workers[w].queue;
    var job := Log(b.lists, q)[0];
    SetLoop(
      b.(lists := b.lists[q := Log(b.lists, q)[1..]], popped := Append(b.popped, q, Popped(job, w))),
      w, Running(|Log(b.popped, q)|, job))
  }

  predicate Holding(p: LoopPhase) {
    p.Running? || p.Reporting?
  }

  function AttemptOf(b: Back, w: nat): Attempted
    requires w in b.workers && b.workers[w].phase.Reporting?
  {
    var p := b.workers[w].phase;
    Attempted(b.workers[w].queue, p.at, w, p.job, p.result, p.err)
  }

  function SendReport(b: Back, w: nat, net: Attempt): Back
    requires w in b.workers && b.workers[w].phase.Reporting?
  {
    var x := AttemptOf(b, w);
    var left := !net.NotSent? && TrimSpace(x.job.callbackURL) != "";
    SetLoop(b.(attempts := b.attempts + {x}, sent := if left then b.sent + {x} else b.sent), w, Checking)
  }

  function Jobs(log: seq<Popped>): seq<JobSpec> {
    seq(|log|, k requires 0 <= k < |log| => log[k].job)
  }

  /** The job at position `k` of `q` was popped by worker `w`, who serves that queue. */
  ghost predicate PoppedBy(b: Back, q: string, k: nat, job: JobSpec, w: nat) {
    k < |Log(b.popped, q)| && Log(b.popped, q)[k] == Popped(job, w) && w in b.workers && b.workers[w].queue == q
  }

  ghost predicate Reported(b: Back, q: string, k: nat) {
    exists a :: a in b.attempts && a.queue == q && a.at == k
  }

  ghost predicate HeldBy(b: Back, q: string, k: nat, w: nat) {
    w in b.workers && b.workers[w].queue == q && Holding(b.workers[w].phase) && b.workers[w].phase.at == k
  }

  ghost predicate WorkerOk(b: Back, w: nat)
    requires w in b.workers
  {
    var p := b.workers[w].phase;
    && (Holding(p) ==> PoppedBy(b, b.workers[w].queue, p.at, p.job, w))
    && (p.Reporting? ==> WellShaped(p.result, p.err))
  }

  ghost predicate AttemptOk(b: Back, a: Attempted) {
    && PoppedBy(b, a.queue, a.at, a.job, a.worker) && WellShaped(a.result, a.err)
    && forall a' :: a' in b.attempts && a'.queue == a.queue && a'.at == a.at ==> a' == a
  }

  /** A popped job is in the hands of the one worker that popped it, or else has been reported. */
  ghost predicate PositionOk(b: Back, q: string, k: nat)
    requires k < |Log(b.popped, q)|
  {
    var x := Log(b.popped, q)[k];
    PoppedBy(b, q, k, x.job, x.worker) && (HeldBy(b, q, k, x.worker) <==> !Reported(b, q, k))
  }

  ghost predicate BackOk(b: Back) {
    && (forall q :: Log(b.pushed, q) == Jobs(Log(b.popped, q)) + Log(b.lists, q))
    && (forall w :: w in b.workers ==> WorkerOk(b, w))
    && (forall a :: a in b.attempts ==> AttemptOk(b, a))
    && (forall q, k: nat | k < |Log(b.popped, q)| :: PositionOk(b, q, k))
    && b.sent <= b.attempts
  }

  lemma SameHands(b: Back, b': Back, q: string, k: nat)
    requires b'.workers == b.workers && b'.popped == b.popped && b'.attempts == b.attempts
    ensures k < |Log(b.popped, q)| && PositionOk(b, q, k) ==> PositionOk(b', q, k)
    ensures forall a :: AttemptOk(b, a) ==> AttemptOk(b', a)
  {}

  lemma SameWorker(b: Back, b': Back, w: nat)
    requires b'.workers == b.workers && b'.popped == b.popped && w in b.workers && WorkerOk(b, w)
    ensures WorkerOk(b', w)
  {}

  lemma PushKeepsBack(b: Back, q: string, job: JobSpec)
    requires BackOk(b)
    ensures BackOk(PushJob(b, q, job))
  {
    hide AttemptOk, WorkerOk, PositionOk;
    var b' := PushJob(b, q, job);
    PushKeepsTail(b, q, job);
    hide PushJob, Jobs, Log;
    forall a | a in b'.attempts ensures AttemptOk(b', a) { SameHands(b, b', a.queue, a.at); }
    forall w | w in b'.workers ensures WorkerOk(b', w) { SameWorker(b, b', w); }
    forall x, k: nat | k < |Log(b'.popped, x)| ensures PositionOk(b', x, k) { SameHands(b, b', x, k); }
  }

  lemma PushKeepsTail(b: Back, q: string, job: JobSpec)
    requires forall x :: Log(b.pushed, x) == Jobs(Log(b.popped, x)) + Log(b.lists, x)
    ensures var b' := PushJob(b, q, job);
      && (forall x :: Log(b'.pushed, x) == Jobs(Log(b'.popped, x)) + Log(b'.lists, x))
      && b'.workers == b.workers && b'.popped == b.popped && b'.attempts == b.attempts && b'.sent == b.sent
  {
    hide Jobs;
    forall x ensures var b' := PushJob(b, q, job); Log(b'.pushed, x) == Jobs(Log(b'.popped, x)) + Log(b'.lists, x) {
      assert Log(b.pushed, x) == Jobs(Log(b.popped, x)) + Log(b.lists, x);
    }
  }

  /** Spawning, signalling, checking the flag, failing to fetch, and finishing a job. */
  lemma LoopKeepsBack(b: Back, w: nat, ws: WorkerState)
    requires BackOk(b)
    requires w !in b.workers ==> !Holding(ws.phase)
    requires w in b.workers ==>
               && ws.queue == b.workers[w].queue
               && (Holding(ws.phase) <==> Holding(b.workers[w].phase))
               && (Holding(ws.phase) ==> ws.phase.at == b.workers[w].phase.at && ws.phase.job == b.workers[w].phase.job)
               && (ws.phase.Reporting? ==> WellShaped(ws.phase.result, ws.phase.err))
    ensures BackOk(b.(workers := b.workers[w := ws]))
  {
    var b' := b.(workers := b.workers[w := ws]);
    forall a | a in b'.attempts ensures AttemptOk(b', a) { assert AttemptOk(b, a); }
    forall x | x in b'.workers ensures WorkerOk(b', x) { assert x in b.workers ==> WorkerOk(b, x); }
    forall q, k: nat | k < |Log(b'.popped, q)| ensures PositionOk(b', q, k) { assert PositionOk(b, q, k); }
  }

  lemma PopKeepsBack(b: Back, w: nat)
    requires BackOk(b) && CanPop(b, w)
    ensures BackOk(PopJob(b, w))
  {
    var b', q := PopJob(b, w), b.workers[w].queue;
    forall x ensures Log(b'.pushed, x) == Jobs(Log(b'.popped, x)) + Log(b'.lists, x) {
      assert Log(b.pushed, x) == Jobs(Log(b.popped, x)) + Log(b.lists, x);
    }
    forall a | a in b'.attempts ensures AttemptOk(b', a) { assert AttemptOk(b, a); }
    forall x | x in b'.workers ensures WorkerOk(b', x) { assert WorkerOk(b, x); }
    forall x, k: nat | k < |Log(b'.popped, x)| ensures PositionOk(b', x, k) {
      if x == q && k == |Log(b.popped, q)| {
        forall a | a in b.attempts ensures !(a.queue == q && a.at == k) { assert AttemptOk(b, a); }
      } else {
        assert PositionOk(b, x, k);
      }
    }
  }

  lemma SendKeepsBack(b: Back, w: nat, net: Attempt)
    requires BackOk(b) && w in b.workers && b.workers[w].phase.Reporting?
    ensures BackOk(SendReport(b, w, net))
    ensures AttemptOf(b, w) !in b.attempts
  {
    var b', y := SendReport(b, w, net), AttemptOf(b, w);
    assert WorkerOk(b, w) && PositionOk(b, y.queue, y.at) && HeldBy(b, y.queue, y.at, w);
    forall a | a in b'.attempts ensures AttemptOk(b', a) { assert a in b.attempts ==> AttemptOk(b, a); }
    forall x | x in b'.workers ensures WorkerOk(b', x) { assert WorkerOk(b, x); }
    forall q, k: nat | k < |Log(b'.popped, q)| ensures PositionOk(b', q, k) {
      assert PositionOk(b, q, k);
      if q == y.queue && k == y.at { assert y in b'.attempts; }
      else { assert Reported(b', q, k) <==> Reported(b, q, k); }
    }
  }

  // ---- Everything together ----

  datatype World = World(base: string, front: Front, back: Back)

  datatype Action =
    | ExecStarts(id: string, req: ExecRequest)
    | ExecPushes(id: string, outcome: Push)
    | ExecTakesReply(id: string)
    | ExecCancelled(id: string)
    | ExecCloses(id: string)
    | WorkerSpawns(w: nat, queue: string)
    | WorkerSignalled(w: nat)
    | WorkerChecks(w: nat)
    | WorkerFetchFails(w: nat)
    | WorkerFetches(w: nat)
    | WorkerFinishes(w: nat, result: Option<ExecuteResult>, err: Option<string>)
    | WorkerReports(w: nat, net: Attempt)
    | CallbackArrives(a: Attempted, isPost: bool, path: string, now: int)
    | StoreTicks(now: int)

  function Init(base: string): World {
    World(base, Front(Store(map[], map[]), map[], 0, map[], map[]), Back(map[], map[], map[], map[], {}, {}))
  }

  /** Ids are fresh; a worker's execution yields a result or an error; a callback repeats something sent. */
  predicate Enabled(s: World, a: Action) {
    var f, b := s.front, s.back;
    match a
    case ExecStarts(id, req) => id !in f.execs && id != "" && req.queueName != ""
    case ExecPushes(id, _) => id in f.execs && f.execs[id].phase.Registered?
    case ExecTakesReply(id) => CanTake(f, id)
    case ExecCancelled(id) => id in f.execs && f.execs[id].phase.Enqueued?
    case ExecCloses(id) => id in f.execs && f.execs[id].phase.Leaving?
    case WorkerSpawns(w, q) => w !in b.workers
    case WorkerSignalled(w) => w in b.workers
    case WorkerChecks(w) => w in b.workers && b.workers[w].phase == Checking
    case WorkerFetchFails(w) => w in b.workers && b.workers[w].phase == Fetching
    case WorkerFetches(w) => CanPop(b, w)
    case WorkerFinishes(w, result, err) => w in b.workers && b.workers[w].phase.Running? && WellShaped(result, err)
    case WorkerReports(w, _) => w in b.workers && b.workers[w].phase.Reporting?
    case CallbackArrives(x, _, _, _) => x in b.sent
    case StoreTicks(_) => true
  }

  function Push(s: World, id: string, outcome: Push): World
    requires id in s.front.execs
  {
    var req := s.front.execs[id].req;
    var q := TrimSpace(req.queueName);
    World(
      s.base,
      SetPhase(s.front, id, if q != "" && outcome.Pushed? then Enqueued else Leaving(Failed)),
      if q == "" || outcome.NotPushed? then s.back else PushJob(s.back, q, JobFor(s.base, id, req)))
  }

  function SetWorker(s: World, w: nat, ws: WorkerState): World {
    s.(back := s.back.(workers := s.back.workers[w := ws]))
  }

  function Next(s: World, a: Action): World
    requires Enabled(s, a)
  {
    var f, b := s.front, s.back;
    match a
    case ExecStarts(id, req) => s.(front := StartExec(f, id, req))
    case ExecPushes(id, outcome) => Push(s, id, outcome)
    case ExecTakesReply(id) => s.(front := TakeReply(f, id))
    case ExecCancelled(id) => s.(front := SetPhase(f, id, Leaving(Failed)))
    case ExecCloses(id) => s.(front := CloseWaiter(f, id))
    case WorkerSpawns(w, q) => SetWorker(s, w, WorkerState(TrimSpace(q), false, Checking))
    case WorkerSignalled(w) => SetWorker(s, w, b.workers[w].(stop := true))
    case WorkerChecks(w) => SetWorker(s, w, b.workers[w].(phase := if b.workers[w].stop then Stopped else Fetching))
    case WorkerFetchFails(w) => SetWorker(s, w, b.workers[w].(phase := Checking))
    case WorkerFetches(w) => s.(back := PopJob(b, w))
    case WorkerFinishes(w, result, err) =>
      SetWorker(s, w, b.workers[w].(phase := Reporting(b.workers[w].phase.at, b.workers[w].phase.job, result, err)))
    case WorkerReports(w, net) => s.(back := SendReport(b, w, net))
    case CallbackArrives(x, isPost, path, now) => s.(front := CallBack(f, x, isPost, path, now))
    case StoreTicks(now) => s.(front := CleanUp(f, now))
  }

  /** The world after performing `acts` one after the other, if each was possible in its turn. */
  function Run(base: string, acts: seq<Action>): Option<World> {
    if acts == [] then Some(Init(base))
    else
      var n := |acts| - 1;
      match Run(base, acts[..n])
      case Some(s) => if Enabled(s, acts[n]) then Some(Next(s, acts[n])) else None
      case None => None
  }

  /** A pushed job is the one its `Exec` asked for, on that `Exec`'s queue, and is there once. */
  ghost predicate PushedOk(s: World, q: string, k: nat)
    requires k < |Log(s.back.pushed, q)|
  {
    var log, execs := Log(s.back.pushed, q), s.front.execs;
    var id := log[k].id;
    && id in execs && !execs[id].phase.Registered?
    && log[k] == JobFor(s.base, id, execs[id].req) && q == TrimSpace(execs[id].req.queueName)
    && forall j | 0 <= j < |log| :: log[j].id == id ==> j == k
  }

  ghost predicate DeliveredOk(s: World, id: string) {
    forall k | 0 <= k < |Log(s.front.delivered, id)| ::
      Log(s.front.delivered, id)[k] in s.back.sent && Log(s.front.delivered, id)[k].job.id == id
  }

  ghost predicate LinkOk(s: World) {
    && (forall q, k: nat | k < |Log(s.back.pushed, q)| :: PushedOk(s, q, k))
    && (forall id :: DeliveredOk(s, id))
  }

  ghost predicate Inv(s: World) {
    FrontOk(s.front) && BackOk(s.back) && LinkOk(s)
  }

  /** No request changes, and no `Exec` goes back to before its push. */
  ghost predicate Onwards(f: Front, f': Front) {
    forall id :: id in f.execs ==>
      id in f'.execs && f'.execs[id].req == f.execs[id].req
      && (f'.execs[id].phase.Registered? ==> f.execs[id].phase.Registered?)
  }

  lemma LinkKept(s: World, s': World)
    requires LinkOk(s) && s'.base == s.base && Onwards(s.front, s'.front)
    requires s'.back.pushed == s.back.pushed && s.back.sent <= s'.back.sent
    requires s'.front.delivered == s.front.delivered
    ensures LinkOk(s')
  {
    forall q, k: nat | k < |Log(s'.back.pushed, q)| ensures PushedOk(s', q, k) { assert PushedOk(s, q, k); }
    forall id ensures DeliveredOk(s', id) { assert DeliveredOk(s, id); }
  }

  /** The job that sits at a popped position is the job pushed at that position. */
  lemma PoppedWasPushed(b: Back, q: string, k: nat)
    requires BackOk(b) && k < |Log(b.popped, q)|
    ensures k < |Log(b.pushed, q)| && Log(b.pushed, q)[k] == Log(b.popped, q)[k].job
  {
    assert Log(b.pushed, q) == Jobs(Log(b.popped, q)) + Log(b.lists, q);
  }

  lemma SentIsKnown(s: World, a: Attempted)
    requires Inv(s) && a in s.back.sent
    ensures a.job.id in s.front.execs && a.job.id != "" && WellShaped(a.result, a.err)
  {
    assert AttemptOk(s.back, a);
    PoppedWasPushed(s.back, a.queue, a.at);
    assert PushedOk(s, a.queue, a.at) && SlotOk(s.front, a.job.id);
  }

  lemma PushKeepsPushed(s: World, id: string, outcome: Push, q: string, k: nat)
    requires LinkOk(s) && Enabled(s, ExecPushes(id, outcome))
    requires k < |Log(Push(s, id, outcome).back.pushed, q)|
    ensures PushedOk(Push(s, id, outcome), q, k)
  {
    var log, log' := Log(s.back.pushed, q), Log(Push(s, id, outcome).back.pushed, q);
    forall j: nat | j < |log| ensures log[j].id != id && log'[j] == log[j] { assert PushedOk(s, q, j); }
    if k < |log| { assert PushedOk(s, q, k); }
  }

  lemma PushKeepsLink(s: World, id: string, outcome: Push)
    requires Inv(s) && Enabled(s, ExecPushes(id, outcome))
    ensures LinkOk(Push(s, id, outcome))
  {
    hide FrontOk, BackOk;
    var s' := Push(s, id, outcome);
    forall q, k: nat | k < |Log(s'.back.pushed, q)| ensures PushedOk(s', q, k) {
      PushKeepsPushed(s, id, outcome, q, k);
    }
    forall x ensures DeliveredOk(s', x) { assert DeliveredOk(s, x); }
  }

  lemma CallBackRecords(f: Front, x: Attempted, isPost: bool, path: string, now: int, id: string)
    requires x.job.id != "" && WellShaped(x.result, x.err)
    ensures var f', d := CallBack(f, x, isPost, path, now), Log(f.delivered, id);
      && f'.execs == f.execs
      && (Log(f'.delivered, id) == d || (id == x.job.id && Log(f'.delivered, id) == d + [x]))
  {
    ShapeSurvives(x.job, x.result, x.err, isPost, path);
  }

  lemma PushedStays(s: World, s': World)
    requires LinkOk(s) && s'.base == s.base && s'.front.execs == s.front.execs && s'.back == s.back
    ensures forall q, k: nat | k < |Log(s'.back.pushed, q)| :: PushedOk(s', q, k)
  {
    hide TrimSpace, JobFor, Log, DeliveredOk;
    forall q, k: nat | k < |Log(s'.back.pushed, q)| ensures PushedOk(s', q, k) { assert PushedOk(s, q, k); }
  }

  lemma OneMoreDelivered(s: World, s': World, x: Attempted, id: string)
    requires DeliveredOk(s, id) && s'.back == s.back && x in s.back.sent
    requires var d := Log(s.front.delivered, id);
             Log(s'.front.delivered, id) == d || (id == x.job.id && Log(s'.front.delivered, id) == d + [x])
    ensures DeliveredOk(s', id)
  {
    hide Log;
  }

  lemma CallBackKeepsLink(s: World, x: Attempted, isPost: bool, path: string, now: int)
    requires Inv(s) && x in s.back.sent
    ensures LinkOk(s.(front := CallBack(s.front, x, isPost, path, now)))
  {
    SentIsKnown(s, x);
    hide FrontOk, BackOk, CallBack, TrimSpace, JobFor, WellShaped, Log, DeliveredOk, PushedOk;
    var s' := s.(front := CallBack(s.front, x, isPost, path, now));
    CallBackRecords(s.front, x, isPost, path, now, "");
    PushedStays(s, s');
    forall id ensures DeliveredOk(s', id) {
      CallBackRecords(s.front, x, isPost, path, now, id);
      assert DeliveredOk(s, id);
      OneMoreDelivered(s, s', x, id);
    }
  }

  lemma FrontStep(s: World, a: Action)
    requires Inv(s) && Enabled(s, a)
    ensures FrontOk(Next(s, a).front)
  {
    hide FrontOk, BackOk, LinkOk;
    match a
    case ExecStarts(id, req) => StartKeepsFront(s.front, id, req);
    case ExecPushes(id, outcome) =>
      var ok := TrimSpace(s.front.execs[id].req.queueName) != "" && outcome.Pushed?;
      PhaseKeepsFront(s.front, id, if ok then Enqueued else Leaving(Failed));
    case ExecTakesReply(id) => TakeReplyKeepsFront(s.front, id);
    case ExecCancelled(id) => PhaseKeepsFront(s.front, id, Leaving(Failed));
    case ExecCloses(id) => CloseKeepsFront(s.front, id);
    case CallbackArrives(x, isPost, path, now) =>
      SentIsKnown(s, x);
      CallBackKeepsFront(s.front, x, isPost, path, now);
    case StoreTicks(now) => CleanUpKeepsFront(s.front, now);
    case _ =>
  }

  lemma BackStep(s: World, a: Action)
    requires Inv(s) && Enabled(s, a)
    ensures BackOk(Next(s, a).back)
  {
    hide FrontOk, BackOk, LinkOk;
    var b := s.back;
    match a
    case ExecPushes(id, outcome) =>
      var req := s.front.execs[id].req;
      PushKeepsBack(b, TrimSpace(req.queueName), JobFor(s.base, id, req));
    case WorkerSpawns(w, q) => LoopKeepsBack(b, w, WorkerState(TrimSpace(q), false, Checking));
    case WorkerSignalled(w) => WorkerIsOk(b, w); LoopKeepsBack(b, w, b.workers[w].(stop := true));
    case WorkerChecks(w) =>
      LoopKeepsBack(b, w, b.workers[w].(phase := if b.workers[w].stop then Stopped else Fetching));
    case WorkerFetchFails(w) => LoopKeepsBack(b, w, b.workers[w].(phase := Checking));
    case WorkerFetches(w) => PopKeepsBack(b, w);
    case WorkerFinishes(w, result, err) =>
      LoopKeepsBack(b, w,
        b.workers[w].(phase := Reporting(b.workers[w].phase.at, b.workers[w].phase.job, result, err)));
    case WorkerReports(w, net) => SendKeepsBack(b, w, net);
    case _ =>
  }

  lemma WorkerIsOk(b: Back, w: nat)
    requires BackOk(b) && w in b.workers
    ensures WorkerOk(b, w)
  {}

  lemma LinkStep(s: World, a: Action)
    requires Inv(s) && Enabled(s, a)
    ensures LinkOk(Next(s, a))
  {
    hide FrontOk, BackOk, LinkOk;
    match a
    case ExecPushes(id, outcome) => PushKeepsLink(s, id, outcome);
    case CallbackArrives(x, isPost, path, now) => CallBackKeepsLink(s, x, isPost, path, now);
    case _ => LinkKept(s, Next(s, a));
  }

  /** What holds in every reachable world, whatever the interleaving. */
  lemma {:induction false} ReachableWorlds(base: string, acts: seq<Action>)
    ensures Run(base, acts).Some? ==> Inv(Run(base, acts).value)
  {
    if acts != [] {
      var n := |acts| - 1;
      ReachableWorlds(base, acts[..n]);
      if Run(base, acts).Some? {
        var s := Run(base, acts[..n]).value;
        FrontStep(s, acts[n]);
        BackStep(s, acts[n]);
        LinkStep(s, acts[n]);
      }
    }
  }

  // ---- What each action is ----

  /** An action does to the store one critical section or one receive, or nothing. */
  lemma StoreIsStepped(s: World, a: Action)
    requires Enabled(s, a)
    ensures var st, st' := s.front.store, Next(s, a).front.store;
      match a
      case ExecStarts(id, req) => st' == Register(st, id, s.front.nextCh).0
      case ExecTakesReply(id) => st' == Receive(st, s.front.execs[id].ch)
      case ExecCloses(id) => st' == Release(st, id, s.front.execs[id].ch)
      case CallbackArrives(x, isPost, path, now) =>
        && (!isPost ==> st' == st)
        && (isPost && x.job.id != "" && x.job.id == TrimSpace(TrimPrefix(path, "/callback/")) ==>
              st' == Deliver(st, x.job.id, Response(x.result, if x.err.Some? then x.err.value else ""), now, TTL))
        && (x.job.id != "" && x.job.id != TrimSpace(TrimPrefix(path, "/callback/")) ==> st' == st)
      case StoreTicks(now) => st' == Tick(st, now)
      case _ => st' == st
  {}

  /** A report that the network takes leaves the worker iff the job has a URL; then it may arrive. */
  lemma ReportLeaves(b: Back, w: nat, net: Attempt)
    requires w in b.workers && b.workers[w].phase.Reporting?
    ensures var x := AttemptOf(b, w);
      && x.job == b.workers[w].phase.job && x.result == b.workers[w].phase.result && x.err == b.workers[w].phase.err
      && SendReport(b, w, net).attempts == b.attempts + {x}
      && SendReport(b, w, net).sent
         == (if !net.NotSent? && TrimSpace(x.job.callbackURL) != "" then b.sent + {x} else b.sent)
  {}

  // ---- A run that ends well ----

  lemma RunNext(base: string, acts: seq<Action>, a: Action)
    requires Run(base, acts).Some? && Enabled(Run(base, acts).value, a)
    ensures Run(base, acts + [a]) == Some(Next(Run(base, acts).value, a))
  {
    hide Enabled, Next;
    assert (acts + [a])[..|acts|] == acts;
  }

  /** An `Exec` and a worker, started on the same queue. */
  lemma BothStart(base: string, id: string, req: ExecRequest, w: nat) returns (acts: seq<Action>)
    requires id != "" && TrimSpace(req.queueName) != ""
    ensures Run(base, acts).Some?
    ensures var s := Run(base, acts).value;
      && id in s.front.execs && s.front.execs[id] == Exec(req, 0, Enqueued)
      && s.front.store == Store(map[id := Entry(Some(0), None, None)], map[0 := []])
      && w in s.back.workers && s.back.workers[w] == WorkerState(TrimSpace(req.queueName), false, Fetching)
      && Log(s.back.lists, TrimSpace(req.queueName)) == [JobFor(base, id, req)]
  {
    hide TrimSpace;
    acts := [];
    RunNext(base, acts, ExecStarts(id, req));
    acts := acts + [ExecStarts(id, req)];
    RunNext(base, acts, ExecPushes(id, Pushed));
    acts := acts + [ExecPushes(id, Pushed)];
    RunNext(base, acts, WorkerSpawns(w, req.queueName));
    acts := acts + [WorkerSpawns(w, req.queueName)];
    RunNext(base, acts, WorkerChecks(w));
    acts := acts + [WorkerChecks(w)];
  }

  /** The worker does the job and its report leaves. */
  lemma WorkerReportsBack(base: string, acts: seq<Action>, w: nat, job: JobSpec, result: Option<ExecuteResult>, err: Option<string>)
    returns (acts': seq<Action>, x: Attempted)
    requires Run(base, acts).Some? && WellShaped(result, err) && TrimSpace(job.callbackURL) != ""
    requires var b := Run(base, acts).value.back;
      && w in b.workers && b.workers[w].phase == Fetching && Log(b.lists, b.workers[w].queue) == [job]
    ensures Run(base, acts').Some? && Run(base, acts').value.front == Run(base, acts).value.front
    ensures x in Run(base, acts').value.back.sent && x.job == job && x.result == result && x.err == err
  {
    hide TrimSpace, Run;
    RunNext(base, acts, WorkerFetches(w));
    acts' := acts + [WorkerFetches(w)];
    RunNext(base, acts', WorkerFinishes(w, result, err));
    acts' := acts' + [WorkerFinishes(w, result, err)];
    x := AttemptOf(Run(base, acts').value.back, w);
    RunNext(base, acts', WorkerReports(w, Answered(204)));
    acts' := acts' + [WorkerReports(w, Answered(204))];
  }

  /** The callback arrives; the `Exec` takes the reply and closes its waiter. */
  lemma ExecReturns(base: string, acts: seq<Action>, id: string, x: Attempted, now: int) returns (acts': seq<Action>)
    requires Run(base, acts).Some? && x in Run(base, acts).value.back.sent
    requires id != "" && x.job.id == id && TrimSpace(id) == id
    requires var f := Run(base, acts).value.front;
      && id in f.execs && f.execs[id].phase == Enqueued && f.execs[id].ch == 0
      && f.store == Store(map[id := Entry(Some(0), None, None)], map[0 := []])
    ensures Run(base, acts').Some? && id in Run(base, acts').value.front.execs
    ensures Run(base, acts').value.front.execs[id].phase
            == Returned(Replied(Response(x.result, if x.err.Some? then x.err.value else "")))
    ensures Run(base, acts').value.front.execs[id].req == Run(base, acts).value.front.execs[id].req
  {
    hide TrimSpace, Run;
    assert TrimPrefix("/callback/" + id, CALLBACK) == id by { assert ("/callback/" + id)[|CALLBACK|..] == id; }
    var callback := CallbackArrives(x, true, "/callback/" + id, now);
    StoreIsStepped(Run(base, acts).value, callback);
    RunNext(base, acts, callback);
    acts' := acts + [callback];
    RunNext(base, acts', ExecTakesReply(id));
    acts' := acts' + [ExecTakesReply(id)];
    RunNext(base, acts', ExecCloses(id));
    acts' := acts' + [ExecCloses(id)];
  }

  /**
    Any request can be served: there is a run in which its `Exec` returns what a worker's
    execution of its job yields, result and error text alike.
  */
  lemma AnyExecCanSucceed(base: string, id: string, req: ExecRequest, w: nat, now: int,
                          result: Option<ExecuteResult>, err: Option<string>)
    returns (acts: seq<Action>)
    requires base != "" && !IsSpace(base[0]) && TrimSpace(req.queueName) != ""
    requires id != "" && forall c | c in id :: !IsSpace(c)
    requires WellShaped(result, err)
    ensures Run(base, acts).Some? && id in Run(base, acts).value.front.execs
    ensures Run(base, acts).value.front.execs[id].req == req
    ensures Run(base, acts).value.front.execs[id].phase
            == Returned(Replied(Response(result, if err.Some? then err.value else "")))
  {
    CallbackURLLeadsBack(base, id, Response(result, ""));
    assert TrimSpace(CallbackURL(base, id)) != "" && TrimSpace(id) == id by {
      assert id[0] in id && id[|id| - 1] in id;
    }
    hide TrimSpace, Run, CallbackURL;
    acts := BothStart(base, id, req, w);
    var x;
    acts, x := WorkerReportsBack(base, acts, w, JobFor(base, id, req), result, err);
    acts := ExecReturns(base, acts, id, x, now);
  }

  /** At any moment the cleanup may run, and a report that was sent may arrive, late or again, at whatever path. */
  lemma MayAlwaysArrive(base: string, acts: seq<Action>, x: Attempted, isPost: bool, path: string, now: int)
    requires Run(base, acts).Some?
    ensures Run(base, acts + [StoreTicks(now)]).Some?
    ensures x in Run(base, acts).value.back.sent ==> Run(base, acts + [CallbackArrives(x, isPost, path, now)]).Some?
  {
    hide Run, Next;
    RunNext(base, acts, StoreTicks(now));
    if x in Run(base, acts).value.back.sent { RunNext(base, acts, CallbackArrives(x, isPost, path, now)); }
  }

  /** An `Exec` waits iff its push was heard of; the job is at the tail of its queue even if it was not heard of. */
  lemma PushHappens(base: string, acts: seq<Action>, id: string, outcome: Push) returns (end: World)
    requires Run(base, acts).Some? && id in Run(base, acts).value.front.execs
    requires Run(base, acts).value.front.execs[id].phase.Registered?
    ensures Run(base, acts + [ExecPushes(id, outcome)]) == Some(end)
    ensures var b, req := Run(base, acts).value.back, Run(base, acts).value.front.execs[id].req;
            var q := TrimSpace(req.queueName);
      && id in end.front.execs
      && end.front.execs[id].phase == (if q != "" && outcome.Pushed? then Enqueued else Leaving(Failed))
      && (forall x :: Log(end.back.lists, x)
                      == if x == q && q != "" && !outcome.NotPushed?
                         then Log(b.lists, x) + [JobSpec(base + "/callback/" + id, id, req.binary, req.capturePattern, req.args)]
                         else Log(b.lists, x))
  {
    BaseStays(base, acts);
    hide Run, TrimSpace;
    RunNext(base, acts, ExecPushes(id, outcome));
    end := Run(base, acts + [ExecPushes(id, outcome)]).value;
  }

  /** A waiter may give up at any moment; then it is closed, and nobody is registered for its id. */
  lemma MayGiveUp(base: string, acts: seq<Action>, id: string) returns (end: World)
    requires Run(base, acts).Some? && id in Run(base, acts).value.front.execs
    requires Run(base, acts).value.front.execs[id].phase.Enqueued?
    ensures Run(base, acts + [ExecCancelled(id)] + [ExecCloses(id)]) == Some(end)
    ensures id in end.front.execs && end.front.execs[id].phase == Returned(Failed)
    ensures EntryOrNew(end.front.store, id).ch.None?
  {
    ReachableWorlds(base, acts);
    assert SlotOk(Run(base, acts).value.front, id);
    hide Run, BackOk, LinkOk, FrontOk;
    RunNext(base, acts, ExecCancelled(id));
    RunNext(base, acts + [ExecCancelled(id)], ExecCloses(id));
    end := Run(base, acts + [ExecCancelled(id)] + [ExecCloses(id)]).value;
  }

  /** A worker told to stop stops at the top of its loop. */
  lemma MayStop(base: string, acts: seq<Action>, w: nat) returns (end: World)
    requires Run(base, acts).Some? && w in Run(base, acts).value.back.workers
    requires Run(base, acts).value.back.workers[w].phase.Checking?
    ensures Run(base, acts + [WorkerSignalled(w)] + [WorkerChecks(w)]) == Some(end)
    ensures w in end.back.workers && end.back.workers[w].phase == Stopped
  {
    hide Run;
    RunNext(base, acts, WorkerSignalled(w));
    RunNext(base, acts + [WorkerSignalled(w)], WorkerChecks(w));
    end := Run(base, acts + [WorkerSignalled(w)] + [WorkerChecks(w)]).value;
  }

  // ---- The theorems ----

  /**
    End-to-end routing. A reply that an `Exec` received is the first one delivered for it,
    and was reported by a worker that popped, from the queue that the `Exec` named, the job
    carrying exactly that `Exec`'s id, binary, arguments and capture pattern.
  */
  lemma EndToEndRouting(base: string, acts: seq<Action>, id: string)
    requires Run(base, acts).Some?
    ensures var s := Run(base, acts).value;
      id in s.front.execs && !Awaiting(s.front.execs[id]) && s.front.execs[id].phase.out.Replied? ==>
        var req, d := s.front.execs[id].req, Log(s.front.delivered, id);
        && d != []
        && s.front.execs[id].phase.out.r == Response(d[0].result, if d[0].err.Some? then d[0].err.value else "")
        && d[0] in s.back.attempts && d[0].queue == TrimSpace(req.queueName)
        && d[0].job.id == id && d[0].job.callbackURL == base + "/callback/" + id
        && d[0].job.binary == req.binary && d[0].job.args == req.args && d[0].job.capturePattern == req.capturePattern
        && PoppedBy(s.back, d[0].queue, d[0].at, d[0].job, d[0].worker)
  {
    ReachableWorlds(base, acts);
    BaseStays(base, acts);
    var s := Run(base, acts).value;
    assert SlotOk(s.front, id) && DeliveredOk(s, id);
    var d := Log(s.front.delivered, id);
    if d != [] {
      DeliveredWasPushed(s, id);
    }
  }

  lemma DeliveredWasPushed(s: World, id: string)
    requires Inv(s) && Log(s.front.delivered, id) != []
    ensures var a := Log(s.front.delivered, id)[0];
      && a in s.back.attempts && PoppedBy(s.back, a.queue, a.at, a.job, a.worker)
      && WellShaped(a.result, a.err) && id in s.front.execs
      && a.job == JobFor(s.base, id, s.front.execs[id].req) && a.queue == TrimSpace(s.front.execs[id].req.queueName)
  {
    var a := Log(s.front.delivered, id)[0];
    assert DeliveredOk(s, id) && AttemptOk(s.back, a);
    PoppedWasPushed(s.back, a.queue, a.at);
    assert PushedOk(s, a.queue, a.at);
  }

  lemma {:induction false} BaseStays(base: string, acts: seq<Action>)
    ensures Run(base, acts).Some? ==> Run(base, acts).value.base == base
  {
    if acts != [] { BaseStays(base, acts[..|acts| - 1]); }
  }

  /** Every reply that reaches an `Exec` with no error text has a result to unpack. */
  lemma RepliesAreUsable(base: string, acts: seq<Action>, id: string)
    requires Run(base, acts).Some? && id in Run(base, acts).value.front.execs
    ensures var e := Run(base, acts).value.front.execs[id];
      !Awaiting(e) && e.phase.out.Replied? ==> e.phase.out.r.error != "" || e.phase.out.r.result.Some?
  {
    ReachableWorlds(base, acts);
    var s := Run(base, acts).value;
    assert SlotOk(s.front, id);
    if Log(s.front.delivered, id) != [] { DeliveredWasPushed(s, id); }
  }

  /** No wake-up is lost: an enqueued `Exec` can take a reply as soon as one was delivered, and only then. */
  lemma NoLostWakeUp(base: string, acts: seq<Action>, id: string)
    requires Run(base, acts).Some? && id in Run(base, acts).value.front.execs
    ensures var f := Run(base, acts).value.front;
      f.execs[id].phase.Enqueued? ==> (CanTake(f, id) <==> Log(f.delivered, id) != [])
  {
    ReachableWorlds(base, acts);
    assert SlotOk(Run(base, acts).value.front, id);
  }

  /** Once every `Exec` has returned, nothing is left registered: all entries are unclaimed replies. */
  lemma ReturnedLeavesNoWaiter(base: string, acts: seq<Action>, id: string)
    requires Run(base, acts).Some?
    requires forall x :: x in Run(base, acts).value.front.execs ==> Run(base, acts).value.front.execs[x].phase.Returned?
    ensures EntryOrNew(Run(base, acts).value.front.store, id).ch.None?
  {
    ReachableWorlds(base, acts);
    assert SlotOk(Run(base, acts).value.front, id);
  }

  /** Every `Exec` has at most one job, ever, on any queue: no job is run twice. */
  lemma OneJobPerExec(base: string, acts: seq<Action>, q: string, k: nat, q': string, k': nat)
    requires Run(base, acts).Some?
    requires var b := Run(base, acts).value.back;
      && k < |Log(b.pushed, q)| && k' < |Log(b.pushed, q')| && Log(b.pushed, q)[k].id == Log(b.pushed, q')[k'].id
    ensures q == q' && k == k'
  {
    ReachableWorlds(base, acts);
    hide FrontOk, BackOk;
    var s := Run(base, acts).value;
    assert PushedOk(s, q, k) && PushedOk(s, q', k');
  }

  ghost predicate InQueue(b: Back, q: string, k: nat) {
    |Log(b.popped, q)| <= k < |Log(b.popped, q)| + |Log(b.lists, q)|
    && k < |Log(b.pushed, q)| && Log(b.lists, q)[k - |Log(b.popped, q)|] == Log(b.pushed, q)[k]
  }

  ghost predicate HeldBySomeone(b: Back, q: string, k: nat) {
    exists w :: HeldBy(b, q, k, w)
  }

  /**
    Job conservation and order. Jobs leave a queue in the order they entered it. Each job
    ever pushed is in exactly one of three places: still queued, in the hands of the one
    worker that popped it, or reported, once.
  */
  lemma JobConservation(base: string, acts: seq<Action>, q: string, k: nat)
    requires Run(base, acts).Some? && k < |Log(Run(base, acts).value.back.pushed, q)|
    ensures var b := Run(base, acts).value.back;
      && Jobs(Log(b.popped, q)) <= Log(b.pushed, q)
      && (InQueue(b, q, k) || HeldBySomeone(b, q, k) || Reported(b, q, k))
      && !(InQueue(b, q, k) && HeldBySomeone(b, q, k))
      && !(InQueue(b, q, k) && Reported(b, q, k))
      && !(HeldBySomeone(b, q, k) && Reported(b, q, k))
      && (forall w, w' :: HeldBy(b, q, k, w) && HeldBy(b, q, k, w') ==> w == w')
      && (forall a, a' :: a in b.attempts && a' in b.attempts && a.queue == a'.queue == q && a.at == a'.at == k ==> a == a')
  {
    hide FrontOk, LinkOk, BackOk, Run, PoppedBy;
    ReachableWorlds(base, acts);
    PlacesOfJob(Run(base, acts).value.back, q, k);
  }

  lemma PlacesOfJob(b: Back, q: string, k: nat)
    requires BackOk(b) && k < |Log(b.pushed, q)|
    ensures
      && Jobs(Log(b.popped, q)) <= Log(b.pushed, q)
      && (InQueue(b, q, k) || HeldBySomeone(b, q, k) || Reported(b, q, k))
      && !(InQueue(b, q, k) && HeldBySomeone(b, q, k))
      && !(InQueue(b, q, k) && Reported(b, q, k))
      && !(HeldBySomeone(b, q, k) && Reported(b, q, k))
      && (forall w, w' :: HeldBy(b, q, k, w) && HeldBy(b, q, k, w') ==> w == w')
      && (forall a, a' :: a in b.attempts && a' in b.attempts && a.queue == a'.queue == q && a.at == a'.at == k ==> a == a')
  {
    HeldMeans(b, q, k);
    QueueIsTail(b, q);
    hide Jobs;
    if k < |Log(b.popped, q)| { assert PositionOk(b, q, k); }
  }

  lemma QueueIsTail(b: Back, q: string)
    requires BackOk(b)
    ensures Log(b.pushed, q) == Jobs(Log(b.popped, q)) + Log(b.lists, q) && |Jobs(Log(b.popped, q))| == |Log(b.popped, q)|
  {}

  lemma HeldMeans(b: Back, q: string, k: nat)
    requires BackOk(b)
    ensures forall w :: HeldBy(b, q, k, w) ==> k < |Log(b.popped, q)| && Log(b.popped, q)[k].worker == w
    ensures forall a :: a in b.attempts && a.queue == q && a.at == k ==> k < |Log(b.popped, q)| && AttemptOk(b, a)
  {
    forall w | HeldBy(b, q, k, w) ensures k < |Log(b.popped, q)| && Log(b.popped, q)[k].worker == w {
      assert WorkerOk(b, w);
    }
  }

  /** A worker that has stopped has attempted a report for every job it ever popped. */
  lemma StoppedWorkerOwesNothing(base: string, acts: seq<Action>, w: nat, q: string, k: nat)
    requires Run(base, acts).Some?
    requires var b := Run(base, acts).value.back;
      && w in b.workers && b.workers[w].phase.Stopped?
      && k < |Log(b.popped, q)| && Log(b.popped, q)[k].worker == w
    ensures Reported(Run(base, acts).value.back, q, k)
  {
    ReachableWorlds(base, acts);
    assert PositionOk(Run(base, acts).value.back, q, k);
  }
}
