/**
  `Exec` as it is written: register, enqueue, wait, unpack, with a deferred close. What the
  other goroutines do to the store while it runs is a parameter.
*/
module Api {
  import opened Prelude
  import opened Messages
  import opened Text
  import opened StoreSpec
  import opened ResponseStore
  import opened Worker
  import opened Proxy

  /** A reply delivered, or a cleanup pass, between two steps of an `Exec`. */
  datatype Happening<+R> = Arrives(id: string, r: R, now: int) | Cleans(now: int)

  function Happen<C(==), R>(s: Store<C, R>, h: Happening<R>, ttl: nat): Store<C, R> {
    match h
    case Arrives(id, r, now) => Deliver(s, id, r, now, ttl)
    case Cleans(now) => Tick(s, now)
  }

  function HappenAll<C(==), R>(s: Store<C, R>, hs: seq<Happening<R>>, ttl: nat): Store<C, R> {
    if hs == [] then s else Happen(HappenAll(s, hs[..|hs| - 1], ttl), hs[|hs| - 1], ttl)
  }

  /** The reply a waiter ends up with: what it has, or else the first to arrive for its id. */
  function FirstFor<R>(id: string, got: Option<R>, hs: seq<Happening<R>>): Option<R>
    decreases |hs|
  {
    if got.Some? || hs == [] then got
    else FirstFor(id, if hs[0].Arrives? && hs[0].id == id then Some(hs[0].r) else None, hs[1..])
  }

  /** It is the first arrival that has the id, wherever it stands. */
  lemma {:induction false} FirstForMeans<R>(id: string, hs: seq<Happening<R>>, k: nat)
    requires k <= |hs| && forall i :: 0 <= i < k ==> !(hs[i].Arrives? && hs[i].id == id)
    ensures FirstFor(id, None, hs)
            == if k == |hs| then None else if hs[k].Arrives? && hs[k].id == id then Some(hs[k].r) else FirstFor(id, None, hs[k + 1..])
    decreases k
  {
    if k > 0 {
      assert forall i :: 0 <= i < k - 1 ==> hs[1..][i] == hs[i + 1];
      FirstForMeans(id, hs[1..], k - 1);
      if k < |hs| { assert hs[1..][k - 1] == hs[k] && hs[1..][k..] == hs[k + 1..]; }
    }
  }

  /** The waiter on channel `c` is registered and empty, or holds the reply it got and is no longer registered. */
  ghost predicate Slot<C, R>(s: Store<C, R>, id: string, c: C, got: Option<R>) {
    && Coherent(s) && c in s.bufs
    && (got.None? ==> id in s.entries && s.entries[id].ch == Some(c) && s.bufs[c] == [])
    && (got.Some? ==> s.bufs[c] == [got.value] && (id in s.entries ==> s.entries[id].ch.None?))
  }

  lemma SlotStep<C, R>(s: Store<C, R>, id: string, c: C, got: Option<R>, h: Happening<R>, ttl: nat)
    requires Slot(s, id, c, got)
    ensures Slot(Happen(s, h, ttl), id, c, if got.None? && h.Arrives? && h.id == id then Some(h.r) else got)
  {
    match h
    case Arrives(x, r, now) => DeliverKeepsCoherent(s, x, r, now, ttl);
    case Cleans(now) => TickKeepsCoherent(s, now);
  }

  lemma ChannelsKept<C, R>(s: Store<C, R>, h: Happening<R>, ttl: nat)
    requires Coherent(s)
    ensures Happen(s, h, ttl).bufs.Keys == s.bufs.Keys
  {}

  lemma {:induction false} FirstForSnoc<R>(id: string, got: Option<R>, hs: seq<Happening<R>>, h: Happening<R>)
    ensures FirstFor(id, got, hs + [h])
            == if FirstFor(id, got, hs).None? && h.Arrives? && h.id == id then Some(h.r) else FirstFor(id, got, hs)
    decreases |hs|
  {
    if got.None? && hs != [] {
      assert (hs + [h])[1..] == hs[1..] + [h];
      FirstForSnoc(id, if hs[0].Arrives? && hs[0].id == id then Some(hs[0].r) else None, hs[1..], h);
    }
  }

  /** Whatever else happens, a waiter is handed the first reply to its id, once. */
  lemma {:induction false} SlotMeanwhile<C, R>(s: Store<C, R>, id: string, c: C, got: Option<R>, hs: seq<Happening<R>>, ttl: nat)
    requires Slot(s, id, c, got)
    ensures Slot(HappenAll(s, hs, ttl), id, c, FirstFor(id, got, hs))
  {
    hide Slot, Happen;
    if hs != [] {
      var n := |hs| - 1;
      SlotMeanwhile(s, id, c, got, hs[..n], ttl);
      SlotStep(HappenAll(s, hs[..n], ttl), id, c, FirstFor(id, got, hs[..n]), hs[n], ttl);
      FirstForSnoc(id, got, hs[..n], hs[n]);
      assert hs == hs[..n] + [hs[n]];
    }
  }

  lemma {:induction false} FirstForAppend<R>(id: string, got: Option<R>, hs: seq<Happening<R>>, more: seq<Happening<R>>)
    ensures FirstFor(id, FirstFor(id, got, hs), more) == FirstFor(id, got, hs + more)
    decreases |more|
  {
    if more == [] {
      assert hs + more == hs;
    } else {
      var n := |more| - 1;
      FirstForAppend(id, got, hs, more[..n]);
      FirstForSnoc(id, FirstFor(id, got, hs), more[..n], more[n]);
      FirstForSnoc(id, got, hs + more[..n], more[n]);
      assert more == more[..n] + [more[n]] && hs + more == hs + more[..n] + [more[n]];
    }
  }

  /** What `Exec` says once its job is queued, given the first reply for it, if any came. */
  predicate Answers(got: Option<Response>, ctxDone: bool, r: Result<ExecResponse, ExecError>) {
    match r
    case Ok(x) => got.Some? && got.value.error == "" && got.value.result.Some? && Unpacks(got.value.result.value, x)
    case Err(JobFailed(text)) => got.Some? && text == got.value.error != ""
    case Err(ResultIsNil) => got.Some? && got.value.error == "" && got.value.result.None?
    case Err(ContextDone) => ctxDone
    case Err(_) => true
  }

  datatype ExecError =
    | EmptyQueueName
    | AlreadyWaiting
    | NotEnqueued
    | ContextDone
    | JobFailed(text: string)
    | ResultIsNil  // a reply with neither error nor result: the process would stop, after the deferred close

  class Server {
    const store: ResponseStore
    const redis: Redis
    const callbackURL: string

    constructor (store: ResponseStore, redis: Redis, callbackURL: string)
      ensures this.store == store && this.redis == redis && this.callbackURL == callbackURL
    {
      this.store, this.redis, this.callbackURL := store, redis, callbackURL;
    }

    method Meanwhile(hs: seq<Happening<Response>>)
      requires store.Valid()
      modifies store, store.bufs.Keys
      ensures store.Valid() && store.bufs.Keys == old(store.bufs.Keys)
      ensures store.State() == HappenAll(old(store.State()), hs, store.ttl)
    {
      hide Coherent, StoreSpec.Deliver, Tick;
      assert hs[..0] == [];
      for k := 0 to |hs|
        invariant store.Valid() && store.bufs.Keys == old(store.bufs.Keys)
        invariant store.State() == HappenAll(old(store.State()), hs[..k], store.ttl)
      {
        assert hs[..k + 1][..k] == hs[..k];
        ChannelsKept(store.State(), hs[k], store.ttl);
        match hs[k] {
          case Arrives(id, r, now) => store.Deliver(id, r, now);
          case Cleans(now) => store.CleanupPass(now);
        }
      }
      assert hs[..|hs|] == hs;
    }

    /** What comes between registering a waiter and closing it. */
    method Serve(w: Waiter, req: ExecRequest, outcome: Push, before: seq<Happening<Response>>,
                 meanwhile: seq<Happening<Response>>, ctxDone: bool, ghost got: Option<Response>)
      returns (r: Result<ExecResponse, ExecError>)
      requires store.Valid() && w.store == store && Slot(store.State(), w.id, w.ch, got)
      requires ctxDone || !outcome.Pushed? || TrimSpace(req.queueName) == ""
               || FirstFor(w.id, got, before + meanwhile).Some?
      modifies store, store.bufs.Keys, redis
      ensures store.Valid()
      ensures EntryOrNew(store.State(), w.id).ch.Some? ==> EntryOrNew(store.State(), w.id).ch == Some(w.ch)
      ensures r != Err(EmptyQueueName) && r != Err(AlreadyWaiting)
      ensures r == Err(NotEnqueued) <==> TrimSpace(req.queueName) == "" || !outcome.Pushed?
      ensures Appended(
                old(redis.lists), redis.lists, req.queueName,
                Some(JobSpec(callbackURL + "/callback/" + w.id, w.id, req.binary, req.capturePattern, req.args)), outcome)
      ensures Answers(FirstFor(w.id, got, before + meanwhile), ctxDone, r)
    {
      hide Coherent, HappenAll, FirstFor, Appended, TrimSpace, Unpacks;
      ghost var s0 := store.State();
      Meanwhile(before);
      SlotMeanwhile(s0, w.id, w.ch, got, before, store.ttl);
      ghost var early := FirstFor(w.id, got, before);
      var pushed := redis.Enqueue(req.queueName, Some(JobFor(callbackURL, w.id, req)), outcome);
      if !pushed {
        return Err(NotEnqueued);
      }
      ghost var s1 := store.State();
      Meanwhile(meanwhile);
      SlotMeanwhile(s1, w.id, w.ch, early, meanwhile, store.ttl);
      FirstForAppend(w.id, got, before, meanwhile);
      r := Await(w, ctxDone, FirstFor(w.id, got, before + meanwhile));
    }

    /** Waits for a reply or the end of the context, and unpacks. */
    method Await(w: Waiter, ctxDone: bool, ghost got: Option<Response>) returns (r: Result<ExecResponse, ExecError>)
      requires store.Valid() && w.store == store && Slot(store.State(), w.id, w.ch, got)
      requires ctxDone || got.Some?
      modifies store, w.ch
      ensures store.Valid() && store.State().entries == old(store.State().entries)
      ensures r.Ok? || r == Err(ContextDone) || r.error.JobFailed? || r == Err(ResultIsNil)
      ensures Answers(got, ctxDone, r)
    {
      hide Coherent, Unpacks;
      var resp := w.Wait(ctxDone);
      if resp.None? {
        return Err(ContextDone);
      }
      var unpacked := Unpack(resp.value);
      match unpacked {
        case Ok(x) => return Ok(x);
        case Err(Remote(text)) => return Err(JobFailed(text));
        case Err(NilDereference) => return Err(ResultIsNil);
      }
    }

    /**
      Ends with the job's result or its error if a reply came, before or after the push, and
      the waiter is always unregistered. Only a context that is done can make `Exec` miss a
      reply; and what it returns comes from the first reply for its own id.
    */
    method Exec(req: ExecRequest, reqID: string, outcome: Push, before: seq<Happening<Response>>,
                meanwhile: seq<Happening<Response>>, ctxDone: bool, now: int)
      returns (r: Result<ExecResponse, ExecError>)
      requires store.Valid()
      requires ctxDone || !outcome.Pushed? || TrimSpace(req.queueName) == ""
               || FirstFor(reqID, EntryOrNew(store.State(), reqID).resp, before + meanwhile).Some?
      modifies store, store.bufs.Keys, redis
      ensures store.Valid()
      ensures r == Err(EmptyQueueName) <==> req.queueName == ""
      ensures r == Err(AlreadyWaiting) <==> req.queueName != "" && old(EntryOrNew(store.State(), reqID)).ch.Some?
      ensures r == Err(EmptyQueueName) || r == Err(AlreadyWaiting) ==>
                store.State() == old(store.State()) && redis.lists == old(redis.lists)
      ensures !(r == Err(EmptyQueueName) || r == Err(AlreadyWaiting)) ==>
                && EntryOrNew(store.State(), reqID).ch.None?
                && (r == Err(NotEnqueued) <==> TrimSpace(req.queueName) == "" || !outcome.Pushed?)
                && Appended(
                     old(redis.lists), redis.lists, req.queueName,
                     Some(JobSpec(callbackURL + "/callback/" + reqID, reqID, req.binary, req.capturePattern, req.args)), outcome)
      ensures Answers(FirstFor(reqID, old(EntryOrNew(store.State(), reqID)).resp, before + meanwhile), ctxDone, r)
    {
      hide FirstFor, Appended, TrimSpace, Unpacks;
      if req.queueName == "" {
        return Err(EmptyQueueName);
      }
      var w := store.NewWaiter(reqID);
      if w.None? {
        return Err(AlreadyWaiting);
      }
      ghost var got := old(EntryOrNew(store.State(), reqID)).resp;
      r := Serve(w.value, req, outcome, before, meanwhile, ctxDone, got);
      w.value.Close(now);
    }
  }
}
