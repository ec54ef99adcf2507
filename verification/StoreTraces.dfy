/**
  The response store over whole runs: any interleaving of its critical sections.

  A trace is the sequence of critical sections and channel receives in the order they
  take the lock. A channel is named by the position of the `Register` that made it, and
  a reply by the position of the `Deliver` that brought it, so channels are fresh and
  replies distinct by construction. Closing a waiter may happen late, early, or many
  times; cleanup ticks may happen at any moment.
*/
module StoreTraces {
  import opened Prelude
  import opened StoreSpec

  datatype Event =
    | RegisterEv(id: string)
    | DeliverEv(id: string)
    | ReleaseEv(waiter: nat)
    | TickEv
    | ReceiveEv(waiter: nat)

  datatype Step = Step(ev: Event, now: int)

  type Trace = seq<Step>

  type State = Store<nat, nat>

  /** A waiter exists before it is closed; a receive completes only on a full channel. */
  ghost predicate Enabled(s: State, tr: Trace, k: nat)
    requires k < |tr|
  {
    match tr[k].ev
    case ReleaseEv(c) => c < k && tr[c].ev.RegisterEv?
    case ReceiveEv(c) => c in s.bufs && s.bufs[c] != []
    case _ => true
  }

  ghost predicate Legal(tr: Trace, ttl: nat, n: nat)
    requires n <= |tr|
    decreases n, 0
  {
    n == 0 || (Legal(tr, ttl, n - 1) && Enabled(After(tr, ttl, n - 1), tr, n - 1))
  }

  /** The effect of step `k` on the store. */
  ghost function Apply(s: State, tr: Trace, ttl: nat, k: nat): State
    requires k < |tr| && Coherent(s) && Enabled(s, tr, k)
  {
    match tr[k].ev
    case RegisterEv(id) => Register(s, id, k).0
    case DeliverEv(id) => Deliver(s, id, k, tr[k].now, ttl)
    case ReleaseEv(c) => Release(s, tr[c].ev.id, c)
    case TickEv => Tick(s, tr[k].now)
    case ReceiveEv(c) => Receive(s, c)
  }

  lemma ApplyKeepsCoherent(s: State, tr: Trace, ttl: nat, k: nat)
    requires k < |tr| && Coherent(s) && Enabled(s, tr, k)
    requires forall c :: c in s.bufs ==> c < k
    ensures var s' := Apply(s, tr, ttl, k); Coherent(s') && forall c :: c in s'.bufs ==> c < k + 1
  {
    match tr[k].ev
    case RegisterEv(id) => RegisterKeepsCoherent(s, id, k);
    case DeliverEv(id) => DeliverKeepsCoherent(s, id, k, tr[k].now, ttl);
    case ReleaseEv(c) => ReleaseKeepsCoherent(s, tr[c].ev.id, c);
    case TickEv => TickKeepsCoherent(s, tr[k].now);
    case ReceiveEv(c) => ReceiveKeepsCoherent(s, c);
  }

  /** The store after the first `n` steps. */
  ghost function After(tr: Trace, ttl: nat, n: nat): (s: State)
    requires n <= |tr| && Legal(tr, ttl, n)
    ensures Coherent(s) && forall c :: c in s.bufs ==> c < n
    decreases n, 1
  {
    if n == 0 then Store(map[], map[]) else
      var s := After(tr, ttl, n - 1);
      ApplyKeepsCoherent(s, tr, ttl, n - 1);
      Apply(s, tr, ttl, n - 1)
  }

  // ---- What the trace itself says, without looking at the store ----

  /**
    Reply `j` lies unclaimed for `id` after `n` steps: when it came nobody was waiting, and
    since then no other reply replaced it, nobody registered, and no tick found it expired.
  */
  ghost predicate Held(tr: Trace, ttl: nat, n: nat, id: string, j: nat)
    requires n <= |tr|
    decreases n, 0
  {
    && j < n && tr[j].ev == DeliverEv(id) && NoWaiter(tr, ttl, j, id)
    && forall k | j < k < n ::
         && tr[k].ev != DeliverEv(id)
         && tr[k].ev != RegisterEv(id)
         && !(tr[k].ev.TickEv? && tr[j].now + ttl < tr[k].now)
  }

  /**
    Waiter `i` is waiting for `id` after `n` steps: it registered when nobody else was
    waiting and nothing was held, and since then no reply came and it was not closed.
  */
  ghost predicate Waiting(tr: Trace, ttl: nat, n: nat, id: string, i: nat)
    requires n <= |tr|
    decreases n, 0
  {
    && i < n && tr[i].ev == RegisterEv(id) && NoWaiter(tr, ttl, i, id) && NothingHeld(tr, ttl, i, id)
    && forall k | i < k < n :: tr[k].ev != DeliverEv(id) && tr[k].ev != ReleaseEv(i)
  }

  ghost predicate NoWaiter(tr: Trace, ttl: nat, n: nat, id: string)
    requires n <= |tr|
    decreases n, 1
  {
    forall i: nat | i < n :: !Waiting(tr, ttl, n, id, i)
  }

  ghost predicate NothingHeld(tr: Trace, ttl: nat, n: nat, id: string)
    requires n <= |tr|
    decreases n, 1
  {
    forall j: nat | j < n :: !Held(tr, ttl, n, id, j)
  }

  /**
    The abstract mailbox: waiter `i` gets reply `j` when `j` was held as `i` registered, or
    `j` is the first reply after `i` registered and before `i` was closed.
  */
  ghost predicate Gives(tr: Trace, ttl: nat, i: nat, j: nat)
    requires i < |tr| && j < |tr|
  {
    && tr[i].ev.RegisterEv? && tr[j].ev == DeliverEv(tr[i].ev.id)
    && (if j < i then Held(tr, ttl, i, tr[i].ev.id, j) else Waiting(tr, ttl, j, tr[i].ev.id, i))
  }

  // ---- The locked map is the mailbox ----

  lemma HeldStep(tr: Trace, ttl: nat, n: nat, id: string, j: nat)
    requires n < |tr|
    ensures Held(tr, ttl, n + 1, id, j) <==>
      if j == n then tr[n].ev == DeliverEv(id) && NoWaiter(tr, ttl, n, id)
      else Held(tr, ttl, n, id, j) && tr[n].ev != DeliverEv(id) && tr[n].ev != RegisterEv(id)
           && !(tr[n].ev.TickEv? && tr[j].now + ttl < tr[n].now)
  {}

  lemma WaitingStep(tr: Trace, ttl: nat, n: nat, id: string, i: nat)
    requires n < |tr|
    ensures Waiting(tr, ttl, n + 1, id, i) <==>
      if i == n then tr[n].ev == RegisterEv(id) && NoWaiter(tr, ttl, n, id) && NothingHeld(tr, ttl, n, id)
      else Waiting(tr, ttl, n, id, i) && tr[n].ev != DeliverEv(id) && tr[n].ev != ReleaseEv(i)
  {}

  const EMPTY: Entry<nat, nat> := Entry(None, None, None)

  /** One step as seen by a single id. */
  function MailStep(e: Entry<nat, nat>, tr: Trace, ttl: nat, k: nat, id: string): Entry<nat, nat>
    requires k < |tr|
    requires tr[k].ev.ReleaseEv? ==> tr[k].ev.waiter < |tr| && tr[tr[k].ev.waiter].ev.RegisterEv?
  {
    match tr[k].ev
    case RegisterEv(x) =>
      if x != id || e.ch.Some? then e else if e.resp.Some? then EMPTY else Entry(Some(k), None, None)
    case DeliverEv(x) =>
      if x != id then e else if e.ch.Some? then EMPTY else Entry(None, Some(k), Some(tr[k].now + ttl))
    case ReleaseEv(c) => if tr[c].ev.id == id && e.ch == Some(c) then EMPTY else e
    case TickEv => if e.resp.Some? && e.expiry.Some? && e.expiry.value < tr[k].now then EMPTY else e
    case ReceiveEv(c) => e
  }

  /** The ids do not interfere: the entry of an id evolves by that id's own steps and the ticks. */
  lemma EntryStep(s: State, tr: Trace, ttl: nat, k: nat, id: string)
    requires k < |tr| && Coherent(s) && Enabled(s, tr, k)
    ensures EntryOrNew(Apply(s, tr, ttl, k), id) == MailStep(EntryOrNew(s, id), tr, ttl, k, id)
  {}

  ghost predicate Means(e: Entry<nat, nat>, tr: Trace, ttl: nat, n: nat, id: string)
    requires n <= |tr|
  {
    && (e.ch.Some? ==> e.ch.value < n && tr[e.ch.value].ev == RegisterEv(id) && e.resp.None?)
    && (e.resp.Some? ==> e.resp.value < n && e.expiry == Some(tr[e.resp.value].now + ttl))
    && (forall i: nat | i < n :: Waiting(tr, ttl, n, id, i) <==> e.ch == Some(i))
    && (forall j: nat | j < n :: Held(tr, ttl, n, id, j) <==> e.resp == Some(j))
  }

  lemma EmptyMeans(e: Entry<nat, nat>, tr: Trace, ttl: nat, n: nat, id: string)
    requires n <= |tr| && Means(e, tr, ttl, n, id)
    ensures NoWaiter(tr, ttl, n, id) <==> e.ch.None?
    ensures NothingHeld(tr, ttl, n, id) <==> e.resp.None?
  {
    if e.ch.Some? { assert Waiting(tr, ttl, n, id, e.ch.value); }
    if e.resp.Some? { assert Held(tr, ttl, n, id, e.resp.value); }
  }

  lemma MeansStep(e: Entry<nat, nat>, tr: Trace, ttl: nat, n: nat, id: string)
    requires n < |tr| && Means(e, tr, ttl, n, id)
    requires tr[n].ev.ReleaseEv? ==> tr[n].ev.waiter < |tr| && tr[tr[n].ev.waiter].ev.RegisterEv?
    ensures Means(MailStep(e, tr, ttl, n, id), tr, ttl, n + 1, id)
  {
    EmptyMeans(e, tr, ttl, n, id);
    var e' := MailStep(e, tr, ttl, n, id);
    forall i: nat | i < n + 1 ensures Waiting(tr, ttl, n + 1, id, i) <==> e'.ch == Some(i) {
      WaitingStep(tr, ttl, n, id, i);
    }
    forall j: nat | j < n + 1 ensures Held(tr, ttl, n + 1, id, j) <==> e'.resp == Some(j) {
      HeldStep(tr, ttl, n, id, j);
    }
  }

  lemma ApplyMeans(s: State, tr: Trace, ttl: nat, k: nat, id: string)
    requires k < |tr| && Coherent(s) && Enabled(s, tr, k)
    requires Means(EntryOrNew(s, id), tr, ttl, k, id)
    ensures Means(EntryOrNew(Apply(s, tr, ttl, k), id), tr, ttl, k + 1, id)
  {
    EntryStep(s, tr, ttl, k, id);
    MeansStep(EntryOrNew(s, id), tr, ttl, k, id);
  }

  /**
    In every reachable state the entry of every id holds the channel of exactly the waiter
    that is waiting, or exactly the reply that is held, as the trace alone determines them.
  */
  lemma {:induction false} MailboxRefinement(tr: Trace, ttl: nat, n: nat, id: string)
    requires n <= |tr| && Legal(tr, ttl, n)
    ensures Means(EntryOrNew(After(tr, ttl, n), id), tr, ttl, n, id)
  {
    hide Apply, Coherent;
    if n > 0 {
      MailboxRefinement(tr, ttl, n - 1, id);
      ApplyMeans(After(tr, ttl, n - 1), tr, ttl, n - 1, id);
    }
  }

  // ---- What a waiter is handed ----

  /** Reply `j` has at some moment been in the channel of waiter `i`. */
  ghost predicate Handed(tr: Trace, ttl: nat, i: nat, j: nat)
    requires Legal(tr, ttl, |tr|)
  {
    exists n: nat :: InChannelAt(tr, ttl, n, i, j)
  }

  ghost predicate InChannelAt(tr: Trace, ttl: nat, n: nat, i: nat, j: nat)
  {
    n <= |tr| && Legal(tr, ttl, n) && i in After(tr, ttl, n).bufs && After(tr, ttl, n).bufs[i] == [j]
  }

  ghost predicate Unreceived(tr: Trace, n: nat, i: nat, j: nat)
    requires n <= |tr|
  {
    i < n && j < n && forall k | i < k < n && j < k :: tr[k].ev != ReceiveEv(i)
  }

  lemma {:induction false} LegalPrefix(tr: Trace, ttl: nat, n: nat, m: nat)
    requires m <= n <= |tr| && Legal(tr, ttl, n)
    ensures Legal(tr, ttl, m)
    decreases n
  {
    if m < n { LegalPrefix(tr, ttl, n - 1, m); }
  }

  lemma WaitingBefore(tr: Trace, ttl: nat, n: nat, m: nat, id: string, i: nat)
    requires i < m <= n <= |tr| && Waiting(tr, ttl, n, id, i)
    ensures Waiting(tr, ttl, m, id, i) && !NoWaiter(tr, ttl, m, id)
  {}

  lemma HeldBefore(tr: Trace, ttl: nat, n: nat, m: nat, id: string, j: nat)
    requires j < m <= n <= |tr| && Held(tr, ttl, n, id, j)
    ensures Held(tr, ttl, m, id, j) && !NothingHeld(tr, ttl, m, id)
  {}

  /** A waiter is given at most one reply. */
  lemma OneReplyPerWaiter(tr: Trace, ttl: nat, i: nat, j: nat, j': nat)
    requires i < |tr| && j < j' < |tr|
    ensures !(Gives(tr, ttl, i, j) && Gives(tr, ttl, i, j'))
  {
    if j < i < j' && Gives(tr, ttl, i, j) {
      HeldBefore(tr, ttl, i, i, tr[i].ev.id, j);
    }
  }

  /** A reply is given to at most one waiter. */
  lemma OneWaiterPerReply(tr: Trace, ttl: nat, i: nat, i': nat, j: nat)
    requires i < i' < |tr| && j < |tr|
    ensures !(Gives(tr, ttl, i, j) && Gives(tr, ttl, i', j))
  {
    if i < j && Gives(tr, ttl, i, j) {
      WaitingBefore(tr, ttl, j, j, tr[i].ev.id, i);
      if i' < j { WaitingBefore(tr, ttl, j, i', tr[i].ev.id, i); }
    }
  }

  lemma BufferStep(s: State, tr: Trace, ttl: nat, k: nat, i: nat)
    requires k < |tr| && Coherent(s) && Enabled(s, tr, k) && forall c :: c in s.bufs ==> c < k
    ensures var s', ev := Apply(s, tr, ttl, k), tr[k].ev;
      && (i in s'.bufs <==> i in s.bufs || (i == k && ev.RegisterEv? && EntryOrNew(s, ev.id).ch.None?))
      && (i in s'.bufs && i == k && ev.RegisterEv? ==>
            s'.bufs[i] == if EntryOrNew(s, ev.id).resp.Some? then [EntryOrNew(s, ev.id).resp.value] else [])
      && (i in s.bufs && ev == ReceiveEv(i) ==> s'.bufs[i] == [] && |s.bufs[i]| == 1)
      && (i in s.bufs && ev != ReceiveEv(i) ==>
            s'.bufs[i] == if ev.DeliverEv? && EntryOrNew(s, ev.id).ch == Some(i) then [k] else s.bufs[i])
      && (ev.DeliverEv? && EntryOrNew(s, ev.id).ch == Some(i) ==> i in s.bufs && s.bufs[i] == [])
  {}

  ghost predicate BufferMeans(s: State, tr: Trace, ttl: nat, n: nat, i: nat)
    requires n <= |tr|
  {
    && (i in s.bufs ==> i < n && tr[i].ev.RegisterEv?)
    && (i in s.bufs && s.bufs[i] != [] ==> s.bufs[i][0] < n)
    && forall j: nat | j < n && i < n :: i in s.bufs && s.bufs[i] == [j] <==> Gives(tr, ttl, i, j) && Unreceived(tr, n, i, j)
  }

  ghost predicate AllMean(s: State, tr: Trace, ttl: nat, n: nat)
    requires n <= |tr|
  {
    forall id :: IdMeans(s, tr, ttl, n, id)
  }

  ghost predicate IdMeans(s: State, tr: Trace, ttl: nat, n: nat, id: string)
    requires n <= |tr|
  {
    Means(EntryOrNew(s, id), tr, ttl, n, id)
  }

  lemma ApplyBufferMeans(s: State, tr: Trace, ttl: nat, k: nat, i: nat)
    requires k < |tr| && Coherent(s) && Enabled(s, tr, k) && forall c :: c in s.bufs ==> c < k
    requires AllMean(s, tr, ttl, k)
    requires BufferMeans(s, tr, ttl, k, i)
    ensures BufferMeans(Apply(s, tr, ttl, k), tr, ttl, k + 1, i)
  {
    hide Apply, Coherent;
    var s', ev := Apply(s, tr, ttl, k), tr[k].ev;
    BufferStep(s, tr, ttl, k, i);
    if ev.RegisterEv? || ev.DeliverEv? {
      assert IdMeans(s, tr, ttl, k, ev.id);
      EmptyMeans(EntryOrNew(s, ev.id), tr, ttl, k, ev.id);
    }
    forall j: nat | j < k + 1 && i < k + 1
      ensures i in s'.bufs && s'.bufs[i] == [j] <==> Gives(tr, ttl, i, j) && Unreceived(tr, k + 1, i, j)
    {
    }
  }

  lemma {:induction false} BufferMeaning(tr: Trace, ttl: nat, n: nat, i: nat)
    requires n <= |tr| && Legal(tr, ttl, n)
    ensures BufferMeans(After(tr, ttl, n), tr, ttl, n, i)
  {
    hide Apply, Coherent, BufferMeans, Means;
    if n == 0 {
      NothingAtFirst(tr, ttl, i);
    } else {
      var k := n - 1;
      var s := After(tr, ttl, k);
      BufferMeaning(tr, ttl, k, i);
      forall id ensures IdMeans(s, tr, ttl, k, id) {
        MailboxRefinement(tr, ttl, k, id);
      }
      ApplyBufferMeans(s, tr, ttl, k, i);
    }
  }

  lemma NothingAtFirst(tr: Trace, ttl: nat, i: nat)
    ensures BufferMeans(After(tr, ttl, 0), tr, ttl, 0, i)
  {}

  /**
    A waiter is handed exactly what the abstract mailbox gives it: the reply held when it
    registered, or else the first reply to come after that and before it is closed.
  */
  lemma HandedIffGiven(tr: Trace, ttl: nat, i: nat, j: nat)
    requires Legal(tr, ttl, |tr|) && i < |tr| && j < |tr|
    ensures Handed(tr, ttl, i, j) <==> Gives(tr, ttl, i, j)
  {
    if Gives(tr, ttl, i, j) {
      var n := if i < j then j + 1 else i + 1;
      LegalPrefix(tr, ttl, |tr|, n);
      BufferMeaning(tr, ttl, n, i);
      assert InChannelAt(tr, ttl, n, i, j);
    }
    if Handed(tr, ttl, i, j) {
      var n: nat :| InChannelAt(tr, ttl, n, i, j);
      BufferMeaning(tr, ttl, n, i);
    }
  }

  // ---- Where every reply is ----

  datatype Fate =
    | Buffered
    | InChannel(waiter: nat)
    | Abandoned(waiter: nat)
    | Received(waiter: nat, at: nat)
    | Overwritten(at: nat)
    | Expired(at: nat)

  /** Waiter `i` was closed in the first `n` steps. */
  ghost predicate Closed(tr: Trace, n: nat, i: nat)
    requires n <= |tr|
  {
    exists k: nat :: i < k < n && tr[k].ev == ReleaseEv(i)
  }

  lemma ClosedStep(tr: Trace, n: nat, i: nat)
    requires n < |tr|
    ensures Closed(tr, n + 1, i) <==> Closed(tr, n, i) || (i < n && tr[n].ev == ReleaseEv(i))
  {}

  /** What it means, in terms of the store's states, that reply `j` has met fate `f` after `n` steps. */
  ghost predicate HasFate(tr: Trace, ttl: nat, n: nat, j: nat, f: Fate)
    requires j < n <= |tr| && Legal(tr, ttl, n) && tr[j].ev.DeliverEv?
  {
    var id := tr[j].ev.id;
    match f
    case Buffered => EntryOrNew(After(tr, ttl, n), id).resp == Some(j)
    case InChannel(i) => InChannelAt(tr, ttl, n, i, j) && !Closed(tr, n, i)
    case Abandoned(i) => InChannelAt(tr, ttl, n, i, j) && Closed(tr, n, i)
    case Received(i, k) => j < k < n && tr[k].ev == ReceiveEv(i) && InChannelAt(tr, ttl, k, i, j)
    case Overwritten(k) => j < k < n && tr[k].ev == DeliverEv(id) && Held(tr, ttl, k, id, j)
    case Expired(k) =>
      j < k < n && tr[k].ev.TickEv? && Held(tr, ttl, k, id, j) && tr[j].now + ttl < tr[k].now
  }

  /** The fate of reply `j`, followed step by step. */
  ghost function FateOf(tr: Trace, ttl: nat, n: nat, j: nat): Fate
    requires j < n <= |tr|
    decreases n
  {
    var id, k, ev := if tr[j].ev.DeliverEv? then tr[j].ev.id else "", n - 1, tr[n - 1].ev;
    if k == j then
      if NoWaiter(tr, ttl, j, id) then Buffered else
        var i: nat :| i < j && Waiting(tr, ttl, j, id, i); InChannel(i)
    else
      match FateOf(tr, ttl, k, j)
      case Buffered =>
        if ev == DeliverEv(id) then Overwritten(k)
        else if ev == RegisterEv(id) then InChannel(k)
        else if ev.TickEv? && tr[j].now + ttl < tr[k].now then Expired(k)
        else Buffered
      case InChannel(i) =>
        if ev == ReceiveEv(i) then Received(i, k) else if ev == ReleaseEv(i) then Abandoned(i) else InChannel(i)
      case Abandoned(i) => if ev == ReceiveEv(i) then Received(i, k) else Abandoned(i)
      case f => f
  }

  /** Fates, read off the trace alone. */
  ghost predicate TraceFate(tr: Trace, ttl: nat, n: nat, j: nat, f: Fate)
    requires j < n <= |tr| && tr[j].ev.DeliverEv?
  {
    var id := tr[j].ev.id;
    match f
    case Buffered => Held(tr, ttl, n, id, j)
    case InChannel(i) => i < n && Gives(tr, ttl, i, j) && Unreceived(tr, n, i, j) && !Closed(tr, n, i)
    case Abandoned(i) => i < n && Gives(tr, ttl, i, j) && Unreceived(tr, n, i, j) && Closed(tr, n, i)
    case Received(i, k) =>
      i < k && j < k < n && tr[k].ev == ReceiveEv(i) && Gives(tr, ttl, i, j) && Unreceived(tr, k, i, j)
    case Overwritten(k) => j < k < n && tr[k].ev == DeliverEv(id) && Held(tr, ttl, k, id, j)
    case Expired(k) =>
      j < k < n && tr[k].ev.TickEv? && Held(tr, ttl, k, id, j) && tr[j].now + ttl < tr[k].now
  }

  lemma TraceFateStep(tr: Trace, ttl: nat, n: nat, j: nat, f: Fate)
    requires j < n < |tr| && tr[j].ev.DeliverEv?
    ensures var id, ev := tr[j].ev.id, tr[n].ev;
      TraceFate(tr, ttl, n + 1, j, f) <==>
      match f
      case Buffered => TraceFate(tr, ttl, n, j, Buffered) && ev != DeliverEv(id) && ev != RegisterEv(id)
                       && !(ev.TickEv? && tr[j].now + ttl < tr[n].now)
      case InChannel(i) => if i == n then ev == RegisterEv(id) && TraceFate(tr, ttl, n, j, Buffered)
                           else TraceFate(tr, ttl, n, j, f) && ev != ReceiveEv(i) && ev != ReleaseEv(i)
      case Abandoned(i) => (TraceFate(tr, ttl, n, j, f) && ev != ReceiveEv(i))
                           || (TraceFate(tr, ttl, n, j, InChannel(i)) && ev == ReleaseEv(i))
      case Received(i, k) => if k == n then ev == ReceiveEv(i) && (TraceFate(tr, ttl, n, j, InChannel(i))
                                                                   || TraceFate(tr, ttl, n, j, Abandoned(i)))
                             else TraceFate(tr, ttl, n, j, f)
      case Overwritten(k) => if k == n then ev == DeliverEv(id) && TraceFate(tr, ttl, n, j, Buffered)
                             else TraceFate(tr, ttl, n, j, f)
      case Expired(k) => if k == n then ev.TickEv? && TraceFate(tr, ttl, n, j, Buffered) && tr[j].now + ttl < tr[n].now
                         else TraceFate(tr, ttl, n, j, f)
  {
    HeldStep(tr, ttl, n, tr[j].ev.id, j);
    if f.InChannel? || f.Abandoned? { ClosedStep(tr, n, f.waiter); }
    hide Closed;
  }

  lemma FirstFate(tr: Trace, ttl: nat, j: nat, f: Fate)
    requires j < |tr| && tr[j].ev.DeliverEv?
    ensures TraceFate(tr, ttl, j + 1, j, f) <==> f == FateOf(tr, ttl, j + 1, j)
  {
    var id := tr[j].ev.id;
    forall i: nat, i': nat | i < i' < j && Waiting(tr, ttl, j, id, i) ensures !Waiting(tr, ttl, j, id, i') {
      WaitingBefore(tr, ttl, j, i', id, i);
    }
  }

  lemma {:induction false} TraceFateUnique(tr: Trace, ttl: nat, n: nat, j: nat, f: Fate)
    requires j < n <= |tr| && tr[j].ev.DeliverEv?
    ensures TraceFate(tr, ttl, n, j, f) <==> f == FateOf(tr, ttl, n, j)
  {
    if n == j + 1 {
      FirstFate(tr, ttl, j, f);
    } else {
      TraceFateStep(tr, ttl, n - 1, j, f);
      TraceFateUnique(tr, ttl, n - 1, j, f);
      TraceFateUnique(tr, ttl, n - 1, j, Buffered);
      if f.Received? || f.Abandoned? {
        TraceFateUnique(tr, ttl, n - 1, j, InChannel(f.waiter));
        TraceFateUnique(tr, ttl, n - 1, j, Abandoned(f.waiter));
      }
    }
  }

  lemma HasFateIsTraceFate(tr: Trace, ttl: nat, n: nat, j: nat, f: Fate)
    requires j < n <= |tr| && Legal(tr, ttl, n) && tr[j].ev.DeliverEv?
    ensures HasFate(tr, ttl, n, j, f) <==> TraceFate(tr, ttl, n, j, f)
  {
    match f
    case Buffered => MailboxRefinement(tr, ttl, n, tr[j].ev.id);
    case InChannel(i) => BufferMeaning(tr, ttl, n, i);
    case Abandoned(i) => BufferMeaning(tr, ttl, n, i);
    case Received(i, k) => if k < n { LegalPrefix(tr, ttl, n, k); BufferMeaning(tr, ttl, k, i); }
    case _ =>
  }

  /**
    Conservation: at any moment of any run every delivered reply is in exactly one place:
    buffered, in one open waiter's channel, abandoned in a closed waiter's channel, received
    once, overwritten by one later reply to its id, or expired at one tick.
  */
  lemma EveryReplyAccountedOnce(tr: Trace, ttl: nat, n: nat, j: nat)
    requires j < n <= |tr| && Legal(tr, ttl, n) && tr[j].ev.DeliverEv?
    ensures exists f :: HasFate(tr, ttl, n, j, f) && forall g :: HasFate(tr, ttl, n, j, g) ==> g == f
  {
    forall f: Fate ensures HasFate(tr, ttl, n, j, f) <==> f == FateOf(tr, ttl, n, j) {
      HasFateIsTraceFate(tr, ttl, n, j, f);
      TraceFateUnique(tr, ttl, n, j, f);
    }
    assert HasFate(tr, ttl, n, j, FateOf(tr, ttl, n, j));
  }

  // ---- Cleanup over whole runs ----

  /** A tick after step `j`, up to step `k`, that read the clock no longer than `period` before step `k`. */
  ghost predicate TickIn(tr: Trace, j: nat, k: nat, period: nat)
    requires j < k < |tr|
  {
    exists m :: j < m <= k && tr[m].ev.TickEv? && tr[k].now <= tr[m].now + period
  }

  /**
    In every stretch of time `period` there is a tick. A tick reads the clock before it takes
    the lock, so its time may lie before that of a step that came first.
  */
  ghost predicate Ticking(tr: Trace, period: nat) {
    forall j, k {:trigger TickIn(tr, j, k, period)} ::
      0 <= j < k < |tr| && tr[j].now + period <= tr[k].now ==> TickIn(tr, j, k, period)
  }

  lemma HeldNotLong(tr: Trace, ttl: nat, period: nat, n: nat, id: string, j: nat)
    requires n <= |tr| && period > 0 && Ticking(tr, period) && Held(tr, ttl, n, id, j)
    ensures tr[n - 1].now <= tr[j].now + ttl + period
  {
    if tr[j].now + period <= tr[n - 1].now {
      assert TickIn(tr, j, n - 1, period);
    }
  }

  /**
    An unclaimed reply is gone once `ttl` and one interval of the cleanup loop have passed since
    it came: half of `ttl`, or a minute where that is 0. Durations are in nanoseconds.
  */
  lemma UnclaimedReplyExpires(tr: Trace, ttl: nat, period: nat, n: nat, id: string)
    requires 0 < n <= |tr| && Legal(tr, ttl, n)
    requires Ticking(tr, period) && period == if ttl / 2 <= 0 then 60_000_000_000 else ttl / 2
    ensures var e := EntryOrNew(After(tr, ttl, n), id);
      e.resp.Some? ==> e.resp.value < n && tr[n - 1].now <= tr[e.resp.value].now + ttl + period
  {
    hide After, Apply, Coherent;
    MailboxRefinement(tr, ttl, n, id);
    var e := EntryOrNew(After(tr, ttl, n), id);
    if e.resp.Some? {
      HeldNotLong(tr, ttl, period, n, id, e.resp.value);
    }
  }

  /** A tick removes no registered waiter and no reply younger than the time to live. */
  lemma TickSparesTheYoung(tr: Trace, ttl: nat, n: nat, id: string)
    requires n < |tr| && Legal(tr, ttl, n + 1) && tr[n].ev.TickEv?
    ensures var e := EntryOrNew(After(tr, ttl, n), id); e.resp.Some? ==> e.resp.value < n
    ensures var e, e' := EntryOrNew(After(tr, ttl, n), id), EntryOrNew(After(tr, ttl, n + 1), id);
      e' != e <==> e.resp.Some? && tr[e.resp.value].now + ttl < tr[n].now
  {
    MailboxRefinement(tr, ttl, n, id);
    EntryStep(After(tr, ttl, n), tr, ttl, n, id);
  }

  lemma QuietTail(tr: Trace, ttl: nat, period: nat, m: nat, id: string, i: nat)
    requires 0 < m <= |tr| && period > 0 && Ticking(tr, period)
    requires forall k :: m <= k < |tr| ==> !tr[k].ev.DeliverEv? && !tr[k].ev.RegisterEv?
    requires i < m && tr[i].ev.RegisterEv? ==> exists k: nat :: i < k < |tr| && tr[k].ev == ReleaseEv(i)
    requires forall i :: 0 <= i < m ==> tr[i].now + ttl + period < tr[|tr| - 1].now
    ensures !Waiting(tr, ttl, |tr|, id, i) && !Held(tr, ttl, |tr|, id, i)
  {
    if Held(tr, ttl, |tr|, id, i) {
      HeldNotLong(tr, ttl, period, |tr|, id, i);
    }
  }

  lemma ListedMeans(tr: Trace, ttl: nat, n: nat, id: string) returns (i: nat)
    requires n <= |tr| && Legal(tr, ttl, n) && id in After(tr, ttl, n).entries
    ensures Waiting(tr, ttl, n, id, i) || Held(tr, ttl, n, id, i)
  {
    MailboxRefinement(tr, ttl, n, id);
    var e := EntryOrNew(After(tr, ttl, n), id);
    i := if e.ch.Some? then e.ch.value else e.resp.value;
  }

  /**
    If from step `m` on no reply comes and nobody registers, every waiter gets closed, and
    `ttl` and one interval pass, then the store is empty.
  */
  lemma StoreEmpties(tr: Trace, ttl: nat, period: nat, m: nat)
    requires 0 < m <= |tr| && Legal(tr, ttl, |tr|)
    requires Ticking(tr, period) && period == if ttl / 2 <= 0 then 60_000_000_000 else ttl / 2
    requires forall k :: m <= k < |tr| ==> !tr[k].ev.DeliverEv? && !tr[k].ev.RegisterEv?
    requires forall i :: 0 <= i < m && tr[i].ev.RegisterEv? ==>
               exists k: nat :: i < k < |tr| && tr[k].ev == ReleaseEv(i)
    requires forall i :: 0 <= i < m ==> tr[i].now + ttl + period < tr[|tr| - 1].now
    ensures After(tr, ttl, |tr|).entries == map[]
  {
    hide After, Apply, Coherent, Waiting, Held;
    var s := After(tr, ttl, |tr|);
    forall id ensures id !in s.entries {
      if id in s.entries {
        var i := ListedMeans(tr, ttl, |tr|, id);
        QuietTail(tr, ttl, period, m, id, i);
      }
    }
  }
}
