/**
  The four critical sections of the response store, and the channel receive, as
  functions on values. `C` is the type of channel identities, `R` the type of replies.
  An absent channel or reply stands for nil, an absent expiry for the zero time.
*/
module StoreSpec {
  import opened Prelude

  datatype Entry<+C, +R> = Entry(ch: Option<C>, resp: Option<R>, expiry: Option<int>)

  /** The locked map, and the buffer of every channel made so far. */
  datatype Store<!C(==), +R> = Store(entries: map<string, Entry<C, R>>, bufs: map<C, seq<R>>)

  const CAPACITY: nat := 1

  function EntryOrNew<C(==), R>(s: Store<C, R>, id: string): Entry<C, R> {
    if id in s.entries then s.entries[id] else Entry(None, None, None)
  }

  /** `Waiter`: the new store, and whether a waiter on channel `c` was handed out. */
  function Register<C(==), R>(s: Store<C, R>, id: string, c: C): (Store<C, R>, bool) {
    var e := EntryOrNew(s, id);
    if e.ch.Some? then
      (s, false)
    else if e.resp.Some? then
      (Store(s.entries - {id}, s.bufs[c := [e.resp.value]]), true)
    else
      (Store(s.entries[id := Entry(Some(c), None, None)], s.bufs[c := []]), true)
  }

  /** A non-blocking send on a channel of capacity one. */
  function TrySend<R>(buf: seq<R>, r: R): seq<R> {
    if |buf| < CAPACITY then buf + [r] else buf
  }

  function BufferOf<C(==), R>(s: Store<C, R>, c: C): seq<R> {
    if c in s.bufs then s.bufs[c] else []
  }

  function Deliver<C(==), R>(s: Store<C, R>, id: string, r: R, now: int, ttl: int): Store<C, R> {
    var e := EntryOrNew(s, id);
    if e.ch.Some? then
      Store(s.entries - {id}, s.bufs[e.ch.value := TrySend(BufferOf(s, e.ch.value), r)])
    else
      s.(entries := s.entries[id := e.(resp := Some(r), expiry := Some(now + ttl))])
  }

  /** `release`, called by a waiter's `Close` with the waiter's own id and channel. */
  function Release<C(==), R>(s: Store<C, R>, id: string, c: C): Store<C, R> {
    if id !in s.entries || s.entries[id].ch != Some(c) then s
    else if s.entries[id].resp.None? then s.(entries := s.entries - {id})
    else s.(entries := s.entries[id := s.entries[id].(ch := None)])
  }

  /** Whether one pass of the cleanup loop at time `now` keeps an entry. */
  predicate Keeps<C, R>(e: Entry<C, R>, now: int) {
    e.ch.Some? || (e.resp.Some? && (e.expiry.None? || now <= e.expiry.value))
  }

  function Tick<C(==), R>(s: Store<C, R>, now: int): Store<C, R> {
    s.(entries := map id | id in s.entries && Keeps(s.entries[id], now) :: s.entries[id])
  }

  function Receive<C(==), R>(s: Store<C, R>, c: C): Store<C, R>
    requires c in s.bufs && s.bufs[c] != []
  {
    s.(bufs := s.bufs[c := s.bufs[c][1..]])
  }

  /**
    What holds between critical sections: an entry has exactly one of a channel and a
    buffered reply, a buffered reply has an expiry, and the registered channels are
    pairwise distinct and empty.
  */
  ghost predicate Coherent<C, R>(s: Store<C, R>) {
    && (forall id :: id in s.entries ==>
          && (s.entries[id].ch.Some? <==> s.entries[id].resp.None?)
          && (s.entries[id].resp.Some? <==> s.entries[id].expiry.Some?))
    && (forall id :: id in s.entries && s.entries[id].ch.Some? ==>
          s.entries[id].ch.value in s.bufs && s.bufs[s.entries[id].ch.value] == [])
    && (forall id, id' | id in s.entries && id' in s.entries && s.entries[id].ch.Some? ::
          s.entries[id].ch == s.entries[id'].ch ==> id == id')
    && (forall c :: c in s.bufs ==> |s.bufs[c]| <= CAPACITY)
  }

  /** In a coherent store the send in `Deliver` never takes its `default` branch. */
  lemma DeliverNeverDrops<C, R>(s: Store<C, R>, id: string, r: R, now: int, ttl: int)
    requires Coherent(s) && id in s.entries && s.entries[id].ch.Some?
    ensures Deliver(s, id, r, now, ttl).bufs[s.entries[id].ch.value] == [r]
  {}

  lemma RegisterKeepsCoherent<C, R>(s: Store<C, R>, id: string, c: C)
    requires Coherent(s) && c !in s.bufs
    ensures Coherent(Register(s, id, c).0)
  {}

  lemma DeliverKeepsCoherent<C, R>(s: Store<C, R>, id: string, r: R, now: int, ttl: int)
    requires Coherent(s)
    ensures Coherent(Deliver(s, id, r, now, ttl))
  {}

  lemma ReleaseKeepsCoherent<C, R>(s: Store<C, R>, id: string, c: C)
    requires Coherent(s)
    ensures Coherent(Release(s, id, c))
  {}

  lemma TickKeepsCoherent<C, R>(s: Store<C, R>, now: int)
    requires Coherent(s)
    ensures Coherent(Tick(s, now))
  {}

  lemma ReceiveKeepsCoherent<C, R>(s: Store<C, R>, c: C)
    requires Coherent(s) && c in s.bufs && s.bufs[c] != []
    ensures Coherent(Receive(s, c))
  {}

  /**
    Closing a waiter only ever removes that waiter's own registration: another waiter
    and a buffered reply stay, and closing twice is closing once.
  */
  lemma ReleaseIsPrivate<C, R>(s: Store<C, R>, id: string, c: C)
    requires Coherent(s)
    ensures var s' := Release(s, id, c);
      && s'.bufs == s.bufs
      && Release(s', id, c) == s'
      && (forall x :: x in s'.entries <==> x in s.entries && !(x == id && s.entries[x].ch == Some(c)))
      && (forall x :: x in s'.entries ==> s'.entries[x] == s.entries[x])
  {}
}
