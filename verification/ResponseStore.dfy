/**
  The response store as it is written: a map from ids to entries, changed under a lock,
  and channels as shared objects. Every method is one critical section, and is proved to
  change the store exactly as the function of the same step in `StoreSpec` says. No entry
  is ever reachable except through the map, so an entry is a value the map holds.
*/
module ResponseStore {
  import opened Prelude
  import opened Messages
  import opened StoreSpec

  /** A channel of capacity one. */
  class Channel {
    var buf: seq<Response>

    constructor (buf: seq<Response>)
      ensures this.buf == buf
    {
      this.buf := buf;
    }

    /** A `select` with a send and a `default` branch. */
    method TrySend(r: Response)
      modifies this
      ensures buf == StoreSpec.TrySend(old(buf), r)
    {
      if |buf| < CAPACITY {
        buf := buf + [r];
      }
    }
  }

  class Waiter {
    const id: string
    const store: ResponseStore
    const ch: Channel

    constructor (id: string, store: ResponseStore, ch: Channel)
      ensures this.id == id && this.store == store && this.ch == ch
    {
      this.id, this.store, this.ch := id, store, ch;
    }

    /**
      Completes when a reply has arrived or the context is done, and picks either when
      both hold. The reply leaves the channel.
    */
    method Wait(ctxDone: bool) returns (r: Option<Response>)
      requires store.Valid() && ch in store.bufs
      requires ch.buf != [] || ctxDone
      modifies ch, store`bufs
      ensures store.Valid()
      ensures r.None? ==> ctxDone && store.State() == old(store.State())
      ensures r.Some? ==> old(ch.buf) == [r.value] && store.State() == Receive(old(store.State()), ch)
    {
      var takeReply := ch.buf != [];
      if ch.buf != [] && ctxDone {
        takeReply := *;
      }
      if takeReply {
        ReceiveKeepsCoherent(store.State(), ch);
        store.bufs := store.bufs[ch := store.bufs[ch][1..]];
        r := Some(ch.buf[0]);
        ch.buf := ch.buf[1..];
      } else {
        r := None;
      }
    }

    method Close(now: int)
      requires store.Valid()
      modifies store
      ensures store.Valid()
      ensures store.State() == Release(old(store.State()), id, ch)
    {
      store.ReleaseWaiter(id, ch, now);
    }
  }

  class ResponseStore {
    var entries: map<string, Entry<Channel, Response>>
    const ttl: nat
    /** The buffers of all channels this store has made. */
    ghost var bufs: map<Channel, seq<Response>>

    ghost function State(): Store<Channel, Response>
      reads this
    {
      Store(entries, bufs)
    }

    ghost predicate Valid()
      reads this, bufs.Keys
    {
      Coherent(State()) && forall c :: c in bufs ==> c.buf == bufs[c]
    }

    constructor (ttl: nat)
      ensures Valid() && this.ttl == ttl && State() == Store(map[], map[])
    {
      this.ttl := ttl;
      entries, bufs := map[], map[];
    }

    /** Registers a waiter, or fails when one is registered already. */
    method NewWaiter(id: string) returns (w: Option<Waiter>)
      requires Valid()
      modifies this
      ensures Valid()
      ensures w.None? ==> State() == old(State()) && EntryOrNew(old(State()), id).ch.Some?
      ensures w.Some? ==>
                && fresh(w.value) && fresh(w.value.ch) && w.value.id == id && w.value.store == this
                && (State(), true) == Register(old(State()), id, w.value.ch)
    {
      ghost var before := State();
      var entry: Entry<Channel, Response>;
      if id in entries {
        entry := entries[id];
      } else {
        entry := Entry(None, None, None);
        entries := entries[id := entry];
      }
      if entry.ch.Some? {
        return None;
      }
      var ch: Channel;
      if entry.resp.Some? {
        ch := new Channel([entry.resp.value]);
        entries := entries - {id};
      } else {
        ch := new Channel([]);
        entry := entry.(ch := Some(ch));
        entry := entry.(expiry := None);
        entries := entries[id := entry];
      }
      bufs := bufs[ch := ch.buf];
      assert State() == Register(before, id, ch).0;
      RegisterKeepsCoherent(before, id, ch);
      var waiter := new Waiter(id, this, ch);
      return Some(waiter);
    }

    method Deliver(id: string, resp: Response, now: int)
      requires Valid()
      modifies this, bufs.Keys
      ensures Valid()
      ensures State() == StoreSpec.Deliver(old(State()), id, resp, now, ttl)
    {
      ghost var before := State();
      var entry: Entry<Channel, Response>;
      if id in entries {
        entry := entries[id];
      } else {
        entry := Entry(None, None, None);
        entries := entries[id := entry];
      }
      if entry.ch.Some? {
        var ch := entry.ch.value;
        ch.TrySend(resp);
        bufs := bufs[ch := ch.buf];
        entries := entries - {id};
      } else {
        entry := entry.(resp := Some(resp));
        entry := entry.(expiry := Some(now + ttl));
        entries := entries[id := entry];
      }
      assert State() == StoreSpec.Deliver(before, id, resp, now, ttl);
      DeliverKeepsCoherent(before, id, resp, now, ttl);
    }

    method ReleaseWaiter(id: string, ch: Channel, now: int)
      requires Valid()
      modifies this
      ensures Valid()
      ensures State() == Release(old(State()), id, ch)
    {
      ghost var before := State();
      if id !in entries {
        return;
      }
      var entry := entries[id];
      if entry.ch == Some(ch) {
        entry := entry.(ch := None);
        if entry.resp.None? {
          entry := entry.(expiry := Some(now + ttl));
        }
        entries := entries[id := entry];
        if entry.resp.None? {
          entries := entries - {id};
        }
      }
      assert State() == Release(before, id, ch);
      ReleaseKeepsCoherent(before, id, ch);
    }

    /** One tick of the cleanup loop. The map is walked in an arbitrary order. */
    method CleanupPass(now: int)
      requires Valid()
      modifies this
      ensures Valid()
      ensures State() == Tick(old(State()), now)
    {
      hide Coherent;
      ghost var before := State();
      var todo := entries.Keys;
      while todo != {}
        invariant todo <= entries.Keys <= before.entries.Keys && bufs == before.bufs
        invariant forall id :: id in entries ==> entries[id] == before.entries[id]
        invariant forall id :: id in before.entries ==>
                    (id in entries <==> id in todo || Keeps(before.entries[id], now))
        decreases |todo|
      {
        var id :| id in todo;
        todo := todo - {id};
        var entry := entries[id];
        if entry.ch.Some? {
          continue;
        }
        if entry.resp.None? {
          entries := entries - {id};
          continue;
        }
        if entry.expiry.Some? && now > entry.expiry.value {
          entries := entries - {id};
        }
      }
      assert State() == Tick(before, now);
      TickKeepsCoherent(before, now);
    }
  }
}
