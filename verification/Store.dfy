/**
 The store as the program holds it (internal/store/store.go): a map of ring buffers
 and a slice of watchers, both updated in place. Each method is one critical section
 and is proved to do to `Contents()` what StoreSpec says.
 */
module Store {
  import opened Bytes
  import opened RingBuffer
  import Spec = StoreSpec

  /** An observer's one-slot signal channel. */
  class Watcher {
    const pane: Spec.PaneId
    var pending: bool

    constructor (pane: Spec.PaneId)
      ensures this.pane == pane && !pending
    {
      this.pane := pane;
      pending := false;
    }
  }

  class Store {
    const capacity: nat
    const instance: string
    var bufs: map<Spec.PaneId, Buffer>
    var watchers: seq<Watcher>

    ghost var panes: map<Spec.PaneId, Spec.PaneLog>   // the streams behind bufs
    ghost var watching: map<Watcher, Spec.Watching>   // the channels behind watchers
    ghost var owner: map<object, Spec.PaneId>         // which pane a ring or its slots belong to
    ghost var Repr: set<object>

    ghost predicate Valid()
      reads this, Repr
    {
      && capacity > 0 && this in Repr
      && owner.Keys <= Repr && watching.Keys <= Repr && owner.Keys !! watching.Keys
      && BuffersValid() && WatchersValid()
    }

    ghost predicate BuffersValid()
      reads this`bufs, this`panes, this`owner, owner.Keys
    {
      && panes.Keys == bufs.Keys
      && forall id <- bufs :: Owned(id, bufs[id])
    }

    /** `id`'s ring is sound, carries `id`'s stream and shares nothing with another pane's. */
    ghost predicate Owned(id: Spec.PaneId, b: Buffer)
      reads this`panes, this`owner, owner.Keys
    {
      && b in owner && owner[b] == id
      && b.data in owner && owner[b.data] == id
      && b.capacity == capacity && b.Valid()
      && id in panes && panes[id] == Spec.PaneLog(b.history, b.lastAppend)
    }

    ghost predicate WatchersValid()
      reads this`watchers, this`watching, watching.Keys
    {
      && (forall w <- watchers :: w in watching)
      && (forall w <- watching :: w in watchers && watching[w] == Spec.Watching(w.pane, w.pending))
      && Distinct(watchers)
    }

    static ghost predicate Distinct(ws: seq<Watcher>) {
      forall i, j | 0 <= i < j < |ws| :: ws[i] != ws[j]
    }

    constructor (capacity: nat, instance: string)
      requires capacity > 0
      ensures Valid() && fresh(Repr)
      ensures this.capacity == capacity && this.instance == instance
      ensures panes == map[] && watching == map[]
    {
      this.capacity, this.instance := capacity, instance;
      bufs, watchers := map[], [];
      panes, watching, owner, Repr := map[], map[], map[], {this};
    }

    method BufferLocked(id: Spec.PaneId) returns (b: Buffer)
      requires Valid()
      modifies this`bufs, this`panes, this`owner, this`Repr
      ensures Valid() && fresh(Repr - old(Repr))
      ensures panes == Spec.Created(old(panes), id)
      ensures id in bufs && b == bufs[id]
    {
      if id in bufs {
        assert Spec.Created(panes, id) == panes;
        return bufs[id];
      }
      b := new Buffer(capacity);
      AddBuffer(id, b);
    }

    method AddBuffer(id: Spec.PaneId, b: Buffer)
      requires Valid() && id !in bufs
      requires b.Valid() && b.capacity == capacity && b.history == [] && b.lastAppend == None
      requires {b, b.data} !! Repr
      modifies this`bufs, this`panes, this`owner, this`Repr
      ensures Valid() && Repr == old(Repr) + {b, b.data}
      ensures panes == Spec.Created(old(panes), id)
      ensures bufs == old(bufs)[id := b]
    {
      bufs := bufs[id := b];
      panes := panes[id := Spec.NEW_PANE];
      owner := owner[b := id][b.data := id];
      Repr := Repr + {b, b.data};
      forall i <- bufs ensures Owned(i, bufs[i]) {
        assert i != id ==> old(Owned(i, bufs[i]));
      }
    }

    method Ensure(id: Spec.PaneId)
      requires Valid()
      modifies this`bufs, this`panes, this`owner, this`Repr
      ensures Valid() && fresh(Repr - old(Repr))
      ensures panes == Spec.Created(old(panes), id)
    {
      var _ := BufferLocked(id);
    }

    method HasPane(id: Spec.PaneId) returns (known: bool)
      requires Valid()
      ensures known <==> id in panes
    {
      known := id in bufs;
    }

    /** The send to every watcher of `id`, skipping full channels. */
    method Signal(id: Spec.PaneId)
      requires Valid()
      modifies this`watching, watchers`pending
      ensures Valid()
      ensures watching == Spec.Signalled(old(watching), id)
      ensures watching.Keys == old(watching).Keys
      ensures forall w <- watching :: watching[w].pane == old(watching)[w].pane
      ensures forall w <- watching :: watching[w].pending <==> old(watching)[w].pending || watching[w].pane == id
    {
      SendEach(id);
    }

    method SendEach(id: Spec.PaneId)
      requires WatchersValid()
      modifies this`watching, watchers`pending
      ensures WatchersValid()
      ensures watching == Spec.Signalled(old(watching), id)
    {
      var i := 0;
      while i < |watchers|
        invariant 0 <= i <= |watchers| && watching == old(watching)
        invariant forall w <- watchers[..i] :: w.pending == (w.pane == id || old(w.pending))
        invariant forall w <- watchers :: w !in watchers[..i] ==> w.pending == old(w.pending)
      {
        var w := watchers[i];
        assert watchers[..i + 1] == watchers[..i] + [w];
        if w.pane == id && !w.pending {
          w.pending := true;
        }
        i := i + 1;
      }
      assert watchers[..i] == watchers;
      watching := Spec.Signalled(watching, id);
    }

    method Forget(id: Spec.PaneId)
      requires Valid()
      modifies this`bufs, this`panes, this`watching, watchers`pending
      ensures Valid()
      ensures panes == Spec.Forgotten(old(panes), id) == old(panes) - {id}
      ensures watching == Spec.Signalled(old(watching), id)
    {
      bufs := bufs - {id};
      panes := Spec.Forgotten(panes, id);
      Signal(id);
    }

    method Append(id: Spec.PaneId, p: seq<byte>, now: Time)
      requires Valid()
      modifies Repr
      ensures Valid() && fresh(Repr - old(Repr))
      ensures panes == Spec.Appended(old(panes), id, p, now)
      ensures watching == if p == [] then old(watching) else Spec.Signalled(old(watching), id)
    {
      if |p| == 0 {
        return;
      }
      Spec.CreatedThenExtended(panes, id, p, now);
      var b := BufferLocked(id);
      AppendLocked(id, b, p, now);
      Signal(id);
    }

    /** Appends to a ring already in the map; the other panes' rings are not touched. */
    method AppendLocked(id: Spec.PaneId, b: Buffer, p: seq<byte>, now: Time)
      requires Valid() && id in bufs && b == bufs[id] && p != []
      modifies this`panes, b`start, b`end, b`lastAppend, b`history, b.data
      ensures Valid()
      ensures panes == old(panes)[id := Spec.PaneLog(old(panes)[id].history + p, Some(now))]
    {
      b.Append(p, now);
      panes := panes[id := Spec.PaneLog(b.history, b.lastAppend)];
      assert b in owner && b.data in owner;
      forall i <- bufs ensures Owned(i, bufs[i]) {
        assert old(Owned(i, bufs[i]));
      }
    }

    method Watch(id: Spec.PaneId) returns (w: Watcher)
      requires Valid()
      modifies this`watchers, this`watching, this`Repr
      ensures Valid() && fresh(Repr - old(Repr)) && fresh(w)
      ensures watching == old(watching)[w := Spec.Watching(id, false)]
    {
      w := new Watcher(id);
      watchers := watchers + [w];
      watching := watching[w := Spec.Watching(id, false)];
      Repr := Repr + {w};
    }

    /** Unregisters w by splicing it out of the slice. */
    method Cancel(w: Watcher)
      requires Valid()
      modifies this`watchers, this`watching
      ensures Valid()
      ensures watching == old(watching) - {w}
    {
      watching := watching - {w};
      var i := 0;
      while i < |watchers|
        invariant 0 <= i <= |watchers|
        invariant watchers == old(watchers)
        invariant w !in watchers[..i]
      {
        if watchers[i] == w {
          SplicedOut(watchers, i);
          watchers := watchers[..i] + watchers[i + 1..];
          return;
        }
        i := i + 1;
      }
    }

    static lemma SplicedOut(ws: seq<Watcher>, i: nat)
      requires i < |ws| && Distinct(ws)
      ensures Distinct(ws[..i] + ws[i + 1..])
      ensures forall x :: x in ws[..i] + ws[i + 1..] <==> x in ws && x != ws[i]
    {
      assert ws == ws[..i] + [ws[i]] + ws[i + 1..];
    }

    method NewToken(id: Spec.PaneId, now: Time) returns (token: Spec.Token)
      requires Valid()
      modifies this`bufs, this`panes, this`owner, this`Repr
      ensures Valid() && fresh(Repr - old(Repr))
      ensures panes == Spec.Created(old(panes), id)
      ensures id in panes && token == Spec.Issued(instance, id, |panes[id].history|, now)
      ensures id in old(panes) ==> panes == old(panes)
      ensures id !in old(panes) ==> panes == old(panes)[id := Spec.PaneLog([], None)]
    {
      var b := BufferLocked(id);
      assert Owned(id, b);
      token := Spec.Issued(instance, id, b.end, now);
    }

    method LastAppend(id: Spec.PaneId) returns (at: Option<Time>)
      requires Valid()
      ensures at == Spec.LastAppend(panes, id) == if id in panes then panes[id].lastAppend else None
    {
      if id !in bufs {
        return None;
      }
      at := bufs[id].lastAppend;
    }

    method ReadFirst(id: Spec.PaneId, after: Spec.Token) returns (error: Option<Spec.StoreError>)
      requires Valid()
      ensures error == Spec.ReadFirst(instance, panes, id, after)
    {
      if id !in bufs {
        return Some(Spec.PaneUnknown);
      }
      if !after.Issued? {
        return Some(Spec.TokenMalformed);
      }
      if after.instance != instance {
        return Some(Spec.TokenWrongInstance);
      }
      if after.pane != id {
        return Some(Spec.TokenWrongPane);
      }
      return None;
    }

    method ReadSecond(id: Spec.PaneId, offset: int, now: Time) returns (r: Spec.ReadResult)
      requires Valid()
      ensures r == Spec.ReadSecond(capacity, instance, panes, id, offset, now)
    {
      if id !in bufs {
        return Spec.Refused(Spec.PaneUnknown);
      }
      var out, end, ok := bufs[id].Read(offset);
      if !ok {
        return Spec.Refused(Spec.TokenEvicted);
      }
      return Spec.Got(out, Spec.Issued(instance, id, end, now));
    }

    /** Both sections with nothing in between. */
    method Read(id: Spec.PaneId, after: Spec.Token, now: Time) returns (r: Spec.ReadResult)
      requires Valid()
      ensures r == Spec.AtomicRead(capacity, instance, panes, id, after, now)
      ensures Spec.Answers(capacity, instance, panes, id, after, now, r)
    {
      var error := ReadFirst(id, after);
      if error.Some? {
        return Spec.Refused(error.value);
      }
      r := ReadSecond(id, after.offset, now);
    }
  }
}
