/** The controller's event loop (internal/controller/controller.go, drain). */
module Drain {
  import opened Bytes
  import opened EventLog
  import RingBuffer
  import Spec = StoreSpec
  import Store

  /** One subscription event. The loop looks at the flags in this order of precedence:
      serverLost, closed, data. */
  datatype PaneOutput = PaneOutput(id: Spec.PaneId, data: seq<byte>, closed: bool, serverLost: bool)

  /** What one event does to the buffers. */
  function Effect(panes: Panes, ev: PaneOutput, now: Time): Panes {
    if ev.serverLost then panes
    else if ev.closed then Spec.Forgotten(panes, ev.id)
    else Spec.Appended(panes, ev.id, ev.data, now)
  }

  /** The buffers after the first n events; `clock[i]` is when event i is drained. */
  function Drained(panes: Panes, evs: seq<PaneOutput>, clock: seq<Time>, n: nat): Panes
    requires n <= |evs| == |clock|
  {
    if n == 0 then panes else Effect(Drained(panes, evs, clock, n - 1), evs[n - 1], clock[n - 1])
  }

  /** What a subscriber would say a pane has output since it was last closed. */
  function DataSinceClosed(evs: seq<PaneOutput>, id: Spec.PaneId, n: nat): seq<byte>
    requires n <= |evs|
  {
    if n == 0 then []
    else
      var before, ev := DataSinceClosed(evs, id, n - 1), evs[n - 1];
      if ev.serverLost || ev.id != id then before
      else if ev.closed then []
      else before + ev.data
  }

  /** ... and when it last did, if it has. */
  function LastSinceClosed(evs: seq<PaneOutput>, clock: seq<Time>, id: Spec.PaneId, n: nat): Option<Time>
    requires n <= |evs| == |clock|
  {
    if n == 0 then None
    else
      var before, ev := LastSinceClosed(evs, clock, id, n - 1), evs[n - 1];
      if ev.serverLost || ev.id != id then before
      else if ev.closed then None
      else if ev.data == [] then before else Some(clock[n - 1])
  }

  predicate AnyLost(evs: seq<PaneOutput>, n: nat)
    requires n <= |evs|
  {
    exists i :: 0 <= i < n && evs[i].serverLost
  }

  class Controller {
    const store: Store.Store
    var lostOnce: bool      // sync.Once has run
    ghost var closes: nat   // how often the serverLost channel was closed

    ghost predicate Valid()
      reads this, store, store.Repr
    {
      && store.Valid() && this !in store.Repr
      && closes == if lostOnce then 1 else 0
    }

    constructor (capacity: nat, instance: string)
      requires capacity > 0
      ensures Valid() && fresh(store) && fresh(store.Repr)
      ensures store.capacity == capacity && store.panes == map[] && !lostOnce
    {
      store := new Store.Store(capacity, instance);
      lostOnce, closes := false, 0;
    }

    /** close() on the loss channel: a second close would panic. */
    method CloseServerLost()
      requires closes == 0
      modifies this`closes
      ensures closes == 1
    {
      closes := 1;
    }

    /** The whole subscription leaves the store as the fold of its events, and closes the
        loss channel exactly once if any event says so, else not at all. */
    method Drain(evs: seq<PaneOutput>, clock: seq<Time>)
      requires Valid() && |evs| == |clock|
      modifies this, store.Repr
      ensures Valid() && fresh(store.Repr - old(store.Repr))
      ensures store.panes == Drained(old(store.panes), evs, clock, |evs|)
      ensures closes == if old(lostOnce) || AnyLost(evs, |evs|) then 1 else 0
    {
      for i := 0 to |evs|
        invariant Valid() && fresh(store.Repr - old(store.Repr))
        invariant store.panes == Drained(old(store.panes), evs, clock, i)
        invariant lostOnce == (old(lostOnce) || AnyLost(evs, i))
      {
        Handle(evs[i], clock[i]);
      }
    }

    /** One event of the loop. */
    method Handle(ev: PaneOutput, now: Time)
      requires Valid()
      modifies this, store.Repr
      ensures Valid() && fresh(store.Repr - old(store.Repr))
      ensures store.panes == Effect(old(store.panes), ev, now)
      ensures lostOnce == (old(lostOnce) || ev.serverLost)
    {
      if ev.serverLost {
        if !lostOnce {
          lostOnce := true;
          CloseServerLost();
        }
      } else if ev.closed {
        store.Forget(ev.id);
      } else {
        store.Append(ev.id, ev.data, now);
      }
    }
  }

  /** The same events as the history other modules speak of. */
  function AsLog(evs: seq<PaneOutput>, clock: seq<Time>, n: nat): seq<Event>
    requires n <= |evs| == |clock|
  {
    if n == 0 then []
    else
      var ev := evs[n - 1];
      AsLog(evs, clock, n - 1)
        + if ev.serverLost then [] else if ev.closed then [Forget(ev.id)] else [Append(ev.id, ev.data, clock[n - 1])]
  }

  /** Draining is replaying. */
  lemma {:induction false} DrainingReplays(panes: Panes, evs: seq<PaneOutput>, clock: seq<Time>, n: nat)
    requires n <= |evs| == |clock|
    ensures Drained(panes, evs, clock, n) == Fold(panes, AsLog(evs, clock, n))
  {
    if n == 0 {
    } else {
      DrainingReplays(panes, evs, clock, n - 1);
      var log := AsLog(evs, clock, n - 1);
      if evs[n - 1].serverLost {
        assert log + [] == log;
      } else {
        var ev := if evs[n - 1].closed then Forget(evs[n - 1].id) else Append(evs[n - 1].id, evs[n - 1].data, clock[n - 1]);
        assert (log + [ev])[..|log|] == log;
      }
    }
  }

  /** End to end: starting empty, a pane's stream is its data since its last Closed event
      (ServerLost changes nothing), it is known iff that is not empty, and its last append
      is the last of that data. */
  lemma {:induction false} DrainedStream(evs: seq<PaneOutput>, clock: seq<Time>, id: Spec.PaneId, n: nat)
    requires n <= |evs| == |clock|
    ensures var panes := Drained(map[], evs, clock, n);
            && Spec.Log(panes, id).history == DataSinceClosed(evs, id, n)
            && (id in panes <==> DataSinceClosed(evs, id, n) != [])
            && Spec.LastAppend(panes, id) == LastSinceClosed(evs, clock, id, n)
  {
    if n == 0 {
    } else {
      DrainedStream(evs, clock, id, n - 1);
    }
  }

  /** So every pane's buffer, read from its start, holds the last min(capacity, n) of the
      n bytes since the pane was last closed; and from any older offset it refuses. */
  lemma DrainedWindow(evs: seq<PaneOutput>, clock: seq<Time>, id: Spec.PaneId, capacity: nat, after: int)
    requires |evs| == |clock| && capacity > 0
    ensures var h := Spec.Log(Drained(map[], evs, clock, |evs|), id).history;
            var d := DataSinceClosed(evs, id, |evs|);
            var kept := if |d| < capacity then |d| else capacity;
            && RingBuffer.ReadFrom(h, capacity, RingBuffer.Start(h, capacity)) == Some(d[|d| - kept..])
            && (RingBuffer.ReadFrom(h, capacity, after).Some? <==> |d| - kept <= after <= |d|)
  {
    DrainedStream(evs, clock, id, |evs|);
  }
}
