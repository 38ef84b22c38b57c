/**
 The store's history. Every critical section that changes a pane's buffer is one
 event; `Replay` gives the buffers after a log, so "the store at some instant" is
 "the replay of a prefix". Concurrency is the order of the log.
 */
module EventLog {
  import opened Bytes
  import RingBuffer
  import opened StoreSpec

  datatype Event =
    | Append(id: PaneId, bytes: seq<byte>, at: Time)
    | Forget(id: PaneId)
    | Create(id: PaneId)  // Ensure, or the buffer NewToken makes

  type Panes = map<PaneId, PaneLog>

  function Apply(panes: Panes, ev: Event): Panes {
    match ev
    case Append(id, bytes, at) => Appended(panes, id, bytes, at)
    case Forget(id) => Forgotten(panes, id)
    case Create(id) => Created(panes, id)
  }

  function Fold(panes: Panes, evs: seq<Event>): Panes {
    if evs == [] then panes else Apply(Fold(panes, evs[..|evs| - 1]), evs[|evs| - 1])
  }

  function Replay(log: seq<Event>): Panes { Fold(map[], log) }

  /** All the bytes the events bring to pane id, in order. */
  function Data(evs: seq<Event>, id: PaneId): seq<byte> {
    if evs == [] then []
    else
      var ev := evs[|evs| - 1];
      Data(evs[..|evs| - 1], id) + if ev.Append? && ev.id == id then ev.bytes else []
  }

  predicate Kept(evs: seq<Event>, id: PaneId) {
    Forget(id) !in evs
  }

  /** Does this event make pane id known? */
  predicate Makes(ev: Event, id: PaneId) {
    ev.id == id && (ev.Create? || (ev.Append? && ev.bytes != []))
  }

  /** Nothing here touches the pane's bytes or its existence: at most NewTokens. */
  predicate Undisturbed(evs: seq<Event>, id: PaneId) {
    forall ev <- evs :: ev.id == id ==> ev.Create?
  }

  lemma {:induction false} UndisturbedSame(panes: Panes, evs: seq<Event>, id: PaneId)
    requires Undisturbed(evs, id) && id in panes
    ensures id in Fold(panes, evs) && Fold(panes, evs)[id] == panes[id]
  {
    if evs == [] {
    } else {
      var n := |evs| - 1;
      UndisturbedSame(panes, evs[..n], id);
      assert evs[n] in evs;
    }
  }

  lemma {:induction false} FoldSplit(panes: Panes, a: seq<Event>, b: seq<Event>)
    ensures Fold(panes, a + b) == Fold(Fold(panes, a), b)
  {
    if b == [] {
      assert a + b == a;
    } else {
      assert (a + b)[..|a + b| - 1] == a + b[..|b| - 1];
      FoldSplit(panes, a, b[..|b| - 1]);
    }
  }

  lemma {:induction false} DataSplit(a: seq<Event>, b: seq<Event>, id: PaneId)
    ensures Data(a + b, id) == Data(a, id) + Data(b, id)
  {
    if b == [] {
      assert a + b == a;
    } else {
      assert (a + b)[..|a + b| - 1] == a + b[..|b| - 1];
      DataSplit(a, b[..|b| - 1], id);
    }
  }

  // --- What a pane's buffer holds ------------------------------------------------

  lemma EventGrows(panes: Panes, ev: Event, id: PaneId)
    requires ev != Forget(id)
    ensures Log(Apply(panes, ev), id).history
         == Log(panes, id).history + if ev.Append? && ev.id == id then ev.bytes else []
  {
  }

  /** While a pane is not forgotten its stream only grows, by exactly the data events. */
  lemma {:induction false} StreamGrows(panes: Panes, evs: seq<Event>, id: PaneId)
    requires Kept(evs, id)
    ensures Log(Fold(panes, evs), id).history == Log(panes, id).history + Data(evs, id)
  {
    if evs == [] {
      assert Log(panes, id).history + [] == Log(panes, id).history;
    } else {
      var n := |evs| - 1;
      StreamGrows(panes, evs[..n], id);
      assert evs[n] != Forget(id);
      EventGrows(Fold(panes, evs[..n]), evs[n], id);
      Assoc(Log(panes, id).history, Data(evs[..n], id), if evs[n].Append? && evs[n].id == id then evs[n].bytes else []);
    }
  }

  /** ... and it is known as soon as some event has made it. */
  lemma {:induction false} KnownOnceMade(panes: Panes, evs: seq<Event>, id: PaneId)
    requires Kept(evs, id)
    ensures id in Fold(panes, evs) <==> id in panes || exists ev :: ev in evs && Makes(ev, id)
  {
    if evs == [] {
    } else {
      var n := |evs| - 1;
      KnownOnceMade(panes, evs[..n], id);
      assert forall ev :: ev in evs <==> ev in evs[..n] || ev == evs[n];
      assert id in Fold(panes, evs) <==> id in Fold(panes, evs[..n]) || Makes(evs[n], id);
    }
  }

  /** k is where pane id's present life begins: just after its last Forget, if any. */
  predicate LifeBegins(log: seq<Event>, id: PaneId, k: nat) {
    && k <= |log| && (k == 0 || log[k - 1] == Forget(id)) && Kept(log[k..], id)
  }

  /** At any instant a pane's stream is the data since it was last forgotten, and the
      pane is known iff something has created it since. */
  lemma StreamOfLife(log: seq<Event>, id: PaneId, k: nat)
    requires LifeBegins(log, id, k)
    ensures Log(Replay(log), id).history == Data(log[k..], id)
    ensures id in Replay(log) <==> exists ev :: ev in log[k..] && Makes(ev, id)
  {
    assert log == log[..k] + log[k..];
    FoldSplit(map[], log[..k], log[k..]);
    StreamGrows(Replay(log[..k]), log[k..], id);
    KnownOnceMade(Replay(log[..k]), log[k..], id);
    assert id !in Replay(log[..k]);
    assert [] + Data(log[k..], id) == Data(log[k..], id);
  }

  /** Every log has such a k. */
  lemma {:induction false} LifeExists(log: seq<Event>, id: PaneId) returns (k: nat)
    ensures LifeBegins(log, id, k)
  {
    if log == [] || log[|log| - 1] == Forget(id) {
      k := |log|;
    } else {
      k := LifeExists(log[..|log| - 1], id);
      assert log[k..] == log[..|log| - 1][k..] + [log[|log| - 1]];
    }
  }

  /** A pane known at a and unknown at b was forgotten in between. */
  lemma LostMeansForgotten(log: seq<Event>, a: nat, b: nat, id: PaneId)
    requires a <= b <= |log|
    requires id in Replay(log[..a]) && id !in Replay(log[..b])
    ensures Forget(id) in log[a..b]
  {
    if Kept(log[a..b], id) {
      Between(log, a, b, id);
    }
  }

  lemma Between(log: seq<Event>, a: nat, b: nat, id: PaneId)
    requires a <= b <= |log| && Kept(log[a..b], id)
    ensures Log(Replay(log[..b]), id).history == Log(Replay(log[..a]), id).history + Data(log[a..b], id)
    ensures id in Replay(log[..a]) ==> id in Replay(log[..b])
  {
    assert log[..b] == log[..a] + log[a..b];
    FoldSplit(map[], log[..a], log[a..b]);
    StreamGrows(Replay(log[..a]), log[a..b], id);
    KnownOnceMade(Replay(log[..a]), log[a..b], id);
  }

  // --- Reads over a run ------------------------------------------------------------

  /** Read as it runs: section one sees the log at a, section two at b. */
  function TwoSectionRead(capacity: nat, instance: string, log: seq<Event>, a: nat, b: nat,
                          id: PaneId, token: Token, now: Time): ReadResult
    requires a <= b <= |log|
  {
    match ReadFirst(instance, Replay(log[..a]), id, token)
    case Some(e) => Refused(e)
    case None => ReadSecond(capacity, instance, Replay(log[..b]), id, token.offset, now)
  }

  /** Whatever happens between the two sections, the result is that of an atomic read at
      some instant in between; a token error is reported only while the pane is known. */
  lemma ReadLinearizable(capacity: nat, instance: string, log: seq<Event>, a: nat, b: nat,
                         id: PaneId, token: Token, now: Time) returns (k: nat)
    requires a <= b <= |log|
    ensures a <= k <= b
    ensures TwoSectionRead(capacity, instance, log, a, b, id, token, now)
         == AtomicRead(capacity, instance, Replay(log[..k]), id, token, now)
    ensures TwoSectionRead(capacity, instance, log, a, b, id, token, now) == Refused(PaneUnknown)
       <==> id !in Replay(log[..k])
  {
    k := if ReadFirst(instance, Replay(log[..a]), id, token).Some? then a else b;
  }

  /** Both sections of Read, on the token's fields: bytes come back only for a checkpoint of
      this store and this pane; and if the pane is known at both sections, each fault of
      the token comes back iff it is the first. */
  lemma TwoSectionAnswers(capacity: nat, instance: string, log: seq<Event>, a: nat, b: nat,
                          id: PaneId, token: Token, now: Time)
    requires a <= b <= |log|
    ensures var r := TwoSectionRead(capacity, instance, log, a, b, id, token, now);
            && (r.Got? ==> token.Issued? && token.instance == instance && token.pane == id)
            && (r == Refused(PaneUnknown) <==>
                  id !in Replay(log[..a]) || (Ours(instance, id, token) && id !in Replay(log[..b])))
            && (id in Replay(log[..a]) && id in Replay(log[..b]) ==>
                  Answers(capacity, instance, Replay(log[..b]), id, token, now, r))
  {
    if id in Replay(log[..a]) {
      ReadAnswers(capacity, instance, Replay(log[..b]), id, token, now);
    }
  }

  /** The token points at the present head of pane id's stream. */
  predicate AtHead(instance: string, panes: Panes, id: PaneId, token: Token) {
    token.Issued? && token == HeadToken(instance, panes, id, token.mintedAt)
  }

  /** One read of a client's chain: what its two sections see of the log, and the clock. */
  datatype Sections = Sections(first: nat, second: nat, now: Time)

  /** Feed each read's next token to the following read; None if any is refused. */
  function ReadChain(capacity: nat, instance: string, log: seq<Event>, id: PaneId,
                     token: Token, calls: seq<Sections>): Option<(seq<byte>, Token)>
    requires forall i :: 0 <= i < |calls| ==> calls[i].first <= calls[i].second <= |log|
    decreases |calls|
  {
    if calls == [] then Some(([], token))
    else
      match TwoSectionRead(capacity, instance, log, calls[0].first, calls[0].second, id, token, calls[0].now)
      case Refused(_) => None
      case Got(bytes, next) =>
        match ReadChain(capacity, instance, log, id, next, calls[1..])
        case None => None
        case Some(rest) => Some((bytes + rest.0, rest.1))
  }

  /** Each read begins after the one before has returned. */
  predicate Forward(log: seq<Event>, from: nat, calls: seq<Sections>) {
    && from <= |log|
    && (forall i :: 0 <= i < |calls| ==> from <= calls[i].first <= calls[i].second <= |log|)
    && (forall i, j :: 0 <= i < j < |calls| ==> calls[i].second <= calls[j].first)
  }

  function LastPos(from: nat, calls: seq<Sections>): nat {
    if calls == [] then from else calls[|calls| - 1].second
  }

  /** Exactly once: from a token at the head of the stream, however events fall between
      the reads and between the sections of each, the outputs concatenate to precisely the data in between, and the
      last token is again at the head. */
  lemma {:induction false} ExactlyOnce(capacity: nat, instance: string, log: seq<Event>, id: PaneId,
                                       from: nat, token: Token, calls: seq<Sections>)
    requires Forward(log, from, calls)
    requires AtHead(instance, Replay(log[..from]), id, token)
    requires Kept(log[from..LastPos(from, calls)], id)
    requires ReadChain(capacity, instance, log, id, token, calls).Some?
    ensures var r := ReadChain(capacity, instance, log, id, token, calls).value;
            && r.0 == Data(log[from..LastPos(from, calls)], id)
            && AtHead(instance, Replay(log[..LastPos(from, calls)]), id, r.1)
    decreases |calls|
  {
    if calls == [] {
      assert log[from..from] == [];
    } else {
      var p, last := calls[0].second, LastPos(from, calls);
      assert last == LastPos(p, calls[1..]);
      assert log[from..last] == log[from..p] + log[p..last];
      Between(log, from, p, id);
      var k := ReadLinearizable(capacity, instance, log, calls[0].first, p, id, token, calls[0].now);
      var first := TwoSectionRead(capacity, instance, log, calls[0].first, p, id, token, calls[0].now);
      assert first == AtomicRead(capacity, instance, Replay(log[..p]), id, token, calls[0].now);
      assert first.bytes == Data(log[from..p], id);
      ExactlyOnce(capacity, instance, log, id, p, first.next, calls[1..]);
      DataSplit(log[from..p], log[p..last], id);
    }
  }

  /** A reader is refused exactly when more than a capacity of data has gone by. */
  lemma RefusedIffLagging(capacity: nat, instance: string, log: seq<Event>, id: PaneId,
                          from: nat, token: Token, to: nat, now: Time)
    requires from <= to <= |log| && Kept(log[from..to], id) && id in Replay(log[..from])
    requires AtHead(instance, Replay(log[..from]), id, token)
    ensures var r := AtomicRead(capacity, instance, Replay(log[..to]), id, token, now);
            if |Data(log[from..to], id)| > capacity then r == Refused(TokenEvicted)
            else r.Got? && r.bytes == Data(log[from..to], id)
  {
    Between(log, from, to, id);
  }

  /** When a read reports the token as evicted, that verdict is final for the buffer's
      life iff the offset has fallen below the window. Otherwise it lies beyond the head,
      and enough output makes the same token readable. */
  lemma EvictionIsFinalIff(capacity: nat, instance: string, log: seq<Event>, id: PaneId, token: Token, now: Time)
    requires AtomicRead(capacity, instance, Replay(log), id, token, now) == Refused(TokenEvicted)
    ensures (forall more | Kept(more, id) ::
               AtomicRead(capacity, instance, Replay(log + more), id, token, now) == Refused(TokenEvicted))
       <==> token.offset < RingBuffer.Start(Replay(log)[id].history, capacity)
  {
    var h := Replay(log)[id].history;
    forall more | Kept(more, id)
      ensures id in Replay(log + more) && Replay(log + more)[id].history == h + Data(more, id)
    {
      FoldSplit(map[], log, more);
      StreamGrows(Replay(log), more, id);
      KnownOnceMade(Replay(log), more, id);
    }
    if token.offset >= RingBuffer.Start(h, capacity) {
      var more := [Append(id, seq(token.offset - |h|, _ => 0), now)];
      assert Kept(more, id);
      assert |Data(more, id)| == token.offset - |h| by { assert Data(more[..0], id) == []; }
      assert AtomicRead(capacity, instance, Replay(log + more), id, token, now).Got?;
    }
  }

  /** The smallest such run: a token from a longer life is "evicted" on the re-created pane
      until that has grown to its offset, and then readable. */
  lemma EvictedThenReadable(capacity: nat, instance: string, id: PaneId, now: Time)
    ensures var log := [Append(id, [65, 66], now), Forget(id), Append(id, [67], now)];
            var token := HeadToken(instance, Replay(log[..1]), id, now);
            var grown := log + [Append(id, [68], now)];
            && AtomicRead(capacity, instance, Replay(log), id, token, now) == Refused(TokenEvicted)
            && AtomicRead(capacity, instance, Replay(grown), id, token, now)
                 == Got([], HeadToken(instance, Replay(grown), id, now))
  {
    var log := [Append(id, [65, 66], now), Forget(id), Append(id, [67], now)];
    var grown := log + [Append(id, [68], now)];
    var none: seq<byte> := [];
    assert none + [65, 66] == [65, 66] && none + [67] == [67] && [67] + [68] == [67, 68];
    assert log[..2][..1] == log[..1] == [log[0]] && log[..1][..0] == [] && grown[..3] == log;
    assert Replay(log[..1]) == Apply(Replay(log[..1][..0]), log[..1][0]);
    assert Replay(log) == Apply(Replay(log[..2]), log[2]);
    assert Replay(log)[id].history == [67] && Replay(grown)[id].history == [67, 68];
    assert [67, 68][2..] == [];
  }

  /** Tokens are not tied to a buffer's life. One minted before the pane was last forgotten
      is honoured again iff the data since then has a window that covers its offset: it
      then yields that other stream's tail. */
  lemma TokenOutlivesForgetIff(capacity: nat, instance: string, log: seq<Event>, id: PaneId,
                               from: nat, token: Token, k: nat, now: Time)
    requires from < k <= |log| && LifeBegins(log, id, k) && id in Replay(log)
    requires AtHead(instance, Replay(log[..from]), id, token)
    ensures var r := AtomicRead(capacity, instance, Replay(log), id, token, now);
            var lived, reborn := |Log(Replay(log[..from]), id).history|, Data(log[k..], id);
            && (r.Got? <==> lived <= |reborn| <= lived + capacity)
            && (r.Got? ==> r.bytes == reborn[lived..])
  {
    StreamOfLife(log, id, k);
  }

  /** The smallest such run: pane closed, re-created, and the old token skips a byte. */
  lemma StaleTokenSkipsABirth(capacity: nat, instance: string, id: PaneId, now: Time)
    requires capacity > 0
    ensures var log := [Append(id, [65], now), Forget(id), Append(id, [66, 67], now)];
            var token := HeadToken(instance, Replay(log[..1]), id, now);
            AtomicRead(capacity, instance, Replay(log), id, token, now)
              == Got([67], HeadToken(instance, Replay(log), id, now))
  {
    var log := [Append(id, [65], now), Forget(id), Append(id, [66, 67], now)];
    var none: seq<byte> := [];
    assert none + [65] == [65] && none + [66, 67] == [66, 67];
    assert log[..2][..1] == log[..1] == [log[0]] && log[..1][..0] == [];
    assert Replay(log[..1]) == Apply(Replay(log[..1][..0]), log[..1][0]);
    assert Replay(log) == Apply(Replay(log[..2]), log[2]);
    assert [66, 67][1..] == [67];
  }
}
