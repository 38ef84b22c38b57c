/**
 The store's critical sections as functions of its state (internal/store/store.go,
 internal/store/token.go): what class Store must do and what the protocol modules
 interleave. Watchers are named by a key K: the Watcher object itself in Store, a
 waiter's number in the protocol.
 */
module StoreSpec {
  import opened Bytes
  import RingBuffer

  type PaneId = string

  /** A decoded checkpoint. Empty is the token "", which no longer decodes to anything. */
  datatype Token =
    | Empty
    | Malformed
    | Issued(instance: string, pane: PaneId, offset: int, mintedAt: Time)

  datatype StoreError = PaneUnknown | TokenMalformed | TokenWrongInstance | TokenWrongPane | TokenEvicted

  datatype ReadResult = Got(bytes: seq<byte>, next: Token) | Refused(error: StoreError)

  /** A pane's whole stream since its buffer was created. */
  datatype PaneLog = PaneLog(history: seq<byte>, lastAppend: Option<Time>)

  /** One registered observer: its pane and whether its one-slot channel is full. */
  datatype Watching = Watching(pane: PaneId, pending: bool)

  const NEW_PANE := PaneLog([], None)

  function Log(panes: map<PaneId, PaneLog>, id: PaneId): PaneLog {
    if id in panes then panes[id] else NEW_PANE
  }

  // --- The buffers -------------------------------------------------------------

  function Created(panes: map<PaneId, PaneLog>, id: PaneId): map<PaneId, PaneLog> {
    panes[id := Log(panes, id)]
  }

  function Appended(panes: map<PaneId, PaneLog>, id: PaneId, p: seq<byte>, now: Time): map<PaneId, PaneLog> {
    if p == [] then panes else panes[id := PaneLog(Log(panes, id).history + p, Some(now))]
  }

  /** Creating the buffer first makes no difference to an append. */
  lemma CreatedThenExtended(panes: map<PaneId, PaneLog>, id: PaneId, p: seq<byte>, now: Time)
    requires p != []
    ensures Created(panes, id)[id := PaneLog(Created(panes, id)[id].history + p, Some(now))]
         == Appended(panes, id, p, now)
  {
  }

  function Forgotten(panes: map<PaneId, PaneLog>, id: PaneId): map<PaneId, PaneLog> {
    panes - {id}
  }

  // --- The watchers ------------------------------------------------------------

  /** A send that does not block: a full channel stays as it is. */
  function Signalled<K>(ws: map<K, Watching>, id: PaneId): map<K, Watching> {
    map k | k in ws :: if ws[k].pane == id then ws[k].(pending := true) else ws[k]
  }

  // --- Tokens and reads ---------------------------------------------------------

  /** The token minted for the head of `id`'s stream. */
  function HeadToken(instance: string, panes: map<PaneId, PaneLog>, id: PaneId, now: Time): Token {
    Issued(instance, id, |Log(panes, id).history|, now)
  }

  function LastAppend(panes: map<PaneId, PaneLog>, id: PaneId): Option<Time> {
    Log(panes, id).lastAppend
  }

  function TokenTime(token: Token): Option<Time> {
    if token.Issued? then Some(token.mintedAt) else None
  }

  /** The checks between Read's two sections: they look at the token alone. */
  function TokenFault(instance: string, id: PaneId, token: Token): Option<StoreError> {
    if !token.Issued? then Some(TokenMalformed)
    else if token.instance != instance then Some(TokenWrongInstance)
    else if token.pane != id then Some(TokenWrongPane)
    else None
  }

  /** Read's first section and token checks: None lets the call go on to the second. */
  function ReadFirst(instance: string, panes: map<PaneId, PaneLog>, id: PaneId, token: Token): Option<StoreError> {
    if id !in panes then Some(PaneUnknown) else TokenFault(instance, id, token)
  }

  /** Read's second section, on a token that passed the checks. */
  function ReadSecond(capacity: nat, instance: string, panes: map<PaneId, PaneLog>,
                      id: PaneId, offset: int, now: Time): ReadResult
  {
    if id !in panes then Refused(PaneUnknown)
    else
      match RingBuffer.ReadFrom(panes[id].history, capacity, offset)
      case None => Refused(TokenEvicted)
      case Some(out) => Got(out, HeadToken(instance, panes, id, now))
  }

  /** Both sections against one state: the read a client reasons with. */
  function AtomicRead(capacity: nat, instance: string, panes: map<PaneId, PaneLog>,
                      id: PaneId, token: Token, now: Time): ReadResult
  {
    match ReadFirst(instance, panes, id, token)
    case Some(e) => Refused(e)
    case None => ReadSecond(capacity, instance, panes, id, token.offset, now)
  }

  // --- The answers, on the request's own fields ---------------------------------------

  /** A checkpoint of this very store and pane. */
  predicate Ours(instance: string, id: PaneId, token: Token) {
    token.Issued? && token.instance == instance && token.pane == id
  }

  /** The offset lies among the last `capacity` bytes of the stream, or at its head. */
  predicate Retained(history: seq<byte>, capacity: nat, offset: int) {
    0 <= offset <= |history| && |history| - offset <= capacity
  }

  /** Every answer of Read. An unknown pane comes before every fault of the token; then
      decoding, the instance, the pane, the offset, in this order. */
  predicate Answers(capacity: nat, instance: string, panes: map<PaneId, PaneLog>,
                    id: PaneId, token: Token, now: Time, r: ReadResult)
  {
    if id !in panes then r == Refused(PaneUnknown)
    else if !token.Issued? then r == Refused(TokenMalformed)
    else if token.instance != instance then r == Refused(TokenWrongInstance)
    else if token.pane != id then r == Refused(TokenWrongPane)
    else if !Retained(panes[id].history, capacity, token.offset) then r == Refused(TokenEvicted)
    else r == Got(panes[id].history[token.offset..], Issued(instance, id, |panes[id].history|, now))
  }

  lemma ReadAnswers(capacity: nat, instance: string, panes: map<PaneId, PaneLog>, id: PaneId, token: Token, now: Time)
    ensures Answers(capacity, instance, panes, id, token, now, AtomicRead(capacity, instance, panes, id, token, now))
  {
  }

  /** Append, field by field: this pane's stream and time, and nothing else. */
  lemma AppendedExactly(panes: map<PaneId, PaneLog>, id: PaneId, p: seq<byte>, now: Time)
    ensures Appended(panes, id, p, now)
         == if p == [] then panes
            else panes[id := PaneLog(if id in panes then panes[id].history + p else p, Some(now))]
  {
    assert [] + p == p;
  }

  lemma SignalledExactly<K>(ws: map<K, Watching>, id: PaneId, k: K)
    requires k in ws
    ensures Signalled(ws, id).Keys == ws.Keys
    ensures Signalled(ws, id)[k] == Watching(ws[k].pane, ws[k].pending || ws[k].pane == id)
  {
  }
}
