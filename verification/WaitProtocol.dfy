/**
 `wait` as a concurrent protocol (internal/controller/wait.go over internal/store/store.go).

 Any number of waits run beside the drain loop and other handlers. One step is one
 critical section of the store's mutex, one receive, or one choice of a select; steps of
 different goroutines interleave freely. The buffers are the replay of the event log.
 */
module WaitProtocol {
  import opened Bytes
  import opened StoreSpec
  import opened EventLog
  import opened WaitError
  import AnsiStrip
  import Sentinel
  import Quiescence

  // --- Requests and outcomes ---------------------------------------------------------

  /** RE2 is not modelled: a pattern is any function from text to an optional match. */
  type Pattern = seq<byte> -> Option<seq<byte>>

  datatype WaitMode =
    | ForSentinel(token: seq<byte>)
    | ForRegex(pattern: Option<Pattern>)
    | ForQuiescence(window: Time)
    | Unsupported

  datatype Request = Request(pane: PaneId, after: Token, timeout: Time, mode: WaitMode)

  datatype Outcome =
    | Matched(next: Token, matched: seq<byte>, exitCode: Option<nat>)
    | Idle(next: Token)
    | Failed(code: Code)
    | Interrupted  // the context was cancelled

  predicate ValidSentinelToken(t: seq<byte>) {
    t != [] && Sentinel.COLON !in t && LF !in t
  }

  /** The checks before the watcher is registered. */
  function Rejection(req: Request): Option<Code> {
    if req.after.Empty? then Some(MissingAfter)
    else if req.timeout <= 0 then Some(InvalidArgs)
    else
      match req.mode
      case ForSentinel(t) => if ValidSentinelToken(t) then None else Some(InvalidArgs)
      case ForQuiescence(w) => if 0 < w < req.timeout then None else Some(InvalidArgs)
      case ForRegex(p) => if p.Some? then None else Some(InvalidArgs)
      case Unsupported => Some(InvalidArgs)
  }

  /** What the match modes find in the bytes of one read: the match and its exit code. */
  function Verdict(mode: WaitMode, bytes: seq<byte>): Option<(seq<byte>, Option<nat>)> {
    var text := AnsiStrip.MatchInput(bytes);
    match mode
    case ForSentinel(token) =>
      (match Sentinel.FirstSentinel(text, token)
       case Some(m) => Some((m.matched, Some(m.exitCode)))
       case None => None)
    case ForRegex(Some(p)) =>
      (match p(text)
       case Some(m) => Some((m, None))
       case None => None)
    case _ => None
  }

  // --- State --------------------------------------------------------------------------

  type WaiterId = nat

  datatype Pc =
    | Called                              // arguments accepted, before Watch
    | Reading                             // before Read's first section
    | Checked(from: nat, offset: int)     // between Read's sections; the first saw log[..from]
    | Judging(bytes: seq<byte>, next: Token)
    | Timing(seen: nat, last: Option<Time>, window: Time)  // LastAppend at log[..seen] gave `last`
    | Minting                             // quiet; before NewToken
    | Parked(quietAt: Option<Time>)       // in select
    | Leaving(outcome: Outcome)           // before the deferred cancel
    | Done(result: Outcome)

  /** A Read this wait made: its sections saw log[..from] and log[..to], its result is
      that of an atomic read of log[..at]. */
  datatype Call = Call(from: nat, at: nat, to: nat, now: Time, got: ReadResult)

  /** A quiescence check: LastAppend saw log[..seen]; the clock was read, as now, when the
      log was log[..pos]. */
  datatype QuietCheck = QuietCheck(seen: nat, pos: nat, now: Time)

  datatype Waiter = Waiter(
    req: Request, pc: Pc, known: bool, started: Time,
    calls: seq<Call>,         // every Read so far
    look: Option<QuietCheck>)   // the last quiescence check

  datatype State = State(
    capacity: nat, instance: string, log: seq<Event>, now: Time,
    watchers: map<WaiterId, Watching>, waiters: map<WaiterId, Waiter>)

  datatype Arm = Signal | QuietTimer | Deadline | Context

  datatype Step =
    | Emit(ev: Event)            // the drain loop, or another handler's NewToken
    | Tick(now: Time)
    | Arrive(w: WaiterId, req: Request)
    | Act(w: WaiterId)           // the wait's own next step
    | Wake(w: WaiterId, arm: Arm)

  // --- Transitions ----------------------------------------------------------------------

  function PanesOf(s: State): Panes { Replay(s.log) }

  /** Append and Forget signal their pane's watchers under the lock; NewToken does not. */
  function Signals(ws: map<WaiterId, Watching>, ev: Event): map<WaiterId, Watching> {
    if ev.Create? then ws else Signalled(ws, ev.id)
  }

  function Emitted(s: State, ev: Event): State {
    s.(log := s.log + [ev], watchers := Signals(s.watchers, ev))
  }

  predicate Acting(pc: Pc) { !pc.Parked? && !pc.Done? }

  predicate ArmReady(s: State, w: WaiterId, arm: Arm)
    requires w in s.waiters && s.waiters[w].pc.Parked?
  {
    var x := s.waiters[w];
    match arm
    case Signal => w in s.watchers && s.watchers[w].pending
    case QuietTimer => x.pc.quietAt.Some? && x.pc.quietAt.value <= s.now
    case Deadline => x.started + x.req.timeout <= s.now
    case Context => true
  }

  predicate Enabled(s: State, step: Step) {
    match step
    case Emit(ev) => ev.Append? ==> ev.bytes != [] && ev.at == s.now
    case Tick(now) => s.now <= now
    case Arrive(w, _) => w !in s.waiters
    case Act(w) => w in s.waiters && Acting(s.waiters[w].pc)
    case Wake(w, arm) => w in s.waiters && s.waiters[w].pc.Parked? && ArmReady(s, w, arm)
  }

  /** A Read returned: an error leaves the loop, a success is judged. */
  function Returned(x: Waiter, call: Call): Waiter {
    var pc := match call.got
              case Refused(e) => Leaving(Failed(OfRead(x.known, e)))
              case Got(bytes, next) => Judging(bytes, next);
    x.(pc := pc, known := x.known || call.got.Got?, calls := x.calls + [call])
  }

  function FirstSection(s: State, x: Waiter): Waiter {
    var n := |s.log|;
    match ReadFirst(s.instance, PanesOf(s), x.req.pane, x.req.after)
    case Some(e) => Returned(x, Call(n, n, n, s.now, Refused(e)))
    case None => x.(pc := Checked(n, x.req.after.offset))
  }

  function SecondSection(s: State, x: Waiter): Waiter
    requires x.pc.Checked?
  {
    var n := |s.log|;
    var got := ReadSecond(s.capacity, s.instance, PanesOf(s), x.req.pane, x.pc.offset, s.now);
    Returned(x, Call(x.pc.from, n, n, s.now, got))
  }

  function Judged(s: State, x: Waiter): Waiter
    requires x.pc.Judging?
  {
    if x.req.mode.ForQuiescence? then
      x.(pc := Timing(|s.log|, LastAppend(PanesOf(s), x.req.pane), x.req.mode.window))
    else
      match Verdict(x.req.mode, x.pc.bytes)
      case Some(v) => x.(pc := Leaving(Matched(x.pc.next, v.0, v.1)))
      case None => x.(pc := Parked(None))
  }

  function Checkpoint(req: Request): Time { Quiescence.Checkpoint(req.after) }

  /** The elapsed time the program compares with the window. */
  function IdleFor(req: Request, last: Option<Time>, now: Time): Time {
    now - Quiescence.Reference(Checkpoint(req), last)
  }

  function Timed(s: State, x: Waiter): Waiter
    requires x.pc.Timing?
  {
    var idle := IdleFor(x.req, x.pc.last, s.now);
    var pc := if idle >= x.pc.window then Minting else Parked(Some(s.now + (x.pc.window - idle)));
    x.(pc := pc, look := Some(QuietCheck(x.pc.seen, |s.log|, s.now)))
  }

  function Put(s: State, w: WaiterId, x: Waiter): State {
    s.(waiters := s.waiters[w := x])
  }

  function Acted(s: State, w: WaiterId): State
    requires w in s.waiters && Acting(s.waiters[w].pc)
  {
    var x := s.waiters[w];
    match x.pc
    case Called =>
      Put(s, w, x.(pc := Reading, started := s.now)).(watchers := s.watchers[w := Watching(x.req.pane, false)])
    case Reading => Put(s, w, FirstSection(s, x))
    case Checked(_, _) => Put(s, w, SecondSection(s, x))
    case Judging(_, _) => Put(s, w, Judged(s, x))
    case Timing(_, _, _) => Put(s, w, Timed(s, x))
    case Minting =>
      var token := HeadToken(s.instance, PanesOf(s), x.req.pane, s.now);
      Put(Emitted(s, Create(x.req.pane)), w, x.(pc := Leaving(Idle(token))))
    case Leaving(o) => Put(s, w, x.(pc := Done(o))).(watchers := s.watchers - {w})
  }

  function Woken(s: State, w: WaiterId, arm: Arm): State
    requires w in s.waiters
  {
    var x := s.waiters[w];
    match arm
    case Signal =>
      Put(s, w, x.(pc := Reading)).(watchers := s.watchers[w := Watching(x.req.pane, false)])
    case QuietTimer => Put(s, w, x.(pc := Reading))
    case Deadline => Put(s, w, x.(pc := Leaving(Failed(Timeout))))
    case Context => Put(s, w, x.(pc := Leaving(Interrupted)))
  }

  function Arrived(s: State, w: WaiterId, req: Request): State {
    var pc := match Rejection(req)
              case Some(code) => Done(Failed(code))
              case None => Called;
    Put(s, w, Waiter(req, pc, false, s.now, [], None))
  }

  function Do(s: State, step: Step): State
    requires Enabled(s, step)
  {
    match step
    case Emit(ev) => Emitted(s, ev)
    case Tick(now) => s.(now := now)
    case Arrive(w, req) => Arrived(s, w, req)
    case Act(w) => Acted(s, w)
    case Wake(w, arm) => Woken(s, w, arm)
  }

  ghost predicate Next(s: State, step: Step, s': State) {
    Enabled(s, step) && s' == Do(s, step)
  }

  predicate Init(s: State) {
    s.log == [] && s.watchers == map[] && s.waiters == map[]
  }

  ghost predicate IsRun(states: seq<State>, steps: seq<Step>) {
    && |states| == |steps| + 1 && Init(states[0])
    && forall i :: 0 <= i < |steps| ==> Next(states[i], steps[i], states[i + 1])
  }
}
