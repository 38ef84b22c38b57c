/** What every reachable state of the wait protocol keeps, for every wait in it. */
module WaitInvariant {
  import opened Bytes
  import opened StoreSpec
  import opened EventLog
  import opened WaitError
  import opened WaitProtocol

  // --- One wait's invariant, as a predicate of what it can see --------------------------

  /** The shared part of a state. */
  datatype Shared = Shared(capacity: nat, instance: string, log: seq<Event>, now: Time)

  function Common(s: State): Shared { Shared(s.capacity, s.instance, s.log, s.now) }

  function Channel(s: State, w: WaiterId): Option<Watching> {
    if w in s.watchers then Some(s.watchers[w]) else None
  }

  /** Registered from Watch to cancel, on its own pane. */
  predicate Registered(ch: Option<Watching>, pane: PaneId, pc: Pc) {
    if pc.Called? || pc.Done? then ch.None?
    else ch.Some? && ch.value.pane == pane
  }

  function Last(calls: seq<Call>): Call
    requires calls != []
  {
    calls[|calls| - 1]
  }

  /** An empty channel means the last read is still current. */
  predicate Current(log: seq<Event>, ch: Option<Watching>, pane: PaneId, calls: seq<Call>) {
    && calls != [] && Last(calls).to <= |log|
    && (ch.Some? && !ch.value.pending ==> Undisturbed(log[Last(calls).to..], pane))
  }

  /** Between a read and the end of the select that follows it. */
  predicate Watchful(pc: Pc) { pc.Judging? || pc.Timing? || pc.Minting? || pc.Parked? }

  /** A Read is an atomic read of the log at an instant within the call. */
  predicate Linear(sh: Shared, req: Request, c: Call) {
    && c.from <= c.at <= c.to <= |sh.log|
    && c.got == AtomicRead(sh.capacity, sh.instance, Replay(sh.log[..c.at]), req.pane, req.after, c.now)
    && (c.got.Got? ==> c.at == c.to)
  }

  predicate CallsLinear(sh: Shared, req: Request, calls: seq<Call>) {
    && (forall i :: 0 <= i < |calls| ==> Linear(sh, req, calls[i]))
    && (forall i, j :: 0 <= i < j < |calls| ==> calls[i].to <= calls[j].from)
  }

  /** Between Read's sections: what the first one established. */
  predicate BetweenSections(sh: Shared, req: Request, calls: seq<Call>, pc: Pc) {
    pc.Checked? ==>
      && pc.from <= |sh.log|
      && (forall i :: 0 <= i < |calls| ==> calls[i].to <= pc.from)
      && ReadFirst(sh.instance, Replay(sh.log[..pc.from]), req.pane, req.after).None?
      && pc.offset == req.after.offset
  }

  predicate Missed(mode: WaitMode, c: Call) {
    c.got.Got? && Verdict(mode, c.got.bytes).None?
  }

  /** The loop goes on only past successful reads that matched nothing. */
  predicate EarlierMissed(mode: WaitMode, calls: seq<Call>) {
    forall i :: 0 <= i < |calls| - 1 ==> Missed(mode, calls[i])
  }

  predicate LastMissed(mode: WaitMode, calls: seq<Call>) {
    calls != [] && Missed(mode, Last(calls))
  }

  /** Where the wait is in its code, and what it has read by then. */
  predicate Position(mode: WaitMode, calls: seq<Call>, known: bool, pc: Pc) {
    match pc
    case Called => calls == [] && !known
    case Reading => known == (calls != []) && (known ==> LastMissed(mode, calls))
    case Checked(_, _) => known == (calls != []) && (known ==> LastMissed(mode, calls))
    case Judging(bytes, next) => known && calls != [] && Last(calls).got == Got(bytes, next)
    case Leaving(_) => true
    case Done(_) => true
    case _ => known && LastMissed(mode, calls)
  }

  /** The last quiescence check: LastAppend's answer at an instant after the last read,
      then the clock. */
  predicate Looked(log: seq<Event>, req: Request, calls: seq<Call>, look: Option<QuietCheck>) {
    && look.Some? && req.mode.ForQuiescence? && calls != []
    && Last(calls).to <= look.value.seen <= look.value.pos <= |log|
  }

  function IdleAt(log: seq<Event>, req: Request, look: QuietCheck): Time
    requires look.seen <= |log|
  {
    IdleFor(req, LastAppend(Replay(log[..look.seen]), req.pane), look.now)
  }

  predicate CheckedQuiet(log: seq<Event>, req: Request, calls: seq<Call>, look: Option<QuietCheck>) {
    Looked(log, req, calls, look) && IdleAt(log, req, look.value) >= req.mode.window
  }

  /** The quiet timer of a parked wait, set by the check that found the pane busy. */
  predicate TimerSet(log: seq<Event>, req: Request, calls: seq<Call>, look: Option<QuietCheck>, quietAt: Option<Time>) {
    if !req.mode.ForQuiescence? then quietAt.None?
    else
      && Looked(log, req, calls, look) && IdleAt(log, req, look.value) < req.mode.window
      && quietAt == Some(look.value.now + (req.mode.window - IdleAt(log, req, look.value)))
  }

  predicate TimerSound(log: seq<Event>, req: Request, calls: seq<Call>, look: Option<QuietCheck>, pc: Pc) {
    && (pc.Timing? ==>
          && req.mode.ForQuiescence? && pc.window == req.mode.window
          && calls != [] && Last(calls).to <= pc.seen <= |log|
          && pc.last == LastAppend(Replay(log[..pc.seen]), req.pane))
    && (pc.Minting? ==> CheckedQuiet(log, req, calls, look))
    && (pc.Parked? ==> TimerSet(log, req, calls, look, pc.quietAt))
  }

  predicate Left(pc: Pc) { pc.Leaving? || pc.Done? }

  function Result(pc: Pc): Outcome
    requires Left(pc)
  {
    if pc.Leaving? then pc.outcome else pc.result
  }

  /** Why a wait ended as it did. */
  predicate Justified(log: seq<Event>, now: Time, x: Waiter, o: Outcome) {
    match o
    case Matched(next, matched, code) =>
      && x.calls != [] && Last(x.calls).got.Got? && next == Last(x.calls).got.next
      && Verdict(x.req.mode, Last(x.calls).got.bytes) == Some((matched, code))
    case Idle(next) => LastMissed(x.req.mode, x.calls) && CheckedQuiet(log, x.req, x.calls, x.look)
    case Interrupted => LastMissed(x.req.mode, x.calls)
    case Failed(code) =>
      match code
      case Timeout => LastMissed(x.req.mode, x.calls) && x.started + x.req.timeout <= now
      case PaneNotFound => |x.calls| == 1 && Last(x.calls).got == Refused(PaneUnknown)
      case PaneClosed => |x.calls| > 1 && Last(x.calls).got == Refused(PaneUnknown)
      case InvalidAfter => x.calls != [] && Last(x.calls).got.Refused? && Last(x.calls).got.error != PaneUnknown
      case _ => x.calls == [] && Rejection(x.req) == Some(code)
  }

  predicate WaiterOk(sh: Shared, ch: Option<Watching>, x: Waiter) {
    && Registered(ch, x.req.pane, x.pc)
    && (Watchful(x.pc) ==> Current(sh.log, ch, x.req.pane, x.calls))
    && CallsLinear(sh, x.req, x.calls)
    && BetweenSections(sh, x.req, x.calls, x.pc)
    && EarlierMissed(x.req.mode, x.calls)
    && Position(x.req.mode, x.calls, x.known, x.pc)
    && TimerSound(sh.log, x.req, x.calls, x.look, x.pc)
    && (Left(x.pc) ==> Justified(sh.log, sh.now, x, Result(x.pc)))
    && (Rejection(x.req).Some? ==> x.pc == Done(Failed(Rejection(x.req).value)))
  }

  predicate Inv(s: State) {
    && (forall w <- s.waiters :: WaiterOk(Common(s), Channel(s, w), s.waiters[w]))
    && s.watchers.Keys <= s.waiters.Keys
  }

  // --- Other goroutines' steps ----------------------------------------------------------

  /** The channel after an event: full if it was, or if the event signals its pane. */
  function ChannelAfter(ch: Option<Watching>, ev: Event): Option<Watching> {
    if ch.Some? && !ev.Create? && ch.value.pane == ev.id then Some(ch.value.(pending := true)) else ch
  }

  lemma PrefixStable(log: seq<Event>, ev: Event)
    ensures forall n {:trigger (log + [ev])[..n]} :: 0 <= n <= |log| ==> (log + [ev])[..n] == log[..n]
    ensures forall n {:trigger (log + [ev])[n..]} :: 0 <= n <= |log| ==> (log + [ev])[n..] == log[n..] + [ev]
  {
  }

  lemma CurrentKept(log: seq<Event>, ch: Option<Watching>, pane: PaneId, calls: seq<Call>, ev: Event)
    requires Current(log, ch, pane, calls) && ch.Some? && ch.value.pane == pane
    ensures Current(log + [ev], ChannelAfter(ch, ev), pane, calls)
  {
    PrefixStable(log, ev);
  }

  lemma CallsKept(sh: Shared, req: Request, calls: seq<Call>, pc: Pc, ev: Event)
    requires CallsLinear(sh, req, calls) && BetweenSections(sh, req, calls, pc)
    ensures CallsLinear(sh.(log := sh.log + [ev]), req, calls)
    ensures BetweenSections(sh.(log := sh.log + [ev]), req, calls, pc)
  {
    PrefixStable(sh.log, ev);
    var sh' := sh.(log := sh.log + [ev]);
    forall i | 0 <= i < |calls| ensures Linear(sh', req, calls[i]) {
      assert Linear(sh, req, calls[i]);
    }
  }

  lemma EventKeeps(sh: Shared, ch: Option<Watching>, x: Waiter, ev: Event)
    requires WaiterOk(sh, ch, x)
    ensures WaiterOk(sh.(log := sh.log + [ev]), ChannelAfter(ch, ev), x)
  {
    if Watchful(x.pc) {
      CurrentKept(sh.log, ch, x.req.pane, x.calls, ev);
    }
    CallsKept(sh, x.req, x.calls, x.pc, ev);
    PrefixStable(sh.log, ev);
  }

  lemma TickKeeps(sh: Shared, ch: Option<Watching>, x: Waiter, now: Time)
    requires WaiterOk(sh, ch, x) && sh.now <= now
    ensures WaiterOk(sh.(now := now), ch, x)
  {
    var sh' := sh.(now := now);
    forall i | 0 <= i < |x.calls| ensures Linear(sh', x.req, x.calls[i]) {
      assert Linear(sh, x.req, x.calls[i]);
    }
  }

  // --- The wait's own steps ---------------------------------------------------------------

  lemma CallJoins(sh: Shared, req: Request, calls: seq<Call>, c: Call)
    requires CallsLinear(sh, req, calls) && Linear(sh, req, c)
    requires forall i :: 0 <= i < |calls| ==> calls[i].to <= c.from
    ensures CallsLinear(sh, req, calls + [c])
  {
  }

  lemma EarlierStillMissed(mode: WaitMode, calls: seq<Call>, c: Call)
    requires EarlierMissed(mode, calls) && (calls == [] || LastMissed(mode, calls))
    ensures EarlierMissed(mode, calls + [c])
  {
    forall i | 0 <= i < |calls| ensures Missed(mode, (calls + [c])[i]) {
      assert (calls + [c])[i] == calls[i];
    }
  }

  /** A Read that just returned joins the calls. */
  lemma ReturnKeeps(sh: Shared, ch: Option<Watching>, x: Waiter, c: Call)
    requires WaiterOk(sh, ch, x) && (x.pc.Reading? || x.pc.Checked?)
    requires Linear(sh, x.req, c) && c.to == |sh.log|
    requires forall i :: 0 <= i < |x.calls| ==> x.calls[i].to <= c.from
    ensures WaiterOk(sh, ch, Returned(x, c))
  {
    CallJoins(sh, x.req, x.calls, c);
    EarlierStillMissed(x.req.mode, x.calls, c);
    assert Last(x.calls + [c]) == c;
    assert sh.log[|sh.log|..] == [];
  }

  lemma FirstSectionKeeps(s: State, ch: Option<Watching>, x: Waiter)
    requires WaiterOk(Common(s), ch, x) && x.pc.Reading?
    ensures WaiterOk(Common(s), ch, FirstSection(s, x))
  {
    var n := |s.log|;
    assert s.log[..n] == s.log;
    forall i | 0 <= i < |x.calls| ensures x.calls[i].to <= n {
      assert Linear(Common(s), x.req, x.calls[i]);
    }
    match ReadFirst(s.instance, PanesOf(s), x.req.pane, x.req.after)
    case Some(e) => ReturnKeeps(Common(s), ch, x, Call(n, n, n, s.now, Refused(e)));
    case None =>
  }

  lemma SecondSectionKeeps(s: State, ch: Option<Watching>, x: Waiter)
    requires WaiterOk(Common(s), ch, x) && x.pc.Checked?
    ensures WaiterOk(Common(s), ch, SecondSection(s, x))
  {
    var n := |s.log|;
    assert s.log[..n] == s.log;
    var got := ReadSecond(s.capacity, s.instance, PanesOf(s), x.req.pane, x.pc.offset, s.now);
    ReturnKeeps(Common(s), ch, x, Call(x.pc.from, n, n, s.now, got));
  }

  lemma JudgedKeeps(s: State, ch: Option<Watching>, x: Waiter)
    requires WaiterOk(Common(s), ch, x) && x.pc.Judging?
    ensures WaiterOk(Common(s), ch, Judged(s, x))
  {
    assert s.log[..|s.log|] == s.log;
  }

  lemma MintKeeps(s: State, ch: Option<Watching>, x: Waiter, token: Token)
    requires WaiterOk(Common(s), ch, x) && x.pc.Minting?
    ensures WaiterOk(Common(Emitted(s, Create(x.req.pane))), ch, x.(pc := Leaving(Idle(token))))
  {
    EventKeeps(Common(s), ch, x, Create(x.req.pane));
  }

  lemma WokenKeeps(s: State, w: WaiterId, arm: Arm)
    requires w in s.waiters && s.waiters[w].pc.Parked? && ArmReady(s, w, arm)
    requires WaiterOk(Common(s), Channel(s, w), s.waiters[w])
    ensures WaiterOk(Common(s), Channel(Woken(s, w, arm), w), Woken(s, w, arm).waiters[w])
  {
  }

  lemma CalledKeeps(s: State, x: Waiter)
    requires WaiterOk(Common(s), None, x) && x.pc.Called?
    ensures WaiterOk(Common(s), Some(Watching(x.req.pane, false)), x.(pc := Reading, started := s.now))
  {
  }

  lemma TimedKeeps(s: State, ch: Option<Watching>, x: Waiter)
    requires WaiterOk(Common(s), ch, x) && x.pc.Timing?
    ensures WaiterOk(Common(s), ch, Timed(s, x))
  {
  }

  lemma LeavingKeeps(s: State, ch: Option<Watching>, x: Waiter)
    requires WaiterOk(Common(s), ch, x) && x.pc.Leaving?
    ensures WaiterOk(Common(s), None, x.(pc := Done(x.pc.outcome)))
  {
  }

  lemma ActedKeeps(s: State, w: WaiterId)
    requires w in s.waiters && Acting(s.waiters[w].pc)
    requires WaiterOk(Common(s), Channel(s, w), s.waiters[w])
    ensures WaiterOk(Common(Acted(s, w)), Channel(Acted(s, w), w), Acted(s, w).waiters[w])
  {
    var x, ch := s.waiters[w], Channel(s, w);
    match x.pc
    case Called => CalledKeeps(s, x);
    case Reading => FirstSectionKeeps(s, ch, x);
    case Checked(_, _) => SecondSectionKeeps(s, ch, x);
    case Judging(_, _) => JudgedKeeps(s, ch, x);
    case Timing(_, _, _) => TimedKeeps(s, ch, x);
    case Minting => MintKeeps(s, ch, x, HeadToken(s.instance, PanesOf(s), x.req.pane, s.now));
    case Leaving(o) => LeavingKeeps(s, ch, x);
  }

  // --- Runs ---------------------------------------------------------------------------------

  lemma EmitChannel(s: State, ev: Event, w: WaiterId)
    ensures Channel(Emitted(s, ev), w) == ChannelAfter(Channel(s, w), ev)
  {
  }

  /** How a step of someone else looks to wait w. */
  lemma Bystander(s: State, step: Step, s': State, w: WaiterId) returns (ev: Option<Event>)
    requires Next(s, step, s') && w in s.waiters
    requires (step.Act? || step.Wake?) ==> step.w != w
    ensures w in s'.waiters && s'.waiters[w] == s.waiters[w]
    ensures s.now <= s'.now
    ensures match ev
            case None => Common(s') == Common(s).(now := s'.now) && Channel(s', w) == Channel(s, w)
            case Some(e) =>
              Common(s') == Common(s).(log := s.log + [e]) && Channel(s', w) == ChannelAfter(Channel(s, w), e)
  {
    ev := None;
    if step.Emit? {
      ev := Some(step.ev);
      EmitChannel(s, step.ev, w);
    } else if step.Act? && s.waiters[step.w].pc.Minting? {
      ev := Some(Create(s.waiters[step.w].req.pane));
      EmitChannel(s, ev.value, w);
    }
  }

  lemma OthersKeep(s: State, step: Step, s': State, w: WaiterId)
    requires Inv(s) && Next(s, step, s') && w in s.waiters
    requires (step.Act? || step.Wake?) ==> step.w != w
    ensures w in s'.waiters && WaiterOk(Common(s'), Channel(s', w), s'.waiters[w])
  {
    var ev := Bystander(s, step, s', w);
    match ev
    case Some(e) => EventKeeps(Common(s), Channel(s, w), s.waiters[w], e);
    case None => TickKeeps(Common(s), Channel(s, w), s.waiters[w], s'.now);
  }

  lemma StepKeeps(s: State, step: Step, s': State)
    requires Inv(s) && Next(s, step, s')
    ensures Inv(s')
  {
    forall w <- s'.waiters ensures WaiterOk(Common(s'), Channel(s', w), s'.waiters[w]) {
      StepKeepsOne(s, step, s', w);
    }
  }

  lemma StepKeepsOne(s: State, step: Step, s': State, w: WaiterId)
    requires Inv(s) && Next(s, step, s') && w in s'.waiters
    ensures WaiterOk(Common(s'), Channel(s', w), s'.waiters[w])
  {
    if step == Act(w) {
      ActedKeeps(s, w);
    } else if step.Wake? && step.w == w {
      WokenKeeps(s, w, step.arm);
    } else if w in s.waiters {
      OthersKeep(s, step, s', w);
    } else {
      ArrivedOk(s, w, step.req);
    }
  }

  lemma ArrivedOk(s: State, w: WaiterId, req: Request)
    requires Inv(s) && w !in s.waiters
    ensures WaiterOk(Common(Arrived(s, w, req)), Channel(Arrived(s, w, req), w), Arrived(s, w, req).waiters[w])
  {
  }

  /** Every state of every run satisfies the invariant. */
  lemma {:induction false} Always(states: seq<State>, steps: seq<Step>, i: nat)
    requires IsRun(states, steps) && i < |states|
    ensures Inv(states[i])
  {
    if i == 0 {
    } else {
      Always(states, steps, i - 1);
      StepKeeps(states[i - 1], steps[i - 1], states[i]);
    }
  }
}
