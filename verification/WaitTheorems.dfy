/** What `wait` promises, over every run and every interleaving. */
module WaitTheorems {
  import opened Bytes
  import opened StoreSpec
  import opened EventLog
  import opened WaitError
  import opened WaitProtocol
  import opened WaitInvariant
  import RingBuffer
  import AnsiStrip
  import Sentinel
  import MatchStability

  // --- What a Read contains, in the request's own terms ------------------------------------

  /** The first sentinel for the token stands at [i, end) and says this. */
  ghost predicate FirstIs(text: seq<byte>, token: seq<byte>, i: nat, end: nat, matched: seq<byte>, code: nat) {
    && Sentinel.StandsFirst(text, token, i, end) && matched == text[i..end]
    && code == Sentinel.Numeral(text[i + |Sentinel.Head(token)|..end])
  }

  /** The bytes of one Read contain this match. Sentinel mode: the first sentinel for the
      token standing in the stripped text, and the number its digits denote. Regex mode:
      what the pattern makes of the stripped text, and no exit code. */
  ghost predicate Contains(mode: WaitMode, bytes: seq<byte>, matched: seq<byte>, code: Option<nat>) {
    var text := AnsiStrip.MatchInput(bytes);
    match mode
    case ForSentinel(token) =>
      code.Some? && exists i: nat, end: nat :: FirstIs(text, token, i, end, matched, code.value)
    case ForRegex(p) => p.Some? && p.value(text) == Some(matched) && code == None
    case _ => false
  }

  ghost predicate ContainsNone(mode: WaitMode, bytes: seq<byte>) {
    var text := AnsiStrip.MatchInput(bytes);
    match mode
    case ForSentinel(token) => forall i: nat, end: nat :: !Sentinel.Stands(text, token, i, end)
    case ForRegex(p) => p.Some? ==> p.value(text) == None
    case _ => true
  }

  lemma VerdictIff(mode: WaitMode, bytes: seq<byte>, matched: seq<byte>, code: Option<nat>)
    ensures Verdict(mode, bytes) == Some((matched, code)) <==> Contains(mode, bytes, matched, code)
  {
    if mode.ForSentinel? && code.Some? {
      var text := AnsiStrip.MatchInput(bytes);
      var found := Sentinel.FirstSentinel(text, mode.token);
      if found.Some? {
        var m := found.value;
        Sentinel.FirstSentinelIff(text, mode.token, m);
        var i: nat :| Sentinel.ReportedAt(text, mode.token, i, m);
        assert FirstIs(text, mode.token, i, m.end, m.matched, m.exitCode);
      }
      forall i: nat, end: nat | FirstIs(text, mode.token, i, end, matched, code.value)
        ensures found == Some(Sentinel.Match(matched, code.value, end))
      {
        Sentinel.FirstSentinelIff(text, mode.token, Sentinel.Match(matched, code.value, end));
        assert Sentinel.ReportedAt(text, mode.token, i, Sentinel.Match(matched, code.value, end));
      }
    }
  }

  lemma NoVerdictIff(mode: WaitMode, bytes: seq<byte>)
    ensures Verdict(mode, bytes) == None <==> ContainsNone(mode, bytes)
  {
    if mode.ForSentinel? {
      Sentinel.NoSentinelIff(AnsiStrip.MatchInput(bytes), mode.token);
    }
  }

  // --- No lost wakeup ---------------------------------------------------------------------

  /** What the Read c found is the pane's present state: no Append or Forget of the pane
      since, the buffer is the one it read, and reading again now returns the same. */
  ghost predicate StillTrue(sh: Shared, req: Request, c: Call) {
    && c.to <= |sh.log| && Undisturbed(sh.log[c.to..], req.pane)
    && req.pane in Replay(sh.log)
    && Replay(sh.log)[req.pane] == Log(Replay(sh.log[..c.to]), req.pane)
    && AtomicRead(sh.capacity, sh.instance, Replay(sh.log), req.pane, req.after, c.now) == c.got
  }

  lemma UndisturbedStillTrue(sh: Shared, req: Request, c: Call)
    requires Linear(sh, req, c) && c.got.Got? && Undisturbed(sh.log[c.to..], req.pane)
    ensures StillTrue(sh, req, c)
  {
    assert sh.log == sh.log[..c.to] + sh.log[c.to..];
    FoldSplit(map[], sh.log[..c.to], sh.log[c.to..]);
    UndisturbedSame(Replay(sh.log[..c.to]), sh.log[c.to..], req.pane);
  }

  /** A parked wait with an empty channel has read its pane's present state, and there is
      no match in it. */
  lemma NoLostWakeup(states: seq<State>, steps: seq<Step>, i: nat, w: WaiterId)
    requires IsRun(states, steps) && i < |states|
    requires w in states[i].waiters && states[i].waiters[w].pc.Parked?
    ensures w in states[i].watchers
    ensures !states[i].watchers[w].pending ==>
              var s, x := states[i], states[i].waiters[w];
              && x.calls != [] && Last(x.calls).got.Got? && StillTrue(Common(s), x.req, Last(x.calls))
              && ContainsNone(x.req.mode, Last(x.calls).got.bytes)
  {
    Always(states, steps, i);
    var s, x := states[i], states[i].waiters[w];
    assert WaiterOk(Common(s), Channel(s, w), x);
    assert Linear(Common(s), x.req, Last(x.calls)) && Missed(x.req.mode, Last(x.calls));
    if !s.watchers[w].pending {
      UndisturbedStillTrue(Common(s), x.req, Last(x.calls));
      NoVerdictIff(x.req.mode, Last(x.calls).got.bytes);
    }
  }

  // --- Outcomes -----------------------------------------------------------------------------

  /** Wait w has ended in the i-th state with this outcome. */
  ghost predicate Ended(states: seq<State>, steps: seq<Step>, i: nat, w: WaiterId, o: Outcome) {
    && IsRun(states, steps) && i < |states| && w in states[i].waiters
    && Left(states[i].waiters[w].pc) && Result(states[i].waiters[w].pc) == o
  }

  lemma EndedOk(states: seq<State>, steps: seq<Step>, i: nat, w: WaiterId, o: Outcome)
    requires Ended(states, steps, i, w, o)
    ensures var s, x := states[i], states[i].waiters[w];
            && CallsLinear(Common(s), x.req, x.calls)
            && EarlierMissed(x.req.mode, x.calls)
            && Justified(s.log, s.now, x, o)
  {
    Always(states, steps, i);
    assert WaiterOk(Common(states[i]), Channel(states[i], w), states[i].waiters[w]);
  }

  /** PANE_NOT_FOUND: the wait's first and only Read found no pane. */
  lemma PaneNotFoundMeans(states: seq<State>, steps: seq<Step>, i: nat, w: WaiterId)
    requires Ended(states, steps, i, w, Failed(PaneNotFound))
    ensures var s, x := states[i], states[i].waiters[w];
            && |x.calls| == 1
            && x.calls[0].from <= x.calls[0].at <= x.calls[0].to <= |s.log|
            && x.req.pane !in Replay(s.log[..x.calls[0].at])
  {
    EndedOk(states, steps, i, w, Failed(PaneNotFound));
    assert Linear(Common(states[i]), states[i].waiters[w].req, states[i].waiters[w].calls[0]);
  }

  /** The pane is forgotten after instant a and unknown at b. */
  ghost predicate DestroyedBetween(log: seq<Event>, id: PaneId, a: nat, b: nat) {
    a <= b <= |log| && Forget(id) in log[a..b] && id !in Replay(log[..b])
  }

  /** PANE_CLOSED: a Read of this same wait succeeded, the pane was then forgotten, and
      the next Read found it gone. */
  lemma PaneClosedMeans(states: seq<State>, steps: seq<Step>, i: nat, w: WaiterId)
    requires Ended(states, steps, i, w, Failed(PaneClosed))
    ensures var s, x := states[i], states[i].waiters[w];
            var n := |x.calls|;
            && n > 1 && x.calls[n - 2].got.Got?
            && DestroyedBetween(s.log, x.req.pane, x.calls[n - 2].at, x.calls[n - 1].at)
  {
    EndedOk(states, steps, i, w, Failed(PaneClosed));
    FoundThenGone(Common(states[i]), states[i].waiters[w].req, states[i].waiters[w].calls);
  }

  lemma FoundThenGone(sh: Shared, req: Request, calls: seq<Call>)
    requires CallsLinear(sh, req, calls) && EarlierMissed(req.mode, calls) && |calls| > 1
    requires Last(calls).got == Refused(PaneUnknown)
    ensures calls[|calls| - 2].got.Got?
    ensures DestroyedBetween(sh.log, req.pane, calls[|calls| - 2].at, calls[|calls| - 1].at)
  {
    var a, b := calls[|calls| - 2], Last(calls);
    assert Missed(req.mode, a);
    assert Linear(sh, req, a) && Linear(sh, req, b);
    LostMeansForgotten(sh.log, a.at, b.at, req.pane);
  }

  /** TIMEOUT: the deadline has passed and no Read the wait made contained a match. */
  lemma TimeoutMeans(states: seq<State>, steps: seq<Step>, i: nat, w: WaiterId)
    requires Ended(states, steps, i, w, Failed(Timeout))
    ensures var s, x := states[i], states[i].waiters[w];
            && x.calls != [] && x.started + x.req.timeout <= s.now
            && forall k :: 0 <= k < |x.calls| ==> FoundNothing(x.req.mode, x.calls[k])
  {
    EndedOk(states, steps, i, w, Failed(Timeout));
    AllMissed(states[i].waiters[w].req.mode, states[i].waiters[w].calls);
  }

  /** A Read succeeded, and there was no match in it. */
  ghost predicate FoundNothing(mode: WaitMode, c: Call) {
    c.got.Got? && ContainsNone(mode, c.got.bytes)
  }

  lemma AllMissed(mode: WaitMode, calls: seq<Call>)
    requires EarlierMissed(mode, calls) && LastMissed(mode, calls)
    ensures forall k :: 0 <= k < |calls| ==> FoundNothing(mode, calls[k])
  {
    forall k | 0 <= k < |calls| ensures FoundNothing(mode, calls[k]) {
      assert Missed(mode, calls[k]);
      NoVerdictIff(mode, calls[k].got.bytes);
    }
  }

  /** INVALID_AFTER: the pane was known, and either the token itself was at fault, at the
      first Read; or its offset was not retained. If an earlier Read of this wait had
      succeeded, then since that Read more than a capacity came to stand after the token,
      or the pane was forgotten and made again. */
  lemma InvalidAfterMeans(states: seq<State>, steps: seq<Step>, i: nat, w: WaiterId)
    requires Ended(states, steps, i, w, Failed(InvalidAfter))
    ensures var s, x := states[i], states[i].waiters[w];
            x.calls != [] && InvalidAt(Common(s), x.req, Last(x.calls).at)
            && (|x.calls| > 1 ==> InvalidSince(Common(s), x.req, x.calls[|x.calls| - 2].at, Last(x.calls).at))
  {
    EndedOk(states, steps, i, w, Failed(InvalidAfter));
    InvalidAfterCalls(Common(states[i]), states[i].waiters[w].req, states[i].waiters[w].calls);
  }

  ghost predicate InvalidAt(sh: Shared, req: Request, b: nat) {
    && b <= |sh.log| && req.pane in Replay(sh.log[..b])
    && (TokenFault(sh.instance, req.pane, req.after).Some?
        || RingBuffer.ReadFrom(Replay(sh.log[..b])[req.pane].history, sh.capacity, req.after.offset).None?)
  }

  ghost predicate InvalidSince(sh: Shared, req: Request, a: nat, b: nat) {
    && a <= b <= |sh.log| && req.pane in Replay(sh.log[..b])
    && TokenFault(sh.instance, req.pane, req.after).None?
    && (Forget(req.pane) in sh.log[a..b]
        || (var before, after := Log(Replay(sh.log[..a]), req.pane).history, Replay(sh.log[..b])[req.pane].history;
            && after == before + Data(sh.log[a..b], req.pane)
            && 0 <= |before| - req.after.offset <= sh.capacity < |after| - req.after.offset))
  }

  lemma InvalidAfterCalls(sh: Shared, req: Request, calls: seq<Call>)
    requires CallsLinear(sh, req, calls) && EarlierMissed(req.mode, calls) && calls != []
    requires Last(calls).got.Refused? && Last(calls).got.error != PaneUnknown
    ensures InvalidAt(sh, req, Last(calls).at)
    ensures |calls| > 1 ==> InvalidSince(sh, req, calls[|calls| - 2].at, Last(calls).at)
  {
    var c := Last(calls);
    assert Linear(sh, req, c);
    if |calls| > 1 {
      var p := calls[|calls| - 2];
      assert Linear(sh, req, p) && Missed(req.mode, p);
      if Kept(sh.log[p.at..c.at], req.pane) {
        Between(sh.log, p.at, c.at, req.pane);
      }
    }
  }

  /** A wait past its last Read reports a match iff that Read contains it, with that Read's
      own next token, and then no earlier Read contained one. The Read is that of an atomic
      read of the stream at its instant. */
  lemma MatchIff(states: seq<State>, steps: seq<Step>, i: nat, w: WaiterId,
                 o: Outcome, next: Token, matched: seq<byte>, code: Option<nat>)
    requires Ended(states, steps, i, w, o)
    requires states[i].waiters[w].calls != [] && Last(states[i].waiters[w].calls).got.Got?
    ensures var s, x := states[i], states[i].waiters[w];
            var got := Last(x.calls).got;
            && Last(x.calls).at <= |s.log|
            && Answers(s.capacity, s.instance, Replay(s.log[..Last(x.calls).at]), x.req.pane, x.req.after,
                       Last(x.calls).now, got)
            && (o == Matched(next, matched, code) <==>
                  next == got.next && Contains(x.req.mode, got.bytes, matched, code))
            && (forall k :: 0 <= k < |x.calls| - 1 ==> FoundNothing(x.req.mode, x.calls[k]))
  {
    EndedOk(states, steps, i, w, o);
    var s, x := states[i], states[i].waiters[w];
    var c := Last(x.calls);
    assert Linear(Common(s), x.req, c);
    ReadAnswers(s.capacity, s.instance, Replay(s.log[..c.at]), x.req.pane, x.req.after, c.now);
    VerdictIff(x.req.mode, c.got.bytes, matched, code);
    NoVerdictIff(x.req.mode, c.got.bytes);
    EarlierFoundNothing(x.req.mode, x.calls);
  }

  lemma EarlierFoundNothing(mode: WaitMode, calls: seq<Call>)
    requires EarlierMissed(mode, calls)
    ensures forall k :: 0 <= k < |calls| - 1 ==> FoundNothing(mode, calls[k])
  {
    forall k | 0 <= k < |calls| - 1 ensures FoundNothing(mode, calls[k]) {
      assert Missed(mode, calls[k]);
      NoVerdictIff(mode, calls[k].got.bytes);
    }
  }

  // --- How a wait ends ----------------------------------------------------------------------------

  predicate HasLeft(s: State, w: WaiterId) { w in s.waiters && Left(s.waiters[w].pc) }

  /** The step that ended a wait: the context's arm of its select gives Interrupted, the
      deadline's arm, at the deadline or later, TIMEOUT, and nothing else gives either. */
  lemma {:induction false} HowItEnded(states: seq<State>, steps: seq<Step>, i: nat, w: WaiterId, o: Outcome)
      returns (j: nat)
    requires Ended(states, steps, i, w, o)
    ensures j < i && !HasLeft(states[j], w) && HasLeft(states[j + 1], w)
    ensures o == Interrupted <==> steps[j] == Wake(w, Context)
    ensures o == Failed(Timeout) <==> steps[j] == Wake(w, Deadline)
    ensures o == Failed(Timeout) ==>
              w in states[j].waiters && states[i].waiters[w].started + states[i].waiters[w].req.timeout <= states[j].now
    decreases i
  {
    EndingStep(states[i - 1], steps[i - 1], states[i], w, o);
    if HasLeft(states[i - 1], w) {
      j := HowItEnded(states, steps, i - 1, w, o);
    } else {
      j := i - 1;
    }
  }

  lemma EndingStep(s: State, step: Step, s': State, w: WaiterId, o: Outcome)
    requires Next(s, step, s') && HasLeft(s', w) && Result(s'.waiters[w].pc) == o
    ensures HasLeft(s, w) ==> Result(s.waiters[w].pc) == o && s'.waiters[w].started == s.waiters[w].started
                              && s'.waiters[w].req == s.waiters[w].req
    ensures !HasLeft(s, w) ==>
              && (o == Interrupted <==> step == Wake(w, Context))
              && (o == Failed(Timeout) <==> step == Wake(w, Deadline))
              && (o == Failed(Timeout) ==>
                    w in s.waiters && s'.waiters[w].started + s'.waiters[w].req.timeout <= s.now)
  {
    if step == Act(w) {
      OwnStepEnds(s, w);
    } else if step.Wake? && step.w == w {
    } else if w in s.waiters {
      var ev := Bystander(s, step, s', w);
    } else {
      RejectionIff(step.req);
    }
  }

  /** A wait's own steps end it with a match, a rejection or a Read's error. */
  lemma OwnStepEnds(s: State, w: WaiterId)
    requires w in s.waiters && Acting(s.waiters[w].pc)
    ensures var x, x' := s.waiters[w], Acted(s, w).waiters[w];
            && x'.req == x.req && (x'.started == x.started || x.pc.Called?)
            && (Left(x.pc) ==> Left(x'.pc) && Result(x'.pc) == Result(x.pc))
            && (!Left(x.pc) && Left(x'.pc) ==> Result(x'.pc) !in {Interrupted, Failed(Timeout)})
  {
    var x := s.waiters[w];
    match x.pc
    case Called =>
    case Reading =>
    case Checked(_, _) =>
    case Judging(_, _) =>
    case Timing(_, _, _) =>
    case Minting =>
    case Leaving(_) =>
  }

  /** The wait's clock starts when it registers its watcher. */
  lemma {:induction false} StartedAtRegistration(states: seq<State>, steps: seq<Step>, i: nat, w: WaiterId)
      returns (j: nat)
    requires IsRun(states, steps) && i < |states| && w in states[i].waiters
    requires !states[i].waiters[w].pc.Called? && Rejection(states[i].waiters[w].req).None?
    ensures j < i && steps[j] == Act(w) && w !in states[j].watchers && w in states[j + 1].watchers
    ensures states[i].waiters[w].started == states[j].now
    decreases i
  {
    var s, s' := states[i - 1], states[i];
    Always(states, steps, i - 1);
    StartingStep(s, steps[i - 1], s', w);
    if !s.waiters[w].pc.Called? {
      j := StartedAtRegistration(states, steps, i - 1, w);
    } else {
      j := i - 1;
    }
  }

  lemma StartingStep(s: State, step: Step, s': State, w: WaiterId)
    requires Inv(s) && Next(s, step, s') && w in s'.waiters
    requires !s'.waiters[w].pc.Called? && Rejection(s'.waiters[w].req).None?
    ensures w in s.waiters && s'.waiters[w].req == s.waiters[w].req
    ensures !s.waiters[w].pc.Called? ==> s'.waiters[w].started == s.waiters[w].started
    ensures s.waiters[w].pc.Called? ==>
              step == Act(w) && w !in s.watchers && w in s'.watchers && s'.waiters[w].started == s.now
  {
    if w in s.waiters {
      assert WaiterOk(Common(s), Channel(s, w), s.waiters[w]);
      if step == Act(w) {
        OwnStepEnds(s, w);
      } else if !(step.Wake? && step.w == w) {
        var ev := Bystander(s, step, s', w);
      }
    }
  }

  /** A request the command accepts: a checkpoint, time to wait, and what its mode needs. */
  predicate Acceptable(req: Request) {
    && !req.after.Empty? && req.timeout > 0
    && match req.mode
       case ForSentinel(token) => token != [] && 0x3A !in token && 0x0A !in token
       case ForRegex(p) => p.Some?
       case ForQuiescence(window) => 0 < window < req.timeout
       case Unsupported => false
  }

  /** On every run: a request without a checkpoint, and no other, is answered
      MISSING_AFTER; any other unacceptable one, and no other, INVALID_ARGS; both at once,
      without registering or reading anything. */
  lemma RejectedIff(states: seq<State>, steps: seq<Step>, i: nat, w: WaiterId)
    requires IsRun(states, steps) && i < |states| && w in states[i].waiters
    ensures var s, x := states[i], states[i].waiters[w];
            && (x.req.after.Empty? <==> HasLeft(s, w) && Result(x.pc) == Failed(MissingAfter))
            && (!x.req.after.Empty? && !Acceptable(x.req) <==> HasLeft(s, w) && Result(x.pc) == Failed(InvalidArgs))
            && (!Acceptable(x.req) ==> w !in s.watchers && x.calls == [])
  {
    Always(states, steps, i);
    var s, x := states[i], states[i].waiters[w];
    assert WaiterOk(Common(s), Channel(s, w), x);
    RejectionIff(x.req);
  }

  lemma RejectionIff(req: Request)
    ensures Rejection(req) == if req.after.Empty? then Some(MissingAfter)
                              else if Acceptable(req) then None else Some(InvalidArgs)
  {
  }

  /** What a parked wait can do next, and what each arm of its select does. */
  lemma ParkedChoices(s: State, w: WaiterId)
    requires w in s.waiters && s.waiters[w].pc.Parked?
    ensures var x := s.waiters[w];
            && (Enabled(s, Wake(w, Signal)) <==> w in s.watchers && s.watchers[w].pending)
            && (Enabled(s, Wake(w, Deadline)) <==> s.now >= x.started + x.req.timeout)
            && (Enabled(s, Wake(w, QuietTimer)) <==> x.pc.quietAt.Some? && s.now >= x.pc.quietAt.value)
            && Enabled(s, Wake(w, Context))
            && Woken(s, w, Signal).waiters[w].pc == Woken(s, w, QuietTimer).waiters[w].pc == Reading
            && w in Woken(s, w, Signal).watchers && !Woken(s, w, Signal).watchers[w].pending
  {
  }

  // --- Destroyed panes --------------------------------------------------------------------------

  /** The wait is in its loop, past a successful Read, outside the judging of one. */
  predicate InLoop(pc: Pc) { pc.Parked? || pc.Reading? || pc.Checked? }

  predicate ClosedOrCut(pc: Pc) {
    Left(pc) && Result(pc) in {Failed(PaneClosed), Failed(Timeout), Interrupted}
  }

  lemma StillGone(log: seq<Event>, n: nat, id: PaneId)
    requires n <= |log| && id !in Replay(log[..n])
    requires forall ev <- log[n..] :: !Makes(ev, id)
    ensures id !in Replay(log)
  {
    assert log == log[..n] + log[n..];
    FoldSplit(map[], log[..n], log[n..]);
    StaysGone(Replay(log[..n]), log[n..], id);
  }

  lemma {:induction false} StaysGone(panes: Panes, evs: seq<Event>, id: PaneId)
    requires id !in panes && forall ev <- evs :: !Makes(ev, id)
    ensures id !in Fold(panes, evs)
  {
    if evs == [] {
    } else {
      StaysGone(panes, evs[..|evs| - 1], id);
      assert !Makes(evs[|evs| - 1], id);
    }
  }

  /** The loop's own steps on a destroyed pane: the next Read, at either section, is the
      last, and it says PANE_CLOSED whatever the buffer held. */
  lemma ReadOfDestroyedPane(s: State, w: WaiterId)
    requires w in s.waiters && s.waiters[w].known && s.waiters[w].req.pane !in Replay(s.log)
    requires s.waiters[w].pc.Reading? || s.waiters[w].pc.Checked?
    ensures Acted(s, w).waiters[w].pc == Leaving(Failed(PaneClosed))
  {
  }

  lemma LogGrows(s: State, step: Step, s': State)
    requires Next(s, step, s')
    ensures |s.log| <= |s'.log| && s'.log[..|s.log|] == s.log
  {
  }

  /** Over a whole run: once a waited-for pane is forgotten, and until its id is created
      again, the wait can only go round its loop or end PANE_CLOSED, unless the deadline or
      the context cuts it short. It never reports a match. */
  lemma {:induction false} DestroyedPaneEndsClosed(states: seq<State>, steps: seq<Step>, i: nat, j: nat, w: WaiterId)
    requires IsRun(states, steps) && i <= j < |states| && w in states[i].waiters
    requires states[i].waiters[w].known && InLoop(states[i].waiters[w].pc)
    requires states[i].waiters[w].req.pane !in Replay(states[i].log)
    requires |states[i].log| <= |states[j].log| && states[j].log[..|states[i].log|] == states[i].log
    requires forall ev <- states[j].log[|states[i].log|..] :: !Makes(ev, states[i].waiters[w].req.pane)
    ensures w in states[j].waiters && states[j].waiters[w].req == states[i].waiters[w].req
    ensures states[j].waiters[w].known
    ensures InLoop(states[j].waiters[w].pc) || ClosedOrCut(states[j].waiters[w].pc)
    decreases j
  {
    if i == j {
    } else {
      var s, s', n := states[j - 1], states[j], |states[i].log|;
      PrefixOfRun(states, steps, i, j - 1);
      LogGrows(s, steps[j - 1], s');
      NotMadeBefore(s'.log, n, |s.log|, states[i].waiters[w].req.pane);
      DestroyedPaneEndsClosed(states, steps, i, j - 1, w);
      StillGone(s.log, n, states[i].waiters[w].req.pane);
      LoopStep(s, steps[j - 1], s', w);
    }
  }

  lemma NotMadeBefore(log: seq<Event>, n: nat, m: nat, id: PaneId)
    requires n <= m <= |log| && forall ev <- log[n..] :: !Makes(ev, id)
    ensures forall ev <- log[..m][n..] :: !Makes(ev, id)
  {
    assert log[..m][n..] == log[n..][..m - n];
  }

  lemma {:induction false} PrefixOfRun(states: seq<State>, steps: seq<Step>, i: nat, j: nat)
    requires IsRun(states, steps) && i <= j < |states|
    ensures |states[i].log| <= |states[j].log| && states[j].log[..|states[i].log|] == states[i].log
    decreases j
  {
    if i == j {
    } else {
      PrefixOfRun(states, steps, i, j - 1);
      LogGrows(states[j - 1], steps[j - 1], states[j]);
    }
  }

  lemma LoopStep(s: State, step: Step, s': State, w: WaiterId)
    requires Next(s, step, s') && w in s.waiters && s.waiters[w].known
    requires InLoop(s.waiters[w].pc) || ClosedOrCut(s.waiters[w].pc)
    requires s.waiters[w].req.pane !in Replay(s.log)
    ensures w in s'.waiters && s'.waiters[w].req == s.waiters[w].req && s'.waiters[w].known
    ensures InLoop(s'.waiters[w].pc) || ClosedOrCut(s'.waiters[w].pc)
  {
    if (step.Act? || step.Wake?) && step.w == w {
      if step.Act? && InLoop(s.waiters[w].pc) {
        ReadOfDestroyedPane(s, w);
      }
    } else {
      var ev := Bystander(s, step, s', w);
    }
  }

  // --- Tokens handed out by waits -----------------------------------------------------------------

  /** Splice: the bytes a successful wait scanned, followed by a later read from its next
      token, are the stream after the original token: no gap, no overlap. */
  lemma Splice(states: seq<State>, steps: seq<Step>, i: nat, w: WaiterId,
               next: Token, matched: seq<byte>, code: Option<nat>, b: nat, now: Time)
    requires Ended(states, steps, i, w, Matched(next, matched, code))
    requires var s, x := states[i], states[i].waiters[w];
             && x.calls != [] && Last(x.calls).at <= b <= |s.log|
             && Kept(s.log[Last(x.calls).at..b], x.req.pane)
             && AtomicRead(s.capacity, s.instance, Replay(s.log[..b]), x.req.pane, next, now).Got?
    ensures var s, x := states[i], states[i].waiters[w];
            var scanned := Last(x.calls).got;
            var later := AtomicRead(s.capacity, s.instance, Replay(s.log[..b]), x.req.pane, next, now);
            && x.req.pane in Replay(s.log[..b]) && x.req.after.Issued? && scanned.Got?
            && 0 <= x.req.after.offset <= |Replay(s.log[..b])[x.req.pane].history|
            && scanned.bytes + later.bytes == Replay(s.log[..b])[x.req.pane].history[x.req.after.offset..]
  {
    EndedOk(states, steps, i, w, Matched(next, matched, code));
    var s, x := states[i], states[i].waiters[w];
    var c := Last(x.calls);
    assert Linear(Common(s), x.req, c);
    Between(s.log, c.at, b, x.req.pane);
  }

  /** Sentinel results do not depend on chunking: of two reads of one token, at instants a
      and b of one life of the pane, if in the earlier the first sentinel stands strictly
      inside the text, the later's first sentinel is the same one. */
  lemma SentinelIgnoresChunking(capacity: nat, instance: string, log: seq<Event>, id: PaneId, after: Token,
                                a: nat, b: nat, t: Time, u: Time, token: seq<byte>, i: nat, end: nat)
    requires a <= b <= |log| && Kept(log[a..b], id)
    requires var first := AtomicRead(capacity, instance, Replay(log[..a]), id, after, t);
             && first.Got? && Sentinel.StandsFirst(AnsiStrip.MatchInput(first.bytes), token, i, end)
             && end < |AnsiStrip.MatchInput(first.bytes)|
    requires AtomicRead(capacity, instance, Replay(log[..b]), id, after, u).Got?
    ensures var first := AtomicRead(capacity, instance, Replay(log[..a]), id, after, t);
            var later := AtomicRead(capacity, instance, Replay(log[..b]), id, after, u);
            var was, now := AnsiStrip.MatchInput(first.bytes), AnsiStrip.MatchInput(later.bytes);
            && Sentinel.StandsFirst(now, token, i, end) && now[i..end] == was[i..end]
            && Verdict(ForSentinel(token), first.bytes) == Verdict(ForSentinel(token), later.bytes)
  {
    Between(log, a, b, id);
    var first := AtomicRead(capacity, instance, Replay(log[..a]), id, after, t);
    var later := AtomicRead(capacity, instance, Replay(log[..b]), id, after, u);
    assert later.bytes == first.bytes + Data(log[a..b], id);
    StrictFirstStays(first.bytes, Data(log[a..b], id), token, i, end);
  }

  lemma StrictFirstStays(raw: seq<byte>, more: seq<byte>, token: seq<byte>, i: nat, end: nat)
    requires Sentinel.StandsFirst(AnsiStrip.MatchInput(raw), token, i, end) && end < |AnsiStrip.MatchInput(raw)|
    ensures var was, now := AnsiStrip.MatchInput(raw), AnsiStrip.MatchInput(raw + more);
            Sentinel.StandsFirst(now, token, i, end) && now[i..end] == was[i..end]
    ensures MatchStability.Found(raw, token) == MatchStability.Found(raw + more, token)
  {
    var was, now := AnsiStrip.MatchInput(raw), AnsiStrip.MatchInput(raw + more);
    Sentinel.ReportsStanding(was, token, i, end);
    var m := MatchStability.Found(raw, token).value;
    MatchStability.StrictMatchIsFinal(raw, more, token);
    Sentinel.FirstSentinelIff(now, token, m);
    var k: nat :| Sentinel.ReportedAt(now, token, k, m);
    assert |m.matched| == end - i == end - k;
  }
}
