/** What success in quiescence mode is worth, over every run and every interleaving. */
module WaitQuiescence {
  import opened Bytes
  import opened StoreSpec
  import opened EventLog
  import opened WaitProtocol
  import opened WaitInvariant
  import opened WaitTheorems
  import Q = Quiescence

  // --- What a quiet wait has seen -------------------------------------------------------------------

  /** What a step adds to the log: at most one event, an append carrying the present time. */
  lemma StepLog(s: State, step: Step, s': State) returns (more: seq<Event>)
    requires Next(s, step, s')
    ensures s'.log == s.log + more && |more| <= 1 && s.now <= s'.now
    ensures forall ev <- more :: ev.Append? ==> ev.at == s.now
  {
    LogGrows(s, step, s');
    more := s'.log[|s.log|..];
  }

  lemma {:induction false} AppendTimesSplit(a: seq<Event>, b: seq<Event>, id: PaneId)
    ensures Q.AppendTimes(a + b, id) == Q.AppendTimes(a, id) + Q.AppendTimes(b, id)
  {
    if b == [] {
      assert a + b == a;
    } else {
      assert (a + b)[..|a + b| - 1] == a + b[..|b| - 1];
      AppendTimesSplit(a, b[..|b| - 1], id);
    }
  }

  /** In order, from `from` to `to`. */
  predicate Stamps(ts: seq<Time>, from: Time, to: Time) {
    Q.Sorted(ts) && forall t <- ts :: from <= t <= to
  }

  lemma OneMoreStamp(evs: seq<Event>, more: seq<Event>, id: PaneId, from: Time, now: Time, later: Time)
    requires Stamps(Q.AppendTimes(evs, id), from, now) && from <= now <= later
    requires |more| <= 1 && forall ev <- more :: ev.Append? ==> ev.at == now
    ensures Stamps(Q.AppendTimes(evs + more, id), from, later)
  {
    if more == [] {
      assert evs + more == evs;
    } else {
      var ts := Q.AppendTimes(evs, id);
      assert (evs + more)[..|evs|] == evs && more[0] in more;
      assert forall k :: 0 <= k < |ts| ==> ts[k] in ts;
    }
  }

  /** The clock never goes back: what is appended after state j carries a time between
      that state's and the present one's, in order. */
  lemma {:induction false} ClockOrder(states: seq<State>, steps: seq<Step>, j: nat, i: nat, id: PaneId)
    requires IsRun(states, steps) && j <= i < |states|
    ensures |states[j].log| <= |states[i].log| && states[j].now <= states[i].now
    ensures Stamps(Q.AppendTimes(states[i].log[|states[j].log|..], id), states[j].now, states[i].now)
    decreases i
  {
    if i == j {
      assert states[i].log[|states[j].log|..] == [];
    } else {
      ClockOrder(states, steps, j, i - 1, id);
      var s, s', m := states[i - 1], states[i], |states[j].log|;
      var more := StepLog(s, steps[i - 1], s');
      assert s'.log[m..] == s.log[m..] + more;
      OneMoreStamp(s.log[m..], more, id, states[j].now, s.now, s'.now);
    }
  }

  lemma StampsOfPart(log: seq<Event>, m: nat, n: nat, id: PaneId, from: Time, to: Time)
    requires m <= n <= |log| && Stamps(Q.AppendTimes(log[m..], id), from, to)
    ensures Stamps(Q.AppendTimes(log[m..n], id), from, to)
  {
    assert log[m..] == log[m..n] + log[n..];
    AppendTimesSplit(log[m..n], log[n..], id);
    var ts, us := Q.AppendTimes(log[m..n], id), Q.AppendTimes(log[m..], id);
    assert forall k :: 0 <= k < |ts| ==> ts[k] == us[k];
    assert forall t <- ts :: t in us;
  }

  /** Hence a token minted in state j carries a time no earlier than the appends before it
      and no later than those after it, in every later log of the run. */
  lemma MintedInOrderOnRuns(states: seq<State>, steps: seq<Step>, j: nat, i: nat, n: nat, id: PaneId)
    requires IsRun(states, steps) && j <= i < |states| && |states[j].log| <= n <= |states[i].log|
    ensures Q.MintedInOrder(states[i].log[..n], id, |states[j].log|, states[j].now)
  {
    var m, log := |states[j].log|, states[i].log;
    PrefixOfRun(states, steps, j, i);
    ClockOrder(states, steps, 0, j, id);
    assert states[j].log[0..] == log[..n][..m];
    ClockOrder(states, steps, j, i, id);
    StampsOfPart(log, m, n, id, states[j].now, states[i].now);
    assert log[..n][m..] == log[m..n];
  }

  /** A wait that arrives after state j checks only later logs. */
  predicate StampedAfter(x: Waiter, m: nat) {
    && (x.pc.Timing? ==> m <= x.pc.seen)
    && (x.look.Some? ==> m <= x.look.value.seen && m <= x.look.value.pos)
  }

  lemma {:induction false} ChecksComeLater(states: seq<State>, steps: seq<Step>, j: nat, i: nat, w: WaiterId)
    requires IsRun(states, steps) && j <= i < |states| && w !in states[j].waiters
    ensures |states[j].log| <= |states[i].log|
    ensures w in states[i].waiters ==> StampedAfter(states[i].waiters[w], |states[j].log|)
    decreases i
  {
    if i == j {
    } else {
      ChecksComeLater(states, steps, j, i - 1, w);
      StampStep(states[i - 1], steps[i - 1], states[i], w, |states[j].log|);
    }
  }

  lemma StampStep(s: State, step: Step, s': State, w: WaiterId, m: nat)
    requires Next(s, step, s') && m <= |s.log|
    requires w in s.waiters ==> StampedAfter(s.waiters[w], m)
    ensures m <= |s'.log|
    ensures w in s'.waiters ==> StampedAfter(s'.waiters[w], m)
  {
    LogGrows(s, step, s');
    if w in s.waiters && !((step.Act? || step.Wake?) && step.w == w) {
      var ev := Bystander(s, step, s', w);
    }
  }

  /** The pane lives on from the m-th event to the wait's quiescence check. */
  predicate LivesToCheck(s: State, x: Waiter, m: nat) {
    x.look.Some? && m <= x.look.value.pos <= |s.log| ==> Kept(s.log[m..x.look.value.pos], x.req.pane)
  }

  /** The hypotheses of what follows: the wait's token was minted at the head in state j,
      before the wait arrived, and the pane has not been forgotten since. */
  ghost predicate Checkpointed(states: seq<State>, steps: seq<Step>, i: nat, w: WaiterId, j: nat) {
    && IsRun(states, steps) && j <= i < |states| && w !in states[j].waiters && w in states[i].waiters
    && var s, x := states[i], states[i].waiters[w];
    && x.req.after == HeadToken(s.instance, PanesOf(states[j]), x.req.pane, states[j].now)
    && LivesToCheck(s, x, |states[j].log|)
  }

  /** The specification's condition for a wait, counting outputs from the m-th event up to
      the n-th, at this clock reading. */
  predicate SpecIdle(s: State, x: Waiter, m: nat, n: nat, now: Time) {
    && m <= n <= |s.log| && x.req.mode.ForQuiescence? && x.req.after.Issued?
    && Q.IdleBy(s.log, x.req.pane, x.req.after.mintedAt, x.req.mode.window, m, n, now)
  }

  /** What the program compares with the window, by the clock reading u, is exactly the
      specification's condition as of the look for a last append. */
  lemma IdleAtLook(states: seq<State>, steps: seq<Step>, i: nat, w: WaiterId, j: nat, u: Time)
    requires Checkpointed(states, steps, i, w, j)
    requires var s, x := states[i], states[i].waiters[w];
             Looked(s.log, x.req, x.calls, x.look)
    ensures var s, x, m := states[i], states[i].waiters[w], |states[j].log|;
            var q := x.look.value;
            && m <= q.seen <= q.pos <= |s.log|
            && (IdleFor(x.req, LastAppend(Replay(s.log[..q.seen]), x.req.pane), u) >= x.req.mode.window
                <==> SpecIdle(s, x, m, q.seen, u))
  {
    ChecksComeLater(states, steps, j, i, w);
    var s, x, m := states[i], states[i].waiters[w], |states[j].log|;
    var q, id := x.look.value, x.req.pane;
    MintedInOrderOnRuns(states, steps, j, i, q.seen, id);
    assert s.log[..q.seen][m..] == s.log[m..q.seen] == s.log[m..q.pos][..q.seen - m];
    Q.OverallLastIsEnough(s.log[..q.seen], id, m, states[j].now);
    ClockOrder(states, steps, j, i, id);
    StampsOfPart(s.log, m, q.seen, id, states[j].now, s.now);
    Q.IdleByLatest(s.log, id, states[j].now, x.req.mode.window, m, q.seen, u);
  }

  /** What a quiescence success is worth, over every run. The check looked for the last
      append and then read the clock; as of the look, the specification's condition held by
      that clock. As of the clock reading it held iff no output fell in between that is
      younger than the window. */
  lemma IdleMeansQuietIff(states: seq<State>, steps: seq<Step>, i: nat, w: WaiterId, next: Token, j: nat)
    requires Ended(states, steps, i, w, Idle(next)) && Checkpointed(states, steps, i, w, j)
    ensures var s, x, m := states[i], states[i].waiters[w], |states[j].log|;
            && x.req.mode.ForQuiescence? && x.calls != [] && x.look.Some?
            && var q := x.look.value;
            && Last(x.calls).to <= q.seen && m <= q.seen <= q.pos <= |s.log|
            && SpecIdle(s, x, m, q.seen, q.now)
            && (SpecIdle(s, x, m, q.pos, q.now) <==>
                  forall k :: q.seen <= k < q.pos && Q.Outputs(s.log[k], x.req.pane) ==>
                    q.now - s.log[k].at >= x.req.mode.window)
  {
    EndedOk(states, steps, i, w, Idle(next));
    IdleAtLook(states, steps, i, w, j, states[i].waiters[w].look.value.now);
  }

  /** A quiescence wait parks only if, as of the look, the specification counted the pane
      busy by the clock; and its timer is set for the first instant at which those outputs
      would no longer keep it so. */
  lemma ParkedMeansBusy(states: seq<State>, steps: seq<Step>, i: nat, w: WaiterId, j: nat)
    requires Checkpointed(states, steps, i, w, j)
    requires states[i].waiters[w].pc.Parked? && states[i].waiters[w].req.mode.ForQuiescence?
    ensures var s, x, m := states[i], states[i].waiters[w], |states[j].log|;
            && x.look.Some? && m <= x.look.value.seen <= |s.log|
            && !SpecIdle(s, x, m, x.look.value.seen, x.look.value.now)
            && x.pc.quietAt.Some?
            && forall u :: SpecIdle(s, x, m, x.look.value.seen, u) <==> x.pc.quietAt.value <= u
  {
    Always(states, steps, i);
    var s, x := states[i], states[i].waiters[w];
    assert WaiterOk(Common(s), Channel(s, w), x);
    forall u ensures SpecIdle(s, x, |states[j].log|, x.look.value.seen, u) <==> x.pc.quietAt.value <= u {
      IdleAtLook(states, steps, i, w, j, u);
    }
    IdleAtLook(states, steps, i, w, j, x.look.value.now);
  }

  // --- A quiet wait can bring a destroyed pane back -----------------------------------------------

  /** Success in quiescence mode mints a token without reading again. If the pane was
      forgotten meanwhile, that creates it anew, empty, and the token points at its start. */
  lemma MintRevives(s: State, w: WaiterId)
    requires w in s.waiters && s.waiters[w].pc.Minting?
    ensures var id, s' := s.waiters[w].req.pane, Acted(s, w);
            && id in Replay(s'.log)
            && (id !in Replay(s.log) ==>
                  && Replay(s'.log)[id] == NEW_PANE
                  && s'.waiters[w].pc == Leaving(Idle(Issued(s.instance, id, 0, s.now))))
  {
    assert (s.log + [Create(s.waiters[w].req.pane)])[..|s.log|] == s.log;
  }

  lemma ReplaySnoc(log: seq<Event>, ev: Event)
    ensures Replay(log + [ev]) == Apply(Replay(log), ev)
  {
    assert (log + [ev])[..|log|] == log;
  }

  /** At k the pane is forgotten, and nothing later in these events makes it. */
  predicate LastForgotten(evs: seq<Event>, id: PaneId, k: nat) {
    k < |evs| && evs[k] == Forget(id) && forall j :: k < j < |evs| ==> !Makes(evs[j], id)
  }

  ghost predicate EndsForgotten(evs: seq<Event>, id: PaneId) {
    exists k: nat :: LastForgotten(evs, id, k)
  }

  lemma {:induction false} GoneIffEndsForgotten(panes: Panes, evs: seq<Event>, id: PaneId)
    requires id in panes
    ensures id !in Fold(panes, evs) <==> EndsForgotten(evs, id)
  {
    if evs == [] {
    } else {
      var n := |evs| - 1;
      GoneIffEndsForgotten(panes, evs[..n], id);
      if EndsForgotten(evs[..n], id) && !Makes(evs[n], id) {
        var k: nat :| LastForgotten(evs[..n], id, k);
        assert LastForgotten(evs, id, k);
      }
      if EndsForgotten(evs, id) {
        var k: nat :| LastForgotten(evs, id, k);
        assert k < n ==> LastForgotten(evs[..n], id, k);
      }
      assert evs[n] == Forget(id) ==> LastForgotten(evs, id, n);
    }
  }

  /** After a successful Read the pane is gone iff it was left forgotten since. */
  lemma LastReadThen(sh: Shared, req: Request, calls: seq<Call>)
    requires CallsLinear(sh, req, calls) && calls != [] && Last(calls).got.Got?
    ensures Last(calls).to <= |sh.log|
    ensures req.pane !in Replay(sh.log) <==> EndsForgotten(sh.log[Last(calls).to..], req.pane)
  {
    var c := Last(calls);
    assert Linear(sh, req, c);
    assert sh.log == sh.log[..c.to] + sh.log[c.to..];
    FoldSplit(map[], sh.log[..c.to], sh.log[c.to..]);
    GoneIffEndsForgotten(Replay(sh.log[..c.to]), sh.log[c.to..], req.pane);
  }

  /** On every run: the token of a quiescence success leaves the known panes alone, and
      marks the end of the stream, iff the pane was not left forgotten after the wait's
      last Read; otherwise it creates the pane anew. */
  lemma MintRevivesIff(states: seq<State>, steps: seq<Step>, i: nat, w: WaiterId)
    requires IsRun(states, steps) && i < |states|
    requires w in states[i].waiters && states[i].waiters[w].pc.Minting?
    ensures var s, x, s' := states[i], states[i].waiters[w], Acted(states[i], w);
            && x.calls != [] && Last(x.calls).to <= |s.log|
            && (Replay(s'.log) == Replay(s.log) <==> !EndsForgotten(s.log[Last(x.calls).to..], x.req.pane))
            && Replay(s'.log) == Replay(s.log)[x.req.pane := Log(Replay(s.log), x.req.pane)]
            && s'.waiters[w].pc
                 == Leaving(Idle(Issued(s.instance, x.req.pane, |Log(Replay(s.log), x.req.pane).history|, s.now)))
  {
    Always(states, steps, i);
    var s, x := states[i], states[i].waiters[w];
    assert WaiterOk(Common(s), Channel(s, w), x);
    LastReadThen(Common(s), x.req, x.calls);
    ReplaySnoc(s.log, Create(x.req.pane));
  }

  /** A quiescence wait on a pane without output, from its registration to the look for a
      last append, which finds none. */
  lemma QuietWaitSteps(s: State, w: WaiterId, x: Waiter) returns (t: seq<State>)
    requires w in s.waiters && s.waiters[w] == x && x.pc.Called? && x.calls == [] && !x.known
    requires x.req.mode.ForQuiescence? && x.req.after.Issued?
    requires x.req.pane in Replay(s.log) && Replay(s.log)[x.req.pane] == NEW_PANE
    requires x.req.after == Issued(s.instance, x.req.pane, 0, x.req.after.mintedAt)
    ensures |t| == 5 && t[0] == s
    ensures forall i :: 0 <= i < 5 ==> t[i].log == s.log && t[i].instance == s.instance && t[i].now == s.now
    ensures forall i :: 0 <= i < 4 ==> Next(t[i], Act(w), t[i + 1])
    ensures w in t[4].waiters && t[4].waiters[w].req == x.req
    ensures t[4].waiters[w].pc == Timing(|s.log|, None, x.req.mode.window)
  {
    var s1 := Do(s, Act(w));
    var s2 := Do(s1, Act(w));
    assert s2.waiters[w].pc == Checked(|s.log|, 0);
    var s3 := Do(s2, Act(w));
    assert s3.waiters[w].pc.Judging?;
    var s4 := Do(s3, Act(w));
    t := [s, s1, s2, s3, s4];
  }

  /** A run goes on with any enabled step, and with any chain of steps from its end. */
  lemma RunGoesOn(a: seq<State>, p: seq<Step>, b: seq<State>, q: seq<Step>)
    requires IsRun(a, p) && |b| == |q| + 1 && b[0] == a[|p|]
    requires forall i :: 0 <= i < |q| ==> Next(b[i], q[i], b[i + 1])
    ensures IsRun(a + b[1..], p + q) && (a + b[1..])[|p + q|] == b[|q|]
  {
    var states, steps := a + b[1..], p + q;
    forall i | 0 <= i < |steps| ensures Next(states[i], steps[i], states[i + 1]) {
      if i >= |p| {
        assert states[i] == b[i - |p|] && states[i + 1] == b[i - |p| + 1] && steps[i] == q[i - |p|];
      }
    }
  }

  /** A wait for a window of 5 on a fresh pane, about to begin at the given time. */
  lemma QuietPaneAwaited(id: PaneId, instance: string, now: Time) returns (states: seq<State>, steps: seq<Step>)
    requires now >= 0
    ensures IsRun(states, steps) && 0 in states[|steps|].waiters
    ensures forall i :: 0 <= i < |states| ==> states[i].log <= [Create(id)] && states[i].now <= now
    ensures var s := states[|steps|];
            && s.log == [Create(id)] && s.instance == instance && s.now == now
            && s.waiters[0] == Waiter(Request(id, Issued(instance, id, 0, 0), 10, ForQuiescence(5)), Called, false, 0, [], None)
  {
    var req := Request(id, Issued(instance, id, 0, 0), 10, ForQuiescence(5));
    var s0 := State(1, instance, [], 0, map[], map[]);
    var s1 := Do(s0, Emit(Create(id)));
    var s2 := Do(s1, Arrive(0, req));
    var s3 := Do(s2, Tick(now));
    states, steps := [s0, s1, s2, s3], [Emit(Create(id)), Arrive(0, req), Tick(now)];
  }

  /** ... and on, to its look for a last append. */
  lemma QuietPaneLookedAt(id: PaneId, instance: string, now: Time) returns (states: seq<State>, steps: seq<Step>)
    requires now >= 0
    ensures IsRun(states, steps) && 0 in states[|steps|].waiters
    ensures forall i :: 0 <= i < |states| ==> states[i].log <= [Create(id)] && states[i].now <= now
    ensures var s := states[|steps|];
            && s.log == [Create(id)] && s.instance == instance && s.now == now
            && s.waiters[0].req == Request(id, Issued(instance, id, 0, 0), 10, ForQuiescence(5))
            && s.waiters[0].pc == Timing(1, None, 5)
  {
    states, steps := QuietPaneAwaited(id, instance, now);
    var s := states[|steps|];
    ReplaySnoc([], Create(id));
    assert [] + [Create(id)] == [Create(id)];
    var t := QuietWaitSteps(s, 0, s.waiters[0]);
    var acts := seq(4, i => Act(0));
    RunGoesOn(states, steps, t, acts);
    states, steps := states + t[1..], steps + acts;
  }

  /** There is a run in which a pane is destroyed between the quiet check and the token,
      and the wait reports success for it, making it known again. */
  lemma RevivalHappens(id: PaneId, instance: string) returns (states: seq<State>, steps: seq<Step>)
    ensures IsRun(states, steps) && |steps| > 0 && steps[|steps| - 1] == Act(0)
    ensures id !in Replay(states[|steps| - 1].log) && id in Replay(states[|steps|].log)
    ensures Ended(states, steps, |steps|, 0, Idle(Issued(instance, id, 0, 5)))
  {
    states, steps := QuietPaneLookedAt(id, instance, 5);
    var looked := states[|steps|];
    var quiet := Do(looked, Act(0));
    assert quiet.waiters[0].pc == Minting;
    var gone := Do(quiet, Emit(Forget(id)));
    ReplaySnoc(quiet.log, Forget(id));
    MintRevives(gone, 0);
    var back := Do(gone, Act(0));
    var more := [Act(0), Emit(Forget(id)), Act(0)];
    RunGoesOn(states, steps, [looked, quiet, gone, back], more);
    states, steps := states + [looked, quiet, gone, back][1..], steps + more;
  }

  /** The specification counts pane id busy, for a window of 5 and a checkpoint at 0. */
  predicate Busy(s: State, id: PaneId) {
    !Q.IdleBy(s.log, id, 0, 5, 0, |s.log|, s.now)
  }

  /** There is a run in which the specification counts the pane busy throughout, and the
      wait reports it quiet: a byte falls between the look for a last append and the clock
      reading. The token handed out is already past that byte. */
  lemma BusyPaneReportedQuiet(id: PaneId, instance: string) returns (states: seq<State>, steps: seq<Step>)
    ensures IsRun(states, steps) && Ended(states, steps, |steps|, 0, Idle(Issued(instance, id, 1, 5)))
    ensures Log(Replay(states[|steps|].log), id).history == [65]
    ensures forall i :: 0 <= i < |states| ==> Busy(states[i], id)
  {
    states, steps := QuietPaneLookedAt(id, instance, 4);
    var t, more := LateByteGoesUnseen(states[|steps|], id);
    RunGoesOn(states, steps, t, more);
    states, steps := states + t[1..], steps + more;
  }

  lemma LateByteGoesUnseen(s: State, id: PaneId) returns (t: seq<State>, steps: seq<Step>)
    requires s.log == [Create(id)] && s.now == 4 && 0 in s.waiters && s.waiters[0].pc == Timing(1, None, 5)
    requires s.waiters[0].req == Request(id, Issued(s.instance, id, 0, 0), 10, ForQuiescence(5))
    ensures |steps| == 4 && |t| == 5 && t[0] == s
    ensures forall i :: 0 <= i < 4 ==> Next(t[i], steps[i], t[i + 1])
    ensures forall i :: 0 <= i < 5 ==> Busy(t[i], id)
    ensures 0 in t[4].waiters && t[4].waiters[0].pc == Leaving(Idle(Issued(s.instance, id, 1, 5)))
    ensures Log(Replay(t[4].log), id).history == [65]
  {
    var late := Append(id, [65], 4);
    LateByte(id, late);
    var written := Do(s, Emit(late));
    var ticked := Do(written, Tick(5));
    var quiet := Do(ticked, Act(0));
    assert quiet.waiters[0].pc == Minting;
    var done := Do(quiet, Act(0));
    ReplaySnoc(quiet.log, Create(id));
    assert quiet.log[1] == done.log[1] == late;
    t, steps := [s, written, ticked, quiet, done], [Emit(late), Tick(5), Act(0), Act(0)];
  }

  lemma LateByte(id: PaneId, late: Event)
    requires late == Append(id, [65], 4)
    ensures Replay([Create(id)] + [late]) == map[id := PaneLog([65], Some(4))]
  {
    var none: seq<byte> := [];
    assert none + [65] == [65];
    ReplaySnoc([], Create(id));
    assert [] + [Create(id)] == [Create(id)];
    ReplaySnoc([Create(id)], late);
  }
}
