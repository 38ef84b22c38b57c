/**
 The quiescence loop (internal/controller/wait.go): a select over a signal channel, a
 quiet timer and the deadline, against the specification's continuous condition
 now - max(T_checkpoint, T_last) >= window.

 Time is the clock's own integer nanoseconds. A loop iteration takes no time, and an
 event at instant t is visible to an iteration made at t.
 */
module Quiescence {
  import opened Bytes
  import opened StoreSpec
  import opened EventLog
  import opened WaitError

  function Max(a: Time, b: Time): Time { if a >= b then a else b }

  /** The instant the quiet window is measured from. */
  function Reference(checkpoint: Time, last: Option<Time>): Time {
    if last.Some? then Max(checkpoint, last.value) else checkpoint
  }

  predicate Sorted(ts: seq<Time>) { forall i, j :: 0 <= i < j < |ts| ==> ts[i] <= ts[j] }

  /** How many of the events have happened by t. */
  function Seen(times: seq<Time>, t: Time): (n: nat)
    requires Sorted(times)
    ensures n <= |times|
    ensures forall i :: 0 <= i < |times| ==> (times[i] <= t <==> i < n)
  {
    if times == [] then 0
    else if times[|times| - 1] <= t then |times|
    else Seen(times[..|times| - 1], t)
  }

  lemma SeenGrows(times: seq<Time>, t: Time, u: Time)
    requires Sorted(times) && t <= u
    ensures Seen(times, t) <= Seen(times, u)
  {
    assert Seen(times, t) > 0 ==> times[Seen(times, t) - 1] <= t;
  }

  /** One wait: the store's whole history with the instant of each event, and the request. */
  datatype Scenario = Scenario(
    capacity: nat, instance: string, log: seq<Event>, times: seq<Time>,
    pane: PaneId, after: Token, window: Time)

  predicate Valid(s: Scenario) {
    && |s.times| == |s.log| && Sorted(s.times)
    && forall i :: 0 <= i < |s.log| && s.log[i].Append? ==> s.log[i].bytes != [] && s.log[i].at == s.times[i]
  }

  function PanesAt(s: Scenario, t: Time): Panes
    requires Valid(s)
  {
    Replay(s.log[..Seen(s.times, t)])
  }

  function ReadAt(s: Scenario, t: Time): ReadResult
    requires Valid(s)
  {
    AtomicRead(s.capacity, s.instance, PanesAt(s, t), s.pane, s.after, t)
  }

  /** A token that does not decode has the zero time; Read refuses it anyway. */
  function Checkpoint(after: Token): Time { TokenTime(after).GetOr(0) }

  /** The program's condition at instant t. */
  predicate Quiet(s: Scenario, t: Time)
    requires Valid(s)
  {
    t - Reference(Checkpoint(s.after), LastAppend(PanesAt(s, t), s.pane)) >= s.window
  }

  /** At t an iteration would end the wait: its Read is refused, or the pane is quiet. */
  predicate Decided(s: Scenario, t: Time)
    requires Valid(s)
  {
    ReadAt(s, t).Refused? || Quiet(s, t)
  }

  predicate Undecided(s: Scenario, from: Time, to: Time)
    requires Valid(s)
  {
    forall u :: from <= u < to ==> !Decided(s, u)
  }

  datatype Outcome = Satisfied(at: Time, next: Token) | Failed(at: Time, code: Code) | TimedOut

  /** How a wait registered at `registered` ends at t. The Read comes first; only a pane
      that a Read of this wait has found can be reported closed. */
  function Ending(s: Scenario, registered: Time, t: Time): Outcome
    requires Valid(s)
  {
    match ReadAt(s, t)
    case Refused(e) => Failed(t, OfRead(t > registered, e))
    case Got(_, _) => Satisfied(t, HeadToken(s.instance, PanesAt(s, t), s.pane, t))
  }

  /** What an iteration at every single instant would give: the wait ends at the first
      instant from registration on that decides it, and times out if there is none before
      the deadline. (At the deadline itself Go may pick either arm.) */
  predicate Ends(s: Scenario, registered: Time, deadline: Time, r: Outcome)
    requires Valid(s)
  {
    if r.TimedOut? then Undecided(s, registered, deadline)
    else
      && registered <= r.at <= deadline && Undecided(s, registered, r.at) && Decided(s, r.at)
      && r == Ending(s, registered, r.at)
  }

  /** The loop refines polling at every instant. The channel may hold a signal from before
      the first read, and any ready arm may be taken. */
  method AwaitQuiet(s: Scenario, registered: Time, deadline: Time, signalled: bool) returns (r: Outcome)
    requires Valid(s) && s.window > 0 && registered < deadline
    ensures Ends(s, registered, deadline, r)
  {
    var now, pending, known := registered, signalled, false;
    while true
      invariant registered <= now <= deadline && Undecided(s, registered, now)
      invariant now > registered ==> known
      invariant known ==> ReadAt(s, registered).Got?
      decreases deadline - now, pending
    {
      var got := ReadAt(s, now);
      if got.Refused? {
        return Failed(now, OfRead(known, got.error));
      }
      known := true;
      var ref := Reference(Checkpoint(s.after), LastAppend(PanesAt(s, now), s.pane));
      var elapsed := now - ref;
      if elapsed >= s.window {
        return Satisfied(now, HeadToken(s.instance, PanesAt(s, now), s.pane, now));
      }
      var quietAt := now + (s.window - elapsed);
      if !pending && now < deadline {
        now, pending := NextWake(s, now, quietAt, deadline);
      }
      if
      case pending => pending := false;
      case now >= quietAt =>
      case now >= deadline => return TimedOut;
    }
  }

  /** Sleep until the first of the next signal, the quiet timer and the deadline. */
  method NextWake(s: Scenario, now: Time, quietAt: Time, deadline: Time) returns (wake: Time, pending: bool)
    requires Valid(s) && now < deadline && now < quietAt && ReadAt(s, now).Got?
    requires quietAt == Reference(Checkpoint(s.after), LastAppend(PanesAt(s, now), s.pane)) + s.window
    ensures now < wake <= deadline
    ensures pending || wake >= quietAt || wake >= deadline
    ensures Undecided(s, now, wake)
  {
    wake, pending := if quietAt < deadline then quietAt else deadline, false;
    var n := Seen(s.times, now);
    var k := NextSignal(s.log, s.pane, n);
    if k < |s.log| && s.times[k] <= wake {
      wake, pending := s.times[k], true;
    }
    forall u | now <= u < wake ensures !Decided(s, u) {
      Asleep(s, now, u, k);
    }
  }

  /** The first event from n on that signals the pane's watchers. */
  function NextSignal(log: seq<Event>, id: PaneId, n: nat): (k: nat)
    requires n <= |log|
    ensures n <= k <= |log|
    ensures k < |log| ==> log[k].id == id && !log[k].Create?
    ensures forall i :: n <= i < k ==> log[i].id == id ==> log[i].Create?
    decreases |log| - n
  {
    if n == |log| || (log[n].id == id && !log[n].Create?) then n else NextSignal(log, id, n + 1)
  }

  /** What a failed wait's code says, over any history: PANE_NOT_FOUND iff the pane was unknown
      at registration; else PANE_CLOSED iff it is unknown at the end, having been forgotten
      since; else the token was at fault, or its offset not retained. */
  lemma FailureCodes(s: Scenario, registered: Time, deadline: Time, r: Outcome)
    requires Valid(s) && Ends(s, registered, deadline, r) && r.Failed?
    ensures Seen(s.times, registered) <= Seen(s.times, r.at)
    ensures r.code == PaneNotFound <==> s.pane !in PanesAt(s, registered)
    ensures r.code == PaneClosed <==>
              s.pane in PanesAt(s, registered) && s.pane !in PanesAt(s, r.at)
    ensures r.code == PaneClosed ==> Forget(s.pane) in s.log[Seen(s.times, registered)..Seen(s.times, r.at)]
    ensures r.code == InvalidAfter <==> s.pane in PanesAt(s, registered) && s.pane in PanesAt(s, r.at)
  {
    SeenGrows(s.times, registered, r.at);
    assert registered < r.at ==> !Decided(s, registered);
    if r.code == PaneClosed {
      LostMeansForgotten(s.log, Seen(s.times, registered), Seen(s.times, r.at), s.pane);
    }
  }

  /** Between signals a known pane's buffer stays as it is. */
  lemma Asleep(s: Scenario, now: Time, u: Time, k: nat)
    requires Valid(s) && now <= u && Seen(s.times, now) <= k <= |s.log| && ReadAt(s, now).Got?
    requires Undisturbed(s.log[Seen(s.times, now)..k], s.pane)
    requires k < |s.log| ==> u < s.times[k]
    ensures s.pane in PanesAt(s, now) && s.pane in PanesAt(s, u)
    ensures PanesAt(s, u)[s.pane] == PanesAt(s, now)[s.pane]
  {
    var n, m := Seen(s.times, now), Seen(s.times, u);
    SeenGrows(s.times, now, u);
    assert m > 0 ==> s.times[m - 1] <= u;
    assert s.log[n..k][..m - n] == s.log[n..m];
    assert s.log[..m] == s.log[..n] + s.log[n..m];
    FoldSplit(map[], s.log[..n], s.log[n..m]);
    UndisturbedSame(PanesAt(s, now), s.log[n..m], s.pane);
  }

  // --- T_last, and what the store remembers of it ------------------------------------

  /** When pane id received bytes. */
  function AppendTimes(evs: seq<Event>, id: PaneId): seq<Time> {
    if evs == [] then []
    else
      var ev := evs[|evs| - 1];
      AppendTimes(evs[..|evs| - 1], id) + if ev.Append? && ev.id == id && ev.bytes != [] then [ev.at] else []
  }

  function Latest(ts: seq<Time>): Option<Time> {
    if ts == [] then None else Some(ts[|ts| - 1])
  }

  lemma {:induction false} LastAppendGrows(panes: Panes, evs: seq<Event>, id: PaneId)
    requires Kept(evs, id)
    ensures LastAppend(Fold(panes, evs), id)
         == if AppendTimes(evs, id) == [] then LastAppend(panes, id) else Latest(AppendTimes(evs, id))
  {
    if evs == [] {
    } else {
      var n := |evs| - 1;
      LastAppendGrows(panes, evs[..n], id);
      assert evs[n] != Forget(id);
    }
  }

  predicate Outputs(ev: Event, id: PaneId) { ev.Append? && ev.id == id && ev.bytes != [] }

  /** The specification's condition, at a clock reading: the window has passed since the
      checkpoint and since each output of the pane from the m-th event up to the n-th. */
  predicate IdleBy(log: seq<Event>, id: PaneId, checkpoint: Time, window: Time, m: nat, n: nat, now: Time)
    requires m <= n <= |log|
  {
    && now - checkpoint >= window
    && forall k :: m <= k < n && Outputs(log[k], id) ==> now - log[k].at >= window
  }

  lemma {:induction false} InAppendTimes(evs: seq<Event>, id: PaneId, t: Time)
    ensures t in AppendTimes(evs, id) <==> exists k :: 0 <= k < |evs| && Outputs(evs[k], id) && evs[k].at == t
  {
    if evs == [] {
    } else {
      var n := |evs| - 1;
      InAppendTimes(evs[..n], id, t);
      assert t in AppendTimes(evs, id) <==> t in AppendTimes(evs[..n], id) || (Outputs(evs[n], id) && evs[n].at == t);
      assert forall k :: 0 <= k < n ==> evs[..n][k] == evs[k];
    }
  }

  /** It need only be checked against the latest. */
  lemma IdleByLatest(log: seq<Event>, id: PaneId, checkpoint: Time, window: Time, m: nat, n: nat, now: Time)
    requires m <= n <= |log| && Sorted(AppendTimes(log[m..n], id))
    ensures IdleBy(log, id, checkpoint, window, m, n, now)
       <==> now - Reference(checkpoint, Latest(AppendTimes(log[m..n], id))) >= window
  {
    var ts := AppendTimes(log[m..n], id);
    forall k | m <= k < n && Outputs(log[k], id) ensures log[k].at in ts && log[k].at <= ts[|ts| - 1] {
      assert log[m..n][k - m] == log[k];
      InAppendTimes(log[m..n], id, log[k].at);
    }
    if ts != [] {
      InAppendTimes(log[m..n], id, ts[|ts| - 1]);
      var k :| 0 <= k < n - m && Outputs(log[m..n][k], id) && log[m..n][k].at == ts[|ts| - 1];
      assert log[m + k] == log[m..n][k];
    }
  }

  /** The clock has not gone back: a token minted at position m carries a time no earlier
      than the appends before it and no later than those after it. */
  predicate MintedInOrder(log: seq<Event>, id: PaneId, m: nat, checkpoint: Time)
    requires m <= |log|
  {
    && (forall t <- AppendTimes(log[..m], id) :: t <= checkpoint)
    && (forall t <- AppendTimes(log[m..], id) :: checkpoint <= t)
  }

  /** The program compares with the pane's overall last append; the specification only
      with appends after the checkpoint. For a pane that lives on, they agree. */
  lemma OverallLastIsEnough(log: seq<Event>, id: PaneId, m: nat, checkpoint: Time)
    requires m <= |log| && Kept(log[m..], id) && MintedInOrder(log, id, m, checkpoint)
    ensures Reference(checkpoint, LastAppend(Replay(log), id))
         == Reference(checkpoint, Latest(AppendTimes(log[m..], id)))
  {
    assert log == log[..m] + log[m..];
    FoldSplit(map[], log[..m], log[m..]);
    LastAppendGrows(Replay(log[..m]), log[m..], id);
    LastIsSomeAppend(log[..m], id);
  }

  lemma {:induction false} LastIsSomeAppend(log: seq<Event>, id: PaneId)
    ensures LastAppend(Replay(log), id).Some? ==> LastAppend(Replay(log), id).value in AppendTimes(log, id)
  {
    if log == [] {
    } else {
      LastIsSomeAppend(log[..|log| - 1], id);
    }
  }

  // --- The specification's condition, and the pane too noisy to be waited on ------------

  /** The token was minted at the head of the stream, after the first m events. */
  predicate Minted(s: Scenario, m: nat)
    requires Valid(s)
  {
    && m <= |s.log| && s.after.Issued?
    && s.after == HeadToken(s.instance, Replay(s.log[..m]), s.pane, s.after.mintedAt)
    && s.pane in Replay(s.log[..m])
    && (forall i :: 0 <= i < m ==> s.times[i] <= s.after.mintedAt)
    && (forall i :: m <= i < |s.log| ==> s.after.mintedAt <= s.times[i])
  }

  /** The specification's condition: only bytes appended after the checkpoint count. */
  predicate SpecQuiet(s: Scenario, m: nat, t: Time)
    requires Valid(s) && s.after.Issued?
  {
    m <= Seen(s.times, t) && IdleBy(s.log, s.pane, s.after.mintedAt, s.window, m, Seen(s.times, t), t)
  }

  lemma {:induction false} AppendsInOrder(s: Scenario, a: nat, b: nat)
    requires Valid(s) && a <= b <= |s.log|
    ensures Sorted(AppendTimes(s.log[a..b], s.pane))
    ensures forall t <- AppendTimes(s.log[a..b], s.pane) :: a < b && s.times[a] <= t <= s.times[b - 1]
    decreases b
  {
    var evs := s.log[a..b];
    if a == b {
      assert evs == [];
    } else {
      assert evs[..|evs| - 1] == s.log[a..b - 1] && evs[|evs| - 1] == s.log[b - 1];
      AppendsInOrder(s, a, b - 1);
      var ts := AppendTimes(s.log[a..b - 1], s.pane);
      assert forall k :: 0 <= k < |ts| ==> ts[k] in ts;
    }
  }

  /** For a pane that lives on, the program's condition is the specification's. */
  lemma QuietIsSpecQuiet(s: Scenario, m: nat, t: Time)
    requires Valid(s) && Minted(s, m) && m <= Seen(s.times, t)
    requires Kept(s.log[m..Seen(s.times, t)], s.pane)
    ensures Quiet(s, t) <==> SpecQuiet(s, m, t)
  {
    var n := Seen(s.times, t);
    var log := s.log[..n];
    assert log[..m] == s.log[0..m] && log[m..] == s.log[m..n];
    AppendsInOrder(s, 0, m);
    AppendsInOrder(s, m, n);
    OverallLastIsEnough(log, s.pane, m, s.after.mintedAt);
    IdleByLatest(s.log, s.pane, s.after.mintedAt, s.window, m, n, t);
  }

  /** More than a capacity of data has passed the token by t. */
  predicate Overrun(s: Scenario, m: nat, t: Time)
    requires Valid(s)
  {
    m <= Seen(s.times, t) && |Data(s.log[m..Seen(s.times, t)], s.pane)| > s.capacity
  }

  lemma OverrunStays(s: Scenario, m: nat, t: Time, u: Time)
    requires Valid(s) && t <= u && m <= Seen(s.times, t)
    ensures m <= Seen(s.times, u)
    ensures Overrun(s, m, t) ==> Overrun(s, m, u)
  {
    SeenGrows(s.times, t, u);
    var a, b := Seen(s.times, t), Seen(s.times, u);
    assert s.log[m..b] == s.log[m..a] + s.log[a..b];
    DataSplit(s.log[m..a], s.log[a..b], s.pane);
  }

  lemma RefusedIffOverrun(s: Scenario, m: nat, t: Time)
    requires Valid(s) && Minted(s, m) && Kept(s.log[m..], s.pane) && m <= Seen(s.times, t)
    ensures ReadAt(s, t) == Refused(TokenEvicted) <==> Overrun(s, m, t)
    ensures ReadAt(s, t).Refused? ==> Overrun(s, m, t)
  {
    var n := Seen(s.times, t);
    assert s.log[m..n] == s.log[m..][..n - m];
    RefusedIffLagging(s.capacity, s.instance, s.log, s.pane, m, s.after, n, t);
  }

  predicate FirstQuiet(s: Scenario, m: nat, from: Time, t: Time)
    requires Valid(s) && s.after.Issued?
  {
    from <= t && SpecQuiet(s, m, t) && forall u :: from <= u < t ==> !SpecQuiet(s, m, u)
  }

  /** The pane lives on from the minting of the token, which is before registration. */
  predicate LivesOn(s: Scenario, m: nat, registered: Time)
    requires Valid(s)
  {
    Minted(s, m) && Kept(s.log[m..], s.pane) && m <= Seen(s.times, registered)
  }

  lemma DecidedIff(s: Scenario, m: nat, registered: Time, u: Time)
    requires Valid(s) && LivesOn(s, m, registered) && registered <= u
    ensures m <= Seen(s.times, u)
    ensures Overrun(s, m, u) ==> ReadAt(s, u) == Refused(TokenEvicted)
    ensures ReadAt(s, u).Refused? <==> Overrun(s, m, u)
    ensures Quiet(s, u) <==> SpecQuiet(s, m, u)
  {
    OverrunStays(s, m, registered, u);
    RefusedIffOverrun(s, m, u);
    var n := Seen(s.times, u);
    assert s.log[m..n] == s.log[m..][..n - m];
    QuietIsSpecQuiet(s, m, u);
  }

  /** An instant from registration on at which the wait can end is refused or quiet by the
      specification; an overrun lasts. */
  lemma DecidedIffAll(s: Scenario, m: nat, registered: Time, to: Time)
    requires Valid(s) && LivesOn(s, m, registered)
    ensures forall u :: registered <= u ==> (Decided(s, u) <==> Overrun(s, m, u) || SpecQuiet(s, m, u))
    ensures forall u :: registered <= u ==> (ReadAt(s, u).Refused? <==> Overrun(s, m, u))
    ensures forall u :: registered <= u ==> (Overrun(s, m, u) ==> ReadAt(s, u) == Refused(TokenEvicted))
    ensures forall u :: registered <= u <= to && Overrun(s, m, u) ==> Overrun(s, m, to)
  {
    forall u | registered <= u
      ensures Decided(s, u) <==> Overrun(s, m, u) || SpecQuiet(s, m, u)
      ensures ReadAt(s, u).Refused? <==> Overrun(s, m, u)
      ensures Overrun(s, m, u) ==> ReadAt(s, u) == Refused(TokenEvicted)
      ensures u <= to && Overrun(s, m, u) ==> Overrun(s, m, to)
    {
      DecidedIff(s, m, registered, u);
      if u <= to {
        OverrunStays(s, m, u, to);
      }
    }
  }

  /** Quiescence on a pane that lives on, against the specification's condition: if a first
      quiet instant q precedes the deadline, the wait ends INVALID_AFTER if by q more than a
      capacity has passed the token, the Read coming first at a tie, and else succeeds at q. */
  lemma EndsAtFirstQuiet(s: Scenario, m: nat, registered: Time, deadline: Time, q: Time, r: Outcome)
    requires Valid(s) && registered < deadline && Ends(s, registered, deadline, r)
    requires LivesOn(s, m, registered) && FirstQuiet(s, m, registered, q) && q < deadline
    ensures r.Failed? <==> Overrun(s, m, q)
    ensures r.Failed? ==> r.code == InvalidAfter && Overrun(s, m, r.at) && r.at <= q
    ensures !r.Failed? ==> r.Satisfied? && r.at == q
  {
    DecidedIffAll(s, m, registered, q);
    assert Decided(s, q);
  }

  /** ... If there is none up to the deadline, it ends INVALID_AFTER if more than a capacity
      has passed the token before the deadline, and times out if not by then. (An overrun at
      the deadline itself may find the timeout taken.) */
  lemma EndsWithoutQuiet(s: Scenario, m: nat, registered: Time, deadline: Time, r: Outcome)
    requires Valid(s) && registered < deadline && Ends(s, registered, deadline, r)
    requires LivesOn(s, m, registered) && forall u :: registered <= u <= deadline ==> !SpecQuiet(s, m, u)
    ensures Overrun(s, m, deadline - 1) ==> r.Failed?
    ensures r.Failed? ==> r.code == InvalidAfter && Overrun(s, m, r.at) && Overrun(s, m, deadline)
    ensures !r.Failed? ==> r == TimedOut
  {
    DecidedIffAll(s, m, registered, deadline);
    assert Decided(s, deadline - 1) <==> Overrun(s, m, deadline - 1) || SpecQuiet(s, m, deadline - 1);
  }

  /** The token of a success stands after everything output since the old one, and carries
      the time of the success. */
  lemma SatisfiedToken(s: Scenario, m: nat, registered: Time, deadline: Time, r: Outcome)
    requires Valid(s) && Ends(s, registered, deadline, r) && LivesOn(s, m, registered) && r.Satisfied?
    ensures m <= Seen(s.times, r.at)
    ensures r.next == Issued(s.instance, s.pane,
                             s.after.offset + |Data(s.log[m..Seen(s.times, r.at)], s.pane)|, r.at)
  {
    SeenGrows(s.times, registered, r.at);
    var n := Seen(s.times, r.at);
    assert s.log[m..n] == s.log[m..][..n - m];
    Between(s.log, m, n, s.pane);
  }

  /** A token at 0, minted at 0; one byte more than the ring holds, at 1; window 5. */
  function Burst(capacity: nat, instance: string, id: PaneId): Scenario {
    Scenario(capacity, instance, [Create(id), Append(id, seq(capacity + 1, _ => 65), 1)], [0, 1],
             id, Issued(instance, id, 0, 0), 5)
  }

  lemma BurstMinted(s: Scenario)
    requires s == Burst(s.capacity, s.instance, s.pane)
    ensures Valid(s) && Minted(s, 1) && Kept(s.log[1..], s.pane)
  {
    assert s.log[..1] == [Create(s.pane)] && [Create(s.pane)][..0] == [];
    assert Replay(s.log[..1]) == Apply(Replay([]), Create(s.pane));
  }

  lemma BurstAppends(s: Scenario, t: Time)
    requires s == Burst(s.capacity, s.instance, s.pane) && Valid(s) && t >= 6
    ensures Seen(s.times, t) == 2
    ensures AppendTimes(s.log[1..2], s.pane) == [1] && |Data(s.log[1..2], s.pane)| == s.capacity + 1
  {
    assert s.times[1] <= t;
    assert s.log[1..2] == [s.log[1]] && [s.log[1]][..0] == [];
  }

  /** The failing case: the pane has been quiet for longer than the window when the wait is
      registered, and the wait is refused, because one byte too many came before. */
  lemma QuietPaneRefused(s: Scenario, r: Outcome)
    requires s == Burst(s.capacity, s.instance, s.pane)
    ensures Valid(s) && Minted(s, 1)
    ensures forall t :: t >= 6 ==> Seen(s.times, t) == 2 && SpecQuiet(s, 1, t)
    ensures Ends(s, 10, 100, r) <==> r == Failed(10, InvalidAfter)
  {
    BurstMinted(s);
    forall t | t >= 6 ensures Seen(s.times, t) == 2 && SpecQuiet(s, 1, t) {
      BurstAppends(s, t);
    }
    BurstAppends(s, 10);
    RefusedIffOverrun(s, 1, 10);
    assert Overrun(s, 1, 10) && Decided(s, 10);
    assert Ending(s, 10, 10) == Failed(10, InvalidAfter);
  }
}
