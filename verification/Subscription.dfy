/** The pane-diff and server-loss detector (internal/tmuxctl/subscribe_unix.go, sync). */
module Subscription {

  import opened Bytes
  import Spec = StoreSpec

  /** What list-panes answered. */
  datatype Poll = ListFailed | Listed(panes: seq<Spec.PaneId>)

  /** What the subscription did, in order: a tracker started, a tracker stopped, server loss
      noticed. The last two are sent to the controller, unless the context's arm of the
      send's select is taken. */
  datatype Happening = Attached(pane: Spec.PaneId) | Closed(pane: Spec.PaneId, sent: bool) | Lost(sent: bool)

  const SERVER_LOST_THRESHOLD := 3

  datatype State = State(trackers: set<Spec.PaneId>, failures: nat, lost: bool, history: seq<Happening>)

  const INITIAL := State({}, 0, false, [])

  /** ps names each member of s once, in some order. */
  ghost predicate Enumerates(ps: seq<Spec.PaneId>, s: set<Spec.PaneId>) {
    && (forall p :: p in ps <==> p in s)
    && (forall i, j :: 0 <= i < j < |ps| ==> ps[i] != ps[j])
  }

  function Attachments(ps: seq<Spec.PaneId>): seq<Happening> { seq(|ps|, i requires 0 <= i < |ps| => Attached(ps[i])) }

  /** A poll's sends go through while the context is live; once it is cancelled some
      number of them may still. */
  predicate GoesThrough(i: nat, cut: Option<nat>) { cut.None? || i < cut.value }

  function Closures(ps: seq<Spec.PaneId>, cut: Option<nat>): seq<Happening> {
    seq(|ps|, i requires 0 <= i < |ps| => Closed(ps[i], GoesThrough(i, cut)))
  }

  function Seen(panes: seq<Spec.PaneId>): set<Spec.PaneId> { set p | p in panes }

  /** The trackers stopped: all the vanished ones, in some order, or as far as the first
      send that did not go through. */
  ghost predicate Stopped(gone: seq<Spec.PaneId>, vanished: set<Spec.PaneId>, cut: Option<nat>) {
    && Seen(gone) <= vanished && Enumerates(gone, Seen(gone))
    && (if gone == [] || GoesThrough(|gone| - 1, cut) then Seen(gone) == vanished else |gone| == cut.value + 1)
  }

  /** One poll. `startable` are the panes whose tracker can be started this time; the
      orders of `added` and `gone` are the map iteration's. */
  ghost predicate Synced(s: State, r: Round, s': State) {
    match r.poll
    case ListFailed =>
      && var notice := s.failures + 1 >= SERVER_LOST_THRESHOLD && !s.lost;
      s' == s.(failures := s.failures + 1, lost := s.lost || notice,
               history := s.history + if notice then [Lost(GoesThrough(0, r.cut))] else [])
    case Listed(panes) =>
      var seen := Seen(panes);
      && Enumerates(r.added, (seen - s.trackers) * r.startable)
      && Stopped(r.gone, s.trackers - seen, r.cut)
      && s' == State((s.trackers - Seen(r.gone)) + ((seen - s.trackers) * r.startable), 0, s.lost,
                     s.history + Attachments(r.added) + Closures(r.gone, r.cut))
  }

  datatype Round = Round(poll: Poll, startable: set<Spec.PaneId>, cut: Option<nat>,
                         added: seq<Spec.PaneId>, gone: seq<Spec.PaneId>)

  class Subscription {
    var trackers: set<Spec.PaneId>
    var consecutiveListFailures: nat
    var lostNotified: bool
    ghost var history: seq<Happening>

    ghost function Contents(): State
      reads this
    {
      State(trackers, consecutiveListFailures, lostNotified, history)
    }

    constructor ()
      ensures Contents() == INITIAL
    {
      trackers, consecutiveListFailures, lostNotified, history := {}, 0, false, [];
    }

    method Sync(poll: Poll, startable: set<Spec.PaneId>, cut: Option<nat>)
      returns (ghost added: seq<Spec.PaneId>, ghost gone: seq<Spec.PaneId>)
      modifies this
      ensures Synced(old(Contents()), Round(poll, startable, cut, added, gone), Contents())
    {
      added, gone := [], [];
      if poll.ListFailed? {
        consecutiveListFailures := consecutiveListFailures + 1;
        if consecutiveListFailures >= SERVER_LOST_THRESHOLD && !lostNotified {
          lostNotified := true;
          history := history + [Lost(GoesThrough(0, cut))];
        }
        return;
      }
      consecutiveListFailures := 0;
      var seen := Seen(poll.panes);
      added := StartNew(seen, startable);
      gone := StopGone(seen, cut);
    }

    method StartNew(seen: set<Spec.PaneId>, startable: set<Spec.PaneId>) returns (ghost added: seq<Spec.PaneId>)
      modifies this`trackers, this`history
      ensures Enumerates(added, (seen - old(trackers)) * startable)
      ensures trackers == old(trackers) + ((seen - old(trackers)) * startable)
      ensures history == old(history) + Attachments(added)
    {
      added := [];
      var todo := seen;
      assert history == old(history) + Attachments(added);
      while todo != {}
        invariant todo <= seen
        invariant Enumerates(added, ((seen - todo) - old(trackers)) * startable)
        invariant trackers == old(trackers) + (((seen - todo) - old(trackers)) * startable)
        invariant history == old(history) + Attachments(added)
      {
        var p :| p in todo;
        todo := todo - {p};
        if p !in trackers && p in startable {
          trackers := trackers + {p};
          assert Attachments(added + [p]) == Attachments(added) + [Attached(p)];
          history, added := history + [Attached(p)], added + [p];
        }
      }
    }

    method StopGone(seen: set<Spec.PaneId>, cut: Option<nat>) returns (ghost gone: seq<Spec.PaneId>)
      modifies this`trackers, this`history
      ensures Stopped(gone, old(trackers) - seen, cut)
      ensures trackers == old(trackers) - Seen(gone)
      ensures history == old(history) + Closures(gone, cut)
    {
      gone := [];
      var todo, sends := trackers, 0;
      assert history == old(history) + Closures(gone, cut);
      while todo != {}
        invariant todo <= old(trackers) && sends == |gone|
        invariant gone == [] || GoesThrough(|gone| - 1, cut)
        invariant Enumerates(gone, (old(trackers) - todo) - seen)
        invariant trackers == old(trackers) - ((old(trackers) - todo) - seen)
        invariant history == old(history) + Closures(gone, cut)
      {
        var p :| p in todo;
        todo := todo - {p};
        if p !in seen {
          trackers := trackers - {p};
          assert p !in gone;
          var sent := GoesThrough(sends, cut);
          assert Closures(gone + [p], cut) == Closures(gone, cut) + [Closed(p, sent)];
          history, gone, sends := history + [Closed(p, sent)], gone + [p], sends + 1;
          if !sent {
            assert Seen(gone) == (old(trackers) - todo) - seen;
            return;
          }
        }
      }
      assert Seen(gone) == old(trackers) - seen;
    }
  }

  // --- Whole subscriptions -------------------------------------------------------------

  ghost predicate IsRun(states: seq<State>, rounds: seq<Round>) {
    && |states| == |rounds| + 1 && states[0] == INITIAL
    && forall i :: 0 <= i < |rounds| ==>
         Synced(states[i], rounds[i], states[i + 1])
  }

  /** Round i completes three failed polls in a row. */
  predicate ThirdFailure(rounds: seq<Round>, i: int) {
    2 <= i < |rounds| && rounds[i - 2].poll.ListFailed? && rounds[i - 1].poll.ListFailed? && rounds[i].poll.ListFailed?
  }

  /** The first round to do so. */
  predicate FirstThirdFailure(rounds: seq<Round>, i: int) {
    ThirdFailure(rounds, i) && forall k :: 0 <= k < i ==> !ThirdFailure(rounds, k)
  }

  /** How many ServerLost events have been sent. */
  function Losses(history: seq<Happening>): nat {
    if history == [] then 0
    else Losses(history[..|history| - 1]) + if history[|history| - 1] == Lost(true) then 1 else 0
  }

  lemma {:induction false} LossesSplit(a: seq<Happening>, b: seq<Happening>)
    ensures Losses(a + b) == Losses(a) + Losses(b)
  {
    if b == [] {
      assert a + b == a;
    } else {
      assert (a + b)[..|a + b| - 1] == a + b[..|b| - 1];
      LossesSplit(a, b[..|b| - 1]);
    }
  }

  lemma {:induction false} NoLosses(h: seq<Happening>)
    requires forall x <- h :: !x.Lost?
    ensures Losses(h) == 0
  {
    if h == [] {
    } else {
      NoLosses(h[..|h| - 1]);
    }
  }

  /** How many polls up to the i-th state have failed in a row. */
  function Streak(rounds: seq<Round>, i: nat): (n: nat)
    requires i <= |rounds|
    ensures n <= i && forall k :: i - n <= k < i ==> rounds[k].poll.ListFailed?
    ensures n < i ==> !rounds[i - n - 1].poll.ListFailed?
  {
    if i == 0 || !rounds[i - 1].poll.ListFailed? then 0 else Streak(rounds, i - 1) + 1
  }

  lemma StreakOfThree(rounds: seq<Round>, i: nat)
    requires 0 < i <= |rounds|
    ensures Streak(rounds, i) >= 3 <==> ThirdFailure(rounds, i - 1)
  {
    var n := Streak(rounds, i);
    assert n < i ==> !rounds[i - n - 1].poll.ListFailed?;
    assert forall k :: i - n <= k < i ==> rounds[k].poll.ListFailed?;
  }

  lemma RoundLosses(s: State, r: Round, s': State)
    requires Synced(s, r, s')
    ensures Losses(s'.history) == Losses(s.history) + if s'.lost && !s.lost && GoesThrough(0, r.cut) then 1 else 0
    ensures s'.failures == if r.poll.ListFailed? then s.failures + 1 else 0
    ensures s'.lost <==> s.lost || s'.failures >= 3
  {
    if r.poll.ListFailed? {
      var notice := [Lost(GoesThrough(0, r.cut))];
      LossesSplit(s.history, notice);
      assert notice[..0] == [];
      assert s.history + [] == s.history;
    } else {
      NoLosses(Attachments(r.added) + Closures(r.gone, r.cut));
      LossesSplit(s.history, Attachments(r.added) + Closures(r.gone, r.cut));
      assert s'.history == s.history + (Attachments(r.added) + Closures(r.gone, r.cut));
    }
  }

  /** After any number of rounds ServerLost has been sent once, if the first round to
      complete three consecutive failures is among them and its send went through, and
      otherwise not at all. */
  lemma {:induction false} LostExactlyOnThirdFailure(states: seq<State>, rounds: seq<Round>, i: nat)
    requires IsRun(states, rounds) && i < |states|
    ensures states[i].failures == Streak(rounds, i)
    ensures states[i].lost <==> exists k :: 0 <= k < i && ThirdFailure(rounds, k)
    ensures Losses(states[i].history)
         == if exists k :: 0 <= k < i && FirstThirdFailure(rounds, k) && GoesThrough(0, rounds[k].cut) then 1 else 0
  {
    if i == 0 {
    } else {
      LostExactlyOnThirdFailure(states, rounds, i - 1);
      RoundLosses(states[i - 1], rounds[i - 1], states[i]);
      StreakOfThree(rounds, i);
      assert states[i - 1].lost ==> !FirstThirdFailure(rounds, i - 1);
      assert states[i].lost && !states[i - 1].lost ==> FirstThirdFailure(rounds, i - 1);
    }
  }

  /** With a live context, after every successful poll what is tracked is what has just been
      seen and was tracked before or could be started; a failed one changes nothing of it;
      and every Closed event of the subscription has been sent. */
  lemma {:induction false} LiveContext(states: seq<State>, rounds: seq<Round>, i: nat)
    requires IsRun(states, rounds) && i < |states|
    requires forall k :: 0 <= k < i ==> rounds[k].cut.None?
    ensures i > 0 && rounds[i - 1].poll.Listed? ==>
              forall p :: p in states[i].trackers <==>
                p in rounds[i - 1].poll.panes && (p in states[i - 1].trackers || p in rounds[i - 1].startable)
    ensures i > 0 && rounds[i - 1].poll.ListFailed? ==> states[i].trackers == states[i - 1].trackers
    ensures forall h <- states[i].history :: !h.Attached? ==> h.sent
  {
    if i == 0 {
    } else {
      LiveContext(states, rounds, i - 1);
      assert Synced(states[i - 1], rounds[i - 1], states[i]);
    }
  }

  /** Pane p's own happenings: true for an attach, false for a close. */
  function Of(history: seq<Happening>, p: Spec.PaneId): seq<bool> {
    if history == [] then []
    else
      var h := history[|history| - 1];
      Of(history[..|history| - 1], p) + if !h.Lost? && h.pane == p then [h.Attached?] else []
  }

  predicate Alternates(bs: seq<bool>) { forall i :: 0 <= i < |bs| ==> bs[i] == (i % 2 == 0) }

  lemma {:induction false} OfSplit(a: seq<Happening>, b: seq<Happening>, p: Spec.PaneId)
    ensures Of(a + b, p) == Of(a, p) + Of(b, p)
  {
    if b == [] {
      assert a + b == a;
    } else {
      assert (a + b)[..|a + b| - 1] == a + b[..|b| - 1];
      OfSplit(a, b[..|b| - 1], p);
    }
  }

  /** One element of a list without repetitions, in either projection. */
  lemma {:induction false} OfAttachments(ps: seq<Spec.PaneId>, p: Spec.PaneId)
    requires forall i, j :: 0 <= i < j < |ps| ==> ps[i] != ps[j]
    ensures Of(Attachments(ps), p) == if p in ps then [true] else []
  {
    if ps == [] {
    } else {
      var n := |ps| - 1;
      OfAttachments(ps[..n], p);
      assert Attachments(ps)[..n] == Attachments(ps[..n]);
      assert p in ps <==> p in ps[..n] || p == ps[n];
    }
  }

  lemma {:induction false} OfClosures(ps: seq<Spec.PaneId>, cut: Option<nat>, p: Spec.PaneId)
    requires forall i, j :: 0 <= i < j < |ps| ==> ps[i] != ps[j]
    ensures Of(Closures(ps, cut), p) == if p in ps then [false] else []
  {
    if ps == [] {
    } else {
      var n := |ps| - 1;
      OfClosures(ps[..n], cut, p);
      assert Closures(ps, cut)[..n] == Closures(ps[..n], cut);
      assert p in ps <==> p in ps[..n] || p == ps[n];
    }
  }

  /** What one round does to pane p. */
  lemma RoundOf(s: State, r: Round, s': State, p: Spec.PaneId)
    requires Synced(s, r, s')
    ensures Of(s'.history, p) == Of(s.history, p)
         + if p in s'.trackers && p !in s.trackers then [true]
           else if p in s.trackers && p !in s'.trackers then [false]
           else []
  {
    if r.poll.ListFailed? {
      var notice := [Lost(GoesThrough(0, r.cut))];
      OfSplit(s.history, notice, p);
      assert notice[..0] == [];
      assert s.history + [] == s.history;
    } else {
      OfSplit(s.history, Attachments(r.added), p);
      OfSplit(s.history + Attachments(r.added), Closures(r.gone, r.cut), p);
      OfAttachments(r.added, p);
      OfClosures(r.gone, r.cut, p);
    }
  }

  lemma Toggled(bs: seq<bool>, was: bool, now: bool)
    requires Alternates(bs) && (was <==> |bs| % 2 == 1)
    ensures var more := bs + if now && !was then [true] else if was && !now then [false] else [];
            Alternates(more) && (now <==> |more| % 2 == 1)
  {
  }

  /** Whatever the polls, the start failures, the iteration orders and the sends that do not
      go through: each pane's attaches and closes strictly alternate, attach first, and it is tracked iff attached last. */
  lemma {:induction false} AttachAndCloseAlternate(states: seq<State>, rounds: seq<Round>, i: nat, p: Spec.PaneId)
    requires IsRun(states, rounds) && i < |states|
    ensures Alternates(Of(states[i].history, p))
    ensures p in states[i].trackers <==> |Of(states[i].history, p)| % 2 == 1
  {
    if i == 0 {
    } else {
      AttachAndCloseAlternate(states, rounds, i - 1, p);
      RoundOf(states[i - 1], rounds[i - 1], states[i], p);
      Toggled(Of(states[i - 1].history, p), p in states[i - 1].trackers, p in states[i].trackers);
    }
  }
}
