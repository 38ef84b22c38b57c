/**
 Starting the daemon on demand (internal/ipc/autospawn.go, EnsureDaemon) against the
 daemon's own binding of the socket (internal/ipc/server.go, Listen): any number of
 clients and daemons, one step per system call that others can see.
 */
module SpawnLock {
  import opened Bytes

  type ClientId = nat
  type DaemonId = nat

  datatype Client =
    | Pinging                         // fast path
    | WantLock                        // before flock returns
    | Holding                         // lock held, before the second ping
    | Polling(d: DaemonId)            // lock held, own daemon spawned
    | Unlocking(contact: Option<DaemonId>) // lock held; which daemon answered, if one did
    | Connected(to: DaemonId)
    | Failed

  datatype Daemon =
    | Starting                // before Listen's dial
    | Probed                  // the dial failed; before os.Remove
    | Cleared                 // before net.Listen
    | Bound
    | Unlinked                // the listener's own unlink of the path is done, its descriptor still open
    | Closing                 // listener closed; before Close's own os.Remove
    | Exited(served: bool)    // whether it had bound before

  /** `path` is the daemon whose socket file, live or stale, stands at the path. */
  datatype State = State(clients: seq<Client>, daemons: seq<Daemon>, path: Option<DaemonId>, lock: Option<ClientId>)

  datatype Step =
    | Arrive
    | Go(c: ClientId)          // the client's next call: ping, flock, spawn or unlock
    | GiveUp(c: ClientId)      // spawn failed, or the readiness deadline passed
    | Die(c: ClientId)         // the client process is killed; the kernel drops its lock
    | StartOutside             // someone runs `tpctl daemon` by hand
    | Run(d: DaemonId)         // the daemon's next call
    | Close(d: DaemonId)       // closing the listener begins: it unlinks the path
    | Kill(d: DaemonId)        // it exits as it stands, leaving what is at the path

  /** Who answers a ping: the daemon at the path, if it is listening. */
  function Answering(s: State): Option<DaemonId> {
    if s.path.Some? && s.path.value < |s.daemons| && s.daemons[s.path.value].Bound? then s.path else None
  }

  predicate Critical(pc: Client) { pc.Holding? || pc.Polling? || pc.Unlocking? }

  /** It has bound or exited. */
  predicate Settled(d: Daemon) { d.Bound? || Retired(d) }

  /** Past serving: on its way out, or gone. */
  predicate Retired(d: Daemon) { d.Unlinked? || d.Closing? || d.Exited? }

  predicate Served(s: State, d: DaemonId) {
    d < |s.daemons| && (s.daemons[d].Bound? || s.daemons[d].Unlinked? || s.daemons[d].Closing? || (s.daemons[d].Exited? && s.daemons[d].served))
  }

  predicate Enabled(s: State, step: Step) {
    match step
    case Arrive => true
    case Go(c) =>
      && c < |s.clients| && !s.clients[c].Connected? && !s.clients[c].Failed?
      && (s.clients[c].WantLock? ==> s.lock.None?)
    case GiveUp(c) => c < |s.clients| && (s.clients[c].Holding? || s.clients[c].Polling?)
    case Die(c) => c < |s.clients|
    case StartOutside => true
    case Run(d) => d < |s.daemons| && !s.daemons[d].Bound? && !s.daemons[d].Exited?
    case Close(d) => d < |s.daemons| && s.daemons[d].Bound?
    case Kill(d) => d < |s.daemons|
  }

  function ClientStep(s: State, c: ClientId): State
    requires c < |s.clients|
  {
    var who := Answering(s);
    match s.clients[c]
    case Pinging => s.(clients := s.clients[c := if who.Some? then Connected(who.value) else WantLock])
    case WantLock => s.(clients := s.clients[c := Holding], lock := Some(c))
    case Holding =>
      if who.Some? then s.(clients := s.clients[c := Unlocking(who)])
      else s.(clients := s.clients[c := Polling(|s.daemons|)], daemons := s.daemons + [Starting])
    case Polling(_) => if who.Some? then s.(clients := s.clients[c := Unlocking(who)]) else s
    case Unlocking(contact) =>
      s.(clients := s.clients[c := if contact.Some? then Connected(contact.value) else Failed], lock := None)
    case _ => s
  }

  function DaemonStep(s: State, d: DaemonId): State
    requires d < |s.daemons|
  {
    match s.daemons[d]
    case Starting => s.(daemons := s.daemons[d := if Answering(s).Some? then Exited(false) else Probed])
    case Probed => s.(daemons := s.daemons[d := Cleared], path := None)
    case Cleared =>
      if s.path.Some? then s.(daemons := s.daemons[d := Exited(false)])
      else s.(daemons := s.daemons[d := Bound], path := Some(d))
    case Unlinked => s.(daemons := s.daemons[d := Closing])
    case Closing => s.(daemons := s.daemons[d := Exited(true)], path := None)
    case _ => s
  }

  function Do(s: State, step: Step): State
    requires Enabled(s, step)
  {
    match step
    case Arrive => s.(clients := s.clients + [Pinging])
    case Go(c) => ClientStep(s, c)
    case GiveUp(c) => s.(clients := s.clients[c := Unlocking(None)])
    case Die(c) => s.(clients := s.clients[c := Failed], lock := if s.lock == Some(c) then None else s.lock)
    case StartOutside => s.(daemons := s.daemons + [Starting])
    case Run(d) => DaemonStep(s, d)
    case Close(d) => s.(daemons := s.daemons[d := Unlinked], path := None)
    case Kill(d) => s.(daemons := s.daemons[d := Exited(Served(s, d))])
  }

  /** The lock is let go of only once the spawned daemon has bound or exited, daemons are
      started only under it, and a daemon on its way out does not remove the socket file
      of one that is listening. */
  predicate Polite(s: State, step: Step) {
    match step
    case StartOutside => false
    case GiveUp(c) => c < |s.clients| && Patient(s, c)
    case Die(c) => c < |s.clients| && Patient(s, c)
    case Run(d) => d < |s.daemons| && s.daemons[d].Closing? ==> Answering(s).None?
    case _ => true
  }

  predicate Patient(s: State, c: ClientId)
    requires c < |s.clients|
  {
    s.clients[c].Polling? && s.clients[c].d < |s.daemons| ==> Settled(s.daemons[s.clients[c].d])
  }

  /** Where a polite sequence of steps leads; None if a step is not enabled or not polite. */
  function Exec(s: State, steps: seq<Step>): Option<State>
    decreases |steps|
  {
    if steps == [] then Some(s)
    else if Enabled(s, steps[0]) && Polite(s, steps[0]) then Exec(Do(s, steps[0]), steps[1..])
    else None
  }

  /** Live: listening, with its socket file not yet unlinked by itself. */
  predicate AtMostOneLive(s: State) {
    forall d, e :: 0 <= d < |s.daemons| && 0 <= e < |s.daemons| && s.daemons[d].Bound? && s.daemons[e].Bound? ==> d == e
  }

  // --- The invariant -----------------------------------------------------------------------

  predicate Inv(s: State) {
    && (forall c :: 0 <= c < |s.clients| ==> (Critical(s.clients[c]) <==> s.lock == Some(c)))
    && (s.lock.Some? ==> s.lock.value < |s.clients|)
    && (forall d :: 0 <= d < |s.daemons| ==> DaemonOk(s, d))
    && (forall c :: 0 <= c < |s.clients| ==> ClientOk(s, c))
  }

  /** A daemon still starting belongs to the lock's holder; a bound one owns the path. */
  predicate DaemonOk(s: State, d: DaemonId)
    requires d < |s.daemons|
  {
    && (!Settled(s.daemons[d]) ==> s.lock.Some? && s.lock.value < |s.clients| && s.clients[s.lock.value] == Polling(d))
    && (s.daemons[d].Bound? ==> s.path == Some(d))
    && (s.daemons[d].Cleared? ==> s.path.None?)
  }

  /** While a client polls for its daemon no other daemon is starting or listening; whoever answered a
      client had bound. */
  predicate ClientOk(s: State, c: ClientId)
    requires c < |s.clients|
  {
    match s.clients[c]
    case Polling(d) =>
      d < |s.daemons| && forall e :: 0 <= e < |s.daemons| && e != d ==> Retired(s.daemons[e])
    case Unlocking(who) => who.Some? ==> Served(s, who.value)
    case Connected(to) => Served(s, to)
    case _ => true
  }

  const EMPTY := State([], [], None, None)

  lemma ClientStepKeeps(s: State, c: ClientId)
    requires Inv(s) && Enabled(s, Go(c))
    ensures Inv(ClientStep(s, c))
  {
    assert ClientOk(s, c);
    var s' := ClientStep(s, c);
    if s.clients[c].Holding? && Answering(s).None? {
      forall d | 0 <= d < |s.daemons| ensures Retired(s.daemons[d]) {
        assert DaemonOk(s, d);
      }
    }
    forall d | 0 <= d < |s'.daemons| ensures DaemonOk(s', d) {
      assert d < |s.daemons| ==> DaemonOk(s, d);
    }
    forall k | 0 <= k < |s'.clients| ensures ClientOk(s', k) {
      assert ClientOk(s, k);
    }
  }

  lemma DaemonStepKeeps(s: State, d: DaemonId)
    requires Inv(s) && Enabled(s, Run(d)) && Polite(s, Run(d))
    ensures Inv(DaemonStep(s, d))
  {
    var s' := DaemonStep(s, d);
    assert DaemonOk(s, d);
    if !Settled(s.daemons[d]) {
      assert ClientOk(s, s.lock.value);
    }
    forall e | 0 <= e < |s'.daemons| ensures DaemonOk(s', e) {
      assert DaemonOk(s, e);
    }
    forall k | 0 <= k < |s'.clients| ensures ClientOk(s', k) {
      assert ClientOk(s, k);
    }
  }

  lemma ExitKeeps(s: State, d: DaemonId, step: Step)
    requires Inv(s) && step in {Close(d), Kill(d)} && Enabled(s, step)
    ensures Inv(Do(s, step))
  {
    var s' := Do(s, step);
    assert DaemonOk(s, d);
    forall e | 0 <= e < |s'.daemons| ensures DaemonOk(s', e) {
      assert DaemonOk(s, e);
    }
    forall k | 0 <= k < |s'.clients| ensures ClientOk(s', k) {
      assert ClientOk(s, k);
    }
  }

  /** A client that lets go when its own daemon, if any, has settled. */
  lemma LettingGoKeeps(s: State, step: Step)
    requires Inv(s) && Enabled(s, step) && Polite(s, step) && (step.GiveUp? || step.Die?)
    ensures Inv(Do(s, step))
  {
    var s' := Do(s, step);
    assert ClientOk(s, step.c);
    forall d | 0 <= d < |s'.daemons| ensures DaemonOk(s', d) {
      assert DaemonOk(s, d);
    }
    forall k | 0 <= k < |s'.clients| ensures ClientOk(s', k) {
      assert ClientOk(s, k);
    }
  }

  lemma ArriveKeeps(s: State)
    requires Inv(s)
    ensures Inv(Do(s, Arrive))
  {
    var s' := Do(s, Arrive);
    forall d | 0 <= d < |s'.daemons| ensures DaemonOk(s', d) {
      assert DaemonOk(s, d);
    }
    forall k | 0 <= k < |s'.clients| ensures ClientOk(s', k) {
      assert k < |s.clients| ==> ClientOk(s, k);
    }
  }

  lemma StepKeeps(s: State, step: Step)
    requires Inv(s) && Enabled(s, step) && Polite(s, step)
    ensures Inv(Do(s, step))
  {
    match step
    case Arrive => ArriveKeeps(s);
    case Go(c) => ClientStepKeeps(s, c);
    case GiveUp(_) => LettingGoKeeps(s, step);
    case Die(_) => LettingGoKeeps(s, step);
    case StartOutside =>
    case Run(d) => DaemonStepKeeps(s, d);
    case Close(d) => ExitKeeps(s, d, step);
    case Kill(d) => ExitKeeps(s, d, step);
  }

  lemma {:induction false} PoliteRunsKeep(s: State, steps: seq<Step>)
    requires Inv(s) && Exec(s, steps).Some?
    ensures Inv(Exec(s, steps).value)
    decreases |steps|
  {
    if steps == [] {
    } else {
      StepKeeps(s, steps[0]);
      PoliteRunsKeep(Do(s, steps[0]), steps[1..]);
    }
  }

  // --- Mutual exclusion ------------------------------------------------------------------------

  lemma InvMeansOneLive(s: State)
    requires Inv(s)
    ensures AtMostOneLive(s)
    ensures forall d :: 0 <= d < |s.daemons| && s.daemons[d].Bound? ==> Answering(s) == Some(d)
  {
    forall d | 0 <= d < |s.daemons| && s.daemons[d].Bound? ensures s.path == Some(d) {
      assert DaemonOk(s, d);
    }
  }

  /** Over every polite run of any number of clients: at most one daemon is ever live, it
      is the one a ping reaches, and whoever connected did so to a daemon that had bound. */
  lemma OneDaemon(steps: seq<Step>)
    requires Exec(EMPTY, steps).Some?
    ensures var s := Exec(EMPTY, steps).value;
            && AtMostOneLive(s)
            && (forall d :: 0 <= d < |s.daemons| && s.daemons[d].Bound? ==> Answering(s) == Some(d))
            && (forall c :: 0 <= c < |s.clients| && s.clients[c].Connected? ==> WasBound(steps, s.clients[c].to))
  {
    PoliteRunsKeep(EMPTY, steps);
    var s := Exec(EMPTY, steps).value;
    InvMeansOneLive(s);
    forall c | 0 <= c < |s.clients| && s.clients[c].Connected? ensures WasBound(steps, s.clients[c].to) {
      ContactWasBound(steps, c, s.clients[c].to);
    }
  }

  // --- What a running daemon means for others ------------------------------------------------------

  /** Daemon d is listening, and its socket file is the one at the path. */
  predicate Listening(s: State, d: DaemonId) {
    s.path == Some(d) && d < |s.daemons| && s.daemons[d].Bound?
  }

  lemma Then2(s: State, a: Step, b: Step)
    requires Enabled(s, a) && Polite(s, a) && Enabled(Do(s, a), b) && Polite(Do(s, a), b)
    ensures Exec(s, [a, b]) == Some(Do(Do(s, a), b))
  {
    assert [a, b][1..] == [b] && [b][1..] == [];
    assert Exec(Do(s, a), [b]) == Some(Do(Do(s, a), b));
  }

  /** The fast path: a new client's first call connects it, and nothing else changes. */
  lemma FastPath(s: State, d: DaemonId)
    requires Listening(s, d)
    ensures Exec(s, [Arrive, Go(|s.clients|)]) == Some(s.(clients := s.clients + [Connected(d)]))
  {
    var c, s' := |s.clients|, Do(s, Arrive);
    Then2(s, Arrive, Go(c));
    assert s'.clients[c := Connected(d)] == s.clients + [Connected(d)];
  }

  /** The second ping, and the readiness ping: whoever holds the lock then is connected,
      starts no daemon and lets the lock go. */
  lemma HolderConnects(s: State, c: ClientId, d: DaemonId)
    requires Listening(s, d) && c < |s.clients| && (s.clients[c].Holding? || s.clients[c].Polling?)
    ensures Exec(s, [Go(c), Go(c)]) == Some(s.(clients := s.clients[c := Connected(d)], lock := None))
  {
    var s' := Do(s, Go(c));
    assert s'.clients[c] == Unlocking(Some(d));
    Then2(s, Go(c), Go(c));
    assert s'.clients[c := Connected(d)] == s.clients[c := Connected(d)];
  }

  /** A daemon started by hand yields: its dial is answered and it exits, touching nothing. */
  lemma OutsiderYields(s: State, d: DaemonId)
    requires Listening(s, d)
    ensures Enabled(s, StartOutside) && Enabled(Do(s, StartOutside), Run(|s.daemons|))
    ensures Do(Do(s, StartOutside), Run(|s.daemons|)) == s.(daemons := s.daemons + [Exited(false)])
  {
    var e, s' := |s.daemons|, Do(s, StartOutside);
    assert s'.daemons[e := Exited(false)] == s.daemons + [Exited(false)];
  }

  /** An orderly exit: the path is free as soon as the listener closes, and stays free. A
      daemon that is killed leaves its socket file behind, and nobody answers there. */
  lemma WaysOut(s: State, d: DaemonId)
    requires Listening(s, d)
    ensures Exec(s, [Close(d)]) == Some(s.(daemons := s.daemons[d := Unlinked], path := None))
    ensures Exec(s, [Close(d)] + [Run(d), Run(d)]) == Some(s.(daemons := s.daemons[d := Exited(true)], path := None))
    ensures Exec(s, [Kill(d)]) == Some(s.(daemons := s.daemons[d := Exited(true)]))
    ensures Answering(Do(s, Kill(d))).None?
  {
    var u := Do(s, Close(d));
    Then(s, Close(d), []);
    Then(s, Kill(d), []);
    assert [Close(d)] + [] == [Close(d)] && [Kill(d)] + [] == [Kill(d)];
    Then2(u, Run(d), Run(d));
    Then(s, Close(d), [Run(d), Run(d)]);
    assert u.daemons[d := Closing][d := Exited(true)] == s.daemons[d := Exited(true)];
  }

  /** Failed, or about to fail. */
  predicate Lost(pc: Client) { pc.Failed? || (pc.Unlocking? && pc.contact.None?) }

  lemma {:induction false} LostOnlyBy(s: State, steps: seq<Step>, c: ClientId)
    requires Exec(s, steps).Some? && (c < |s.clients| ==> !Lost(s.clients[c]))
    requires c < |Exec(s, steps).value.clients| && Lost(Exec(s, steps).value.clients[c])
    ensures GiveUp(c) in steps || Die(c) in steps
    decreases |steps|
  {
    if steps == [] {
    } else if steps[0] != GiveUp(c) && steps[0] != Die(c) {
      var s' := Do(s, steps[0]);
      assert c < |s'.clients| ==> !Lost(s'.clients[c]);
      LostOnlyBy(s', steps[1..], c);
    }
  }

  /** Over every polite run, a client fails only by giving up or being killed. */
  lemma FailsOnlyByGivingUp(steps: seq<Step>, c: ClientId)
    requires Exec(EMPTY, steps).Some? && c < |Exec(EMPTY, steps).value.clients|
    requires Lost(Exec(EMPTY, steps).value.clients[c])
    ensures GiveUp(c) in steps || Die(c) in steps
  {
    LostOnlyBy(EMPTY, steps, c);
  }

  /** In some state of this run, daemon d is bound. */
  ghost predicate WasBound(steps: seq<Step>, d: DaemonId) {
    exists k :: 0 <= k <= |steps| && BoundAfter(steps[..k], d)
  }

  predicate BoundAfter(steps: seq<Step>, d: DaemonId) {
    var r := Exec(EMPTY, steps);
    r.Some? && d < |r.value.daemons| && r.value.daemons[d].Bound?
  }

  predicate Contacted(pc: Client, d: DaemonId) { pc == Connected(d) || pc == Unlocking(Some(d)) }

  /** Whoever is connected, or about to be, is so to a daemon that was bound at some time. */
  lemma {:induction false} ContactWasBound(steps: seq<Step>, c: ClientId, d: DaemonId)
    requires Exec(EMPTY, steps).Some? && c < |Exec(EMPTY, steps).value.clients|
    requires Contacted(Exec(EMPTY, steps).value.clients[c], d)
    ensures WasBound(steps, d)
    decreases |steps|
  {
    if steps == [] {
    } else {
      var n := |steps| - 1;
      assert steps == steps[..n] + [steps[n]];
      ExecPrefix(EMPTY, steps[..n], [steps[n]]);
      ExecSplit(EMPTY, steps[..n], [steps[n]]);
      var s := Exec(EMPTY, steps[..n]).value;
      assert Exec(s, [steps[n]]) == Some(Do(s, steps[n]));
      if c < |s.clients| && Contacted(s.clients[c], d) {
        ContactWasBound(steps[..n], c, d);
        var k :| 0 <= k <= n && BoundAfter(steps[..n][..k], d);
        assert steps[..n][..k] == steps[..k];
      } else {
        assert BoundAfter(steps[..n], d);
      }
    }
  }

  lemma {:induction false} ExecPrefix(s: State, a: seq<Step>, b: seq<Step>)
    requires Exec(s, a + b).Some?
    ensures Exec(s, a).Some?
    decreases |a|
  {
    if a == [] {
    } else {
      assert (a + b)[1..] == a[1..] + b;
      ExecPrefix(Do(s, a[0]), a[1..], b);
    }
  }

  // --- The readiness deadline --------------------------------------------------------------------

  lemma {:induction false} ExecSplit(s: State, a: seq<Step>, b: seq<Step>)
    requires Exec(s, a).Some?
    ensures Exec(s, a + b) == Exec(Exec(s, a).value, b)
    decreases |a|
  {
    if a == [] {
      assert a + b == b;
    } else {
      assert (a + b)[1..] == a[1..] + b;
      ExecSplit(Do(s, a[0]), a[1..], b);
    }
  }

  lemma Then(s: State, step: Step, more: seq<Step>)
    requires Enabled(s, step) && Polite(s, step)
    ensures Exec(s, [step] + more) == Exec(Do(s, step), more)
  {
    assert ([step] + more)[1..] == more;
  }

  function Togo(d: Daemon): nat {
    match d
    case Starting => 3
    case Probed => 2
    case Cleared => 1
    case _ => 0
  }

  /** Daemon d is still starting and nobody is bound: it can run on until it is. */
  lemma BindsAlone(s: State, d: DaemonId) returns (steps: seq<Step>)
    requires d < |s.daemons| && !Settled(s.daemons[d]) && Answering(s).None?
    requires s.daemons[d].Cleared? ==> s.path.None?
    ensures Exec(s, steps) == Some(s.(daemons := s.daemons[d := Bound], path := Some(d)))
    decreases Togo(s.daemons[d])
  {
    var s' := Do(s, Run(d));
    var more := [];
    if !s.daemons[d].Cleared? {
      more := BindsAlone(s', d);
    }
    steps := [Run(d)] + more;
    Then(s, Run(d), more);
    assert s'.daemons[d := Bound] == s.daemons[d := Bound];
  }

  /** A new client when the lock is free and nobody answers: it spawns. */
  lemma Spawns(s: State) returns (steps: seq<Step>)
    requires s.lock.None? && Answering(s).None?
    ensures Exec(s, steps)
         == Some(State(s.clients + [Polling(|s.daemons|)], s.daemons + [Starting], s.path, Some(|s.clients|)))
  {
    var c := |s.clients|;
    var s1 := Do(s, Arrive);
    var s2 := Do(s1, Go(c));
    var s3 := Do(s2, Go(c));
    assert s2.clients == s.clients + [WantLock] && s3.clients == s.clients + [Holding];
    assert Do(s3, Go(c)).clients == s.clients + [Polling(|s.daemons|)];
    Then(s3, Go(c), []);
    Then(s2, Go(c), [Go(c)] + []);
    Then(s1, Go(c), [Go(c)] + ([Go(c)] + []));
    steps := [Go(c)] + ([Go(c)] + ([Go(c)] + []));
    Then(s, Arrive, steps);
    steps := [Arrive] + steps;
  }

  /** ... and if it waits, it is served. */
  lemma Serves(s: State) returns (steps: seq<Step>)
    requires s.lock.None? && Answering(s).None?
    ensures Exec(s, steps)
         == Some(State(s.clients + [Connected(|s.daemons|)], s.daemons + [Bound], Some(|s.daemons|), None))
  {
    var c, e := |s.clients|, |s.daemons|;
    var spawn := Spawns(s);
    var t := Exec(s, spawn).value;
    var bind := BindsAlone(t, e);
    ExecSplit(s, spawn, bind);
    var u := Exec(t, bind).value;
    var v := Do(u, Go(c));
    assert u.daemons == s.daemons + [Bound] && v.clients[c] == Unlocking(Some(e));
    assert Do(v, Go(c)).clients == s.clients + [Connected(e)];
    Then(v, Go(c), []);
    Then(u, Go(c), [Go(c)] + []);
    steps := spawn + bind + ([Go(c)] + ([Go(c)] + []));
    ExecSplit(s, spawn + bind, [Go(c)] + ([Go(c)] + []));
  }

  /** A daemon's dial fails, and it comes to bind in the end, whoever else is live by then. */
  lemma DialsThenBinds(s: State, e: DaemonId, between: seq<Step>) returns (steps: seq<Step>)
    requires e < |s.daemons| && s.daemons[e].Starting? && Answering(s).None?
    requires var r := Exec(Do(s, Run(e)), between); r.Some? && e < |r.value.daemons| && r.value.daemons[e].Probed?
    ensures var u := Exec(Do(s, Run(e)), between).value;
            Exec(s, steps) == Some(u.(daemons := u.daemons[e := Bound], path := Some(e)))
  {
    var u := Exec(Do(s, Run(e)), between).value;
    var v := Do(u, Run(e));
    Then(v, Run(e), []);
    Then(u, Run(e), [Run(e)] + []);
    ExecSplit(Do(s, Run(e)), between, [Run(e)] + ([Run(e)] + []));
    steps := between + ([Run(e)] + ([Run(e)] + []));
    Then(s, Run(e), steps);
    steps := [Run(e)] + steps;
    assert v.daemons[e := Bound] == u.daemons[e := Bound];
  }

  /** Once the lock is free while d is still starting, two daemons can come to be live. */
  lemma EarlyReleaseBreaks(s: State, d: DaemonId) returns (steps: seq<Step>)
    requires s.lock.None? && d < |s.daemons| && !Settled(s.daemons[d]) && Answering(s).None?
    requires s.daemons[d].Cleared? ==> s.path.None?
    ensures Exec(s, steps).Some? && !AtMostOneLive(Exec(s, steps).value)
  {
    var e := |s.daemons|;
    var spawn := Spawns(s);
    var t := Exec(s, spawn).value;
    var first := BindsAlone(Do(t, Run(e)), d);
    var rest := DialsThenBinds(t, e, first);
    ExecSplit(s, spawn, rest);
    steps := spawn + rest;
    var w := Exec(s, steps).value;
    assert w.daemons[d].Bound? && w.daemons[e].Bound?;
  }

  /** The program gives up after a fixed two seconds without asking what became of its
      daemon. In any state politely reached, that is safe for the rest of the run iff the
      daemon has bound or exited by then. */
  lemma GivingUpIsSafeIff(steps: seq<Step>, c: ClientId)
    requires Exec(EMPTY, steps).Some?
    requires var s := Exec(EMPTY, steps).value; c < |s.clients| && s.clients[c].Polling?
    ensures var s := Exec(EMPTY, steps).value;
            && s.clients[c].d < |s.daemons|
            && ((forall more | Exec(Do(s, GiveUp(c)), more).Some? :: AtMostOneLive(Exec(Do(s, GiveUp(c)), more).value))
                <==> Settled(s.daemons[s.clients[c].d]))
  {
    var s := Exec(EMPTY, steps).value;
    PoliteRunsKeep(EMPTY, steps);
    assert ClientOk(s, c);
    var d, s' := s.clients[c].d, Do(s, GiveUp(c));
    if Settled(s.daemons[d]) {
      StepKeeps(s, GiveUp(c));
      forall more | Exec(s', more).Some? ensures AtMostOneLive(Exec(s', more).value) {
        PoliteRunsKeep(s', more);
        InvMeansOneLive(Exec(s', more).value);
      }
    } else {
      assert DaemonOk(s, d);
      var free := Do(s', Go(c));
      var more := EarlyReleaseBreaks(free, d);
      Then(s', Go(c), more);
      assert !AtMostOneLive(Exec(s', [Go(c)] + more).value);
    }
  }

  /** The failing case from the start: two clients, the first gives up before its daemon
      has so much as dialled, and both daemons end up live. */
  lemma TwoDaemons() returns (s: State, steps: seq<Step>)
    ensures Exec(EMPTY, [Arrive, Go(0), Go(0), Go(0)]) == Some(s)
    ensures Enabled(s, GiveUp(0)) && !Polite(s, GiveUp(0))
    ensures Exec(Do(s, GiveUp(0)), steps).Some? && !AtMostOneLive(Exec(Do(s, GiveUp(0)), steps).value)
  {
    s := State([Polling(0)], [Starting], None, Some(0));
    var s1 := Do(EMPTY, Arrive);
    var s2 := Do(s1, Go(0));
    var s3 := Do(s2, Go(0));
    assert s1.clients == [Pinging] && s2.clients == [WantLock] && s3.clients == [Holding];
    assert Do(s3, Go(0)).clients == [Polling(0)] && Do(s3, Go(0)).daemons == [Starting];
    Then(s3, Go(0), []);
    Then(s2, Go(0), [Go(0)]);
    Then(s1, Go(0), [Go(0), Go(0)]);
    Then(EMPTY, Arrive, [Go(0), Go(0), Go(0)]);
    var all := [Arrive] + [Go(0), Go(0), Go(0)];
    assert all == [Arrive, Go(0), Go(0), Go(0)];
    assert [Go(0)] + [Go(0), Go(0)] == [Go(0), Go(0), Go(0)] && [Go(0)] + [Go(0)] == [Go(0), Go(0)] && [Go(0)] + [] == [Go(0)];
    GivingUpIsSafeIff(all, 0);
    steps :| Exec(Do(s, GiveUp(0)), steps).Some? && !AtMostOneLive(Exec(Do(s, GiveUp(0)), steps).value);
  }

  // --- The second removal on the way out ---------------------------------------------------------

  /** A live daemon that a ping no longer reaches: the next client starts another. */
  lemma OrphanIsJoined(s: State, b: DaemonId) returns (steps: seq<Step>)
    requires s.lock.None? && Answering(s).None? && b < |s.daemons| && s.daemons[b].Bound?
    ensures Exec(s, steps).Some? && !AtMostOneLive(Exec(s, steps).value)
  {
    steps := Serves(s);
    var t := Exec(s, steps).value;
    assert t.daemons[b].Bound? && t.daemons[|s.daemons|].Bound?;
  }

  /** Close removes the path once more after the listener has gone and removed it. In any
      state politely reached, that is safe for the rest of the run iff nobody answers at
      the path by then. */
  lemma LateRemovalIsSafeIff(steps: seq<Step>, d: DaemonId)
    requires Exec(EMPTY, steps).Some?
    requires var s := Exec(EMPTY, steps).value; d < |s.daemons| && s.daemons[d].Closing?
    ensures var s := Exec(EMPTY, steps).value;
            (forall more | Exec(Do(s, Run(d)), more).Some? :: AtMostOneLive(Exec(Do(s, Run(d)), more).value))
            <==> Answering(s).None?
  {
    var s := Exec(EMPTY, steps).value;
    PoliteRunsKeep(EMPTY, steps);
    var s' := Do(s, Run(d));
    if Answering(s).None? {
      StepKeeps(s, Run(d));
      forall more | Exec(s', more).Some? ensures AtMostOneLive(Exec(s', more).value) {
        PoliteRunsKeep(s', more);
        InvMeansOneLive(Exec(s', more).value);
      }
    } else {
      var more := LateRemovalBreaks(s, d);
      assert !AtMostOneLive(Exec(s', more).value);
    }
  }

  lemma LateRemovalBreaks(s: State, d: DaemonId) returns (more: seq<Step>)
    requires Inv(s) && d < |s.daemons| && s.daemons[d].Closing? && Answering(s).Some?
    ensures Exec(Do(s, Run(d)), more).Some? && !AtMostOneLive(Exec(Do(s, Run(d)), more).value)
  {
    var b, s' := Answering(s).value, Do(s, Run(d));
    if s.lock.None? {
      more := OrphanIsJoined(s', b);
    } else {
      var c := s.lock.value;
      assert ClientOk(s, c) && DaemonOk(s, b);
      var free := Do(s', Die(c));
      more := OrphanIsJoined(free, b);
      Then(s', Die(c), more);
      more := [Die(c)] + more;
    }
  }

  /** The failing case from the start: a daemon closes, a client starts its successor, and
      the first daemon then removes the successor's socket file. */
  lemma SuccessorOrphaned() returns (steps: seq<Step>, more: seq<Step>)
    ensures Exec(EMPTY, steps) == Some(State([Connected(0), Connected(1)], [Closing, Bound], Some(1), None))
    ensures var s := Exec(EMPTY, steps).value;
            && Enabled(s, Run(0)) && !Polite(s, Run(0)) && Answering(Do(s, Run(0))).None?
            && Exec(Do(s, Run(0)), more).Some? && !AtMostOneLive(Exec(Do(s, Run(0)), more).value)
  {
    var first := Serves(EMPTY);
    var t := Exec(EMPTY, first).value;
    assert t == State([Connected(0)], [Bound], Some(0), None);
    var u := Do(t, Close(0));
    var v := Do(u, Run(0));
    assert u.daemons == [Unlinked] && v.daemons == [Closing];
    var second := Serves(v);
    Then(u, Run(0), second);
    second := [Run(0)] + second;
    Then(t, Close(0), second);
    ExecSplit(EMPTY, first, [Close(0)] + second);
    steps := first + ([Close(0)] + second);
    var s := Exec(EMPTY, steps).value;
    assert s.clients == [Connected(0), Connected(1)] && s.daemons == [Closing, Bound];
    more := OrphanIsJoined(Do(s, Run(0)), 1);
  }
}
