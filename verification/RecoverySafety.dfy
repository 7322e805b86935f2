/** What every run of the websocket manager keeps, under three assumptions on scheduling:
    setting ACTIVE and leaving `connect` are not separated, `close` is not called while a
    thread is connecting, and no monitor's test falls between the lines of a `close`. */
module RecoverySafety {
  import opened Options
  import opened RecoveryMachine

  // ---------------------------------------------------------------- the invariant

  /** A thread that is in `connect` or `_connect`, or in `_recovery` on its way there. */
  predicate Connecting(pc: Pc) {
    InConnect(pc) || pc.RecClose? || pc.RecNull?
  }

  ghost predicate ConnectingAt(s: State, t: nat) {
    t < |s.threads| && Connecting(s.threads[t])
  }

  /** A thread between the lines of `close`. */
  predicate Closing(pc: Pc) {
    pc.Shutting? || pc.Forgetting?
  }

  ghost predicate SomeoneCloses(s: State) {
    exists t: nat :: t < |s.threads| && Closing(s.threads[t])
  }

  predicate HoldsSem(pc: Pc) {
    pc.Writing? || (InConnect(pc) && pc.via.Sender?)
  }

  predicate Watching(pc: Pc) {
    pc.Polling? || pc.Checking?
  }

  predicate MonitorAlive(s: State) {
    s.monitorThread < |s.threads| && Watching(s.threads[s.monitorThread])
  }

  /** What a connecting thread's position says about the rest. */
  predicate Fits(s: State, pc: Pc)
    requires Connecting(pc)
  {
    && (pc.ConnTest? || pc.Loop? || pc.Begin? || pc.Open? ==> s.ws.None?)
    && (pc.Wait? || pc.Tail? ==> s.ws.Some?)
    && (pc.Open? || pc.Wait? || pc.Tail? ==> MonitorAlive(s))
    && s.status == (if pc.Tail? then Active
                    else if InConnect(pc) && pc.via.Sender? then Init
                    else Recovery)
  }

  ghost predicate SemInv(s: State) {
    && (s.sem.Some? ==> s.sem.value < |s.threads|)
    && forall t: nat :: t < |s.threads| ==> (HoldsSem(s.threads[t]) <==> s.sem == Some(t))
  }

  ghost predicate ConnInv(s: State) {
    && (forall t: nat, u: nat :: ConnectingAt(s, t) && ConnectingAt(s, u) ==> t == u)
    && (forall t: nat :: ConnectingAt(s, t) ==> Fits(s, s.threads[t]))
  }

  ghost predicate SomeoneConnects(s: State) {
    exists t: nat :: ConnectingAt(s, t)
  }

  ghost predicate StatusInv(s: State) {
    && (s.status.Active? ==> s.ws.Some? && MonitorAlive(s))
    && (s.status.Active? && s.ws.value < |s.socks| ==> !s.socks[s.ws.value].Opening?)
    && (s.status.Recovery? ==> SomeoneConnects(s))
    && (s.status.Init? && !SomeoneConnects(s) ==> s.ws.None?)
    && (s.ws.Some? ==> s.ws.value < |s.socks|)
    && (SomeoneCloses(s) ==> s.status.Stop? && !SomeoneConnects(s))
    && !s.asserted && !s.crashed
  }

  ghost predicate Inv(s: State) {
    SemInv(s) && ConnInv(s) && StatusInv(s)
  }

  /** The scheduling assumptions, as a condition on the next action. */
  ghost predicate Disciplined(s: State, a: Action) {
    && (forall t: nat :: t < |s.threads| && s.threads[t].Tail? ==> a == Connect(t))
    && (a.Close? ==> !SomeoneConnects(s))
    && (a.Check? ==> !SomeoneCloses(s))
  }

  ghost predicate DisciplinedRun(s: State, actions: seq<Action>)
    decreases actions
  {
    actions == [] || (Disciplined(s, actions[0]) && DisciplinedRun(Next(s, actions[0]), actions[1..]))
  }

  /** The steps inside `connect`, `_monitor` and `_recovery`. */
  predicate MonitorAction(a: Action) {
    a.Connect? || a.Timeout? || a.Poll? || a.Check? || a.Recover?
  }

  // ---------------------------------------------------------------- preservation

  /** Nothing the invariant speaks of changes, except the flag, sockets, ids and the log. */
  lemma KeptByQuiet(s: State, s': State)
    requires Inv(s)
    requires s'.threads == s.threads && s'.status == s.status && s'.ws == s.ws && s'.sem == s.sem
    requires s'.monitorThread == s.monitorThread && s'.asserted == s.asserted && s'.crashed == s.crashed
    requires |s'.socks| == |s.socks|
    requires forall k :: 0 <= k < |s.socks| && s'.socks[k].Opening? ==> s.socks[k].Opening?
    ensures Inv(s')
  {
    assert forall t: nat :: ConnectingAt(s', t) <==> ConnectingAt(s, t);
    assert SomeoneConnects(s') <==> SomeoneConnects(s);
    assert SomeoneCloses(s') <==> SomeoneCloses(s);
  }

  /** A line of `close`, with nobody connecting. */
  lemma KeptByClose(s: State, a: Action)
    requires Inv(s) && Disciplined(s, a) && IsCloseAction(a) && a.t < |s.threads|
    ensures Inv(CloseStep(s, a))
  {
    var s', pc := CloseStep(s, a), s.threads[a.t];
    CloseKeepsSem(s, a);
    if s' != s {
      assert Closing(pc) ==> SomeoneCloses(s);
      assert forall t: nat :: !ConnectingAt(s, t);
      hide SemInv, SomeoneCloses;
      forall t: nat ensures !ConnectingAt(s', t) {
        assert !ConnectingAt(s, t);
      }
    }
  }

  lemma CloseKeepsSem(s: State, a: Action)
    requires SemInv(s) && IsCloseAction(a) && a.t < |s.threads|
    ensures SemInv(CloseStep(s, a))
  {
    if a.Shut? {
      ShutKeepsSem(s, a.t, a.clean);
    }
    hide ShutStep;
  }

  lemma ShutKeepsSem(s: State, t: nat, clean: bool)
    requires SemInv(s) && t < |s.threads|
    ensures SemInv(ShutStep(s, t, clean))
  {
  }

  /** A callback's thread comes into the manager with a stamped message. */
  lemma KeptBySpawn(s: State, s': State, job: Job)
    requires Inv(s)
    requires s'.threads == s.threads + [Stamped(job)]
    requires s'.status == s.status && s'.ws == s.ws && s'.sem == s.sem && s'.socks == s.socks
    requires s'.monitorThread == s.monitorThread && s'.asserted == s.asserted && s'.crashed == s.crashed
    ensures Inv(s')
  {
    assert forall t: nat :: ConnectingAt(s', t) <==> ConnectingAt(s, t);
    assert SomeoneConnects(s') <==> SomeoneConnects(s);
    assert forall t: nat :: t < |s'.threads| && Closing(s'.threads[t]) ==> t < |s.threads| && Closing(s.threads[t]);
    assert SomeoneCloses(s') ==> SomeoneCloses(s);
  }

  lemma KeptByEnvironment(s: State, a: Action)
    requires Inv(s) && !IsThreadAction(a)
    ensures Inv(Next(s, a))
  {
    var s' := Next(s, a);
    if s'.threads == s.threads {
      KeptByQuiet(s, s');
    } else {
      KeptBySpawn(s, s', s'.threads[|s.threads|].job);
    }
  }

  /** The semaphore follows thread t in and out of `send`. */
  predicate SemFollows(s: State, s': State, t: nat, pc: Pc)
    requires t < |s.threads|
  {
    if HoldsSem(s.threads[t]) == HoldsSem(pc) then s'.sem == s.sem
    else if HoldsSem(pc) then s.sem == None && s'.sem == Some(t)
    else s'.sem == None
  }

  /** A thread that was not connecting moves between positions outside `connect`. */
  lemma KeptByPlainMove(s: State, s': State, t: nat, pc: Pc)
    requires Inv(s) && t < |s.threads|
    requires !Connecting(s.threads[t]) && !Connecting(pc) && !Closing(s.threads[t]) && !Closing(pc)
    requires s'.threads == s.threads[t := pc]
    requires s'.status == s.status && s'.ws == s.ws && s'.socks == s.socks
    requires SemFollows(s, s', t, pc)
    requires s'.monitorThread == s.monitorThread && s'.asserted == s.asserted && s'.crashed == s.crashed
    requires Watching(s.threads[t]) && s.status != Stop ==> Watching(pc)
    ensures Inv(s')
  {
    assert forall u: nat :: ConnectingAt(s', u) <==> ConnectingAt(s, u);
    assert SomeoneConnects(s') <==> SomeoneConnects(s);
    NobodyStartsToClose(s, s', t);
  }

  lemma NobodyStartsToClose(s: State, s': State, t: nat)
    requires t < |s.threads| <= |s'.threads| && !Closing(s'.threads[t])
    requires forall u :: 0 <= u < |s.threads| && u != t ==> s'.threads[u] == s.threads[u]
    requires forall u :: |s.threads| <= u < |s'.threads| ==> !Closing(s'.threads[u])
    ensures SomeoneCloses(s') ==> SomeoneCloses(s)
  {
  }

  lemma KeptByAcquire(s: State, t: nat)
    requires Inv(s) && t < |s.threads| && Disciplined(s, Acquire(t))
    ensures Inv(AcquireStep(s, t))
  {
    var s' := AcquireStep(s, t);
    if s.threads[t].Stamped? && s.sem.None? {
      if s.status.Init? {
        NoneConnectsAtAcquire(s, t);
        BecomesConnecting(s, s', t);
      } else {
        KeptByPlainMove(s, s', t, s'.threads[t]);
      }
    }
  }

  /** The first thread to enter `connect` or `_recovery`. */
  lemma BecomesConnecting(s: State, s': State, t: nat)
    requires Inv(s) && t < |s.threads| && !SomeoneConnects(s) && !SomeoneCloses(s)
    requires |s'.threads| == |s.threads| && s'.threads == s.threads[t := s'.threads[t]]
    requires Connecting(s'.threads[t]) && Fits(s', s'.threads[t])
    requires s'.ws == s.ws && s'.socks == s.socks && !s'.asserted && !s'.crashed
    requires SemInv(s') && !s'.status.Active?
    ensures Inv(s')
  {
    forall u: nat | ConnectingAt(s', u) ensures u == t {
      assert u != t ==> ConnectingAt(s, u);
    }
    assert ConnectingAt(s', t);
    NobodyStartsToClose(s, s', t);
  }

  lemma NoneConnectsAtAcquire(s: State, t: nat)
    requires Inv(s) && t < |s.threads| && s.threads[t].Stamped? && s.sem.None? && s.status.Init?
    ensures !SomeoneConnects(s)
  {
  }

  lemma KeptByWrite(s: State, t: nat, accepted: bool)
    requires Inv(s) && t < |s.threads|
    ensures Inv(WriteStep(s, t, accepted))
  {
    var s' := WriteStep(s, t, accepted);
    if s.threads[t].Writing? {
      KeptByPlainMove(s, s', t, s'.threads[t]);
    }
  }

  /** A connecting thread goes on connecting. */
  lemma StaysConnecting(s: State, s': State, t: nat)
    requires Inv(s) && ConnectingAt(s, t)
    requires |s'.threads| == |s.threads| && s'.threads == s.threads[t := s'.threads[t]]
    requires Connecting(s'.threads[t]) && Fits(s', s'.threads[t])
    requires HoldsSem(s'.threads[t]) == HoldsSem(s.threads[t]) && s'.sem == s.sem
    requires s'.ws.Some? ==> s'.ws.value < |s'.socks| && (s'.status.Active? ==> !s'.socks[s'.ws.value].Opening?)
    requires !s'.asserted && !s'.crashed
    ensures Inv(s')
  {
    forall u: nat | ConnectingAt(s', u) ensures u == t {
      assert u != t ==> ConnectingAt(s, u);
    }
    assert ConnectingAt(s', t);
    NobodyStartsToClose(s, s', t);
  }

  /** The only connecting thread starts a new monitor. */
  lemma KeptByBegin(s: State, t: nat)
    requires Inv(s) && ConnectingAt(s, t) && s.threads[t].Begin?
    ensures Inv(BeginStep(s, t, s.threads[t].via))
  {
    var s' := BeginStep(s, t, s.threads[t].via);
    assert Fits(s, s.threads[t]);
    forall u: nat | ConnectingAt(s', u) ensures u == t {
      assert u != t ==> ConnectingAt(s, u);
    }
    assert ConnectingAt(s', t);
    NobodyStartsToClose(s, s', t);
  }

  /** The connecting thread leaves `connect`, which it does only with the status ACTIVE. */
  lemma LeavesConnecting(s: State, s': State, t: nat)
    requires Inv(s) && ConnectingAt(s, t) && s.threads[t].Tail?
    requires s' == Goto(s, t, Return(s.threads[t].via))
    ensures Inv(s')
  {
    assert Fits(s, s.threads[t]);
    forall u: nat ensures !ConnectingAt(s', u) {
      assert ConnectingAt(s', u) ==> ConnectingAt(s, u) && u != t;
    }
    NobodyStartsToClose(s, s', t);
  }

  lemma KeptByConnect(s: State, t: nat)
    requires Inv(s) && t < |s.threads|
    ensures Inv(ConnectStep(s, t))
  {
    var s', pc := ConnectStep(s, t), s.threads[t];
    if InConnect(pc) {
      assert ConnectingAt(s, t) && Fits(s, pc);
      if pc.Begin? {
        KeptByBegin(s, t);
      } else if pc.Tail? {
        LeavesConnecting(s, s', t);
      } else {
        StaysConnecting(s, s', t);
      }
    }
  }

  lemma KeptByTimeout(s: State, t: nat)
    requires Inv(s) && t < |s.threads|
    ensures Inv(Next(s, Timeout(t)))
  {
    if s.threads[t].Wait? {
      assert ConnectingAt(s, t) && Fits(s, s.threads[t]);
      StaysConnecting(s, Next(s, Timeout(t)), t);
    }
  }

  lemma NoneConnectsAtCheck(s: State, a: Action)
    requires Inv(s) && Disciplined(s, a) && !a.Connect?
    requires s.status.Active? || s.status.Stop?
    ensures !SomeoneConnects(s)
  {
    assert forall t: nat :: ConnectingAt(s, t) ==> s.threads[t].Tail?;
  }

  lemma KeptByCheck(s: State, t: nat)
    requires Inv(s) && t < |s.threads| && Disciplined(s, Check(t))
    ensures Inv(CheckStep(s, t))
  {
    var s' := CheckStep(s, t);
    if s.threads[t].Checking? {
      if s'.threads[t].RecClose? {
        NoneConnectsAtCheck(s, Check(t));
        BecomesConnecting(s, s', t);
      } else {
        KeptByPlainMove(s, s', t, s'.threads[t]);
      }
    }
  }

  lemma KeptByRecover(s: State, t: nat)
    requires Inv(s) && t < |s.threads|
    ensures Inv(RecoverStep(s, t))
  {
    if s.threads[t].RecClose? || s.threads[t].RecNull? {
      assert ConnectingAt(s, t) && Fits(s, s.threads[t]);
      StaysConnecting(s, RecoverStep(s, t), t);
    }
  }

  lemma KeptByUser(s: State, a: Action)
    requires Inv(s) && (a.Subscribe? || a.SendLogin? || a.SendOther?) && a.t < |s.threads|
    ensures Inv(Next(s, a))
  {
    var s', t := Next(s, a), a.t;
    if s.threads[t].Outside? && s' != s {
      hide Inv, Cache;
      KeptByPlainMove(s, s', t, s'.threads[t]);
    } else {
      hide Inv;
      assert s' == s;
    }
  }

  lemma KeptByPoll(s: State, t: nat)
    requires Inv(s) && t < |s.threads|
    ensures Inv(Next(s, Poll(t)))
  {
    var s' := Next(s, Poll(t));
    if s.threads[t].Polling? {
      hide Inv;
      KeptByPlainMove(s, s', t, s'.threads[t]);
    }
  }

  lemma KeptByResend(s: State, t: nat)
    requires Inv(s) && t < |s.threads|
    ensures Inv(ResendStep(s, t))
  {
    var s' := ResendStep(s, t);
    if s.threads[t].Replay? {
      hide Inv, ReplayList;
      KeptByPlainMove(s, s', t, s'.threads[t]);
    }
  }

  /** Every disciplined step keeps the invariant. */
  lemma StepKeepsInv(s: State, a: Action)
    requires Inv(s) && Disciplined(s, a)
    ensures Inv(Next(s, a))
  {
    hide Inv, Disciplined, AcquireStep, WriteStep, ConnectStep, CheckStep, RecoverStep, ResendStep, CloseStep;
    if !IsThreadAction(a) {
      KeptByEnvironment(s, a);
    } else if a.t < |s.threads| {
      match a
      case Acquire(t) => KeptByAcquire(s, t);
      case Write(t, accepted) => KeptByWrite(s, t, accepted);
      case Connect(t) => KeptByConnect(s, t);
      case Timeout(t) => KeptByTimeout(s, t);
      case Check(t) => KeptByCheck(s, t);
      case Recover(t) => KeptByRecover(s, t);
      case Close(_) => KeptByClose(s, a);
      case Shut(_, _) => KeptByClose(s, a);
      case Forget(_) => KeptByClose(s, a);
      case Poll(t) => KeptByPoll(s, t);
      case Resend(t) => KeptByResend(s, t);
      case _ => KeptByUser(s, a);
    }
  }

  lemma StartInv(users: nat, isPrivate: bool)
    ensures Inv(Start(users, isPrivate))
  {
    assert forall t: nat :: !ConnectingAt(Start(users, isPrivate), t);
  }

  lemma {:induction false} RunKeepsInv(s: State, actions: seq<Action>)
    requires Inv(s) && DisciplinedRun(s, actions)
    ensures Inv(Run(s, actions))
    decreases actions
  {
    if actions != [] {
      StepKeepsInv(s, actions[0]);
      RunKeepsInv(Next(s, actions[0]), actions[1..]);
    }
  }

  // ---------------------------------------------------------------- what it means

  /** At most one thread is connecting or recovering, the assertion in `_connect` never
      fails, and no monitor meets a missing socket while the manager is ACTIVE. */
  lemma OneAttemptAtATime(users: nat, isPrivate: bool, actions: seq<Action>)
    requires DisciplinedRun(Start(users, isPrivate), actions)
    ensures var s := Run(Start(users, isPrivate), actions);
            && (forall t: nat, u: nat :: ConnectingAt(s, t) && ConnectingAt(s, u) ==> t == u)
            && !s.asserted && !s.crashed
  {
    StartInv(users, isPrivate);
    RunKeepsInv(Start(users, isPrivate), actions);
  }

  /** Whenever the manager is ACTIVE it has a socket and a live monitor; whenever it is in
      RECOVERY some thread is recovering; a stopped manager has no thread connecting. */
  lemma SomeoneIsInCharge(users: nat, isPrivate: bool, actions: seq<Action>)
    requires DisciplinedRun(Start(users, isPrivate), actions)
    ensures var s := Run(Start(users, isPrivate), actions);
            && (s.status.Active? ==> s.ws.Some? && MonitorAlive(s))
            && (s.status.Recovery? ==> SomeoneConnects(s))
            && (s.status.Stop? ==> !SomeoneConnects(s))
  {
    StartInv(users, isPrivate);
    RunKeepsInv(Start(users, isPrivate), actions);
    var s := Run(Start(users, isPrivate), actions);
    if t: nat :| ConnectingAt(s, t) {
      assert Fits(s, s.threads[t]);
    }
  }

  /** When an ACTIVE manager's socket is dead or its flag is raised, its newest monitor can
      take it into RECOVERY at once. */
  lemma FailureEnablesRecovery(s: State)
    requires Inv(s) && s.status.Active? && Failed(s)
    ensures var m := s.monitorThread; Run(s, [Poll(m), Check(m)]).status.Recovery?
  {
    RunTwo(s, Poll(s.monitorThread), Check(s.monitorThread));
  }

  /** Until then no step makes the failure go unnoticed. */
  lemma FailurePersists(s: State, a: Action)
    requires Inv(s) && Disciplined(s, a) && s.status.Active? && Failed(s)
    ensures StillNoticed(Next(s, a), a)
  {
    if IsThreadAction(a) && a.t < |s.threads| {
      assert Connecting(s.threads[a.t]) ==> ConnectingAt(s, a.t);
      assert Closing(s.threads[a.t]) ==> SomeoneCloses(s);
      FailureKeptByThread(s, a);
      assert Next(s, a) == ThreadStep(s, a);
    } else {
      FailureKeptByEnvironment(s, a);
    }
    hide Next, ThreadStep, StillNoticed;
  }

  lemma FailureKeptByEnvironment(s: State, a: Action)
    requires !IsThreadAction(a) || a.t >= |s.threads|
    requires s.status.Active? && Failed(s) && StatusInv(s)
    ensures StillNoticed(Next(s, a), a)
  {
    hide ThreadStep, Cache;
  }

  lemma FailureKeptByThread(s: State, a: Action)
    requires IsThreadAction(a) && a.t < |s.threads| && s.status.Active? && Failed(s)
    requires Connecting(s.threads[a.t]) ==> s.threads[a.t].Tail?
    requires Closing(s.threads[a.t]) ==> s.status.Stop?
    ensures StillNoticed(ThreadStep(s, a), a)
  {
    hide *;
    if a.Connect? {
      FailureKeptByConnect(s, a.t);
    } else if MonitorAction(a) {
      FailureKeptByMonitor(s, a);
    } else {
      FailureKeptByUser(s, a);
    }
  }

  lemma FailureKeptByConnect(s: State, t: nat)
    requires t < |s.threads| && s.status.Active? && Failed(s)
    requires Connecting(s.threads[t]) ==> s.threads[t].Tail?
    ensures StillNoticed(ThreadStep(s, Connect(t)), Connect(t))
  {
    assert ThreadStep(s, Connect(t)) == ConnectStep(s, t);
    hide ThreadStep, BeginStep, Return, Abort;
  }

  lemma FailureKeptByMonitor(s: State, a: Action)
    requires MonitorAction(a) && !a.Connect? && a.t < |s.threads|
    requires s.status.Active? && Failed(s) && (Connecting(s.threads[a.t]) ==> s.threads[a.t].Tail?)
    ensures StillNoticed(ThreadStep(s, a), a)
  {
    hide ConnectStep;
  }

  lemma FailureKeptByUser(s: State, a: Action)
    requires IsThreadAction(a) && a.t < |s.threads| && !MonitorAction(a) && s.status.Active? && Failed(s)
    requires Closing(s.threads[a.t]) ==> s.status.Stop?
    ensures StillNoticed(ThreadStep(s, a), a)
  {
    hide ConnectStep, CheckStep, RecoverStep, Cache, ReplayList, Resume, Abort;
  }

  predicate StillNoticed(s: State, a: Action) {
    (s.status.Active? && Failed(s)) || s.status.Recovery? || (s.status.Stop? && a.Close?)
  }

  /** The flag is raised only by the current socket, and then unless a recovery is running;
      a superseded socket's close or error changes nothing at all. */
  lemma OnlyTheCurrentSocketRaisesTheFlag(s: State, a: Action)
    ensures !s.flag && Next(s, a).flag <==>
            a.Failure? && s.ws == Some(a.k) && !s.status.Recovery? && !s.flag
    ensures a.Failure? && s.ws != Some(a.k) ==> Next(s, a) == s
  {
    if IsThreadAction(a) && a.t < |s.threads| {
      ThreadRaisesNoFlag(s, a);
    }
    hide ThreadStep;
  }

  lemma ThreadRaisesNoFlag(s: State, a: Action)
    requires IsThreadAction(a) && a.t < |s.threads|
    ensures ThreadStep(s, a).flag ==> s.flag
  {
    if MonitorAction(a) {
      assert ThreadStep(s, a).flag ==> s.flag by {
        hide AcquireStep, WriteStep, ResendStep, CloseStep, Cache, Stamp;
      }
    } else {
      assert ThreadStep(s, a).flag ==> s.flag by {
        hide ConnectStep, CheckStep, RecoverStep;
      }
    }
    hide ThreadStep;
  }

  // ---------------------------------------------------------------- one socket while ACTIVE

  lemma ActiveKeepsSocket(s: State, a: Action)
    requires Inv(s) && Disciplined(s, a) && s.status.Active? && Next(s, a).status.Active?
    ensures Next(s, a).ws == s.ws
  {
    if IsThreadAction(a) && a.t < |s.threads| {
      var pc := s.threads[a.t];
      assert Connecting(pc) ==> ConnectingAt(s, a.t) && pc.Tail?;
      assert Closing(pc) ==> SomeoneCloses(s);
      ThreadKeepsSocket(s, a);
    }
    hide ThreadStep, Inv, Disciplined;
  }

  lemma ThreadKeepsSocket(s: State, a: Action)
    requires IsThreadAction(a) && a.t < |s.threads|
    requires !Closing(s.threads[a.t]) && (Connecting(s.threads[a.t]) ==> s.threads[a.t].Tail?)
    ensures ThreadStep(s, a).ws == s.ws
  {
    if MonitorAction(a) {
      assert ThreadStep(s, a).ws == s.ws by {
        hide AcquireStep, WriteStep, ResendStep, CloseStep, Cache, Stamp;
      }
    } else {
      assert ThreadStep(s, a).ws == s.ws by {
        hide ConnectStep, CheckStep, RecoverStep;
      }
    }
    hide ThreadStep;
  }

  /** A step sends on the socket that is set, if it sends at all. */
  lemma SendsOnTheCurrentSocket(s: State, a: Action)
    ensures var s' := Next(s, a);
            && s.log <= s'.log
            && forall i :: |s.log| <= i < |s'.log| && s'.log[i].Sent? ==> s.ws == Some(s'.log[i].sock)
  {
    if IsThreadAction(a) && a.t < |s.threads| && !a.Write? {
      OnlyWritesLog(s, a);
    }
    hide ThreadStep;
    if a.Write? && a.t < |s.threads| {
      assert Next(s, a) == WriteStep(s, a.t, a.accepted) by { WriteIs(s, a); }
    }
  }

  lemma WriteIs(s: State, a: Action)
    requires a.Write? && a.t < |s.threads|
    ensures Next(s, a) == WriteStep(s, a.t, a.accepted)
  {
  }

  lemma OnlyWritesLog(s: State, a: Action)
    requires IsThreadAction(a) && a.t < |s.threads| && !a.Write?
    ensures ThreadStep(s, a).log == s.log
  {
    hide *;
    if a.Connect? {
      ConnectKeepsLog(s, a.t);
    } else if MonitorAction(a) {
      MonitorKeepsLog(s, a);
    } else {
      UserKeepsLog(s, a);
    }
  }

  lemma ConnectKeepsLog(s: State, t: nat)
    requires t < |s.threads|
    ensures ThreadStep(s, Connect(t)).log == s.log
  {
    assert ThreadStep(s, Connect(t)) == ConnectStep(s, t);
    hide ThreadStep, Return, Abort;
  }

  lemma MonitorKeepsLog(s: State, a: Action)
    requires MonitorAction(a) && !a.Connect? && a.t < |s.threads|
    ensures ThreadStep(s, a).log == s.log
  {
    hide ConnectStep;
  }

  lemma UserKeepsLog(s: State, a: Action)
    requires IsThreadAction(a) && a.t < |s.threads| && !a.Write? && !MonitorAction(a)
    ensures ThreadStep(s, a).log == s.log
  {
    hide ConnectStep, CheckStep, RecoverStep, WriteStep, Cache, ReplayList;
  }

  ghost predicate ActiveThroughout(s: State, actions: seq<Action>)
    decreases actions
  {
    s.status.Active? && (actions == [] || ActiveThroughout(Next(s, actions[0]), actions[1..]))
  }

  /** As long as no recovery and no `close` begins, everything is sent on one socket: so a
      replay is spread over two only when another recovery overtakes it. */
  lemma {:induction false} OneSocketUntilTheNextRecovery(s: State, actions: seq<Action>)
    requires Inv(s) && DisciplinedRun(s, actions) && ActiveThroughout(s, actions)
    ensures var s' := Run(s, actions);
            && s'.ws == s.ws && s.log <= s'.log
            && forall i :: |s.log| <= i < |s'.log| && s'.log[i].Sent? ==> s.ws == Some(s'.log[i].sock)
    decreases actions
  {
    if actions != [] {
      var a := actions[0];
      StepKeepsInv(s, a);
      assert Next(s, a).status.Active?;
      ActiveKeepsSocket(s, a);
      SendsOnTheCurrentSocket(s, a);
      hide Next, Inv, Disciplined;
      OneSocketUntilTheNextRecovery(Next(s, a), actions[1..]);
    }
  }
}
