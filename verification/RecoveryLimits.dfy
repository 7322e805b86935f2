/** Where the guarantees of the recovery machine end: each scheduling assumption is needed
    from every state in which it says anything, and `close` is final exactly when no
    thread can overwrite its status. */
module RecoveryLimits {
  import opened Options
  import opened RecoveryMachine
  import opened RecoverySafety

  // ---------------------------------------------------------------- a connect can finish

  /** How far a connecting thread is from setting ACTIVE. */
  function Distance(s: State, t: nat): nat
    requires ConnectingAt(s, t) && (s.ws.Some? ==> s.ws.value < |s.socks|)
  {
    match s.threads[t]
    case RecClose => 8
    case RecNull => 7
    case ConnTest(_) => 6
    case Loop(_) => 5
    case Begin(_) => 4
    case Open(_) => 3
    case Wait(_) =>
      if s.ws.None? || s.socks[s.ws.value].Connected? then 0
      else if s.socks[s.ws.value].Opening? then 1 else 6
    case _ => 0
  }

  ghost predicate Unhindered(s: State, t: nat) {
    && ConnectingAt(s, t) && !s.threads[t].Tail? && !s.status.Active?
    && (s.threads[t].ConnTest? || s.threads[t].Loop? || s.threads[t].Begin? || s.threads[t].Open? ==> s.ws.None?)
    && (s.ws.Some? ==> s.ws.value < |s.socks|)
  }

  function NextTowardsActive(s: State, t: nat): Action
    requires ConnectingAt(s, t) && (s.ws.Some? ==> s.ws.value < |s.socks|)
  {
    var pc := s.threads[t];
    if pc.RecClose? || pc.RecNull? then Recover(t)
    else if pc.Wait? && s.ws.Some? && s.socks[s.ws.value].Opening? then SockUp(s.ws.value)
    else if pc.Wait? && s.ws.Some? && s.socks[s.ws.value].Dead? then Timeout(t)
    else Connect(t)
  }

  lemma OneStepCloser(s: State, t: nat)
    requires Unhindered(s, t)
    ensures var s' := Next(s, NextTowardsActive(s, t));
            s'.status.Active? || (Unhindered(s', t) && Distance(s', t) < Distance(s, t))
  {
    var pc := s.threads[t];
    if pc.RecClose? || pc.RecNull? {
      CloserByRecover(s, t);
    } else if pc.Wait? {
      CloserByWait(s, t);
    } else {
      CloserByConnect(s, t);
    }
  }

  lemma CloserByRecover(s: State, t: nat)
    requires Unhindered(s, t) && (s.threads[t].RecClose? || s.threads[t].RecNull?)
    ensures var s' := Next(s, Recover(t)); Unhindered(s', t) && Distance(s', t) < Distance(s, t)
  {
  }

  lemma CloserByConnect(s: State, t: nat)
    requires Unhindered(s, t) && InConnect(s.threads[t]) && !s.threads[t].Wait?
    ensures var s' := Next(s, Connect(t)); Unhindered(s', t) && Distance(s', t) < Distance(s, t)
  {
    assert Next(s, Connect(t)) == ConnectStep(s, t);
  }

  lemma CloserByWait(s: State, t: nat)
    requires Unhindered(s, t) && s.threads[t].Wait?
    ensures var s' := Next(s, NextTowardsActive(s, t));
            s'.status.Active? || (Unhindered(s', t) && Distance(s', t) < Distance(s, t))
  {
  }

  /** A thread that is connecting can always go on until it sets ACTIVE, whatever the
      status was in between. */
  lemma {:induction false} ConnectCanFinish(s: State, t: nat) returns (actions: seq<Action>)
    requires Unhindered(s, t)
    ensures Run(s, actions).status.Active?
    decreases Distance(s, t)
  {
    var a := NextTowardsActive(s, t);
    OneStepCloser(s, t);
    var rest := [];
    if !Next(s, a).status.Active? {
      rest := ConnectCanFinish(Next(s, a), t);
    }
    hide Next;
    actions := [a] + rest;
    assert actions[1..] == rest;
  }

  /** A recovery is never stuck: from every state of a disciplined run in RECOVERY some
      continuation makes the manager ACTIVE. */
  lemma RecoveryCanComplete(users: nat, isPrivate: bool, run: seq<Action>) returns (more: seq<Action>)
    requires DisciplinedRun(Start(users, isPrivate), run)
    requires Run(Start(users, isPrivate), run).status.Recovery?
    ensures Run(Start(users, isPrivate), run + more).status.Active?
  {
    var s := Run(Start(users, isPrivate), run);
    StartInv(users, isPrivate);
    RunKeepsInv(Start(users, isPrivate), run);
    var t: nat :| ConnectingAt(s, t);
    assert Fits(s, s.threads[t]);
    more := ConnectCanFinish(s, t);
    RunConcat(Start(users, isPrivate), run, more);
  }

  // ---------------------------------------------------------------- when close is final

  ghost predicate SomeoneChecks(s: State) {
    exists t: nat :: t < |s.threads| && s.threads[t].Checking?
  }

  /** No thread is left that can set another status: none is connecting, and none is at a
      monitor's test with a socket still there. */
  ghost predicate Final(s: State) {
    !SomeoneConnects(s) && (s.ws.None? || !SomeoneChecks(s))
  }

  lemma StepKeepsStop(s: State, a: Action)
    requires s.status.Stop? && Final(s)
    ensures Next(s, a).status.Stop? && Final(Next(s, a))
  {
    NoCheckingWithSocket(s);
    assert forall t: nat :: !ConnectingAt(s, t);
    if IsThreadAction(a) && a.t < |s.threads| {
      assert !ConnectingAt(s, a.t);
      ThreadKeepsStop(s, a);
      hide Next, Connecting;
      FinalKept(s, Next(s, a), a.t);
    } else {
      EnvironmentKeepsStop(s, a);
    }
    hide Next, Final;
  }

  lemma EnvironmentKeepsStop(s: State, a: Action)
    requires s.status.Stop? && Final(s) && (!IsThreadAction(a) || a.t >= |s.threads|)
    ensures Next(s, a).status.Stop? && Final(Next(s, a))
  {
    hide Cache;
    var s' := Next(s, a);
    NoCheckingWithSocket(s);
    forall t: nat ensures !ConnectingAt(s', t) && (s'.ws.Some? && t < |s'.threads| ==> !s'.threads[t].Checking?) {
      assert !ConnectingAt(s, t);
    }
  }

  lemma FinalKept(s: State, s': State, t: nat)
    requires Final(s) && t < |s.threads| && HarmlessMove(s, s', t)
    ensures s'.status.Stop? && Final(s')
  {
    NoCheckingWithSocket(s);
    forall u: nat ensures !ConnectingAt(s', u) && (s'.ws.Some? && u < |s'.threads| ==> !s'.threads[u].Checking?) {
      assert !ConnectingAt(s, u);
    }
  }

  lemma NoCheckingWithSocket(s: State)
    requires Final(s)
    ensures s.ws.Some? ==> forall t: nat :: t < |s.threads| ==> !s.threads[t].Checking?
  {
  }

  /** Only the acting thread moves, and not to a place that could matter. */
  lemma ThreadKeepsStop(s: State, a: Action)
    requires IsThreadAction(a) && Harmless(s, a.t)
    ensures HarmlessMove(s, Next(s, a), a.t)
  {
    match a
    case Acquire(t) => HarmlessAcquire(s, t);
    case Write(t, accepted) => HarmlessWrite(s, t, accepted);
    case Check(t) => HarmlessCheck(s, t);
    case Resend(t) => HarmlessResend(s, t);
    case Close(_) => HarmlessClose(s, a);
    case Shut(_, _) => HarmlessClose(s, a);
    case Forget(_) => HarmlessClose(s, a);
    case _ => HarmlessRest(s, a);
  }

  predicate Harmless(s: State, t: nat) {
    && s.status.Stop? && t < |s.threads|
    && !Connecting(s.threads[t]) && (s.ws.Some? ==> !s.threads[t].Checking?)
  }

  predicate HarmlessMove(s: State, s': State, t: nat)
    requires t < |s.threads|
  {
    && (s'.ws == s.ws || s'.ws.None?) && |s'.threads| == |s.threads|
    && s'.threads == s.threads[t := s'.threads[t]] && Harmless(s', t)
  }

  lemma HarmlessAcquire(s: State, t: nat)
    requires Harmless(s, t)
    ensures HarmlessMove(s, AcquireStep(s, t), t)
  {
  }

  lemma HarmlessWrite(s: State, t: nat, accepted: bool)
    requires Harmless(s, t)
    ensures HarmlessMove(s, WriteStep(s, t, accepted), t)
  {
  }

  lemma HarmlessCheck(s: State, t: nat)
    requires Harmless(s, t)
    ensures HarmlessMove(s, CheckStep(s, t), t)
  {
  }

  lemma HarmlessResend(s: State, t: nat)
    requires Harmless(s, t)
    ensures HarmlessMove(s, ResendStep(s, t), t)
  {
  }

  lemma HarmlessClose(s: State, a: Action)
    requires IsCloseAction(a) && Harmless(s, a.t)
    ensures HarmlessMove(s, CloseStep(s, a), a.t)
  {
    if a.Shut? {
      HarmlessShut(s, a.t, a.clean);
    }
    hide ShutStep;
  }

  lemma HarmlessShut(s: State, t: nat, clean: bool)
    requires Harmless(s, t)
    ensures HarmlessMove(s, ShutStep(s, t, clean), t)
  {
  }

  lemma HarmlessRest(s: State, a: Action)
    requires IsThreadAction(a) && Harmless(s, a.t)
    requires !(a.Acquire? || a.Write? || a.Check? || a.Resend? || IsCloseAction(a))
    ensures HarmlessMove(s, Next(s, a), a.t)
  {
    hide AcquireStep, WriteStep, CheckStep, ResendStep, CloseStep, BeginStep, Cache, Return, Abort;
  }

  lemma {:induction false} RunKeepsStop(s: State, actions: seq<Action>)
    requires s.status.Stop? && Final(s)
    ensures Run(s, actions).status.Stop?
    decreases actions
  {
    if actions != [] {
      StepKeepsStop(s, actions[0]);
      RunKeepsStop(Next(s, actions[0]), actions[1..]);
    }
  }

  /** A monitor past its `while` reads the status only for RECOVERY and INIT, so while a
      socket is set, open or closed, it can start a recovery. */
  lemma CheckOverwritesStop(s: State, t: nat) returns (actions: seq<Action>)
    requires s.status.Stop? && t < |s.threads| && s.threads[t].Checking? && s.ws.Some?
    ensures !Run(s, actions).status.Stop?
  {
    actions := [SockDown(s.ws.value), Check(t)];
    RunTwo(s, SockDown(s.ws.value), Check(t));
  }

  /** From its first line on, a `close` by thread t leaves the manager stopped on every
      continuation, clean or not, exactly when at the call no thread was connecting or
      recovering and no monitor was past its `while` with a socket still set. */
  lemma CloseIsFinalExact(s: State, t: nat)
    requires Inv(s) && t < |s.threads| && s.threads[t].Outside?
    ensures var s' := Next(s, Close(t));
            (forall actions :: Run(s', actions).status.Stop?) <==>
            !SomeoneConnects(s) && (s.ws.None? || !SomeoneChecks(s))
  {
    var s' := Next(s, Close(t));
    assert s'.threads == s.threads[t := Shutting];
    assert forall u: nat :: ConnectingAt(s', u) <==> ConnectingAt(s, u);
    CheckersKept(s, s', t);
    if SomeoneConnects(s) {
      var u: nat :| ConnectingAt(s, u);
      var actions := CloseOverwritten(s, t, u);
      assert !Run(s', actions).status.Stop?;
    } else {
      hide Next, Inv;
      StoppedIsFinalExact(s');
    }
  }

  lemma CheckersKept(s: State, s': State, t: nat)
    requires t < |s.threads| && s.threads[t].Outside? && s'.threads == s.threads[t := Shutting]
    ensures SomeoneChecks(s') <==> SomeoneChecks(s)
  {
    if SomeoneChecks(s) {
      var u: nat :| u < |s.threads| && s.threads[u].Checking?;
      assert s'.threads[u].Checking?;
    }
  }

  /** In any stopped state with no thread connecting, between the lines of a `close` as much
      as after its return, STOP is final exactly when no monitor at its test can meet a
      socket: a `close` that got to its last line is, one that raised may not be. */
  lemma StoppedIsFinalExact(s: State)
    requires s.status.Stop? && !SomeoneConnects(s)
    ensures (forall actions :: Run(s, actions).status.Stop?) <==> s.ws.None? || !SomeoneChecks(s)
  {
    if s.ws.Some? && SomeoneChecks(s) {
      var m: nat :| m < |s.threads| && s.threads[m].Checking?;
      var actions := CheckOverwritesStop(s, m);
      assert !Run(s, actions).status.Stop?;
    } else {
      forall actions ensures Run(s, actions).status.Stop? {
        RunKeepsStop(s, actions);
      }
    }
  }

  /** With an attempt in flight some continuation of a `close` overwrites STOP. */
  lemma CloseOverwritten(s: State, c: nat, t: nat) returns (actions: seq<Action>)
    requires Inv(s) && c < |s.threads| && s.threads[c].Outside? && ConnectingAt(s, t)
    ensures !Run(Next(s, Close(c)), actions).status.Stop?
  {
    var s' := Next(s, Close(c));
    assert s' == Goto(s, c, Shutting).(status := Stop);
    assert Fits(s, s.threads[t]);
    if s.threads[t].Tail? {
      var s3 := ClosedUnderTail(s', c, t);
      var more := ConnectCanFinish(s3, t);
      RunThree(s', Shut(c, true), Forget(c), Connect(t));
      RunConcat(s', [Shut(c, true), Forget(c), Connect(t)], more);
      actions := [Shut(c, true), Forget(c), Connect(t)] + more;
    } else {
      actions := ConnectCanFinish(s', t);
    }
  }

  lemma ClosedUnderTail(s: State, c: nat, t: nat) returns (s3: State)
    requires c < |s.threads| && t < |s.threads| && s.threads[c].Shutting? && s.threads[t].Tail?
    requires s.ws.Some? && s.ws.value < |s.socks| && s.status.Stop?
    ensures s3 == Next(Next(Next(s, Shut(c, true)), Forget(c)), Connect(t)) && Unhindered(s3, t)
  {
    var s1 := Next(s, Shut(c, true));
    assert s1 == Goto(Kill(s, s.ws), c, Forgetting);
    var s2 := Next(s1, Forget(c));
    assert s2 == Goto(s1, c, Outside).(ws := None);
    s3 := Next(s2, Connect(t));
    assert s3 == Goto(s2, t, Loop(s.threads[t].via));
  }

  // ---------------------------------------------------------------- the undivided tail

  lemma MonitorReady(s: State, t: nat) returns (actions: seq<Action>)
    requires Inv(s) && t < |s.threads| && s.threads[t].Tail?
    ensures var s', m := Run(s, actions), s.monitorThread;
            && m < |s.threads| && t != m && s' == Goto(s, m, Checking)
            && s.status.Active? && s.ws.Some? && s.ws.value < |s.socks|
  {
    var m := s.monitorThread;
    assert ConnectingAt(s, t) && Fits(s, s.threads[t]);
    if s.threads[m].Polling? {
      actions := [Poll(m)];
      RunOne(s, Poll(m));
    } else {
      actions := [];
      assert s.threads[m := Checking] == s.threads;
    }
  }

  /** The monitor takes the socket away between ACTIVE being set and `connect` being left. */
  lemma MonitorSupersedes(s: State, t: nat) returns (actions: seq<Action>)
    requires Inv(s) && t < |s.threads| && s.threads[t].Tail?
    ensures var s', m := Run(s, actions), s.monitorThread;
            && m < |s.threads| && t != m
            && s'.threads == s.threads[m := ConnTest(Monitor)] && s'.status.Recovery? && s'.ws.None?
  {
    var m := s.monitorThread;
    var first := MonitorReady(s, t);
    hide Next, Run, Inv;
    var s1 := Goto(s, m, Checking);
    ClosedSteps(s1, m);
    RunFour(s1, SockDown(s.ws.value), Check(m), Recover(m), Recover(m));
    actions := first + [SockDown(s.ws.value), Check(m), Recover(m), Recover(m)];
    RunConcat(s, first, [SockDown(s.ws.value), Check(m), Recover(m), Recover(m)]);
    assert s.threads[m := Checking][m := ConnTest(Monitor)] == s.threads[m := ConnTest(Monitor)];
  }

  /** Both threads reach the assertion of `_connect` with no socket set. */
  lemma BothBegin(s: State, t: nat, m: nat)
    requires t < |s.threads| && m < |s.threads| && t != m
    requires s.threads[t].Tail? && s.threads[m] == ConnTest(Monitor)
    requires s.status.Recovery? && s.ws.None?
    ensures var s' := Next(Next(Next(Next(s, Connect(t)), Connect(t)), Connect(m)), Connect(m));
            && |s'.threads| == |s.threads| && s'.threads[t].Begin? && s'.threads[m].Begin? && s'.ws.None?
  {
    var s1 := Next(s, Connect(t));
    assert s1 == Goto(s, t, Loop(s.threads[t].via));
    var s2 := Next(s1, Connect(t));
    assert s2 == Goto(s1, t, Begin(s.threads[t].via));
    var s3 := Next(s2, Connect(m));
    assert s3 == Goto(s2, m, Loop(Monitor));
    assert Next(s3, Connect(m)) == Goto(s3, m, Begin(Monitor));
  }

  lemma SecondAssertionFails(s: State, t: nat, m: nat)
    requires t < |s.threads| && m < |s.threads| && t != m
    requires s.threads[t].Begin? && s.threads[m].Begin? && s.ws.None?
    ensures Next(Next(Next(s, Connect(t)), Connect(t)), Connect(m)).asserted
  {
    var s1 := Next(s, Connect(t));
    assert s1 == BeginStep(s, t, s.threads[t].via);
    var s2 := Next(s1, Connect(t));
    assert s2.ws.Some? && s2.threads[m].Begin?;
    assert Next(s2, Connect(m)) == BeginStep(s2, m, s2.threads[m].via);
  }

  /** Without the first scheduling assumption the guarantee fails from every state in which
      a thread has set ACTIVE and not yet left `connect`. */
  lemma TailMustBeUndivided(s: State, t: nat)
    requires Inv(s) && t < |s.threads| && s.threads[t].Tail?
    ensures exists actions :: Run(s, actions).asserted
  {
    var first := MonitorSupersedes(s, t);
    hide Next, Run, Inv;
    var rest := TwoConnect(Run(s, first), t, s.monitorThread);
    RunConcat(s, first, rest);
    assert Run(s, first + rest).asserted;
  }

  lemma TwoConnect(s: State, t: nat, m: nat) returns (actions: seq<Action>)
    requires t < |s.threads| && m < |s.threads| && t != m
    requires s.threads[t].Tail? && s.threads[m] == ConnTest(Monitor)
    requires s.status.Recovery? && s.ws.None?
    ensures Run(s, actions).asserted
  {
    hide Next, Run;
    var first, second := [Connect(t), Connect(t), Connect(m), Connect(m)], [Connect(t), Connect(t), Connect(m)];
    BothBegin(s, t, m);
    RunFour(s, Connect(t), Connect(t), Connect(m), Connect(m));
    var s' := Run(s, first);
    SecondAssertionFails(s', t, m);
    RunThree(s', Connect(t), Connect(t), Connect(m));
    RunConcat(s, first, second);
    actions := first + second;
  }

  // ---------------------------------------------------------------- the undivided close

  /** What a monitor does from its test to waiting for a new socket. */
  function SupersedeActions(k: nat, m: nat): seq<Action> {
    [SockDown(k), Check(m), Recover(m), Recover(m)] + [Connect(m), Connect(m), Connect(m), Connect(m)]
  }

  /** A new socket is set and the monitor waits for it; nothing else has changed. */
  ghost predicate Superseded(s: State, s': State, m: nat) {
    && m < |s.threads| && s'.threads == s.threads[m := Wait(Monitor)] + [Polling]
    && s'.ws == Some(|s.socks|) && |s'.socks| == |s.socks| + 1 && s'.socks[|s.socks|].Opening?
    && s'.status.Recovery? && s'.sem == s.sem && s'.log == s.log && s'.isPrivate == s.isPrivate
  }

  lemma ReopenSteps(s: State, m: nat)
    requires m < |s.threads| && s.threads[m] == ConnTest(Monitor) && s.status.Recovery? && s.ws.None?
    ensures Superseded(s, Next(Next(Next(Next(s, Connect(m)), Connect(m)), Connect(m)), Connect(m)), m)
  {
    var s1 := Next(s, Connect(m));
    assert s1 == Goto(s, m, Loop(Monitor));
    var s2 := Next(s1, Connect(m));
    assert s2 == Goto(s1, m, Begin(Monitor));
    var s3 := Next(s2, Connect(m));
    assert s3 == BeginStep(s2, m, Monitor);
    assert s3.threads == s.threads[m := Open(Monitor)] + [Polling];
    assert Next(s3, Connect(m)) == Goto(s3, m, Wait(Monitor)).(ws := Some(|s.socks|), socks := s.socks + [Opening]);
  }

  /** A monitor at its test, with a socket set, can put a new one in its place, in every
      status that is not INIT or RECOVERY. */
  lemma SupersedeRun(s: State, m: nat)
    requires m < |s.threads| && s.threads[m].Checking? && s.ws.Some? && s.ws.value < |s.socks|
    requires s.status.Active? || s.status.Stop?
    ensures Superseded(s, Run(s, SupersedeActions(s.ws.value, m)), m)
  {
    hide Next, Run;
    var k := s.ws.value;
    ClosedSteps(s, m);
    RunFour(s, SockDown(k), Check(m), Recover(m), Recover(m));
    var s4 := Run(s, [SockDown(k), Check(m), Recover(m), Recover(m)]);
    ReopenSteps(s4, m);
    RunFour(s4, Connect(m), Connect(m), Connect(m), Connect(m));
    RunConcat(s, [SockDown(k), Check(m), Recover(m), Recover(m)], [Connect(m), Connect(m), Connect(m), Connect(m)]);
    assert s4.threads[m := Wait(Monitor)] == s.threads[m := Wait(Monitor)];
  }

  lemma ClosedSteps(s: State, m: nat)
    requires m < |s.threads| && s.threads[m].Checking? && s.ws.Some? && s.ws.value < |s.socks|
    requires s.status.Active? || s.status.Stop?
    ensures var s' := Next(Next(Next(Next(s, SockDown(s.ws.value)), Check(m)), Recover(m)), Recover(m));
            && s'.threads == s.threads[m := ConnTest(Monitor)] && s'.status.Recovery? && s'.ws.None?
            && |s'.socks| == |s.socks| && s'.sem == s.sem && s'.log == s.log && s'.isPrivate == s.isPrivate
  {
    var s1 := Next(s, SockDown(s.ws.value));
    assert s1 == s.(socks := s.socks[s.ws.value := Dead]);
    var s2 := Next(s1, Check(m));
    assert s2 == Goto(s1, m, RecClose).(status := Recovery, flag := false);
    var s3 := Next(s2, Recover(m));
    assert s3 == Goto(Kill(s2, s2.ws), m, RecNull);
    assert Next(s3, Recover(m)) == Goto(s3, m, ConnTest(Monitor)).(ws := None);
  }

  /** Without the third scheduling assumption the guarantee that an ACTIVE manager has a
      socket fails from every state with a `close` before its last line and a monitor at its
      test: the new socket is forgotten while the monitor waits for it. */
  lemma CloseMustBeUndivided(s: State, c: nat, m: nat)
    requires Inv(s) && c < |s.threads| && s.threads[c].Forgetting?
    requires m < |s.threads| && s.threads[m].Checking? && s.ws.Some?
    ensures exists actions :: Run(s, actions).status.Active? && Run(s, actions).ws.None?
  {
    assert SomeoneCloses(s);
    var first := SupersedeActions(s.ws.value, m);
    SupersedeRun(s, m);
    var s1 := Run(s, first);
    ForgottenWhileWaiting(s1, c, m);
    RunTwo(s1, Forget(c), Connect(m));
    hide Next, Run, Inv;
    RunConcat(s, first, [Forget(c), Connect(m)]);
    assert Run(s, first + [Forget(c), Connect(m)]).status.Active?;
  }

  lemma ForgottenWhileWaiting(s: State, c: nat, m: nat)
    requires c < |s.threads| && m < |s.threads| && s.threads[c].Forgetting? && s.threads[m] == Wait(Monitor)
    ensures var s' := Next(Next(s, Forget(c)), Connect(m)); s'.status.Active? && s'.ws.None?
  {
    var s1 := Next(s, Forget(c));
    assert s1 == Goto(s, c, Outside).(ws := None);
    assert Next(s1, Connect(m)) == Goto(s1, m, Tail(Monitor)).(status := Active);
  }
}
