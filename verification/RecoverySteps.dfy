/** What the operations of the manager do for their callers, said of states and the log
    alone: a message reaches the wire, a login leads to its subscription, a recovery replaces
    its socket for a reason, and a `close` leaves nothing open. */
module RecoverySteps {
  import opened Options
  import opened RecoveryMachine
  import opened RecoverySafety

  /** The semaphore is free and socket k is set and connected. */
  predicate OpenWay(s: State, k: nat) {
    s.sem.None? && s.ws == Some(k) && k < |s.socks| && s.socks[k] == Connected && s.status != Init
  }

  // ---------------------------------------------------------------- a user's message

  /** What a user thread asks for. */
  predicate Asks(a: Action, t: nat, msg: Msg) {
    match a
    case Subscribe(u, channel) => u == t && msg == Sub(channel)
    case SendLogin(u) => u == t && msg == Login
    case SendOther(u, text) => u == t && msg == Other(text)
    case _ => false
  }

  /** With the way open a user's message is exactly one frame on the socket that is set, with
      the next id, and the thread and the semaphore are free again. */
  lemma MessageReachesTheWire(s: State, t: nat, a: Action, msg: Msg, k: nat)
    requires OpenWay(s, k) && t < |s.threads| && s.threads[t] == Outside && Asks(a, t, msg)
    requires a.Subscribe? ==> !s.isPrivate
    ensures var s' := Run(s, [a, Acquire(t), Write(t, true)]);
            && s'.log == s.log + [Sent(k, t, msg, s.curId)] && s'.curId == s.curId + 1
            && s'.threads == s.threads && s'.sem == None && s'.ws == s.ws && s'.status == s.status
  {
    var job, s1 := Job(msg, s.curId, User), Next(s, a);
    Stamps(s, t, a, msg);
    hide Next, Run, Asks, Stamp;
    RunThree(s, a, Acquire(t), Write(t, true));
    StampedIsSent(s1, t, k);
    assert s.threads[t := Stamped(job)][t := Outside] == s.threads;
  }

  lemma StampedIsSent(s: State, t: nat, k: nat)
    requires t < |s.threads| && s.threads[t].Stamped? && s.threads[t].job.asker.User? && OpenWay(s, k)
    ensures var job := s.threads[t].job;
            Next(Next(s, Acquire(t)), Write(t, true)) ==
            Goto(s, t, Outside).(log := s.log + [Sent(k, t, job.msg, job.id)])
  {
    Admits(s, t);
    SendsOn(Next(s, Acquire(t)), t, k);
    hide Next;
  }

  lemma Stamps(s: State, t: nat, a: Action, msg: Msg)
    requires t < |s.threads| && s.threads[t] == Outside && Asks(a, t, msg) && (a.Subscribe? ==> !s.isPrivate)
    ensures var s' := Next(s, a);
            && s'.threads == s.threads[t := Stamped(Job(msg, s.curId, User))] && s'.curId == s.curId + 1
            && s'.log == s.log && s'.sem == s.sem && s'.ws == s.ws && s'.socks == s.socks && s'.status == s.status
            && s'.isPrivate == s.isPrivate
  {
    hide Cache;
  }

  lemma Admits(s: State, t: nat)
    requires t < |s.threads| && s.threads[t].Stamped? && s.sem.None? && s.status != Init
    ensures Next(s, Acquire(t)) == Goto(s, t, Writing(s.threads[t].job)).(sem := Some(t))
  {
  }

  lemma SendsOn(s: State, t: nat, k: nat)
    requires t < |s.threads| && s.threads[t].Writing?
    requires s.ws == Some(k) && k < |s.socks| && s.socks[k] == Connected
    ensures var s', job := Next(s, Write(t, true)), s.threads[t].job;
            && s'.log == s.log + [Sent(k, t, job.msg, job.id)]
            && (job.asker.User? ==> s' == Goto(s, t, Outside).(sem := None, log := s'.log))
  {
  }

  /** A write that meets no connected socket, or is refused, sends nothing and leaves the
      semaphore free. */
  lemma FailedWriteLeavesTheWayFree(s: State, t: nat, accepted: bool)
    requires t < |s.threads| && s.threads[t].Writing?
    requires !accepted || s.ws.None? || s.ws.value >= |s.socks| || s.socks[s.ws.value] != Connected
    ensures var s' := Next(s, Write(t, accepted));
            && s'.log == s.log && s'.sem == None && s'.ws == s.ws && s'.status == s.status
            && (s.threads[t].job.asker.User? ==> s'.threads == s.threads[t := Outside])
  {
  }

  /** A subscription is cached once, behind what was cached before, whether or not it can be
      sent. */
  lemma SubscriptionIsCached(s: State, t: nat, channel: string)
    requires t < |s.threads| && s.threads[t] == Outside && !s.isPrivate
    ensures var s' := Next(s, Subscribe(t, channel));
            if Sub(channel) in s.subs then s'.subs == s.subs else s'.subs == s.subs + [Sub(channel)]
  {
  }

  /** The first message of all opens a socket and goes out on it, and a monitor watches it. */
  lemma FirstMessageConnects(s: State, t: nat)
    requires s.status == Init && s.ws == None && s.sem == None
    requires t < |s.threads| && s.threads[t].Stamped? && s.threads[t].job.asker.User?
    ensures var n, job := |s.socks|, s.threads[t].job;
            var s' := Run(s, [Acquire(t)] + FirstConnect(t, n) + [Write(t, true)]);
            && s'.status == Active && s'.ws == Some(n) && |s'.socks| == n + 1 && s'.socks[n] == Connected
            && s'.log == s.log + [Sent(n, t, job.msg, job.id)] && s'.sem == None
            && s'.threads == s.threads[t := Outside] + [Polling] && s'.monitorThread == |s.threads|
  {
    var n, job := |s.socks|, s.threads[t].job;
    var s1 := Next(s, Acquire(t));
    assert s1 == Goto(s, t, ConnTest(Sender(job))).(sem := Some(t));
    Connects(s1, t);
    var s2 := Run(s1, FirstConnect(t, n));
    SendsOn(s2, t, n);
    RunOne(s, Acquire(t));
    RunOne(s2, Write(t, true));
    hide *;
    RunConcat(s, [Acquire(t)], FirstConnect(t, n));
    RunConcat(s, [Acquire(t)] + FirstConnect(t, n), [Write(t, true)]);
    assert s2.threads[t := Outside] == s.threads[t := Outside] + [Polling];
  }

  /** `connect` from its first line, the new socket coming up at once. */
  function FirstConnect(t: nat, n: nat): seq<Action> {
    [Connect(t), Connect(t), Connect(t), Connect(t)] + [SockUp(n), Connect(t), Connect(t)]
  }

  lemma Connects(s: State, t: nat)
    requires t < |s.threads| && s.threads[t].ConnTest? && s.status != Active && s.ws == None
    ensures var n, s' := |s.socks|, Run(s, FirstConnect(t, |s.socks|));
            && s'.threads == s.threads[t := Return(s.threads[t].via)] + [Polling]
            && s'.monitorThread == |s.threads| && s'.status == Active && s'.ws == Some(n) && !s'.flag
            && |s'.socks| == n + 1 && s'.socks[n] == Connected && s'.socks[..n] == s.socks
            && s'.log == s.log && s'.sem == s.sem && s'.subs == s.subs && s'.isPrivate == s.isPrivate
  {
    var n, via := |s.socks|, s.threads[t].via;
    Opens(s, t);
    RunFour(s, Connect(t), Connect(t), Connect(t), Connect(t));
    var s4 := Run(s, [Connect(t), Connect(t), Connect(t), Connect(t)]);
    Arrives(s4, t, n);
    RunThree(s4, SockUp(n), Connect(t), Connect(t));
    hide *;
    RunConcat(s, [Connect(t), Connect(t), Connect(t), Connect(t)], [SockUp(n), Connect(t), Connect(t)]);
    assert (s.threads[t := Wait(via)] + [Polling])[t := Return(via)] == s.threads[t := Return(via)] + [Polling];
    assert (s.socks + [Opening])[n := Connected][..n] == s.socks;
  }

  lemma Opens(s: State, t: nat)
    requires t < |s.threads| && s.threads[t].ConnTest? && s.status != Active && s.ws == None
    ensures Next(Next(Next(Next(s, Connect(t)), Connect(t)), Connect(t)), Connect(t)) ==
            s.(threads := s.threads[t := Wait(s.threads[t].via)] + [Polling], monitorThread := |s.threads|,
               flag := false, ws := Some(|s.socks|), socks := s.socks + [Opening])
  {
    assert Next(s, Connect(t)) == Goto(s, t, Loop(s.threads[t].via));
    LoopOpens(Next(s, Connect(t)), t);
    hide Next;
  }

  lemma Arrives(s: State, t: nat, n: nat)
    requires t < |s.threads| && s.threads[t].Wait? && s.ws == Some(n) && n < |s.socks| && s.socks[n] == Opening
    ensures Next(Next(Next(s, SockUp(n)), Connect(t)), Connect(t)) ==
            Goto(s, t, Return(s.threads[t].via)).(status := Active, socks := s.socks[n := Connected])
  {
    var via := s.threads[t].via;
    var s1 := Next(s, SockUp(n));
    assert s1 == s.(socks := s.socks[n := Connected]);
    var s2 := Next(s1, Connect(t));
    assert s2 == Goto(s1, t, Tail(via)).(status := Active);
    assert Next(s2, Connect(t)) == Goto(s2, t, Return(via));
  }

  // ---------------------------------------------------------------- a login's subscription

  /** An auth success heard by the socket that is set caches the trade channel's
      subscription, and with the way open sends it, on that socket. */
  lemma LoginLeadsToSubscription(s: State, k: nat)
    requires s.isPrivate && s.ws == Some(k) && k < |s.socks|
    ensures var s' := Next(s, AuthReply(k));
            && Sub("trade.clearing#*#0") in s'.subs && s.subs <= s'.subs && |s'.subs| <= |s.subs| + 1
            && s'.log == s.log + [AuthOk(k)]
    ensures var c := |s.threads|;
            OpenWay(s, k) ==>
              Run(s, [AuthReply(k), Acquire(c), Write(c, true)]).log ==
              s.log + [AuthOk(k), Sent(k, c, Sub("trade.clearing#*#0"), s.curId)]
  {
    var c, s1 := |s.threads|, Next(s, AuthReply(k));
    Hears(s, k);
    hide Next, Run, Cache;
    if OpenWay(s, k) {
      Admits(s1, c);
      SendsOn(Next(s1, Acquire(c)), c, k);
      RunThree(s, AuthReply(k), Acquire(c), Write(c, true));
    }
  }

  lemma Hears(s: State, k: nat)
    requires s.isPrivate && s.ws == Some(k) && k < |s.socks|
    ensures var s', job := Next(s, AuthReply(k)), Job(Sub("trade.clearing#*#0"), s.curId, Callback(k));
            && Sub("trade.clearing#*#0") in s'.subs && s.subs <= s'.subs && |s'.subs| <= |s.subs| + 1
            && s'.threads == s.threads + [Stamped(job)] && s'.log == s.log + [AuthOk(k)]
            && s'.sem == s.sem && s'.ws == s.ws && s'.socks == s.socks && s'.status == s.status
  {
  }

  /** A superseded socket's auth success, or a public manager's, caches and sends nothing. */
  lemma OtherLoginsLeadNowhere(s: State, k: nat)
    requires !s.isPrivate || s.ws != Some(k)
    ensures var s' := Next(s, AuthReply(k));
            && s'.subs == s.subs && s'.threads == s.threads && s'.curId == s.curId
            && (s'.log == s.log || s'.log == s.log + [AuthOk(k)])
  {
  }

  /** Nothing that was cached is ever dropped: every later recovery finds it. */
  lemma {:induction false} CacheOnlyGrows(s: State, actions: seq<Action>)
    ensures s.subs <= Run(s, actions).subs
    decreases actions
  {
    if actions != [] {
      CacheGrowsByStep(s, actions[0]);
      hide Next;
      CacheOnlyGrows(Next(s, actions[0]), actions[1..]);
    }
  }

  lemma CacheGrowsByStep(s: State, a: Action)
    ensures s.subs <= Next(s, a).subs
  {
    if IsThreadAction(a) && a.t < |s.threads| {
      if a.Connect? {
        ConnectKeepsSubs(s, a.t);
      } else if MonitorAction(a) {
        MonitorKeepsSubs(s, a);
      } else {
        UserGrowsSubs(s, a);
      }
    }
    hide ThreadStep;
  }

  lemma ConnectKeepsSubs(s: State, t: nat)
    requires t < |s.threads|
    ensures ThreadStep(s, Connect(t)).subs == s.subs
  {
    assert ThreadStep(s, Connect(t)) == ConnectStep(s, t);
    hide ThreadStep, Return, Abort;
  }

  lemma MonitorKeepsSubs(s: State, a: Action)
    requires MonitorAction(a) && !a.Connect? && a.t < |s.threads|
    ensures ThreadStep(s, a).subs == s.subs
  {
    hide ConnectStep;
  }

  lemma UserGrowsSubs(s: State, a: Action)
    requires IsThreadAction(a) && !MonitorAction(a) && a.t < |s.threads|
    ensures s.subs <= ThreadStep(s, a).subs
  {
    if a.Subscribe? {
      hide ConnectStep, AcquireStep, WriteStep, CheckStep, RecoverStep, ResendStep, CloseStep;
    } else {
      SubsStay(s, a);
      hide ThreadStep;
    }
  }

  lemma SubsStay(s: State, a: Action)
    requires IsThreadAction(a) && !MonitorAction(a) && !a.Subscribe? && a.t < |s.threads|
    ensures ThreadStep(s, a).subs == s.subs
  {
    hide ConnectStep, CheckStep, RecoverStep, ReplayList, Resume, Abort, Cache;
  }

  // ---------------------------------------------------------------- recoveries

  /** A recovery begins only in a monitor's test, with the flag raised or the socket that is
      set not connected. */
  lemma RecoveryHasAReason(s: State, a: Action)
    requires s.status != Recovery && Next(s, a).status == Recovery
    ensures a.Check? && a.t < |s.threads| && s.threads[a.t] == Checking && s.status != Init
    ensures s.ws.Some? && (s.flag || s.ws.value >= |s.socks| || s.socks[s.ws.value] != Connected)
    ensures !Next(s, a).flag && Next(s, a).threads == s.threads[a.t := RecClose]
  {
    if IsThreadAction(a) && a.t < |s.threads| {
      OnlyTestsRecover(s, a);
    }
    hide ThreadStep;
  }

  lemma OnlyTestsRecover(s: State, a: Action)
    requires IsThreadAction(a) && a.t < |s.threads| && s.status != Recovery && ThreadStep(s, a).status == Recovery
    ensures a.Check? && s.threads[a.t] == Checking && s.status != Init
    ensures s.ws.Some? && (s.flag || s.ws.value >= |s.socks| || s.socks[s.ws.value] != Connected)
    ensures !ThreadStep(s, a).flag && ThreadStep(s, a).threads == s.threads[a.t := RecClose]
  {
    if a.Connect? {
      ConnectKeepsFromRecovery(s, a.t);
      hide ThreadStep;
    } else if MonitorAction(a) {
      hide ConnectStep;
    } else {
      UserKeepsFromRecovery(s, a);
      hide ThreadStep;
    }
  }

  lemma ConnectKeepsFromRecovery(s: State, t: nat)
    requires t < |s.threads| && s.status != Recovery
    ensures ThreadStep(s, Connect(t)).status != Recovery
  {
    assert ThreadStep(s, Connect(t)) == ConnectStep(s, t);
    hide ThreadStep, Return, Abort;
  }

  lemma UserKeepsFromRecovery(s: State, a: Action)
    requires IsThreadAction(a) && !MonitorAction(a) && a.t < |s.threads| && s.status != Recovery
    ensures ThreadStep(s, a).status != Recovery
  {
    hide ConnectStep, CheckStep, RecoverStep, Cache, ReplayList, Resume, Abort;
  }

  /** A failure, and only that, makes a monitor's test start a recovery while ACTIVE: the
      other outcome is that it goes on watching, or crashes where there is no socket. */
  lemma MonitorDecides(s: State, t: nat)
    requires t < |s.threads| && s.threads[t] == Checking && s.status == Active
    requires s.ws.Some? ==> s.ws.value < |s.socks|
    ensures var s' := Next(s, Check(t));
            if s.ws.None? then s'.crashed && s'.threads == s.threads[t := Ended]
            else if s.flag || s.socks[s.ws.value] != Connected
            then s'.status == Recovery && !s'.flag && s'.threads == s.threads[t := RecClose]
            else s' == s.(threads := s.threads[t := Polling])
  {
  }

  /** It closes the socket it found, forgets it, opens another, and then re-sends. */
  lemma RecoveryReplacesTheSocket(s: State, t: nat, k: nat)
    requires t < |s.threads| && s.threads[t] == RecClose && s.status == Recovery && s.ws == Some(k) && k < |s.socks|
    ensures var n := |s.socks|;
            var s' := Run(s, [Recover(t), Recover(t)] + FirstConnect(t, n));
            && s'.status == Active && s'.ws == Some(n) && |s'.socks| == n + 1
            && s'.socks[k] == Dead && s'.socks[n] == Connected && !s'.flag
            && s'.threads == s.threads[t := Replay(0)] + [Polling] && s'.monitorThread == |s.threads|
            && s'.log == s.log && s'.subs == s.subs
  {
    var n := |s.socks|;
    Drops(s, t, k);
    assert Return(Monitor) == Replay(0);
    hide *;
    RunTwo(s, Recover(t), Recover(t));
    var s2 := Run(s, [Recover(t), Recover(t)]);
    Connects(s2, t);
    var s3 := Run(s2, FirstConnect(t, n));
    RunConcat(s, [Recover(t), Recover(t)], FirstConnect(t, n));
    assert s3.socks[k] == s3.socks[..n][k];
    assert s2.threads[t := Replay(0)] == s.threads[t := Replay(0)];
  }

  lemma Drops(s: State, t: nat, k: nat)
    requires t < |s.threads| && s.threads[t] == RecClose && s.ws == Some(k) && k < |s.socks|
    ensures Next(Next(s, Recover(t)), Recover(t)) ==
            Goto(s, t, ConnTest(Monitor)).(ws := None, socks := s.socks[k := Dead])
  {
    var s1 := Next(s, Recover(t));
    assert s1 == Goto(s, t, RecNull).(socks := s.socks[k := Dead]);
    assert Next(s1, Recover(t)).threads == s.threads[t := ConnTest(Monitor)];
  }

  /** An attempt whose socket does not come up forgets it and opens another. */
  lemma TimeoutTriesAgain(s: State, t: nat)
    requires t < |s.threads| && s.threads[t].Wait? && s.status != Active
    ensures var n, s' := |s.socks|, Run(s, [Timeout(t), Connect(t), Connect(t), Connect(t)]);
            && s'.ws == Some(n) && |s'.socks| == n + 1 && s'.socks[n] == Opening && s'.status == s.status
            && s'.threads == s.threads[t := s.threads[t]] + [Polling] && s'.log == s.log
  {
    var s1 := Next(s, Timeout(t));
    assert s1 == Goto(s, t, Loop(s.threads[t].via)).(ws := None);
    LoopOpens(s1, t);
    hide *;
    RunFour(s, Timeout(t), Connect(t), Connect(t), Connect(t));
  }

  lemma LoopOpens(s: State, t: nat)
    requires t < |s.threads| && s.threads[t].Loop? && s.ws == None
    ensures Next(Next(Next(s, Connect(t)), Connect(t)), Connect(t)) ==
            s.(threads := s.threads[t := Wait(s.threads[t].via)] + [Polling], monitorThread := |s.threads|,
               flag := false, ws := Some(|s.socks|), socks := s.socks + [Opening])
  {
    var via := s.threads[t].via;
    var s2 := Next(s, Connect(t));
    assert s2 == Goto(s, t, Begin(via));
    var s3 := Next(s2, Connect(t));
    assert s3.threads == s.threads[t := Open(via)] + [Polling];
    assert Next(s3, Connect(t)).threads == s.threads[t := Wait(via)] + [Polling];
  }

  // ---------------------------------------------------------------- closing

  /** A clean `close` closes the socket and forgets it; monitors that look at the status then
      end, and others go on to their test. */
  lemma CloseLeavesNothingOpen(s: State, t: nat, k: nat)
    requires t < |s.threads| && s.threads[t] == Outside && s.ws == Some(k) && k < |s.socks|
    ensures var s' := Run(s, [Close(t), Shut(t, true), Forget(t)]);
            && s'.status == Stop && s'.ws == None && |s'.socks| == |s.socks| && s'.socks[k] == Dead
            && s'.threads == s.threads && s'.log == s.log
  {
    var s1 := Next(s, Close(t));
    assert s1 == Goto(s, t, Shutting).(status := Stop);
    var s2 := Next(s1, Shut(t, true));
    assert s2 == Goto(s1, t, Forgetting).(socks := s.socks[k := Dead]);
    var s3 := Next(s2, Forget(t));
    assert s3 == Goto(s2, t, Outside).(ws := None);
    assert s.threads[t := Shutting][t := Forgetting][t := Outside] == s.threads;
    RunThree(s, Close(t), Shut(t, true), Forget(t));
    hide Run;
  }

  /** Without a socket, or when closing it raises, `close` still sets STOP and nothing else. */
  lemma FailedCloseStillStops(s: State, t: nat, clean: bool)
    requires t < |s.threads| && s.threads[t] == Outside && (s.ws.None? || !clean)
    ensures Run(s, [Close(t), Shut(t, clean)]) == s.(status := Stop)
  {
    var s1 := Next(s, Close(t));
    assert s1 == Goto(s, t, Shutting).(status := Stop);
    assert Next(s1, Shut(t, clean)) == Goto(s1, t, Outside);
    assert s.threads[t := Shutting][t := Outside] == s.threads;
    RunTwo(s, Close(t), Shut(t, clean));
  }

  /** A monitor at its `while` ends exactly when the status is STOP. */
  lemma MonitorsEndOnStop(s: State, t: nat)
    requires t < |s.threads| && s.threads[t] == Polling
    ensures Next(s, Poll(t)) == s.(threads := s.threads[t := if s.status == Stop then Ended else Checking])
  {
  }
}
