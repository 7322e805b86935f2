/** Subscriptions and logins of a private Huobi manager. A callback that waits to subscribe
    is safe on every continuation exactly when the manager is stopped for good and its
    socket cannot take the message or has logged in. */
module RecoveryLogins {
  import opened Options
  import opened RecoveryMachine
  import opened RecoverySafety
  import opened RecoveryLimits
  import opened RecoveryReplay
  import opened RecoverySends

  // ---------------------------------------------------------------- subscriptions and logins

  /** Every subscription in the log is on a socket whose auth success is earlier in it. */
  ghost predicate SubsAfterAuth(log: seq<Event>) {
    forall i :: 0 <= i < |log| && log[i].Sent? && log[i].msg.Sub? ==> AuthedBefore(log, i, log[i].sock)
  }

  ghost predicate AuthedBefore(log: seq<Event>, i: nat, k: nat)
    requires i <= |log|
  {
    AuthOk(k) in log[..i]
  }

  lemma SubsAfterAuthMore(log: seq<Event>, e: Event)
    ensures SubsAfterAuth(log + [e]) <==> SubsAfterAuth(log) && (e.Sent? && e.msg.Sub? ==> AuthOk(e.sock) in log)
  {
    var l := log + [e];
    assert forall i :: 0 <= i <= |log| ==> l[..i] == log[..i];
    assert log[..|log|] == log;
    assert forall i :: 0 <= i < |log| ==> l[i] == log[i];
    assert SubsAfterAuth(l) ==> (e.Sent? && e.msg.Sub? ==> AuthedBefore(l, |log|, l[|log|].sock));
  }

  /** The step puts a callback's subscription on the wire. */
  predicate WritesSub(s: State, a: Action) {
    && a.Write? && a.accepted && a.t < |s.threads| && s.threads[a.t].Writing?
    && s.threads[a.t].job.msg.Sub? && s.threads[a.t].job.asker.Callback? && Live(s)
  }

  /** What a step of a private manager adds to the log. */
  lemma LogOfStep(s: State, a: Action)
    requires SendInv(s) && s.isPrivate
    ensures var log, log' := s.log, Next(s, a).log;
            if WritesSub(s, a) then log' == log + [Sent(s.ws.value, a.t, s.threads[a.t].job.msg, s.threads[a.t].job.id)]
            else log' == log || exists e :: log' == log + [e] && !(e.Sent? && e.msg.Sub?)
  {
    if a.Write? && a.t < |s.threads| {
      WriteIs(s, a);
      LogOfWrite(s, a);
    } else if IsThreadAction(a) && a.t < |s.threads| {
      OnlyWritesLog(s, a);
    } else if a.AuthReply? {
      var e := AuthOk(a.k);
      assert Next(s, a).log == s.log || Next(s, a).log == s.log + [e];
    }
    hide ThreadStep, WriteStep, SendInv;
  }

  lemma LogOfWrite(s: State, a: Action)
    requires SendInv(s) && s.isPrivate && a.Write? && a.t < |s.threads|
    ensures var log, log' := s.log, WriteStep(s, a.t, a.accepted).log;
            if WritesSub(s, a) then log' == log + [Sent(s.ws.value, a.t, s.threads[a.t].job.msg, s.threads[a.t].job.id)]
            else log' == log || exists e :: log' == log + [e] && !(e.Sent? && e.msg.Sub?)
  {
    var pc := s.threads[a.t];
    if pc.Writing? {
      assert JobAt(s, a.t) && JobIn(s, a.t) == pc.job;
      if a.accepted && Live(s) {
        var e := Sent(s.ws.value, a.t, pc.job.msg, pc.job.id);
        assert WriteStep(s, a.t, a.accepted).log == s.log + [e];
      }
    }
  }

  /** A callback about to write finds its own socket still set. */
  predicate FindsItsSocket(s: State, a: Action) {
    WritesSub(s, a) ==> s.ws == Some(s.threads[a.t].job.asker.sock)
  }

  ghost predicate EveryWriteFindsItsSocket(s: State, actions: seq<Action>)
    decreases actions
  {
    actions == [] || (FindsItsSocket(s, actions[0]) && EveryWriteFindsItsSocket(Next(s, actions[0]), actions[1..]))
  }

  /** It is enough that no recovery takes away a callback's socket before it writes. */
  lemma OwnSocketIsEnough(users: nat, run: seq<Action>)
    requires EveryWriteFindsItsSocket(Start(users, true), run)
    ensures SubsAfterAuth(Run(Start(users, true), run).log)
  {
    AuthedFrom(Start(users, true), run);
  }

  lemma {:induction false} AuthedFrom(s: State, actions: seq<Action>)
    requires SendInv(s) && s.isPrivate && SubsAfterAuth(s.log) && EveryWriteFindsItsSocket(s, actions)
    ensures SubsAfterAuth(Run(s, actions).log)
    decreases actions
  {
    if actions != [] {
      var a := actions[0];
      SendsKept(s, a);
      PrivateStays(s, a);
      if WritesSub(s, a) {
        assert JobAt(s, a.t) && JobIn(s, a.t) == s.threads[a.t].job;
      }
      AuthedStep(s, a);
      hide Next, SendInv, SubsAfterAuth, FindsItsSocket;
      AuthedFrom(Next(s, a), actions[1..]);
    }
  }

  lemma AuthedStep(s: State, a: Action)
    requires SendInv(s) && s.isPrivate && SubsAfterAuth(s.log)
    requires WritesSub(s, a) ==> AuthOk(s.ws.value) in s.log
    ensures SubsAfterAuth(Next(s, a).log)
  {
    var s' := Next(s, a);
    LogOfStep(s, a);
    hide Next, SubsAfterAuth;
    if s'.log != s.log {
      SubsAfterAuthMore(s.log, s'.log[|s.log|]);
    }
  }

  // ---------------------------------------------------------------- which sockets have logged in

  /** Only sockets that exist have delivered anything. */
  ghost predicate HeardInv(s: State) {
    forall k: nat :: AuthOk(k) in s.log ==> k < |s.socks|
  }

  lemma SocksGrow(s: State, a: Action)
    ensures |s.socks| <= |Next(s, a).socks|
  {
    if IsThreadAction(a) && a.t < |s.threads| {
      ThreadGrowsSocks(s, a);
    }
    hide ThreadStep;
  }

  lemma SameSockets(s: State, a: Action)
    requires IsThreadAction(a) && a.t < |s.threads| && !(a.Connect? || a.Recover? || a.Shut?)
    ensures ThreadStep(s, a).socks == s.socks
  {
    if MonitorAction(a) {
      assert ThreadStep(s, a).socks == s.socks;
    } else {
      SameSocketsByUser(s, a);
      hide ThreadStep;
    }
    hide AcquireStep, WriteStep, ConnectStep, RecoverStep, ResendStep, CloseStep, Cache, Stamp;
  }

  lemma SameSocketsByUser(s: State, a: Action)
    requires IsThreadAction(a) && a.t < |s.threads| && !MonitorAction(a) && !a.Shut?
    ensures ThreadStep(s, a).socks == s.socks
  {
    hide ConnectStep, CheckStep, RecoverStep, Cache, ReplayList, Resume, Abort;
  }

  lemma ThreadGrowsSocks(s: State, a: Action)
    requires IsThreadAction(a) && a.t < |s.threads|
    ensures |s.socks| <= |ThreadStep(s, a).socks|
  {
    hide *;
    if a.Connect? {
      ConnectGrowsSocks(s, a.t);
    } else if a.Recover? || a.Shut? {
      KillKeepsCount(s, a);
    } else {
      SameSockets(s, a);
    }
  }

  lemma ConnectGrowsSocks(s: State, t: nat)
    requires t < |s.threads|
    ensures |s.socks| <= |ThreadStep(s, Connect(t)).socks|
  {
    assert ThreadStep(s, Connect(t)) == ConnectStep(s, t);
    hide ThreadStep, Return, Abort;
  }

  lemma KillKeepsCount(s: State, a: Action)
    requires (a.Recover? || a.Shut?) && a.t < |s.threads|
    ensures |ThreadStep(s, a).socks| == |s.socks|
  {
  }

  lemma HeardKept(s: State, a: Action)
    requires HeardInv(s) && SendInv(s) && s.isPrivate
    ensures HeardInv(Next(s, a))
  {
    SocksGrow(s, a);
    if a.AuthReply? {
      hide Cache;
      assert forall k: nat :: AuthOk(k) in AuthStep(s, a.k).log ==> AuthOk(k) in s.log || (k == a.k && k < |s.socks|);
    } else {
      OnlyAuthHears(s, a);
      hide Next;
    }
  }

  lemma OnlyAuthHears(s: State, a: Action)
    requires !a.AuthReply?
    ensures forall k: nat :: AuthOk(k) in Next(s, a).log ==> AuthOk(k) in s.log
  {
    if IsThreadAction(a) && a.t < |s.threads| && !a.Write? {
      OnlyWritesLog(s, a);
    }
    hide ThreadStep;
    if a.Write? && a.t < |s.threads| {
      WriteIs(s, a);
      hide Next;
      assert forall k: nat :: AuthOk(k) in WriteStep(s, a.t, a.accepted).log ==> AuthOk(k) in s.log;
    }
  }

  lemma {:induction false} RunKeepsHeard(s: State, actions: seq<Action>)
    requires HeardInv(s) && SendInv(s) && s.isPrivate
    ensures HeardInv(Run(s, actions))
    decreases actions
  {
    if actions != [] {
      SendsKept(s, actions[0]);
      PrivateStays(s, actions[0]);
      HeardKept(s, actions[0]);
      hide Next, SendInv, HeardInv;
      RunKeepsHeard(Next(s, actions[0]), actions[1..]);
    }
  }

  // ---------------------------------------------------------------- safe for good

  /** No subscription can be written on the socket that is set, or it has logged in. */
  ghost predicate SafeSocket(s: State) {
    || s.ws.None? || AuthOk(s.ws.value) in s.log
    || (s.ws.value < |s.socks| && s.socks[s.ws.value].Dead?)
  }

  lemma DeadStaysDead(s: State, a: Action, k: nat)
    requires k < |s.socks| && s.socks[k].Dead?
    ensures k < |Next(s, a).socks| && Next(s, a).socks[k].Dead?
  {
    if IsThreadAction(a) && a.t < |s.threads| {
      ThreadLeavesDead(s, a, k);
    }
    hide ThreadStep;
  }

  lemma ThreadLeavesDead(s: State, a: Action, k: nat)
    requires IsThreadAction(a) && a.t < |s.threads| && k < |s.socks| && s.socks[k].Dead?
    ensures k < |ThreadStep(s, a).socks| && ThreadStep(s, a).socks[k].Dead?
  {
    hide *;
    if a.Connect? {
      ConnectLeavesDead(s, a.t, k);
    } else if a.Recover? || a.Shut? {
      KillLeavesDead(s, a, k);
    } else {
      SameSockets(s, a);
    }
  }

  lemma ConnectLeavesDead(s: State, t: nat, k: nat)
    requires t < |s.threads| && k < |s.socks| && s.socks[k].Dead?
    ensures k < |ThreadStep(s, Connect(t)).socks| && ThreadStep(s, Connect(t)).socks[k].Dead?
  {
    assert ThreadStep(s, Connect(t)) == ConnectStep(s, t);
    hide ThreadStep, Return, Abort;
  }

  lemma KillLeavesDead(s: State, a: Action, k: nat)
    requires (a.Recover? || a.Shut?) && a.t < |s.threads| && k < |s.socks| && s.socks[k].Dead?
    ensures k < |ThreadStep(s, a).socks| && ThreadStep(s, a).socks[k].Dead?
  {
    if a.Recover? {
      assert ThreadStep(s, a) == RecoverStep(s, a.t);
    } else {
      assert ThreadStep(s, a) == ShutStep(s, a.t, a.clean);
    }
    hide ThreadStep;
  }

  /** While STOP is final no step sets a socket. */
  lemma StoppedSetsNoSocket(s: State, a: Action)
    requires s.status.Stop? && Final(s)
    ensures Next(s, a).ws == s.ws || Next(s, a).ws.None?
  {
    if IsThreadAction(a) && a.t < |s.threads| {
      NoCheckingWithSocket(s);
      assert !ConnectingAt(s, a.t);
      ThreadKeepsStop(s, a);
      hide Next;
    }
    hide ThreadStep, Cache;
  }

  lemma SafeSocketKept(s: State, a: Action)
    requires s.status.Stop? && Final(s) && SafeSocket(s)
    ensures SafeSocket(Next(s, a))
  {
    StoppedSetsNoSocket(s, a);
    SendsOnTheCurrentSocket(s, a);
    if s.ws.Some? && s.ws.value < |s.socks| && s.socks[s.ws.value].Dead? {
      DeadStaysDead(s, a, s.ws.value);
    }
    hide Next, Final;
  }

  lemma {:induction false} StaysSafe(s: State, actions: seq<Action>)
    requires SendInv(s) && s.isPrivate && SubsAfterAuth(s.log)
    requires s.status.Stop? && Final(s) && SafeSocket(s)
    ensures SubsAfterAuth(Run(s, actions).log)
    decreases actions
  {
    if actions != [] {
      var a := actions[0];
      SendsKept(s, a);
      PrivateStays(s, a);
      AuthedStep(s, a);
      StepKeepsStop(s, a);
      SafeSocketKept(s, a);
      hide Next, SendInv, SubsAfterAuth, Final, SafeSocket;
      StaysSafe(Next(s, a), actions[1..]);
    }
  }

  // ---------------------------------------------------------------- a write that goes wrong

  /** Thread c is on its way to write a subscription. */
  ghost predicate Subscribing(s: State, c: nat) {
    JobAt(s, c) && JobIn(s, c).msg.Sub?
  }

  /** The thread waits for the semaphore or holds it, nobody is connecting under it, and the
      socket that is set has not logged in and is not lost. */
  ghost predicate AboutToFail(s: State, c: nat, k: nat) {
    && Subscribing(s, c) && !InConnect(s.threads[c]) && !s.status.Init?
    && s.ws == Some(k) && k < |s.socks| && !s.socks[k].Dead? && AuthOk(k) !in s.log
    && (s.sem.Some? ==> s.sem.value < |s.threads| && s.threads[s.sem.value].Writing?)
    && (s.threads[c].Writing? ==> s.sem == Some(c))
  }

  lemma RunCons(s: State, a: Action, rest: seq<Action>)
    ensures Run(s, [a] + rest) == Run(Next(s, a), rest)
  {
    assert ([a] + rest)[1..] == rest;
  }

  lemma WritesUnauthed(s: State, c: nat, k: nat) returns (more: seq<Action>)
    requires AboutToFail(s, c, k)
    ensures !SubsAfterAuth(Run(s, more).log)
  {
    var s1, first := s, [];
    if s.socks[k].Opening? {
      s1, first := s.(socks := s.socks[k := Connected]), [SockUp(k)];
      RunOne(s, SockUp(k));
    } else {
      RunNone(s);
    }
    hide Next, Run, SubsAfterAuth;
    var rest := EntersAndWrites(s1, c, k);
    RunConcat(s, first, rest);
    more := first + rest;
  }

  lemma EntersAndWrites(s: State, c: nat, k: nat) returns (more: seq<Action>)
    requires AboutToFail(s, c, k) && s.socks[k].Connected?
    ensures !SubsAfterAuth(Run(s, more).log)
  {
    if s.threads[c].Writing? {
      UnauthedWrite(s, c, k);
      RunOne(s, Write(c, true));
      more := [Write(c, true)];
    } else if s.sem.None? {
      Enters(s, c, k);
      UnauthedWrite(Next(s, Acquire(c)), c, k);
      RunTwo(s, Acquire(c), Write(c, true));
      more := [Acquire(c), Write(c, true)];
    } else {
      var v := s.sem.value;
      Leaves(s, c, k);
      var s1 := Next(s, Write(v, false));
      Enters(s1, c, k);
      UnauthedWrite(Next(s1, Acquire(c)), c, k);
      RunThree(s, Write(v, false), Acquire(c), Write(c, true));
      more := [Write(v, false), Acquire(c), Write(c, true)];
    }
    hide *;
  }

  lemma Enters(s: State, c: nat, k: nat)
    requires AboutToFail(s, c, k) && s.threads[c].Stamped? && s.sem.None?
    ensures AboutToFail(Next(s, Acquire(c)), c, k) && Next(s, Acquire(c)).threads[c].Writing?
    ensures Next(s, Acquire(c)).socks == s.socks
  {
    assert Next(s, Acquire(c)) == Goto(s, c, Writing(s.threads[c].job)).(sem := Some(c));
  }

  /** Another thread's write fails, and it leaves `send`. */
  lemma Leaves(s: State, c: nat, k: nat)
    requires AboutToFail(s, c, k) && s.threads[c].Stamped? && s.sem.Some?
    ensures var s' := Next(s, Write(s.sem.value, false));
            AboutToFail(s', c, k) && s'.threads[c].Stamped? && s'.sem.None? && s'.socks == s.socks
  {
    var v := s.sem.value;
    var s' := Next(s, Write(v, false));
    assert s' == Goto(s, v, Abort(s.isPrivate, Sender(s.threads[v].job))).(sem := None);
    hide Abort;
  }

  lemma UnauthedWrite(s: State, c: nat, k: nat)
    requires AboutToFail(s, c, k) && s.threads[c].Writing? && s.socks[k].Connected?
    ensures !SubsAfterAuth(Next(s, Write(c, true)).log)
  {
    var job := s.threads[c].job;
    var e := Sent(k, c, job.msg, job.id);
    assert Next(s, Write(c, true)).log == s.log + [e];
    SubsAfterAuthMore(s.log, e);
    hide SubsAfterAuth;
  }

  // ---------------------------------------------------------------- a new socket

  /** The only connecting thread waits for a socket that has not logged in. */
  ghost predicate Reopened(s: State, u: nat, n: nat) {
    && SemInv(s) && ConnectingAt(s, u) && s.threads[u].Wait?
    && (forall t: nat :: ConnectingAt(s, t) ==> t == u)
    && s.ws == Some(n) && n < |s.socks| && s.socks[n].Opening? && AuthOk(n) !in s.log
    && (s.threads[u].via.Monitor? ==> !s.status.Init?)
  }

  lemma FromWait(s: State, c: nat, u: nat, n: nat) returns (more: seq<Action>)
    requires Reopened(s, u, n) && Subscribing(s, c)
    ensures !SubsAfterAuth(Run(s, more).log)
  {
    if s.threads[u].via.Monitor? {
      OutsideConnect(s, c, u);
      more := WritesUnauthed(s, c, n);
    } else {
      SenderArrives(s, c, u, n);
      RunThree(s, SockUp(n), Connect(u), Connect(u));
      hide Next, Run, SubsAfterAuth, AboutToFail;
      var first := [SockUp(n), Connect(u), Connect(u)];
      var rest := WritesUnauthed(Run(s, first), c, n);
      RunConcat(s, first, rest);
      more := first + rest;
    }
  }

  lemma OutsideConnect(s: State, c: nat, u: nat)
    requires SemInv(s) && Subscribing(s, c) && u < |s.threads|
    requires forall t: nat :: ConnectingAt(s, t) ==> t == u
    requires Connecting(s.threads[u]) ==> !HoldsSem(s.threads[u])
    ensures !InConnect(s.threads[c])
    ensures s.sem.Some? ==> s.sem.value < |s.threads| && s.threads[s.sem.value].Writing?
    ensures s.threads[c].Writing? ==> s.sem == Some(c)
  {
    if InConnect(s.threads[c]) {
      assert ConnectingAt(s, c);
    }
    if s.sem.Some? && InConnect(s.threads[s.sem.value]) {
      assert ConnectingAt(s, s.sem.value);
    }
  }

  /** The sender that opened the socket finds it connected and returns to its write. */
  lemma SenderArrives(s: State, c: nat, u: nat, n: nat)
    requires Reopened(s, u, n) && Subscribing(s, c) && s.threads[u].via.Sender?
    ensures AboutToFail(Next(Next(Next(s, SockUp(n)), Connect(u)), Connect(u)), c, n)
  {
    assert s.sem == Some(u);
    assert InConnect(s.threads[c]) ==> ConnectingAt(s, c);
    SenderSteps(s, u, n);
    hide Next, Reopened, SemInv, ConnectingAt;
  }

  lemma SenderSteps(s: State, u: nat, n: nat)
    requires u < |s.threads| && s.threads[u].Wait? && s.threads[u].via.Sender?
    requires s.ws == Some(n) && n < |s.socks| && s.socks[n].Opening?
    ensures Next(Next(Next(s, SockUp(n)), Connect(u)), Connect(u)) ==
            Goto(s, u, Writing(s.threads[u].via.job)).(status := Active, socks := s.socks[n := Connected])
  {
    var via := s.threads[u].via;
    var s1 := Next(s, SockUp(n));
    assert s1 == s.(socks := s.socks[n := Connected]);
    var s2 := Next(s1, Connect(u));
    assert s2 == Goto(s1, u, Tail(via)).(status := Active);
    assert Next(s2, Connect(u)) == Goto(s2, u, Writing(via.job));
  }

  /** Thread u has gone on to wait for a new socket; nothing else has happened. */
  ghost predicate WaitsForNew(s: State, s': State, u: nat) {
    && Inv(s') && ConnectingAt(s', u) && s'.threads[u].Wait? && SameButFor(s, s', u)
    && s'.ws == Some(|s.socks|) && |s'.socks| == |s.socks| + 1 && s'.socks[|s.socks|].Opening?
  }

  /** Thread u keeps its job, the others stay where they are, and nothing is sent. */
  ghost predicate SameButFor(s: State, s': State, u: nat) {
    && u < |s.threads| <= |s'.threads| && s'.log == s.log && JobOf(s'.threads[u]) == JobOf(s.threads[u])
    && forall t: nat :: t < |s.threads| && t != u ==> s'.threads[t] == s.threads[t]
  }

  function Stage(pc: Pc): nat {
    match pc
    case RecClose => 6
    case RecNull => 5
    case ConnTest(_) => 4
    case Loop(_) => 3
    case Begin(_) => 2
    case Open(_) => 1
    case _ => 0
  }

  function Onward(s: State, u: nat): Action
    requires ConnectingAt(s, u)
  {
    if s.threads[u].RecClose? || s.threads[u].RecNull? then Recover(u) else Connect(u)
  }

  lemma OnwardStep(s: State, u: nat)
    requires Inv(s) && ConnectingAt(s, u) && !s.threads[u].Tail? && !s.threads[u].Wait?
    ensures var s' := Next(s, Onward(s, u));
            && Inv(s') && ConnectingAt(s', u) && !s'.threads[u].Tail? && SameButFor(s, s', u)
            && (if s.threads[u].Open? then WaitsForNew(s, s', u)
                else |s'.socks| == |s.socks| && !s'.threads[u].Wait? && Stage(s'.threads[u]) < Stage(s.threads[u]))
  {
    assert Fits(s, s.threads[u]);
    assert Disciplined(s, Onward(s, u)) by {
      assert forall t: nat :: t < |s.threads| && s.threads[t].Tail? ==> ConnectingAt(s, t);
    }
    StepKeepsInv(s, Onward(s, u));
    hide Inv, Disciplined;
    if s.threads[u].RecClose? || s.threads[u].RecNull? {
      OnwardByRecover(s, u);
    } else {
      OnwardByConnect(s, u);
    }
    hide Next, SameButFor, Stage, Fits, Connecting;
  }

  /** Where the next line takes a connecting thread. */
  ghost predicate MovesOn(s: State, s': State, u: nat)
    requires u < |s.threads|
  {
    && SameButFor(s, s', u) && ConnectingAt(s', u) && !s'.threads[u].Tail?
    && (if s.threads[u].Open? then
          s'.threads[u].Wait? && s'.ws == Some(|s.socks|) && s'.socks == s.socks + [Opening]
        else
          |s'.socks| == |s.socks| && !s'.threads[u].Wait? && Stage(s'.threads[u]) < Stage(s.threads[u]))
  }

  lemma OnwardByRecover(s: State, u: nat)
    requires u < |s.threads| && (s.threads[u].RecClose? || s.threads[u].RecNull?)
    ensures MovesOn(s, Next(s, Recover(u)), u)
  {
    assert Next(s, Recover(u)) == RecoverStep(s, u);
    hide Next;
  }

  lemma OnwardByConnect(s: State, u: nat)
    requires u < |s.threads| && InConnect(s.threads[u]) && Fits(s, s.threads[u])
    requires !s.threads[u].Tail? && !s.threads[u].Wait?
    ensures MovesOn(s, Next(s, Connect(u)), u)
  {
    assert Next(s, Connect(u)) == ConnectStep(s, u);
    hide Next, Return, Abort;
  }

  lemma {:induction false} OnwardToWait(s: State, u: nat) returns (more: seq<Action>)
    requires Inv(s) && ConnectingAt(s, u) && !s.threads[u].Tail? && !s.threads[u].Wait?
    ensures WaitsForNew(s, Run(s, more), u)
    decreases Stage(s.threads[u])
  {
    var a := Onward(s, u);
    OnwardStep(s, u);
    var opens, rest := s.threads[u].Open?, [];
    hide *;
    if opens {
      RunOne(s, a);
      more := [a];
    } else {
      rest := OnwardToWait(Next(s, a), u);
      RunCons(s, a, rest);
      more := [a] + rest;
      WaitsForTheSame(s, Next(s, a), Run(s, more), u);
    }
  }

  lemma WaitsForTheSame(s: State, s1: State, s2: State, u: nat)
    requires SameButFor(s, s1, u) && WaitsForNew(s1, s2, u) && |s1.socks| == |s.socks|
    ensures WaitsForNew(s, s2, u)
  {
    hide Inv;
  }

  lemma TimesOut(s: State, u: nat)
    requires Inv(s) && ConnectingAt(s, u) && s.threads[u].Wait?
    ensures var s' := Next(s, Timeout(u));
            && Inv(s') && ConnectingAt(s', u) && s'.threads[u].Loop? && SameButFor(s, s', u)
            && |s'.socks| == |s.socks|
  {
    assert Disciplined(s, Timeout(u)) by {
      assert forall t: nat :: t < |s.threads| && s.threads[t].Tail? ==> ConnectingAt(s, t);
    }
    StepKeepsInv(s, Timeout(u));
    hide Inv, Disciplined;
    assert Next(s, Timeout(u)) == Goto(s, u, Loop(s.threads[u].via)).(ws := None);
  }

  lemma ToWait(s: State, u: nat) returns (more: seq<Action>)
    requires Inv(s) && ConnectingAt(s, u) && !s.threads[u].Tail?
    ensures WaitsForNew(s, Run(s, more), u)
  {
    if s.threads[u].Wait? {
      TimesOut(s, u);
      hide *;
      var rest := OnwardToWait(Next(s, Timeout(u)), u);
      RunCons(s, Timeout(u), rest);
      more := [Timeout(u)] + rest;
      WaitsForTheSame(s, Next(s, Timeout(u)), Run(s, more), u);
    } else {
      more := OnwardToWait(s, u);
    }
  }

  lemma NewIsReopened(s: State, s': State, u: nat)
    requires HeardInv(s) && WaitsForNew(s, s', u)
    ensures Reopened(s', u, |s.socks|)
  {
    assert Fits(s', s'.threads[u]);
  }

  lemma SubscribingKept(s: State, s': State, u: nat, c: nat)
    requires SameButFor(s, s', u) && Subscribing(s, c)
    ensures Subscribing(s', c)
  {
  }

  lemma FromConnecting(s: State, c: nat, u: nat) returns (more: seq<Action>)
    requires Inv(s) && HeardInv(s) && Subscribing(s, c) && ConnectingAt(s, u)
    ensures !SubsAfterAuth(Run(s, more).log)
  {
    var tail := s.threads[u].Tail?;
    hide *;
    if tail {
      LeavesTail(s, u, c);
      var rest := FromActive(Next(s, Connect(u)), c);
      RunCons(s, Connect(u), rest);
      more := [Connect(u)] + rest;
    } else {
      var first := ToWait(s, u);
      var s' := Run(s, first);
      NewIsReopened(s, s', u);
      NewIsTheSame(s, s', u);
      SubscribingKept(s, s', u, c);
      var rest := FromWait(s', c, u, |s.socks|);
      RunConcat(s, first, rest);
      more := first + rest;
    }
  }

  lemma NewIsTheSame(s: State, s': State, u: nat)
    requires WaitsForNew(s, s', u)
    ensures SameButFor(s, s', u)
  {
    hide Inv, SameButFor;
  }

  lemma LeavesTail(s: State, u: nat, c: nat)
    requires Inv(s) && HeardInv(s) && Subscribing(s, c) && ConnectingAt(s, u) && s.threads[u].Tail?
    ensures var s' := Next(s, Connect(u));
            && Inv(s') && HeardInv(s') && Subscribing(s', c) && s'.status.Active? && !SomeoneConnects(s')
  {
    assert Fits(s, s.threads[u]);
    var s' := Next(s, Connect(u));
    assert s' == Goto(s, u, Return(s.threads[u].via));
    assert Disciplined(s, Connect(u)) by {
      assert forall t: nat :: t < |s.threads| && s.threads[t].Tail? ==> ConnectingAt(s, t);
    }
    StepKeepsInv(s, Connect(u));
    forall t: nat ensures !ConnectingAt(s', t) {
      assert t != u && ConnectingAt(s', t) ==> ConnectingAt(s, t);
    }
  }

  lemma FromActive(s: State, c: nat) returns (more: seq<Action>)
    requires Inv(s) && HeardInv(s) && Subscribing(s, c) && s.status.Active? && !SomeoneConnects(s)
    ensures !SubsAfterAuth(Run(s, more).log)
  {
    var m := s.monitorThread;
    assert c != m;
    var s0, first := Goto(s, m, Checking), if s.threads[m].Polling? then [Poll(m)] else [];
    MonitorTests(s, first);
    assert forall t: nat :: ConnectingAt(s0, t) ==> ConnectingAt(s, t);
    hide Next, Run, SubsAfterAuth;
    var rest := FromChecking(s0, c, m);
    RunConcat(s, first, rest);
    more := first + rest;
  }

  lemma MonitorTests(s: State, first: seq<Action>)
    requires Inv(s) && s.status.Active?
    requires var m := s.monitorThread; m < |s.threads| && first == if s.threads[m].Polling? then [Poll(m)] else []
    ensures Run(s, first) == Goto(s, s.monitorThread, Checking)
  {
    var m := s.monitorThread;
    if s.threads[m].Polling? {
      RunOne(s, Poll(m));
    } else {
      assert s.threads[m := Checking] == s.threads;
    }
  }

  lemma FromChecking(s: State, c: nat, m: nat) returns (more: seq<Action>)
    requires SemInv(s) && HeardInv(s) && Subscribing(s, c) && !SomeoneConnects(s)
    requires s.status.Active? || s.status.Stop?
    requires m < |s.threads| && s.threads[m].Checking? && s.ws.Some? && s.ws.value < |s.socks|
    ensures !SubsAfterAuth(Run(s, more).log)
  {
    var first := SupersedeActions(s.ws.value, m);
    SupersedeRun(s, m);
    var s' := Run(s, first);
    SupersededIsReopened(s, s', c, m);
    hide Next, Run, SubsAfterAuth, Superseded, Reopened;
    var rest := FromWait(s', c, m, |s.socks|);
    RunConcat(s, first, rest);
    more := first + rest;
  }

  lemma SupersededIsReopened(s: State, s': State, c: nat, m: nat)
    requires SemInv(s) && HeardInv(s) && Subscribing(s, c) && !SomeoneConnects(s)
    requires Superseded(s, s', m) && s.threads[m].Checking?
    ensures Reopened(s', m, |s.socks|) && Subscribing(s', c)
  {
    forall t: nat | ConnectingAt(s', t) ensures t == m {
      assert t != m ==> ConnectingAt(s, t);
    }
    assert ConnectingAt(s', m);
  }

  // ---------------------------------------------------------------- the exact condition

  /** Before the first connection nobody writes. */
  ghost predicate NobodyWritesYet(s: State) {
    s.status.Init? ==> forall t: nat :: t < |s.threads| ==> !s.threads[t].Writing?
  }

  lemma NobodyWritesKept(s: State, a: Action)
    requires Inv(s) && NobodyWritesYet(s)
    ensures NobodyWritesYet(Next(s, a))
  {
    var s' := Next(s, a);
    if IsThreadAction(a) && a.t < |s.threads| && s'.status.Init? {
      InitIsFirst(s, a);
      if a.Connect? {
        assert InConnect(s.threads[a.t]) ==> ConnectingAt(s, a.t) && Fits(s, s.threads[a.t]);
        NoWriterByConnect(s, a.t);
      } else {
        NoWriterByOthers(s, a);
      }
    }
    hide ThreadStep, Inv, Cache;
  }

  lemma InitIsFirst(s: State, a: Action)
    requires IsThreadAction(a) && a.t < |s.threads| && Next(s, a).status.Init?
    ensures s.status.Init?
  {
    assert Next(s, a) == ThreadStep(s, a);
    hide *;
    if a.Connect? {
      InitIsFirstForConnect(s, a.t);
    } else if MonitorAction(a) {
      InitIsFirstForMonitor(s, a);
    } else {
      InitIsFirstForUser(s, a);
    }
  }

  lemma InitIsFirstForMonitor(s: State, a: Action)
    requires MonitorAction(a) && !a.Connect? && a.t < |s.threads| && ThreadStep(s, a).status.Init?
    ensures s.status.Init?
  {
    hide ConnectStep;
  }

  lemma InitIsFirstForConnect(s: State, t: nat)
    requires t < |s.threads| && ThreadStep(s, Connect(t)).status.Init?
    ensures s.status.Init?
  {
    assert ThreadStep(s, Connect(t)) == ConnectStep(s, t);
    hide ThreadStep, Return, Abort;
  }

  lemma InitIsFirstForUser(s: State, a: Action)
    requires IsThreadAction(a) && !MonitorAction(a) && a.t < |s.threads| && ThreadStep(s, a).status.Init?
    ensures s.status.Init?
  {
    hide ConnectStep, CheckStep, RecoverStep, Cache, ReplayList, Resume, Abort;
  }

  lemma NoWriterByConnect(s: State, t: nat)
    requires t < |s.threads| && s.status.Init? && (InConnect(s.threads[t]) ==> Fits(s, s.threads[t]))
    requires forall u: nat :: u < |s.threads| ==> !s.threads[u].Writing?
    ensures forall u: nat :: u < |Next(s, Connect(t)).threads| ==> !Next(s, Connect(t)).threads[u].Writing?
  {
    ConnectFrame(s, t);
    assert Next(s, Connect(t)) == ConnectStep(s, t);
    assert !ConnectStep(s, t).threads[t].Writing?;
  }

  lemma NoWriterByOthers(s: State, a: Action)
    requires IsThreadAction(a) && a.t < |s.threads| && !a.Connect? && s.status.Init?
    requires forall u: nat :: u < |s.threads| ==> !s.threads[u].Writing?
    ensures forall u: nat :: u < |Next(s, a).threads| ==> !Next(s, a).threads[u].Writing?
  {
    if IsCloseAction(a) {
      assert Next(s, a) == CloseStep(s, a);
      CloseMove(s, a);
    } else if a.Timeout? || a.Poll? || a.Check? || a.Recover? {
      RestMove(s, a);
    } else {
      NoWriterByUser(s, a);
    }
    hide Next, CloseStep;
  }

  lemma NoWriterByUser(s: State, a: Action)
    requires IsThreadAction(a) && a.t < |s.threads| && !MonitorAction(a) && !IsCloseAction(a) && s.status.Init?
    requires forall u: nat :: u < |s.threads| ==> !s.threads[u].Writing?
    ensures forall u: nat :: u < |Next(s, a).threads| ==> !Next(s, a).threads[u].Writing?
  {
    hide ConnectStep, CheckStep, RecoverStep, Cache, ReplayList;
  }

  lemma {:induction false} RunKeepsNobodyWrites(s: State, actions: seq<Action>)
    requires Inv(s) && NobodyWritesYet(s) && DisciplinedRun(s, actions)
    ensures NobodyWritesYet(Run(s, actions))
    decreases actions
  {
    if actions != [] {
      StepKeepsInv(s, actions[0]);
      NobodyWritesKept(s, actions[0]);
      hide Next, Inv, NobodyWritesYet;
      RunKeepsNobodyWrites(Next(s, actions[0]), actions[1..]);
    }
  }

  lemma FromInit(s: State, c: nat) returns (more: seq<Action>)
    requires Inv(s) && HeardInv(s) && NobodyWritesYet(s) && Subscribing(s, c) && s.status.Init? && !SomeoneConnects(s)
    ensures !SubsAfterAuth(Run(s, more).log)
  {
    EntersConnect(s, c);
    hide *;
    var rest := FromConnecting(Next(s, Acquire(c)), c, c);
    RunCons(s, Acquire(c), rest);
    more := [Acquire(c)] + rest;
  }

  lemma EntersConnect(s: State, c: nat)
    requires Inv(s) && HeardInv(s) && NobodyWritesYet(s) && Subscribing(s, c) && s.status.Init? && !SomeoneConnects(s)
    ensures var s' := Next(s, Acquire(c)); Inv(s') && HeardInv(s') && Subscribing(s', c) && ConnectingAt(s', c)
  {
    assert !ConnectingAt(s, c);
    assert s.sem.Some? ==> !ConnectingAt(s, s.sem.value);
    var s' := Next(s, Acquire(c));
    assert s' == Goto(s, c, ConnTest(Sender(s.threads[c].job))).(sem := Some(c));
    assert Disciplined(s, Acquire(c)) by {
      assert forall t: nat :: t < |s.threads| && s.threads[t].Tail? ==> ConnectingAt(s, t);
    }
    StepKeepsInv(s, Acquire(c));
    hide Inv;
  }

  lemma CanGoWrong(s: State, c: nat) returns (more: seq<Action>)
    requires Inv(s) && HeardInv(s) && NobodyWritesYet(s) && Subscribing(s, c)
    requires !(s.status.Stop? && Final(s) && SafeSocket(s))
    ensures !SubsAfterAuth(Run(s, more).log)
  {
    hide SubsAfterAuth, Run, HeardInv, NobodyWritesYet, Subscribing, SemInv, ConnInv, ConnectingAt;
    if SomeoneConnects(s) {
      var u: nat :| ConnectingAt(s, u);
      more := FromConnecting(s, c, u);
    } else if s.status.Init? {
      more := FromInit(s, c);
    } else if s.status.Active? {
      more := FromActive(s, c);
    } else if !Final(s) {
      var m: nat :| m < |s.threads| && s.threads[m].Checking?;
      more := FromChecking(s, c, m);
    } else {
      StoppedOnUnauthed(s, c);
      more := WritesUnauthed(s, c, s.ws.value);
    }
  }

  lemma StoppedOnUnauthed(s: State, c: nat)
    requires Inv(s) && Subscribing(s, c) && s.status.Stop? && !SomeoneConnects(s) && !SafeSocket(s)
    ensures AboutToFail(s, c, s.ws.value)
  {
    assert forall t: nat :: !ConnectingAt(s, t);
    OutsideConnect(s, c, c);
  }

  /** When a callback is on its way to subscribe, every continuation keeps subscriptions
      behind their socket's login exactly when the manager is stopped, no thread is left to
      start it again, and the socket that is set, if any, is dead or has logged in. */
  lemma SubscribesAfterAuthExact(users: nat, run: seq<Action>, c: nat)
    requires DisciplinedRun(Start(users, true), run) && Subscribing(Run(Start(users, true), run), c)
    ensures var s := Run(Start(users, true), run);
            (forall more :: SubsAfterAuth(Run(s, more).log)) <==>
            SubsAfterAuth(s.log) && s.status.Stop? && Final(s) && SafeSocket(s)
  {
    var start := Start(users, true);
    var s := Run(start, run);
    StartInv(users, true);
    RunKeepsInv(start, run);
    RunKeepsSends(start, run);
    RunKeepsHeard(start, run);
    RunKeepsNobodyWrites(start, run);
    PrivateStaysOverRun(start, run);
    RunNone(s);
    hide Next, Inv, SendInv, HeardInv, NobodyWritesYet, Final, SafeSocket, Subscribing, SubsAfterAuth, DisciplinedRun;
    if s.status.Stop? && Final(s) && SafeSocket(s) {
      if SubsAfterAuth(s.log) {
        forall more ensures SubsAfterAuth(Run(s, more).log) {
          StaysSafe(s, more);
        }
      } else {
        assert !SubsAfterAuth(Run(s, []).log);
      }
    } else {
      var more := CanGoWrong(s, c);
      assert !SubsAfterAuth(Run(s, more).log);
    }
  }

  /** In particular, in every status but STOP a recovery can overtake the callback, whether
      it waits for the semaphore or holds it. */
  lemma CallbackMustBeUndivided(users: nat, run: seq<Action>, c: nat)
    requires DisciplinedRun(Start(users, true), run)
    requires var s := Run(Start(users, true), run); Subscribing(s, c) && !s.status.Stop?
    ensures var s := Run(Start(users, true), run); exists more :: !SubsAfterAuth(Run(s, more).log)
  {
    SubscribesAfterAuthExact(users, run, c);
    hide *;
  }
}
