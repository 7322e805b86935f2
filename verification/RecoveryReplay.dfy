/** What recoveries re-send, over every run with no assumption on scheduling: a generic
    manager's repeat the cached subscriptions, a private Huobi manager's log in. */
module RecoveryReplay {
  import opened Options
  import opened RecoveryMachine
  import opened RecoverySafety

  // ---------------------------------------------------------------- replayed subscriptions

  /** The messages this thread has got through, in order. */
  function SentBy(log: seq<Event>, t: nat): seq<Msg> {
    if log == [] then []
    else
      var e := log[|log| - 1];
      SentBy(log[..|log| - 1], t) + if e.Sent? && e.sender == t then [e.msg] else []
  }

  lemma SentByMore(log: seq<Event>, e: Event, t: nat)
    ensures SentBy(log + [e], t) == SentBy(log, t) + if e.Sent? && e.sender == t then [e.msg] else []
  {
    assert (log + [e])[..|log|] == log;
  }

  /** A position of a monitor thread's life: watching and recovering before it has sent
      anything, at replay position i, or ended with an error. Users are elsewhere. */
  datatype Stage = NotMonitor | Before | At(index: nat) | Failed

  function StageOf(pc: Pc): Stage {
    match pc
    case Polling => Before
    case Checking => Before
    case RecClose => Before
    case RecNull => Before
    case Replay(i) => At(i)
    case Done(n) => At(n)
    case Ended => Stage.Failed
    case Outside => NotMonitor
    case Shutting => NotMonitor
    case Forgetting => NotMonitor
    case Stamped(job) => StageOfJob(job)
    case Writing(job) => StageOfJob(job)
    case _ => if pc.via.Sender? then StageOfJob(pc.via.job) else Before
  }

  function StageOfJob(job: Job): Stage {
    match job.asker
    case User => NotMonitor
    case ReplayAt(i) => At(i)
    case Callback(_) => NotMonitor
  }

  /** A thread at replay position i has sent the first i of the list and holds the next. */
  ghost predicate ReplayFits(s: State, t: nat)
    requires t < |s.threads|
  {
    var pc := s.threads[t];
    && (StageOf(pc).Before? ==> SentBy(s.log, t) == [])
    && (StageOf(pc).At? ==> AtFits(ReplayList(s), SentBy(s.log, t), StageOf(pc).index, JobOf(pc)))
  }

  predicate AtFits(list: seq<Msg>, sent: seq<Msg>, i: nat, job: Option<Job>) {
    && i <= |list| && sent == list[..i]
    && (job.Some? ==> i < |list| && job.value.msg == list[i])
  }

  ghost predicate NoDuplicates(subs: seq<Msg>) {
    forall i, j :: 0 <= i < j < |subs| ==> subs[i] != subs[j]
  }

  ghost predicate ReplayInv(s: State) {
    && (forall t: nat :: t < |s.threads| ==> ReplayFits(s, t))
    && (forall e :: e in s.log && e.Sent? ==> e.sender < |s.threads|)
    && NoDuplicates(s.subs)
  }

  lemma {:induction false} SentByNone(log: seq<Event>, t: nat)
    requires forall e :: e in log && e.Sent? ==> e.sender != t
    ensures SentBy(log, t) == []
  {
    if log != [] {
      SentByNone(log[..|log| - 1], t);
    }
  }

  /** Another thread's move, new cached subscriptions and other senders' messages do not
      disturb a replay. */
  lemma UndisturbedReplay(s: State, s': State, u: nat)
    requires u < |s.threads| && u < |s'.threads| && ReplayFits(s, u)
    requires s'.threads[u] == s.threads[u] && s'.isPrivate == s.isPrivate
    requires s.subs <= s'.subs
    requires SentBy(s'.log, u) == SentBy(s.log, u)
    ensures ReplayFits(s', u)
  {
    assert ReplayList(s) <= ReplayList(s');
  }

  lemma CacheGrows(subs: seq<Msg>, sub: Msg)
    requires NoDuplicates(subs)
    ensures subs <= Cache(subs, sub) && NoDuplicates(Cache(subs, sub)) && sub in Cache(subs, sub)
  {
  }

  /** A step that leaves the threads alone and sends nothing for them. */
  lemma ReplayKeptByQuiet(s: State, s': State)
    requires ReplayInv(s)
    requires s'.threads == s.threads && s'.isPrivate == s.isPrivate
    requires s.subs <= s'.subs && NoDuplicates(s'.subs)
    requires forall u: nat :: u < |s.threads| ==> SentBy(s'.log, u) == SentBy(s.log, u)
    requires forall e :: e in s'.log && e.Sent? ==> e in s.log
    ensures ReplayInv(s')
  {
    forall u: nat | u < |s.threads| ensures ReplayFits(s', u) {
      UndisturbedReplay(s, s', u);
    }
  }

  lemma ReplayKeptByAuth(s: State, k: nat)
    requires ReplayInv(s)
    ensures ReplayInv(AuthStep(s, k))
  {
    hide SentBy;
    var s' := AuthStep(s, k);
    CacheGrows(s.subs, Sub(TRADE));
    forall u: nat | u < |s'.threads| ensures ReplayFits(s', u) {
      SentByMore(s.log, AuthOk(k), u);
      if u < |s.threads| {
        hide Cache, NoDuplicates, AtFits;
        UndisturbedReplay(s, s', u);
      }
    }
  }

  lemma ReplayKeptByEnvironment(s: State, a: Action)
    requires ReplayInv(s) && !IsThreadAction(a)
    ensures ReplayInv(Next(s, a))
  {
    if a.AuthReply? {
      ReplayKeptByAuth(s, a.k);
    } else {
      ReplayKeptByQuiet(s, Next(s, a));
    }
  }

  /** The same place in the replay, or out of it, or about to start it. */
  predicate StageKept(was: Pc, now: Pc) {
    || (StageOf(now) == StageOf(was) && (JobOf(now) == JobOf(was) || JobOf(now).None?))
    || StageOf(now).NotMonitor? || StageOf(now).Failed?
    || (StageOf(was).Before? && now == Replay(0))
  }

  /** A thread moves, perhaps starting a monitor, and nothing is sent. */
  lemma ReplayKeptByMove(s: State, s': State, t: nat)
    requires ReplayInv(s) && t < |s.threads| <= |s'.threads|
    requires forall u :: 0 <= u < |s.threads| && u != t ==> s'.threads[u] == s.threads[u]
    requires forall u :: |s.threads| <= u < |s'.threads| ==> s'.threads[u] == Polling
    requires s'.log == s.log && s'.isPrivate == s.isPrivate
    requires s.subs <= s'.subs && NoDuplicates(s'.subs)
    requires StageKept(s.threads[t], s'.threads[t]) || ReplayFits(s', t)
    ensures ReplayInv(s')
  {
    assert ReplayFits(s, t) && ReplayList(s) <= ReplayList(s');
    forall u: nat | u < |s'.threads| ensures ReplayFits(s', u) {
      if u < |s.threads| && u != t {
        UndisturbedReplay(s, s', u);
      } else if u != t {
        SentByNone(s.log, u);
      }
    }
  }

  lemma ReplayKeptByWrite(s: State, t: nat, accepted: bool)
    requires ReplayInv(s) && t < |s.threads|
    ensures ReplayInv(WriteStep(s, t, accepted))
  {
    hide SentBy, NoDuplicates;
    var s', pc := WriteStep(s, t, accepted), s.threads[t];
    if pc.Writing? && s'.log != s.log {
      var e := s'.log[|s.log|];
      forall u: nat | u < |s.threads| ensures ReplayFits(s', u) {
        SentByMore(s.log, e, u);
        if u != t {
          UndisturbedReplay(s, s', u);
        } else {
          assert ReplayFits(s, t);
        }
      }
    } else {
      ReplayKeptByMove(s, s', t);
    }
  }

  lemma ReplayKeptByResend(s: State, t: nat)
    requires ReplayInv(s) && t < |s.threads|
    ensures ReplayInv(ResendStep(s, t))
  {
    assert ReplayFits(s, t);
    ReplayKeptByMove(s, ResendStep(s, t), t);
  }

  lemma StageInConnect(was: Pc, now: Pc)
    requires InConnect(was)
    ensures InConnect(now) && now.via == was.via ==> StageKept(was, now)
    ensures StageKept(was, Return(was.via))
    ensures StageKept(was, Abort(false, was.via)) && StageKept(was, Abort(true, was.via))
  {
  }

  lemma StageStays(pc: Pc)
    ensures StageKept(pc, pc)
  {
  }

  /** What a step inside `connect` makes of its thread. */
  predicate ConnectMoved(s: State, was: Pc, now: Pc) {
    || now == was
    || (InConnect(was) && (now == Return(was.via) || now == Abort(s.isPrivate, was.via)))
    || (InConnect(was) && InConnect(now) && now.via == was.via)
  }

  lemma ConnectMove(s: State, t: nat)
    requires t < |s.threads|
    ensures ConnectMoved(s, s.threads[t], ConnectStep(s, t).threads[t])
  {
    if s.threads[t].Begin? {
      BeginMove(s, t);
    }
    hide BeginStep, Return, Abort;
  }

  lemma BeginMove(s: State, t: nat)
    requires t < |s.threads| && s.threads[t].Begin?
    ensures ConnectMoved(s, s.threads[t], BeginStep(s, t, s.threads[t].via).threads[t])
  {
    hide Return, Abort;
  }

  lemma ConnectStage(s: State, t: nat)
    requires t < |s.threads|
    ensures StageKept(s.threads[t], ConnectStep(s, t).threads[t])
  {
    hide StageKept, ConnectStep, Return, Abort;
    ConnectMove(s, t);
    ConnectFrame(s, t);
    StageStays(s.threads[t]);
    if InConnect(s.threads[t]) {
      StageInConnect(s.threads[t], ConnectStep(s, t).threads[t]);
    }
  }

  /** Only thread t moves, monitors may be added, and nothing is sent or cached. */
  ghost predicate OnlyMoves(s: State, s': State, t: nat) {
    && t < |s.threads| <= |s'.threads|
    && (forall u :: 0 <= u < |s.threads| && u != t ==> s'.threads[u] == s.threads[u])
    && (forall u :: |s.threads| <= u < |s'.threads| ==> s'.threads[u] == Polling)
    && s'.log == s.log && s'.isPrivate == s.isPrivate && s'.subs == s.subs
  }

  lemma BeginFrame(s: State, t: nat, via: Caller)
    requires t < |s.threads|
    ensures OnlyMoves(s, BeginStep(s, t, via), t)
  {
  }

  lemma ConnectFrame(s: State, t: nat)
    requires t < |s.threads|
    ensures OnlyMoves(s, ConnectStep(s, t), t)
  {
    if s.threads[t].Begin? {
      BeginFrame(s, t, s.threads[t].via);
    }
    hide BeginStep, Return;
  }

  lemma ReplayKeptByConnect(s: State, t: nat)
    requires ReplayInv(s) && t < |s.threads|
    ensures ReplayInv(ConnectStep(s, t))
  {
    assert NoDuplicates(s.subs);
    ConnectStage(s, t);
    ConnectFrame(s, t);
    hide ReplayInv, ReplayFits, NoDuplicates, StageKept, ConnectStep;
    ReplayKeptByMove(s, ConnectStep(s, t), t);
  }

  lemma ReplayKeptByUser(s: State, a: Action)
    requires ReplayInv(s) && IsThreadAction(a) && a.t < |s.threads|
    requires a.Subscribe? || a.SendLogin? || a.SendOther?
    ensures ReplayInv(Next(s, a))
  {
    assert NoDuplicates(s.subs);
    if a.Subscribe? {
      CacheGrows(s.subs, Sub(a.channel));
    }
    UserFrame(s, a);
    hide ReplayInv, ReplayFits, NoDuplicates, Cache, Next, StageOf, JobOf;
    ReplayKeptByMove(s, Next(s, a), a.t);
  }

  lemma UserFrame(s: State, a: Action)
    requires (a.Subscribe? || a.SendLogin? || a.SendOther?) && a.t < |s.threads|
    ensures var s' := Next(s, a);
            && |s'.threads| == |s.threads| && s'.threads == s.threads[a.t := s'.threads[a.t]]
            && s'.log == s.log && s'.isPrivate == s.isPrivate && StageKept(s.threads[a.t], s'.threads[a.t])
            && (s'.subs == s.subs || (a.Subscribe? && s'.subs == Cache(s.subs, Sub(a.channel))))
  {
    hide Cache, AcquireStep, WriteStep, ConnectStep, CheckStep, RecoverStep, ResendStep, CloseStep;
  }

  /** A monitor that has not entered `connect`, or only just. */
  predicate Early(pc: Pc) {
    pc.Polling? || pc.Checking? || pc.RecClose? || pc.RecNull? || pc == ConnTest(Monitor)
  }

  predicate PlainMove(was: Pc, now: Pc) {
    || now == was || now == Ended
    || (Early(was) && Early(now))
    || (was.Stamped? && (now == Writing(was.job) || now == ConnTest(Sender(was.job))))
    || (was.Wait? && now == Loop(was.via))
  }

  lemma AcquireMove(s: State, t: nat)
    requires t < |s.threads|
    ensures var s' := AcquireStep(s, t); OnlyMoves(s, s', t) && PlainMove(s.threads[t], s'.threads[t])
  {
  }

  lemma CheckMove(s: State, t: nat)
    requires t < |s.threads|
    ensures var s' := CheckStep(s, t); OnlyMoves(s, s', t) && PlainMove(s.threads[t], s'.threads[t])
  {
  }

  lemma RecoverMove(s: State, t: nat)
    requires t < |s.threads|
    ensures var s' := RecoverStep(s, t); OnlyMoves(s, s', t) && PlainMove(s.threads[t], s'.threads[t])
  {
  }

  lemma OtherMove(s: State, a: Action)
    requires (a.Timeout? || a.Poll?) && a.t < |s.threads|
    ensures var s' := Next(s, a); OnlyMoves(s, s', a.t) && PlainMove(s.threads[a.t], s'.threads[a.t])
  {
  }

  lemma RestMove(s: State, a: Action)
    requires IsThreadAction(a) && a.t < |s.threads|
    requires a.Acquire? || a.Timeout? || a.Poll? || a.Check? || a.Recover?
    ensures var s' := Next(s, a); OnlyMoves(s, s', a.t) && PlainMove(s.threads[a.t], s'.threads[a.t])
  {
    hide AcquireStep, CheckStep, RecoverStep, OnlyMoves, PlainMove;
    match a
    case Acquire(t) => AcquireMove(s, t);
    case Check(t) => CheckMove(s, t);
    case Recover(t) => RecoverMove(s, t);
    case _ => OtherMove(s, a);
  }

  lemma RestStage(was: Pc, now: Pc)
    requires PlainMove(was, now)
    ensures StageKept(was, now)
  {
  }

  lemma ReplayKeptByRest(s: State, a: Action)
    requires ReplayInv(s) && IsThreadAction(a) && a.t < |s.threads|
    requires a.Acquire? || a.Timeout? || a.Poll? || a.Check? || a.Recover?
    ensures ReplayInv(Next(s, a))
  {
    assert NoDuplicates(s.subs);
    hide ReplayInv, ReplayFits, NoDuplicates, StageKept, Next, StageOf, JobOf;
    RestMove(s, a);
    RestStage(s.threads[a.t], Next(s, a).threads[a.t]);
    ReplayKeptByMove(s, Next(s, a), a.t);
  }

  lemma ReplayKeptByClose(s: State, a: Action)
    requires ReplayInv(s) && IsCloseAction(a) && a.t < |s.threads|
    ensures ReplayInv(CloseStep(s, a))
  {
    assert NoDuplicates(s.subs);
    CloseMove(s, a);
    hide ReplayInv, ReplayFits, NoDuplicates, CloseStep;
    StageStays(s.threads[a.t]);
    ReplayKeptByMove(s, CloseStep(s, a), a.t);
  }

  lemma CloseMove(s: State, a: Action)
    requires IsCloseAction(a) && a.t < |s.threads|
    ensures var s' := CloseStep(s, a); var now := s'.threads[a.t];
            OnlyMoves(s, s', a.t) && (now == s.threads[a.t] || now.Shutting? || now.Forgetting? || now.Outside?)
  {
    var s' := CloseStep(s, a);
    CloseFrame(s, a);
    assert s'.threads == s.threads[a.t := s'.threads[a.t]];
    hide CloseStep;
  }

  lemma CloseFrame(s: State, a: Action)
    requires IsCloseAction(a) && a.t < |s.threads|
    ensures var s' := CloseStep(s, a);
            && |s'.threads| == |s.threads| && s'.threads == s.threads[a.t := s'.threads[a.t]]
            && s'.log == s.log && s'.isPrivate == s.isPrivate && s'.subs == s.subs && s'.curId == s.curId
            && |s'.socks| == |s.socks|
    ensures var now := CloseStep(s, a).threads[a.t];
            now == s.threads[a.t] || now.Shutting? || now.Forgetting? || now.Outside?
  {
    if a.Shut? {
      ShutFrame(s, a.t, a.clean);
    }
    hide ShutStep;
  }

  lemma ShutFrame(s: State, t: nat, clean: bool)
    requires t < |s.threads|
    ensures var s' := ShutStep(s, t, clean);
            && |s'.threads| == |s.threads| && s'.threads == s.threads[t := s'.threads[t]]
            && s'.log == s.log && s'.isPrivate == s.isPrivate && s'.subs == s.subs && s'.curId == s.curId
            && |s'.socks| == |s.socks|
            && (s'.threads[t] == s.threads[t] || s'.threads[t].Forgetting? || s'.threads[t].Outside?)
  {
  }

  lemma ReplayKept(s: State, a: Action)
    requires ReplayInv(s)
    ensures ReplayInv(Next(s, a))
  {
    hide ReplayInv, WriteStep, ConnectStep, ResendStep, CloseStep;
    if !IsThreadAction(a) {
      ReplayKeptByEnvironment(s, a);
    } else if a.t < |s.threads| {
      match a
      case Write(t, accepted) => ReplayKeptByWrite(s, t, accepted);
      case Connect(t) => ReplayKeptByConnect(s, t);
      case Resend(t) => ReplayKeptByResend(s, t);
      case Acquire(_) => ReplayKeptByRest(s, a);
      case Timeout(_) => ReplayKeptByRest(s, a);
      case Poll(_) => ReplayKeptByRest(s, a);
      case Check(_) => ReplayKeptByRest(s, a);
      case Recover(_) => ReplayKeptByRest(s, a);
      case Close(_) => ReplayKeptByClose(s, a);
      case Shut(_, _) => ReplayKeptByClose(s, a);
      case Forget(_) => ReplayKeptByClose(s, a);
      case _ => ReplayKeptByUser(s, a);
    }
  }

  lemma {:induction false} RunKeepsReplay(s: State, actions: seq<Action>)
    requires ReplayInv(s)
    ensures ReplayInv(Run(s, actions))
    decreases actions
  {
    if actions != [] {
      ReplayKept(s, actions[0]);
      RunKeepsReplay(Next(s, actions[0]), actions[1..]);
    }
  }

  /** The step completes the recovery of thread t. */
  predicate Completes(s: State, a: Action, t: nat) {
    && t < |s.threads| && !s.threads[t].Done?
    && t < |Next(s, a).threads| && Next(s, a).threads[t].Done?
  }

  /** When a generic manager's recovery completes, its thread has sent exactly the cached
      subscriptions, in order, each once, and the cache is as it was. */
  lemma CompletedRecoveryReplaysAll(users: nat, run: seq<Action>, a: Action, t: nat)
    requires Completes(Run(Start(users, false), run), a, t)
    ensures var s := Run(Start(users, false), run);
            SentBy(Next(s, a).log, t) == s.subs && NoDuplicates(s.subs) && Next(s, a).subs == s.subs
  {
    var s := Run(Start(users, false), run);
    RunKeepsReplay(Start(users, false), run);
    PrivateStaysOverRun(Start(users, false), run);
    HowItCompletes(s, a, t);
    assert ReplayFits(s, t);
    assert s.subs[..|s.subs|] == s.subs;
  }

  /** A generic recovery completes at the end of its list; a private one there, or where an
      exception meets its login. */
  lemma HowItCompletes(s: State, a: Action, t: nat)
    requires Completes(s, a, t)
    ensures IsThreadAction(a) && a.t == t && Next(s, a).log == s.log && Next(s, a).subs == s.subs
    ensures a.Resend? ==> s.threads[t].Replay? && s.threads[t].index >= |ReplayList(s)|
    ensures !a.Resend? ==> s.isPrivate && JobOf(s.threads[t]).Some? && JobOf(s.threads[t]).value.asker.ReplayAt?
  {
    if IsThreadAction(a) && a.t < |s.threads| {
      CompletedByThread(s, a, t);
    }
    hide ThreadStep, JobOf, ReplayList;
  }

  /** The shape of a completing step. */
  predicate CompletedSo(s: State, s': State, a: Action, t: nat)
    requires IsThreadAction(a) && t < |s.threads|
  {
    && a.t == t && s'.log == s.log && s'.subs == s.subs
    && (if a.Resend? then s.threads[t].Replay? && s.threads[t].index >= |ReplayList(s)|
        else s.isPrivate && JobOf(s.threads[t]).Some? && JobOf(s.threads[t]).value.asker.ReplayAt?)
  }

  lemma CompletedByThread(s: State, a: Action, t: nat)
    requires IsThreadAction(a) && a.t < |s.threads| && t < |s.threads| && !s.threads[t].Done?
    requires t < |ThreadStep(s, a).threads| && ThreadStep(s, a).threads[t].Done?
    ensures CompletedSo(s, ThreadStep(s, a), a, t)
  {
    hide WriteStep, ConnectStep, ResendStep, CloseStep, CompletedSo, AcquireStep, CheckStep, RecoverStep;
    match a
    case Write(_, _) => CompletedByWrite(s, a, t);
    case Connect(_) => CompletedByConnect(s, a, t);
    case Resend(_) => CompletedByResend(s, a, t);
    case Close(_) => CloseMove(s, a);
    case Shut(_, _) => CloseMove(s, a);
    case Forget(_) => CloseMove(s, a);
    case Subscribe(_, _) =>
    case SendLogin(_) =>
    case SendOther(_, _) =>
    case _ => RestMove(s, a);
  }

  lemma CompletedByWrite(s: State, a: Action, t: nat)
    requires a.Write? && a.t < |s.threads| && t < |s.threads| && !s.threads[t].Done?
    requires WriteStep(s, a.t, a.accepted).threads[t].Done?
    ensures CompletedSo(s, WriteStep(s, a.t, a.accepted), a, t)
  {
  }

  lemma CompletedByConnect(s: State, a: Action, t: nat)
    requires a.Connect? && a.t < |s.threads| && t < |s.threads| && !s.threads[t].Done?
    requires t < |ConnectStep(s, a.t).threads| && ConnectStep(s, a.t).threads[t].Done?
    ensures CompletedSo(s, ConnectStep(s, a.t), a, t)
  {
    ConnectMove(s, a.t);
    ConnectFrame(s, a.t);
    hide ConnectStep;
  }

  lemma CompletedByResend(s: State, a: Action, t: nat)
    requires a.Resend? && a.t < |s.threads| && t < |s.threads| && !s.threads[t].Done?
    requires ResendStep(s, a.t).threads[t].Done?
    ensures CompletedSo(s, ResendStep(s, a.t), a, t)
  {
  }

  lemma {:induction false} PrivateStaysOverRun(s: State, actions: seq<Action>)
    ensures Run(s, actions).isPrivate == s.isPrivate
    decreases actions
  {
    if actions != [] {
      PrivateStays(s, actions[0]);
      hide Next;
      PrivateStaysOverRun(Next(s, actions[0]), actions[1..]);
    }
  }

  lemma PrivateStays(s: State, a: Action)
    ensures Next(s, a).isPrivate == s.isPrivate
  {
    if IsThreadAction(a) && a.t < |s.threads| {
      ThreadKeepsPrivate(s, a);
    }
    hide ThreadStep;
  }

  lemma ThreadKeepsPrivate(s: State, a: Action)
    requires IsThreadAction(a) && a.t < |s.threads|
    ensures ThreadStep(s, a).isPrivate == s.isPrivate
  {
    if a.Connect? {
      ConnectFrame(s, a.t);
    } else if a.Acquire? || a.Timeout? || a.Poll? || a.Check? || a.Recover? {
      RestMove(s, a);
    }
    hide ConnectStep, AcquireStep, CheckStep, RecoverStep;
  }

  /** A private Huobi manager's completed recovery has sent its login, or nothing; it has
      sent the login exactly when it completed at the end of its list. */
  lemma CompletedPrivateRecovery(users: nat, run: seq<Action>, a: Action, t: nat)
    requires Completes(Run(Start(users, true), run), a, t)
    ensures var s' := Next(Run(Start(users, true), run), a);
            SentBy(s'.log, t) == if a.Resend? then [Login] else []
  {
    var s := Run(Start(users, true), run);
    RunKeepsReplay(Start(users, true), run);
    PrivateStaysOverRun(Start(users, true), run);
    HowItCompletes(s, a, t);
    assert ReplayFits(s, t);
    assert [Login][..1] == [Login];
  }

  /** The login's write decides: the recovery completes either way, and has sent its login
      exactly when the write met a live socket that accepted it. */
  lemma LoginSentExact(users: nat, run: seq<Action>, t: nat, accepted: bool)
    requires var s := Run(Start(users, true), run);
             t < |s.threads| && s.threads[t].Writing? && s.threads[t].job.asker.ReplayAt?
    ensures var s := Run(Start(users, true), run); var end := Run(s, [Write(t, accepted), Resend(t)]);
            && t < |end.threads| && end.threads[t].Done?
            && (SentBy(end.log, t) == [Login] <==> accepted && Live(s))
            && (SentBy(end.log, t) == [] <==> !(accepted && Live(s)))
  {
    var s := Run(Start(users, true), run);
    RunKeepsReplay(Start(users, true), run);
    PrivateStaysOverRun(Start(users, true), run);
    RunTwo(s, Write(t, accepted), Resend(t));
    assert ReplayFits(s, t);
    LoginWritten(s, t, accepted);
  }

  lemma LoginWritten(s: State, t: nat, accepted: bool)
    requires t < |s.threads| && s.threads[t].Writing? && s.threads[t].job.asker == ReplayAt(0) && s.isPrivate
    requires s.threads[t].job.msg == Login && SentBy(s.log, t) == []
    ensures var end := Next(Next(s, Write(t, accepted)), Resend(t));
            && t < |end.threads| && end.threads[t].Done?
            && SentBy(end.log, t) == if accepted && Live(s) then [Login] else []
  {
    var s1 := Next(s, Write(t, accepted));
    if accepted && Live(s) {
      var e := Sent(s.ws.value, t, Login, s.threads[t].job.id);
      assert s1 == Goto(s, t, Replay(1)).(sem := None, log := s.log + [e]);
      SentByMore(s.log, e, t);
      hide SentBy;
      assert Next(s1, Resend(t)) == Goto(s1, t, Done(1));
    } else {
      assert s1 == Goto(s, t, Done(0)).(sem := None);
    }
  }

  /** At any time a recovering thread has sent an initial part of what there is to re-send,
      and nothing else. */
  lemma ReplayIsAPrefix(users: nat, isPrivate: bool, run: seq<Action>, t: nat)
    requires var s := Run(Start(users, isPrivate), run);
             t < |s.threads| && (StageOf(s.threads[t]).Before? || StageOf(s.threads[t]).At?)
    ensures var s := Run(Start(users, isPrivate), run); SentBy(s.log, t) <= ReplayList(s)
  {
    RunKeepsReplay(Start(users, isPrivate), run);
    assert ReplayFits(Run(Start(users, isPrivate), run), t);
  }
}
