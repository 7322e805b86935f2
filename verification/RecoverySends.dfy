/** Ids. Every run gives out distinct ids, the stamp of an id being one step. */
module RecoverySends {
  import opened Options
  import opened RecoveryMachine
  import opened RecoverySafety
  import opened RecoveryReplay

  ghost predicate JobAt(s: State, t: nat) {
    t < |s.threads| && JobOf(s.threads[t]).Some?
  }

  function JobIn(s: State, t: nat): Job
    requires JobAt(s, t)
  {
    JobOf(s.threads[t]).value
  }

  /** Ids in use, on the wire or stamped, are distinct and were given out. */
  ghost predicate IdInv(s: State) {
    && (forall i :: 0 <= i < |s.log| && s.log[i].Sent? ==> s.log[i].id < s.curId)
    && (forall i, j :: 0 <= i < j < |s.log| && s.log[i].Sent? && s.log[j].Sent? ==> s.log[i].id != s.log[j].id)
    && (forall t: nat :: JobAt(s, t) ==> JobIn(s, t).id < s.curId)
    && (forall t: nat, u: nat :: JobAt(s, t) && JobAt(s, u) && t != u ==> JobIn(s, t).id != JobIn(s, u).id)
    && (forall t: nat, i :: JobAt(s, t) && 0 <= i < |s.log| && s.log[i].Sent? ==> s.log[i].id != JobIn(s, t).id)
  }

  /** A private manager's subscriptions come from callbacks that heard an auth success. */
  ghost predicate AskedInv(s: State) {
    s.isPrivate ==>
      forall t: nat :: JobAt(s, t) && JobIn(s, t).msg.Sub? ==>
        JobIn(s, t).asker.Callback? && AuthOk(JobIn(s, t).asker.sock) in s.log
  }

  ghost predicate SendInv(s: State) {
    IdInv(s) && AskedInv(s)
  }

  /** A thread keeps its job or drops it, and nothing is sent. */
  lemma SendsKeptByMove(s: State, s': State, t: nat)
    requires SendInv(s) && OnlyMoves(s, s', t) && s'.curId == s.curId
    requires JobOf(s'.threads[t]) == JobOf(s.threads[t]) || JobOf(s'.threads[t]).None?
    ensures SendInv(s')
  {
    forall u: nat | JobAt(s', u) ensures JobAt(s, u) && JobIn(s', u) == JobIn(s, u) {
    }
  }

  /** A thread without a job gets one with the next id. */
  lemma SendsKeptByStamp(s: State, s': State, t: nat, job: Job)
    requires SendInv(s) && t < |s.threads|
    requires s'.threads == s.threads[t := Stamped(job)] && JobOf(s.threads[t]).None?
    requires job.id == s.curId && s'.curId == s.curId + 1 && s'.log == s.log && s'.isPrivate == s.isPrivate
    requires s.isPrivate ==> !job.msg.Sub?
    ensures SendInv(s')
  {
    assert JobIn(s', t) == job;
    forall u: nat | JobAt(s', u) && u != t ensures JobAt(s, u) && JobIn(s', u) == JobIn(s, u) {
    }
  }

  lemma SendsKeptByWrite(s: State, t: nat, accepted: bool)
    requires SendInv(s) && t < |s.threads|
    ensures SendInv(WriteStep(s, t, accepted))
  {
    var s', pc := WriteStep(s, t, accepted), s.threads[t];
    if pc.Writing? {
      assert JobAt(s, t) && JobIn(s, t) == pc.job;
      assert JobOf(s'.threads[t]).None?;
      forall u: nat | JobAt(s', u) ensures JobAt(s, u) && JobIn(s', u) == JobIn(s, u) && u != t {
      }
    }
  }

  /** An auth success in the log, and perhaps a callback's thread with the next id. */
  lemma SendsKeptByAuth(s: State, k: nat)
    requires SendInv(s)
    ensures SendInv(AuthStep(s, k))
  {
    hide Cache;
    var s' := AuthStep(s, k);
    forall u: nat | JobAt(s', u) && u < |s.threads| ensures JobAt(s, u) && JobIn(s', u) == JobIn(s, u) {
    }
  }

  lemma SendsKeptByQuiet(s: State, s': State)
    requires SendInv(s)
    requires s'.threads == s.threads && s'.log == s.log && s'.curId == s.curId && s'.isPrivate == s.isPrivate
    ensures SendInv(s')
  {
    assert forall u: nat :: JobAt(s', u) <==> JobAt(s, u);
  }

  lemma SendsKeptByConnect(s: State, t: nat)
    requires SendInv(s) && t < |s.threads|
    ensures SendInv(ConnectStep(s, t))
  {
    ConnectMove(s, t);
    ConnectFrame(s, t);
    ConnectCurId(s, t);
    hide ConnectStep, SendInv;
    SendsKeptByMove(s, ConnectStep(s, t), t);
  }

  lemma ConnectCurId(s: State, t: nat)
    requires t < |s.threads|
    ensures ConnectStep(s, t).curId == s.curId
  {
  }

  lemma SendsKeptByRest(s: State, a: Action)
    requires SendInv(s) && IsThreadAction(a) && a.t < |s.threads|
    requires a.Acquire? || a.Timeout? || a.Poll? || a.Check? || a.Recover?
    ensures SendInv(Next(s, a))
  {
    RestMove(s, a);
    RestCurId(s, a);
    hide Next, SendInv;
    SendsKeptByMove(s, Next(s, a), a.t);
  }

  lemma RestCurId(s: State, a: Action)
    requires IsThreadAction(a) && a.t < |s.threads|
    requires a.Acquire? || a.Timeout? || a.Poll? || a.Check? || a.Recover?
    ensures Next(s, a).curId == s.curId
  {
  }

  lemma SendsKeptByResend(s: State, t: nat)
    requires SendInv(s) && t < |s.threads|
    ensures SendInv(ResendStep(s, t))
  {
    hide SendInv;
    var s' := ResendStep(s, t);
    if s'.threads[t].Stamped? && s.threads[t].Replay? {
      SendsKeptByStamp(s, s', t, s'.threads[t].job);
    } else {
      SendsKeptByMove(s, s', t);
    }
  }

  lemma SendsKeptByUser(s: State, a: Action)
    requires SendInv(s) && IsThreadAction(a) && a.t < |s.threads|
    requires a.Subscribe? || a.SendLogin? || a.SendOther?
    ensures SendInv(Next(s, a))
  {
    hide SendInv, Cache;
    var s' := Next(s, a);
    if s' != s {
      SendsKeptByStamp(s, s', a.t, s'.threads[a.t].job);
    }
  }

  lemma SendsKeptByClose(s: State, a: Action)
    requires SendInv(s) && IsCloseAction(a) && a.t < |s.threads|
    ensures SendInv(CloseStep(s, a))
  {
    CloseMove(s, a);
    CloseFrame(s, a);
    hide CloseStep, SendInv;
    SendsKeptByMove(s, CloseStep(s, a), a.t);
  }

  lemma SendsKept(s: State, a: Action)
    requires SendInv(s)
    ensures SendInv(Next(s, a))
  {
    hide SendInv, WriteStep, ConnectStep, ResendStep, AuthStep;
    match a
    case AuthReply(k) => SendsKeptByAuth(s, k);
    case SockUp(_) => SendsKeptByQuiet(s, Next(s, a));
    case SockDown(_) => SendsKeptByQuiet(s, Next(s, a));
    case Failure(_) => SendsKeptByQuiet(s, Next(s, a));
    case _ =>
      if a.t < |s.threads| {
        SendsKeptByThread(s, a);
      }
  }

  lemma SendsKeptByThread(s: State, a: Action)
    requires SendInv(s) && IsThreadAction(a) && a.t < |s.threads|
    ensures SendInv(Next(s, a))
  {
    hide SendInv, WriteStep, ConnectStep, ResendStep, CloseStep;
    match a
    case Write(t, accepted) => SendsKeptByWrite(s, t, accepted);
    case Connect(t) => SendsKeptByConnect(s, t);
    case Resend(t) => SendsKeptByResend(s, t);
    case Subscribe(_, _) => SendsKeptByUser(s, a);
    case SendLogin(_) => SendsKeptByUser(s, a);
    case SendOther(_, _) => SendsKeptByUser(s, a);
    case Close(_) => SendsKeptByClose(s, a);
    case Shut(_, _) => SendsKeptByClose(s, a);
    case Forget(_) => SendsKeptByClose(s, a);
    case _ => SendsKeptByRest(s, a);
  }

  lemma {:induction false} RunKeepsSends(s: State, actions: seq<Action>)
    requires SendInv(s)
    ensures SendInv(Run(s, actions))
    decreases actions
  {
    if actions != [] {
      SendsKept(s, actions[0]);
      hide Next, SendInv;
      RunKeepsSends(Next(s, actions[0]), actions[1..]);
    }
  }

  /** No two messages of a run carry the same id, whichever threads and sockets sent them. */
  lemma IdsAreNeverReused(users: nat, isPrivate: bool, run: seq<Action>, i: nat, j: nat)
    requires var log := Run(Start(users, isPrivate), run).log;
             i < j < |log| && log[i].Sent? && log[j].Sent?
    ensures var log := Run(Start(users, isPrivate), run).log; log[i].id != log[j].id
  {
    RunKeepsSends(Start(users, isPrivate), run);
  }
}
