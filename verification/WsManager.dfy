/** The manager object: its undivided sections as methods that update its fields, each the
    machine's step; and the replay loop of a recovery that nothing interrupts. */
module WsManager {
  import opened Options
  import opened RecoveryMachine
  import opened RecoverySteps

  /** What re-sending `subs` from id n on puts on the wire. */
  function Resent(sock: nat, t: nat, subs: seq<Msg>, n: nat): (events: seq<Event>)
    ensures |events| == |subs|
  {
    seq(|subs|, i requires 0 <= i < |subs| => Sent(sock, t, subs[i], n + i))
  }

  /** The undisturbed turns of a replay: each message is stamped, admitted and written. */
  function ReplayActions(t: nat, accepts: seq<bool>): seq<Action> {
    if accepts == [] then []
    else
      var last := |accepts| - 1;
      ReplayActions(t, accepts[..last]) + [Resend(t), Acquire(t), Write(t, accepts[last])]
  }

  lemma RunReplayTurn(s: State, accepts: seq<bool>, t: nat, accepted: bool)
    ensures Run(s, ReplayActions(t, accepts + [accepted]))
         == Next(Next(Next(Run(s, ReplayActions(t, accepts)), Resend(t)), Acquire(t)), Write(t, accepted))
  {
    hide Next;
    assert (accepts + [accepted])[..|accepts|] == accepts;
    RunConcat(s, ReplayActions(t, accepts), [Resend(t), Acquire(t), Write(t, accepted)]);
    RunThree(Run(s, ReplayActions(t, accepts)), Resend(t), Acquire(t), Write(t, accepted));
  }

  class BaseWebsocketManager {
    const isPrivate: bool
    var status: Status
    var ws: Option<nat>
    var needRecovery: bool
    var semaphore: Option<nat>
    var monitorThread: nat
    var subs: seq<Msg>
    var curId: nat
    var socks: seq<Sock>       // the network's side of the sockets
    var log: seq<Event>        // what went over them
    var threads: seq<Pc>       // where each thread is
    ghost var asserted: bool
    ghost var crashed: bool

    ghost function Snapshot(): State
      reads this
    {
      State(status, ws, socks, needRecovery, semaphore, threads, monitorThread, subs, curId, log,
            isPrivate, asserted, crashed)
    }

    constructor (users: nat, isPrivate: bool)
      ensures Snapshot() == Start(users, isPrivate)
    {
      this.isPrivate := isPrivate;
      status, ws, needRecovery, semaphore := Init, None, false, None;
      monitorThread, subs, curId, socks, log := 0, [], 0, [], [];
      threads := seq(users, _ => Outside);
      asserted, crashed := false, false;
    }

    /** `reconnect`. */
    method Reconnect()
      modifies this`needRecovery
      ensures needRecovery == (old(needRecovery) || status != Recovery)
    {
      if status == Recovery {
        return;
      }
      needRecovery := true;
    }

    /** `_wrap_callback` around a callback that closes, errs or raises. */
    method WrappedFailure(k: nat)
      modifies this`needRecovery
      ensures Snapshot() == Next(old(Snapshot()), Failure(k))
    {
      if ws == Some(k) {
        Reconnect();
      }
    }

    /** An auth success heard by socket k's callback, up to the stamped subscription. */
    method AuthMessage(k: nat)
      requires isPrivate && k < |socks|
      modifies this
      ensures Snapshot() == Next(old(Snapshot()), AuthReply(k))
      ensures ws == Some(k) ==> Sub("trade.clearing#*#0") in subs && |threads| == old(|threads|) + 1
    {
      log := log + [AuthOk(k)];
      if ws == Some(k) {
        var sub := Sub(TRADE);
        if sub !in subs {
          subs := subs + [sub];
        }
        threads := threads + [Stamped(Job(sub, curId, Callback(k)))];
        curId := curId + 1;
      }
    }

    /** The first line of `close`. */
    method SetStop(t: nat)
      requires t < |threads| && threads[t] == Outside
      modifies this`status, this`threads
      ensures Snapshot() == Next(old(Snapshot()), Action.Close(t))
      ensures t < |threads| && threads[t] == Shutting
    {
      status := Stop;
      threads := threads[t := Shutting];
    }

    /** The second: `clean` says whether closing the socket succeeds. */
    method ShutSocket(t: nat, clean: bool)
      requires t < |threads| && threads[t] == Shutting
      modifies this`socks, this`threads
      ensures Snapshot() == Next(old(Snapshot()), Shut(t, clean))
      ensures t < |threads| && threads[t] == if clean && ws.Some? then Forgetting else Outside
    {
      if clean && ws.Some? {
        if ws.value < |socks| {
          socks := socks[ws.value := Dead];
        }
        threads := threads[t := Forgetting];
      } else {
        threads := threads[t := Outside];
      }
    }

    /** The third. */
    method ForgetSocket(t: nat)
      requires t < |threads| && threads[t] == Forgetting
      modifies this`ws, this`threads
      ensures Snapshot() == Next(old(Snapshot()), Forget(t))
      ensures ws == None
    {
      ws := None;
      threads := threads[t := Outside];
    }

    /** `close` by thread t with nothing in between. */
    method Close(t: nat, clean: bool)
      requires t < |threads| && threads[t] == Outside
      modifies this
      ensures Snapshot() == Run(old(Snapshot()), [Action.Close(t), Shut(t, clean), Forget(t)])
      ensures clean ==> ws == None
    {
      ghost var was := Snapshot();
      SetStop(t);
      ShutSocket(t, clean);
      ghost var second := Snapshot();
      if threads[t] == Forgetting {
        ForgetSocket(t);
      } else {
        NothingToForget(second, t);
      }
      hide Next;
      RunThree(was, Action.Close(t), Shut(t, clean), Forget(t));
    }

    /** The test of `_monitor`, from reading the status to clearing the flag. */
    method MonitorCheck(t: nat)
      requires t < |threads| && threads[t] == Checking
      modifies this
      ensures Snapshot() == Next(old(Snapshot()), Check(t))
    {
      if status == Recovery || status == Init {
        threads := threads[t := Polling];
        return;
      }
      if ws == None {
        threads := threads[t := Ended];
        crashed := crashed || status == Active;
        return;
      }
      if !(ws.value < |socks| && socks[ws.value] == Connected) || needRecovery {
        status := Recovery;
        needRecovery := false;
        threads := threads[t := RecClose];
      } else {
        threads := threads[t := Polling];
      }
    }

    /** The first lines of `_connect`, up to the start of the new monitor thread, or the
        failure of its assertion. */
    method ConnectBegin(t: nat)
      requires t < |threads| && threads[t].Begin?
      modifies this
      ensures Snapshot() == Next(old(Snapshot()), Connect(t))
    {
      var via := threads[t].via;
      if ws.Some? {
        asserted := true;
        threads := threads[t := Abort(isPrivate, via)];
        if via.Sender? {
          semaphore := None;
        }
        return;
      }
      needRecovery := false;
      monitorThread := |threads|;
      threads := threads[t := Open(via)] + [Polling];
    }

    /** The entry of `send`: the semaphore, when it is free, and the status. */
    method EnterSend(t: nat)
      requires t < |threads|
      modifies this`threads, this`semaphore
      ensures Snapshot() == Next(old(Snapshot()), Acquire(t))
    {
      if threads[t].Stamped? && semaphore == None {
        var job := threads[t].job;
        threads := threads[t := if status == Init then ConnTest(Sender(job)) else Writing(job)];
        semaphore := Some(t);
      }
    }

    /** The rest of `send`: `if not self.ws: raise`, the write, and the semaphore's release. */
    method WriteMessage(t: nat, accepted: bool)
      requires t < |threads|
      modifies this`threads, this`semaphore, this`log
      ensures Snapshot() == Next(old(Snapshot()), Write(t, accepted))
    {
      if threads[t].Writing? {
        var job := threads[t].job;
        if accepted && ws.Some? && ws.value < |socks| && socks[ws.value] == Connected {
          log := log + [Sent(ws.value, t, job.msg, job.id)];
          threads := threads[t := Resume(job)];
        } else {
          threads := threads[t := Abort(isPrivate, Sender(job))];
        }
        semaphore := None;
      }
    }

    /** `send_json` with nothing in between. On a clear way exactly one frame goes out, with
        an id no other frame has had. */
    method SendJson(t: nat, message: Msg, asker: Asker, accepted: bool)
      requires t < |threads|
      modifies this
      ensures Snapshot() == Run(Stamp(old(Snapshot()), t, message, asker), [Acquire(t), Write(t, accepted)])
      ensures curId == old(curId) + 1
      ensures forall k :: OpenWay(old(Snapshot()), k) && accepted ==>
                log == old(log) + [Sent(k, t, message, old(curId))]
    {
      ghost var was := Snapshot();
      threads := threads[t := Stamped(Job(message, curId, asker))];
      curId := curId + 1;
      ghost var stamped := Snapshot();
      assert stamped == Stamp(was, t, message, asker);
      hide Next, Run, Stamp, OpenWay;
      UninterruptedSend(was, t, message, asker, accepted);
      EnterSend(t);
      WriteMessage(t, accepted);
      RunTwo(stamped, Acquire(t), Write(t, accepted));
    }

    /** `_start_stream` with nothing in between. */
    method StartStream(t: nat, channel: string, accepted: bool)
      requires t < |threads| && threads[t] == Outside && !isPrivate
      modifies this
      ensures Snapshot() == Run(old(Snapshot()), [Subscribe(t, channel), Acquire(t), Write(t, accepted)])
      ensures Sub(channel) in subs && old(subs) <= subs
      ensures forall k :: OpenWay(old(Snapshot()), k) && accepted ==>
                log == old(log) + [Sent(k, t, Sub(channel), old(curId))]
    {
      ghost var was := Snapshot();
      var sub := Sub(channel);
      if sub !in subs {
        subs := subs + [sub];
      }
      SendJson(t, sub, User, accepted);
      SubscribeIsStamp(was, t, channel);
      ghost var stamped := Next(was, Subscribe(t, channel));
      RunTwo(stamped, Acquire(t), Write(t, accepted));
      RunThree(was, Subscribe(t, channel), Acquire(t), Write(t, accepted));
      SubsKeptBySend(stamped, t, accepted);
    }

    /** `_reconnect_streams` of a generic manager with nothing in between: the loop over the
        cached subscriptions runs the machine's replay up to the first message that does not
        get through, and on a clear way it sends all of them, in order, with consecutive
        ids, and completes the recovery. */
    method ReconnectStreams(t: nat, accepts: seq<bool>) returns (turns: nat)
      requires t < |threads| && threads[t] == Replay(0) && !isPrivate && |accepts| == |subs|
      modifies this
      ensures turns <= |accepts| && subs == old(subs)
      ensures Snapshot() == Next(Run(old(Snapshot()), ReplayActions(t, accepts[..turns])), Resend(t))
      ensures forall k :: OpenWay(old(Snapshot()), k) && AllTrue(accepts) ==>
                && log == old(log) + Resent(k, t, old(subs), old(curId))
                && t < |threads| && threads[t] == Done(|subs|)
    {
      hide Next, Run, Stamp, OpenWay, Resent;
      ghost var was := Snapshot();
      StartsTurning(was, t, accepts);
      turns := 0;
      while turns < |subs| && threads[t] == Replay(turns)
        invariant turns <= |subs| && t < |threads| && Turning(was, Snapshot(), t, turns, accepts)
      {
        ghost var before := Snapshot();
        SendJson(t, subs[turns], ReplayAt(turns), accepts[turns]);
        TurnsOn(was, before, Snapshot(), t, turns, accepts);
        turns := turns + 1;
      }
      assert subs[..|subs|] == subs;
      LastTurn(Snapshot(), t);
      if threads[t] == Replay(|subs|) {
        threads := threads[t := Done(|subs|)];
      }
    }
  }

  lemma NothingToForget(s: State, t: nat)
    requires t < |s.threads| && s.threads[t].Outside?
    ensures Next(s, Forget(t)) == s
  {
  }

  predicate AllTrue(accepts: seq<bool>) {
    forall i :: 0 <= i < |accepts| ==> accepts[i]
  }

  /** A replay that began on a clear way has sent its first n messages and is clear. */
  ghost predicate OnCourse(was: State, s: State, t: nat, n: nat, k: nat) {
    && n <= |was.subs| && t < |s.threads| && s.threads[t] == Replay(n)
    && s.curId == was.curId + n && OpenWay(s, k)
    && s.log == was.log + Resent(k, t, was.subs[..n], was.curId)
  }

  lemma OnCourseAtStart(s: State, t: nat)
    requires t < |s.threads| && s.threads[t] == Replay(0)
    ensures forall k :: OpenWay(s, k) ==> OnCourse(s, s, t, 0, k)
  {
    assert forall k :: s.log + Resent(k, t, s.subs[..0], s.curId) == s.log;
  }

  /** After n turns of the loop, on a clear way or not. */
  ghost predicate Turning(was: State, s: State, t: nat, n: nat, accepts: seq<bool>) {
    && n <= |accepts| == |was.subs| && t < |s.threads| && s.subs == was.subs && !s.isPrivate
    && s == Run(was, ReplayActions(t, accepts[..n]))
    && (s.threads[t].Replay? ==> s.threads[t] == Replay(n))
    && forall k :: OpenWay(was, k) && AllTrue(accepts) ==> OnCourse(was, s, t, n, k)
  }

  lemma StartsTurning(s: State, t: nat, accepts: seq<bool>)
    requires t < |s.threads| && s.threads[t] == Replay(0) && !s.isPrivate && |accepts| == |s.subs|
    ensures Turning(s, s, t, 0, accepts)
  {
    RunNone(s);
    OnCourseAtStart(s, t);
    assert ReplayActions(t, accepts[..0]) == [];
    hide Run, OnCourse, OpenWay;
  }

  lemma TurnsOn(was: State, s: State, s': State, t: nat, n: nat, accepts: seq<bool>)
    requires Turning(was, s, t, n, accepts) && n < |s.subs| && s.threads[t] == Replay(n)
    requires s' == Run(Stamp(s, t, s.subs[n], ReplayAt(n)), [Acquire(t), Write(t, accepts[n])])
    ensures Turning(was, s', t, n + 1, accepts)
  {
    hide Next, Run, Stamp, OpenWay, OnCourse, ReplayActions;
    RunReplayTurn(was, accepts[..n], t, accepts[n]);
    ReplayTurn(s, t, n, accepts[n]);
    OnCourseTurn(was, s, s', t, n, accepts[n]);
    assert accepts[..n + 1] == accepts[..n] + [accepts[n]];
  }

  lemma OnCourseTurn(was: State, s: State, s': State, t: nat, n: nat, accepted: bool)
    requires n < |was.subs| && s.subs == was.subs && t < |s.threads| && s.threads[t] == Replay(n) && !s.isPrivate
    requires s' == Run(Stamp(s, t, s.subs[n], ReplayAt(n)), [Acquire(t), Write(t, accepted)])
    ensures accepted ==> forall k :: OnCourse(was, s, t, n, k) ==> OnCourse(was, s', t, n + 1, k)
  {
    ReplayTurn(s, t, n, accepted);
    UninterruptedSend(s, t, s.subs[n], ReplayAt(n), accepted);
    hide Next, Run, Stamp, OpenWay;
    if accepted {
      forall k | OnCourse(was, s, t, n, k) ensures OnCourse(was, s', t, n + 1, k) {
        assert was.subs[..n + 1] == was.subs[..n] + [was.subs[n]];
        assert Resent(k, t, was.subs[..n + 1], was.curId)
            == Resent(k, t, was.subs[..n], was.curId) + [Sent(k, t, was.subs[n], was.curId + n)];
      }
    }
  }

  /** The machine's re-sending step stamps the message at hand. */
  lemma ReplayTurn(s: State, t: nat, n: nat, accepted: bool)
    requires t < |s.threads| && s.threads[t] == Replay(n) && n < |s.subs| && !s.isPrivate
    ensures var s' := Run(Stamp(s, t, s.subs[n], ReplayAt(n)), [Acquire(t), Write(t, accepted)]);
            && s' == Next(Next(Next(s, Resend(t)), Acquire(t)), Write(t, accepted))
            && t < |s'.threads| && s'.subs == s.subs && s'.isPrivate == s.isPrivate
            && (s'.threads[t].Replay? ==> s'.threads[t] == Replay(n + 1))
            && (accepted ==> forall k :: OpenWay(s, k) ==> s'.threads[t] == Replay(n + 1) && OpenWay(s', k))
  {
    var stamped := Stamp(s, t, s.subs[n], ReplayAt(n));
    assert Next(s, Resend(t)) == stamped;
    RunTwo(stamped, Acquire(t), Write(t, accepted));
    var job := Job(s.subs[n], s.curId, ReplayAt(n));
    AdmittedAndWritten(stamped, t, job, accepted);
    hide Next, Run;
  }

  /** What admission and write do to a stamped message. */
  lemma AdmittedAndWritten(s: State, t: nat, job: Job, accepted: bool)
    requires t < |s.threads| && s.threads[t] == Stamped(job)
    ensures var s' := Next(Next(s, Acquire(t)), Write(t, accepted));
            && s'.curId == s.curId && s'.subs == s.subs && s'.isPrivate == s.isPrivate && t < |s'.threads|
            && (s'.threads[t] == Stamped(job) || s'.threads[t] == ConnTest(Sender(job)) || s'.threads[t] == Resume(job)
                || s'.threads[t] == Abort(s.isPrivate, Sender(job)))
            && forall k :: OpenWay(s, k) && accepted ==>
                 s'.log == s.log + [Sent(k, t, job.msg, job.id)] && OpenWay(s', k) && s'.threads[t] == Resume(job)
  {
    var s1 := Next(s, Acquire(t));
    Admitted(s, t, job);
    Written(s1, t, accepted);
    hide Next, Resume, Abort, OpenWay;
    forall k | OpenWay(s, k) && accepted
      ensures var s' := Next(s1, Write(t, accepted));
              s'.log == s.log + [Sent(k, t, job.msg, job.id)] && OpenWay(s', k) && s'.threads[t] == Resume(job)
    {
      ClearSend(s, s1, t, job, k);
    }
  }

  lemma Admitted(s: State, t: nat, job: Job)
    requires t < |s.threads| && s.threads[t] == Stamped(job)
    ensures var s1 := Next(s, Acquire(t));
            s1 == if s.sem.Some? then s
                  else Goto(s, t, if s.status.Init? then ConnTest(Sender(job)) else Writing(job)).(sem := Some(t))
  {
  }

  lemma Written(s: State, t: nat, accepted: bool)
    requires t < |s.threads|
    ensures var s' := Next(s, Write(t, accepted));
            && s'.curId == s.curId && s'.subs == s.subs && s'.isPrivate == s.isPrivate && t < |s'.threads|
            && (if !s.threads[t].Writing? then s' == s
                else
                  || s'.threads[t] == Resume(s.threads[t].job)
                  || s'.threads[t] == Abort(s.isPrivate, Sender(s.threads[t].job)))
  {
    assert Next(s, Write(t, accepted)) == WriteStep(s, t, accepted);
    hide Next, Resume, Abort;
  }

  lemma ClearSend(s: State, s1: State, t: nat, job: Job, k: nat)
    requires t < |s.threads| && OpenWay(s, k) && s1 == Goto(s, t, Writing(job)).(sem := Some(t))
    ensures var s' := Next(s1, Write(t, true));
            && s'.log == s.log + [Sent(k, t, job.msg, job.id)] && OpenWay(s', k)
            && t < |s'.threads| && s'.threads[t] == Resume(job)
  {
    assert Next(s1, Write(t, true)) == WriteStep(s1, t, true);
    hide Next, Resume, Abort;
  }

  lemma UninterruptedSend(s: State, t: nat, message: Msg, asker: Asker, accepted: bool)
    requires t < |s.threads|
    ensures var s' := Run(Stamp(s, t, message, asker), [Acquire(t), Write(t, accepted)]);
            && s'.curId == s.curId + 1
            && forall k :: OpenWay(s, k) && accepted ==> s'.log == s.log + [Sent(k, t, message, s.curId)]
  {
    var stamped := Stamp(s, t, message, asker);
    RunTwo(stamped, Acquire(t), Write(t, accepted));
    AdmittedAndWritten(stamped, t, Job(message, s.curId, asker), accepted);
    hide Next, Run;
  }

  lemma SubscribeIsStamp(s: State, t: nat, channel: string)
    requires t < |s.threads| && s.threads[t].Outside? && !s.isPrivate
    ensures Next(s, Subscribe(t, channel)) == Stamp(s.(subs := Cache(s.subs, Sub(channel))), t, Sub(channel), User)
    ensures Sub(channel) in Next(s, Subscribe(t, channel)).subs
  {
  }

  lemma SubsKeptBySend(s: State, t: nat, accepted: bool)
    requires t < |s.threads| && s.threads[t].Stamped?
    ensures Run(s, [Acquire(t), Write(t, accepted)]).subs == s.subs
  {
    RunTwo(s, Acquire(t), Write(t, accepted));
    AdmittedAndWritten(s, t, s.threads[t].job, accepted);
    hide Next, Run;
  }

  /** The end of the loop; a thread that is not at the end of its list does not move. */
  lemma LastTurn(s: State, t: nat)
    requires t < |s.threads| && !s.isPrivate && (s.threads[t].Replay? ==> s.threads[t] == Replay(|s.subs|))
    ensures Next(s, Resend(t)) == if s.threads[t].Replay? then Goto(s, t, Done(|s.subs|)) else s
  {
  }
}
