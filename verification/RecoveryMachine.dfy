/** The websocket manager as a machine of atomic steps taken by user threads, monitor
    threads, socket callbacks and the network. A step that is not enabled changes nothing. */
module RecoveryMachine {
  import opened Options

  datatype Status = Init | Active | Recovery | Stop

  /** A WebSocketApp's `sock`: not there yet, connected, or gone for good. */
  datatype Sock = Opening | Connected | Dead

  datatype Msg = Sub(channel: string) | Login | Other(text: string)

  /** Who asked for a message to be sent: a user, the replay at this position, or the
      message callback of a socket. */
  datatype Asker = User | ReplayAt(index: nat) | Callback(sock: nat)

  /** A message that has been given its id. */
  datatype Job = Job(msg: Msg, id: nat, asker: Asker)

  /** Who called `connect`: `send` on its first use, or `_recovery`. */
  datatype Caller = Sender(job: Job) | Monitor

  datatype Pc =
    | Outside                // a user thread outside the manager
    | Stamped(job: Job)      // wants the semaphore of `send`
    | Writing(job: Job)      // holds it, before `if not self.ws`
    | ConnTest(via: Caller)   // at the first line of `connect`
    | Loop(via: Caller)       // at `while not self.ws`
    | Begin(via: Caller)      // at the assertion of `_connect`
    | Open(via: Caller)       // monitor started, before `self.ws = WebSocketApp(...)`
    | Wait(via: Caller)       // in the loop that waits for the socket
    | Tail(via: Caller)       // status set to ACTIVE, `connect` not yet left
    | Polling                // a monitor at its `while`
    | Checking               // a monitor at its test of status, socket and flag
    | RecClose               // a monitor that set RECOVERY, about to close the socket
    | RecNull                // about to forget it
    | Replay(index: nat)     // re-sending subscriptions
    | Done(count: nat)       // a recovery that has completed
    | Shutting               // in `close`, status set to STOP, before `self.ws.close()`
    | Forgetting             // in `close`, before `self.ws = None`
    | Ended                  // a thread an exception has ended, or a callback that returned

  datatype Event = Sent(sock: nat, sender: nat, msg: Msg, id: nat) | AuthOk(sock: nat)

  datatype State = State(
    status: Status,
    ws: Option<nat>,
    socks: seq<Sock>,
    flag: bool,               // _needRecovery
    sem: Option<nat>,         // the thread inside `send`
    threads: seq<Pc>,
    monitorThread: nat,       // the thread started last
    subs: seq<Msg>,
    curId: nat,
    log: seq<Event>,
    isPrivate: bool,          // a private Huobi manager logs in instead of re-sending
    asserted: bool,           // an `assert not self.ws` has failed
    crashed: bool)            // a monitor has met a missing socket while ACTIVE

  datatype Action =
    | Subscribe(t: nat, channel: string)
    | SendLogin(t: nat)
    | SendOther(t: nat, text: string)
    | Acquire(t: nat)
    | Write(t: nat, accepted: bool)
    | Connect(t: nat)         // one step inside `connect` or `_connect`
    | Timeout(t: nat)
    | Poll(t: nat)
    | Check(t: nat)
    | Recover(t: nat)         // one step of `_recovery`
    | Resend(t: nat)
    | SockUp(k: nat)
    | SockDown(k: nat)
    | Failure(k: nat)         // socket k closes or errs, or one of its callbacks raises
    | AuthReply(k: nat)       // socket k delivers an auth success
    | Close(t: nat)           // the first line of `close`
    | Shut(t: nat, clean: bool) // its second, with or without an exception
    | Forget(t: nat)          // its third

  function Start(users: nat, isPrivate: bool): State {
    State(Init, None, [], false, None, seq(users, _ => Outside), 0, [], 0, [], isPrivate, false, false)
  }

  function Goto(s: State, t: nat, pc: Pc): State
    requires t < |s.threads|
  {
    s.(threads := s.threads[t := pc])
  }

  /** `send_json`: the message takes the next id. */
  function Stamp(s: State, t: nat, msg: Msg, asker: Asker): State
    requires t < |s.threads|
  {
    Goto(s, t, Stamped(Job(msg, s.curId, asker))).(curId := s.curId + 1)
  }

  /** `_start_stream` and `_send_trade`: cache the subscription unless it is cached. */
  function Cache(subs: seq<Msg>, sub: Msg): seq<Msg> {
    if sub in subs then subs else subs + [sub]
  }

  /** The semaphore of `send` is taken and the status looked at. */
  function AcquireStep(s: State, t: nat): State
    requires t < |s.threads|
  {
    var pc := s.threads[t];
    if !pc.Stamped? || s.sem.Some? then s
    else Goto(s, t, if s.status.Init? then ConnTest(Sender(pc.job)) else Writing(pc.job)).(sem := Some(t))
  }

  function Resume(job: Job): Pc {
    match job.asker
    case User => Outside
    case ReplayAt(i) => Replay(i + 1)
    case Callback(_) => Ended
  }

  /** An exception out of `send` ends a replaying thread, except that the login of a private
      Huobi manager logs it and returns, which completes the recovery. A message callback
      logs it too. */
  function Abort(isPrivate: bool, via: Caller): Pc {
    if via.Monitor? then Ended
    else
      match via.job.asker
      case User => Outside
      case ReplayAt(i) => if isPrivate then Done(i) else Ended
      case Callback(_) => Ended
  }

  /** In `connect` or `_connect`. */
  predicate InConnect(pc: Pc) {
    pc.ConnTest? || pc.Loop? || pc.Begin? || pc.Open? || pc.Wait? || pc.Tail?
  }

  /** The message a thread has stamped and not yet disposed of. */
  function JobOf(pc: Pc): Option<Job> {
    if pc.Stamped? || pc.Writing? then Some(pc.job)
    else if InConnect(pc) && pc.via.Sender? then Some(pc.via.job)
    else None
  }

  /** The socket that is set takes writes. */
  predicate Live(s: State) {
    s.ws.Some? && s.ws.value < |s.socks| && s.socks[s.ws.value].Connected?
  }

  /** `if not self.ws: raise`, then the write, which a dead socket refuses. */
  function WriteStep(s: State, t: nat, accepted: bool): State
    requires t < |s.threads|
  {
    var pc := s.threads[t];
    if !pc.Writing? then s
    else if accepted && Live(s) then
      Goto(s, t, Resume(pc.job)).(sem := None, log := s.log + [Sent(s.ws.value, t, pc.job.msg, pc.job.id)])
    else Goto(s, t, Abort(s.isPrivate, Sender(pc.job))).(sem := None)
  }

  function Return(via: Caller): Pc {
    match via
    case Sender(job) => Writing(job)
    case Monitor => Replay(0)
  }

  function ConnectStep(s: State, t: nat): State
    requires t < |s.threads|
  {
    match s.threads[t]
    case ConnTest(via) => Goto(s, t, if s.status.Active? then Return(via) else Loop(via))
    case Loop(via) => Goto(s, t, if s.ws.None? then Begin(via) else Return(via))
    case Begin(via) => BeginStep(s, t, via)
    case Open(via) => Goto(s, t, Wait(via)).(ws := Some(|s.socks|), socks := s.socks + [Opening])
    case Wait(via) =>
      if s.ws.None? || Live(s) then Goto(s, t, Tail(via)).(status := Active) else s
    case Tail(via) => Goto(s, t, if s.ws.Some? then Return(via) else Loop(via))
    case _ => s
  }

  /** The assertion, a new event object, and a new monitor thread. */
  function BeginStep(s: State, t: nat, via: Caller): State
    requires t < |s.threads|
  {
    if s.ws.Some? then
      Goto(s, t, Abort(s.isPrivate, via)).(asserted := true, sem := if via.Sender? then None else s.sem)
    else
      s.(flag := false, threads := s.threads[t := Open(via)] + [Polling], monitorThread := |s.threads|)
  }

  function CheckStep(s: State, t: nat): State
    requires t < |s.threads|
  {
    if !s.threads[t].Checking? then s
    else if s.status.Recovery? || s.status.Init? then Goto(s, t, Polling)
    else if s.ws.None? then Goto(s, t, Ended).(crashed := s.crashed || s.status.Active?)
    else if Failed(s) then Goto(s, t, RecClose).(status := Recovery, flag := false)
    else Goto(s, t, Polling)
  }

  /** What a monitor looks for: the socket is not connected, or the flag is raised. */
  predicate Failed(s: State) {
    s.flag || !Live(s)
  }

  function Kill(s: State, k: Option<nat>): State {
    if k.Some? && k.value < |s.socks| then s.(socks := s.socks[k.value := Dead]) else s
  }

  function RecoverStep(s: State, t: nat): State
    requires t < |s.threads|
  {
    match s.threads[t]
    case RecClose => Goto(Kill(s, s.ws), t, RecNull)
    case RecNull => Goto(s, t, ConnTest(Monitor)).(ws := None)
    case _ => s
  }

  /** What `_reconnect_streams` sends: the cached subscriptions, or a login. */
  function ReplayList(s: State): seq<Msg> {
    if s.isPrivate then [Login] else s.subs
  }

  function ResendStep(s: State, t: nat): State
    requires t < |s.threads|
  {
    match s.threads[t]
    case Replay(i) =>
      if i < |ReplayList(s)| then Stamp(s, t, ReplayList(s)[i], ReplayAt(i)) else Goto(s, t, Done(i))
    case _ => s
  }

  /** `_wrap_callback` and `reconnect`. */
  function FailureStep(s: State, k: nat): State {
    if s.ws == Some(k) && !s.status.Recovery? then s.(flag := true) else s
  }

  const TRADE: string := "trade.clearing#*#0"

  /** `_on_message` of a private Huobi manager on an auth success: when the socket is the
      current one, its thread caches and stamps the trade subscription and goes on to
      `send`, where it waits and writes like any other thread. */
  function AuthStep(s: State, k: nat): State {
    if !s.isPrivate || k >= |s.socks| then s
    else
      var heard := s.(log := s.log + [AuthOk(k)]);
      if s.ws != Some(k) then heard
      else
        heard.(subs := Cache(s.subs, Sub(TRADE)), curId := s.curId + 1,
               threads := s.threads + [Stamped(Job(Sub(TRADE), s.curId, Callback(k)))])
  }

  /** The lines of `close`: STOP is set; the socket is closed, and an exception ends the
      call there; the socket is forgotten. */
  function CloseStep(s: State, a: Action): State
    requires IsCloseAction(a) && a.t < |s.threads|
  {
    match a
    case Close(t) => if s.threads[t].Outside? then Goto(s, t, Shutting).(status := Stop) else s
    case Shut(t, clean) => ShutStep(s, t, clean)
    case Forget(t) => if s.threads[t].Forgetting? then Goto(s, t, Outside).(ws := None) else s
  }

  function ShutStep(s: State, t: nat, clean: bool): State
    requires t < |s.threads|
  {
    if !s.threads[t].Shutting? then s
    else if clean && s.ws.Some? then Goto(Kill(s, s.ws), t, Forgetting)
    else Goto(s, t, Outside)
  }

  predicate IsCloseAction(a: Action) {
    a.Close? || a.Shut? || a.Forget?
  }

  function Next(s: State, a: Action): State {
    match a
    case SockUp(k) => if k < |s.socks| && s.socks[k].Opening? then s.(socks := s.socks[k := Connected]) else s
    case SockDown(k) => Kill(s, Some(k))
    case Failure(k) => FailureStep(s, k)
    case AuthReply(k) => AuthStep(s, k)
    case _ => if a.t < |s.threads| then ThreadStep(s, a) else s
  }

  predicate IsThreadAction(a: Action) {
    !(a.SockUp? || a.SockDown? || a.Failure? || a.AuthReply?)
  }

  function ThreadStep(s: State, a: Action): State
    requires IsThreadAction(a) && a.t < |s.threads|
  {
    match a
    case Subscribe(t, channel) =>
      if s.threads[t].Outside? && !s.isPrivate
      then Stamp(s, t, Sub(channel), User).(subs := Cache(s.subs, Sub(channel))) else s
    case SendLogin(t) => if s.threads[t].Outside? then Stamp(s, t, Login, User) else s
    case SendOther(t, text) => if s.threads[t].Outside? then Stamp(s, t, Other(text), User) else s
    case Acquire(t) => AcquireStep(s, t)
    case Write(t, accepted) => WriteStep(s, t, accepted)
    case Connect(t) => ConnectStep(s, t)
    case Timeout(t) => if s.threads[t].Wait? then Goto(s, t, Loop(s.threads[t].via)).(ws := None) else s
    case Poll(t) =>
      if s.threads[t].Polling? then Goto(s, t, if s.status.Stop? then Ended else Checking) else s
    case Check(t) => CheckStep(s, t)
    case Recover(t) => RecoverStep(s, t)
    case Resend(t) => ResendStep(s, t)
    case _ => CloseStep(s, a)
  }

  function Run(s: State, actions: seq<Action>): State
    decreases actions
  {
    if actions == [] then s else Run(Next(s, actions[0]), actions[1..])
  }

  lemma {:induction false} RunConcat(s: State, a: seq<Action>, b: seq<Action>)
    ensures Run(s, a + b) == Run(Run(s, a), b)
    decreases a
  {
    if a == [] {
      assert a + b == b;
    } else {
      var s' := Next(s, a[0]);
      hide Next;
      RunConcat(s', a[1..], b);
      assert (a + b)[1..] == a[1..] + b && (a + b)[0] == a[0];
    }
  }

  lemma RunNone(s: State)
    ensures Run(s, []) == s
  {
  }

  lemma RunOne(s: State, a: Action)
    ensures Run(s, [a]) == Next(s, a)
  {
    assert [a][1..] == [];
    assert Run(Next(s, a), []) == Next(s, a);
  }

  lemma RunTwo(s: State, a: Action, b: Action)
    ensures Run(s, [a, b]) == Next(Next(s, a), b)
  {
    hide Next;
    assert [a, b][1..] == [b];
    RunOne(Next(s, a), b);
  }

  lemma RunThree(s: State, a: Action, b: Action, c: Action)
    ensures Run(s, [a, b, c]) == Next(Next(Next(s, a), b), c)
  {
    hide Next;
    assert [a, b, c][1..] == [b, c];
    RunTwo(Next(s, a), b, c);
  }

  lemma RunFour(s: State, a: Action, b: Action, c: Action, d: Action)
    ensures Run(s, [a, b, c, d]) == Next(Next(Next(Next(s, a), b), c), d)
  {
    hide Next;
    assert [a, b, c, d][1..] == [b, c, d];
    RunThree(Next(s, a), b, c, d);
  }
}
