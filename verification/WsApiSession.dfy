/** The listen-key-free user-data session: logon, subscribe, acks, reconnects with backoff,
    and the event counters, as a machine over the callbacks and the run loop. */
module WsApiSession {

  datatype Verb = Logon | Subscribe

  /** The run loop: in `run_forever` before and after the connection opens, after
      `_on_close`, and between two connections. */
  datatype Phase = Connecting | Open | Closed | Between

  datatype Event =
    | Sent(conn: nat, id: nat, verb: Verb)
    | Acked(conn: nat, id: nat, ok: bool)
    | LogonOk(conn: nat)
    | SubscribeOk(conn: nat)
    | CloseHeard(conn: nat)   // `_on_close` was called
    | Slept(seconds: nat)
    | Dispatched(kind: string)

  datatype State = State(
    phase: Phase,
    conn: nat,
    loggedOn: bool,
    subscribed: bool,
    delay: nat,
    pending: map<nat, Verb>,
    counts: map<string, nat>,
    queue: seq<string>,
    live: bool,                // not shadow, and a queue was given
    log: seq<Event>)

  const BASE_DELAY: nat := 1
  const MAX_DELAY: nat := 60

  datatype Action =
    | Opened(id: nat)
    | Ack(id: nat, ok: bool, next: nat)   // `next` is the id of a request it triggers
    | Frame(kind: string)
    | CloseCallback
    | Returned                            // `run_forever` is over
    | SleepAndRetry

  function Start(live: bool): State {
    State(Connecting, 0, false, false, BASE_DELAY, map[], map[], [], live, [])
  }

  /** `_send`. */
  function Send(s: State, id: nat, verb: Verb): State {
    s.(pending := s.pending[id := verb], log := s.log + [Sent(s.conn, id, verb)])
  }

  /** `_handle_ack`; a rejection closes the socket, which the run loop sees later. */
  function HandleAck(s: State, id: nat, ok: bool, next: nat): State {
    var popped := s.(pending := s.pending - {id}, log := s.log + [Acked(s.conn, id, ok)]);
    if !ok || id !in s.pending then popped
    else if s.pending[id].Logon? then
      Send(popped.(loggedOn := true, delay := BASE_DELAY, log := popped.log + [LogonOk(s.conn)]), next, Subscribe)
    else popped.(subscribed := true, log := popped.log + [SubscribeOk(s.conn)])
  }

  function CountOf(counts: map<string, nat>, kind: string): nat {
    if kind in counts then counts[kind] else 0
  }

  /** `_dispatch`. */
  function Dispatch(s: State, kind: string): State {
    s.(counts := s.counts[kind := CountOf(s.counts, kind) + 1],
       queue := if s.live then s.queue + [kind] else s.queue,
       log := s.log + [Dispatched(kind)])
  }

  function Min(a: nat, b: nat): nat {
    if a < b then a else b
  }

  function Next(s: State, a: Action): State {
    match a
    case Opened(id) => if s.phase.Connecting? then Send(s.(phase := Open), id, Logon) else s
    case Ack(id, ok, next) => if s.phase.Open? then HandleAck(s, id, ok, next) else s
    case Frame(kind) => if s.phase.Open? then Dispatch(s, kind) else s
    case CloseCallback =>
      if s.phase.Between? || s.phase.Closed? then s
      else s.(phase := Closed, loggedOn := false, subscribed := false, log := s.log + [CloseHeard(s.conn)])
    case Returned => if s.phase.Between? then s else s.(phase := Between)
    case SleepAndRetry =>
      if s.phase.Between?
      then s.(phase := Connecting, conn := s.conn + 1, delay := Min(s.delay * 2, MAX_DELAY),
              log := s.log + [Slept(s.delay)])
      else s
  }

  function Run(s: State, actions: seq<Action>): State
    decreases actions
  {
    if actions == [] then s else Run(Next(s, actions[0]), actions[1..])
  }

  // ---------------------------------------------------------------- assumptions

  ghost predicate Used(log: seq<Event>, id: nat) {
    exists i :: 0 <= i < |log| && log[i].Sent? && log[i].id == id
  }

  ghost predicate SentOn(log: seq<Event>, conn: nat, id: nat) {
    exists i :: 0 <= i < |log| && log[i].Sent? && log[i].conn == conn && log[i].id == id
  }

  /** Request ids are distinct, and the server answers only what was sent on the same
      connection. */
  ghost predicate Disciplined(s: State, a: Action) {
    && (a.Opened? ==> !Used(s.log, a.id))
    && (a.Ack? ==> SentOn(s.log, s.conn, a.id) && !Used(s.log, a.next))
  }

  ghost predicate DisciplinedRun(s: State, actions: seq<Action>)
    decreases actions
  {
    actions == [] || (Disciplined(s, actions[0]) && DisciplinedRun(Next(s, actions[0]), actions[1..]))
  }

  // ---------------------------------------------------------------- the invariants

  ghost predicate Answered(log: seq<Event>, id: nat) {
    exists i :: 0 <= i < |log| && log[i].Acked? && log[i].id == id
  }

  ghost predicate DistinctIds(log: seq<Event>) {
    forall i, j :: 0 <= i < j < |log| && log[i].Sent? && log[j].Sent? ==> log[i].id != log[j].id
  }

  /** The pending map holds exactly the requests without an answer. */
  ghost predicate PendingInv(s: State) {
    && DistinctIds(s.log)
    && (forall id :: id in s.pending <==> Used(s.log, id) && !Answered(s.log, id))
    && (forall i :: 0 <= i < |s.log| && s.log[i].Sent? && s.log[i].id in s.pending ==>
          s.pending[s.log[i].id] == s.log[i].verb)
    && (forall id :: Answered(s.log, id) ==> Used(s.log, id))
  }

  lemma UsedMore(log: seq<Event>, e: Event, id: nat)
    ensures Used(log + [e], id) <==> Used(log, id) || (e.Sent? && e.id == id)
    ensures Answered(log + [e], id) <==> Answered(log, id) || (e.Acked? && e.id == id)
  {
    var l := log + [e];
    if i :| 0 <= i < |log| && log[i].Sent? && log[i].id == id {
      assert l[i] == log[i];
    }
    if i :| 0 <= i < |log| && log[i].Acked? && log[i].id == id {
      assert l[i] == log[i];
    }
    assert l[|log|] == e;
  }

  lemma PendingKeptBySend(s: State, id: nat, verb: Verb)
    requires PendingInv(s) && !Used(s.log, id)
    ensures PendingInv(Send(s, id, verb))
  {
    var s' := Send(s, id, verb);
    forall k: nat ensures
      && (Used(s'.log, k) <==> Used(s.log, k) || k == id)
      && (Answered(s'.log, k) <==> Answered(s.log, k))
    {
      UsedMore(s.log, Sent(s.conn, id, verb), k);
    }
    forall i | 0 <= i < |s.log| && s.log[i].Sent? ensures s.log[i].id != id {
      assert Used(s.log, s.log[i].id);
    }
  }

  lemma PendingKeptByAck(s: State, s': State, id: nat, ok: bool)
    requires PendingInv(s) && Used(s.log, id)
    requires s'.pending == s.pending - {id} && s'.log == s.log + [Acked(s.conn, id, ok)]
    ensures PendingInv(s')
  {
    forall k: nat ensures
      && (Used(s'.log, k) <==> Used(s.log, k))
      && (Answered(s'.log, k) <==> Answered(s.log, k) || k == id)
    {
      UsedMore(s.log, Acked(s.conn, id, ok), k);
    }
  }

  lemma PendingKeptByNote(s: State, s': State, e: Event)
    requires PendingInv(s) && !e.Sent? && !e.Acked?
    requires s'.pending == s.pending && s'.log == s.log + [e]
    ensures PendingInv(s')
  {
    forall k: nat ensures
      && (Used(s'.log, k) <==> Used(s.log, k)) && (Answered(s'.log, k) <==> Answered(s.log, k))
    {
      UsedMore(s.log, e, k);
    }
  }

  /** A logon sent on this connection was answered with success on it. */
  ghost predicate LogonAcked(log: seq<Event>, conn: nat) {
    exists i, j :: 0 <= i < j < |log| && IsLogon(log[i], conn) && log[j] == Acked(conn, log[i].id, true)
  }

  predicate IsLogon(e: Event, conn: nat) {
    e.Sent? && e.verb.Logon? && e.conn == conn
  }

  /** Subscriptions are sent only after their connection's logon was acknowledged. */
  ghost predicate OrderInv(log: seq<Event>) {
    forall n :: 0 <= n < |log| && log[n].Sent? && log[n].verb.Subscribe? ==> LogonAcked(log[..n], log[n].conn)
  }

  lemma OrderKeptBy(log: seq<Event>, e: Event)
    requires OrderInv(log)
    requires e.Sent? && e.verb.Subscribe? ==> LogonAcked(log, e.conn)
    ensures OrderInv(log + [e])
  {
    var l := log + [e];
    forall n | 0 <= n < |l| && l[n].Sent? && l[n].verb.Subscribe? ensures LogonAcked(l[..n], l[n].conn) {
      assert l[..n] == log[..n];
      assert log[..|log|] == log;
    }
  }

  lemma LogonAckedMore(log: seq<Event>, e: Event, conn: nat)
    ensures LogonAcked(log, conn) ==> LogonAcked(log + [e], conn)
    ensures (exists i :: 0 <= i < |log| && IsLogon(log[i], conn) && e == Acked(conn, log[i].id, true))
        ==> LogonAcked(log + [e], conn)
  {
    var l := log + [e];
    if LogonAcked(log, conn) {
      var i, j :| 0 <= i < j < |log| && IsLogon(log[i], conn) && log[j] == Acked(conn, log[i].id, true);
      assert l[i] == log[i] && l[j] == log[j];
    }
    if exists i :: 0 <= i < |log| && IsLogon(log[i], conn) && e == Acked(conn, log[i].id, true) {
      var i :| 0 <= i < |log| && IsLogon(log[i], conn) && e == Acked(conn, log[i].id, true);
      assert l[i] == log[i] && l[|log|] == e;
    }
  }

  /** The session's flags: subscribed implies logged on, and on the open connection a
      subscription that has been sent means the session is logged on. */
  ghost predicate FlagInv(s: State) {
    && (s.subscribed ==> s.loggedOn)
    && (forall i :: 0 <= i < |s.log| && s.log[i].Sent? ==> s.log[i].conn <= s.conn)
    && (s.phase.Connecting? ==> forall i :: 0 <= i < |s.log| && s.log[i].Sent? ==> s.log[i].conn < s.conn)
    && (s.phase.Open? && !s.loggedOn ==>
          forall i :: 0 <= i < |s.log| && s.log[i].Sent? && s.log[i].conn == s.conn ==> !s.log[i].verb.Subscribe?)
  }

  /** min(2^n, 60). */
  function Backoff(n: nat): nat {
    Min(Pow2(n), 60)
  }

  function Pow2(n: nat): nat {
    if n == 0 then 1 else 2 * Pow2(n - 1)
  }

  function SleepsSinceLogon(log: seq<Event>): nat {
    if log == [] then 0
    else
      var e := log[|log| - 1];
      if e.LogonOk? then 0 else SleepsSinceLogon(log[..|log| - 1]) + if e.Slept? then 1 else 0
  }

  /** The n-th sleep since the last logon, counted from 0, lasts min(2^n, 60) seconds. */
  ghost predicate BackoffInv(s: State) {
    && s.delay == Backoff(SleepsSinceLogon(s.log))
    && forall i :: 0 <= i < |s.log| && s.log[i].Slept? ==>
         s.log[i].seconds == Backoff(SleepsSinceLogon(s.log[..i]))
  }

  lemma SleepsMore(log: seq<Event>, e: Event)
    ensures SleepsSinceLogon(log + [e]) ==
            if e.LogonOk? then 0 else SleepsSinceLogon(log) + if e.Slept? then 1 else 0
  {
    assert (log + [e])[..|log|] == log;
  }

  lemma BackoffKeptBy(s: State, s': State, e: Event)
    requires BackoffInv(s) && s'.log == s.log + [e]
    requires if e.LogonOk? then s'.delay == BASE_DELAY
             else if e.Slept? then e.seconds == s.delay && s'.delay == Min(s.delay * 2, MAX_DELAY)
             else s'.delay == s.delay
    ensures BackoffInv(s')
  {
    SleepsMore(s.log, e);
    forall i | 0 <= i < |s'.log| && s'.log[i].Slept?
      ensures s'.log[i].seconds == Backoff(SleepsSinceLogon(s'.log[..i]))
    {
      assert s'.log[..i] == s.log[..i];
      assert s.log[..|s.log|] == s.log;
    }
  }

  /** The kinds of the events delivered so far. */
  function Kinds(log: seq<Event>): seq<string> {
    if log == [] then []
    else
      var e := log[|log| - 1];
      Kinds(log[..|log| - 1]) + if e.Dispatched? then [e.kind] else []
  }

  /** The counters count every event delivered; the queue has all of them, in order, when
      the session is live, and nothing in shadow mode. */
  ghost predicate CountInv(s: State) {
    && (forall kind :: CountOf(s.counts, kind) == multiset(Kinds(s.log))[kind])
    && s.queue == if s.live then Kinds(s.log) else []
  }

  lemma KindsMore(log: seq<Event>, e: Event)
    ensures Kinds(log + [e]) == Kinds(log) + if e.Dispatched? then [e.kind] else []
  {
    assert (log + [e])[..|log|] == log;
  }

  lemma CountKept(s: State, s': State, e: Event)
    requires CountInv(s) && !e.Dispatched?
    requires s'.log == s.log + [e] && s'.counts == s.counts && s'.queue == s.queue && s'.live == s.live
    ensures CountInv(s')
  {
    KindsMore(s.log, e);
    assert Kinds(s.log) + [] == Kinds(s.log);
  }

  ghost predicate Inv(s: State) {
    PendingInv(s) && OrderInv(s.log) && FlagInv(s) && BackoffInv(s) && CountInv(s)
  }

  /** An event of the log that is no request and that no flag or counter depends on. */
  lemma KeptByNote(s: State, s': State, e: Event)
    requires Inv(s) && !e.Sent? && !e.Acked? && !e.Dispatched? && !e.Slept? && !e.LogonOk?
    requires s' == s.(log := s.log + [e], subscribed := s'.subscribed)
    requires s'.subscribed ==> s'.loggedOn
    ensures Inv(s')
  {
    hide PendingInv, OrderInv, BackoffInv, CountInv;
    PendingKeptByNote(s, s', e);
    OrderKeptBy(s.log, e);
    BackoffKeptBy(s, s', e);
    CountKept(s, s', e);
  }

  lemma KeptByLogonOk(s: State, s': State)
    requires Inv(s)
    requires s' == s.(log := s.log + [LogonOk(s.conn)], loggedOn := true, delay := BASE_DELAY)
    ensures Inv(s')
  {
    hide PendingInv, OrderInv, BackoffInv, CountInv;
    var e := LogonOk(s.conn);
    PendingKeptByNote(s, s', e);
    OrderKeptBy(s.log, e);
    BackoffKeptBy(s, s', e);
    CountKept(s, s', e);
  }

  lemma KeptBySend(s: State, id: nat, verb: Verb)
    requires Inv(s) && !Used(s.log, id)
    requires verb.Subscribe? ==> s.loggedOn && LogonAcked(s.log, s.conn)
    requires s.phase.Open?
    ensures Inv(Send(s, id, verb))
  {
    hide PendingInv, OrderInv, BackoffInv, CountInv;
    var e := Sent(s.conn, id, verb);
    PendingKeptBySend(s, id, verb);
    OrderKeptBy(s.log, e);
    BackoffKeptBy(s, Send(s, id, verb), e);
    CountKept(s, Send(s, id, verb), e);
  }

  lemma KeptByAcked(s: State, s': State, id: nat, ok: bool)
    requires Inv(s) && Used(s.log, id)
    requires s' == s.(pending := s.pending - {id}, log := s.log + [Acked(s.conn, id, ok)])
    ensures Inv(s')
  {
    hide PendingInv, OrderInv, BackoffInv, CountInv;
    var e := Acked(s.conn, id, ok);
    PendingKeptByAck(s, s', id, ok);
    OrderKeptBy(s.log, e);
    BackoffKeptBy(s, s', e);
    CountKept(s, s', e);
  }

  lemma KeptByFrame(s: State, kind: string)
    requires Inv(s)
    ensures Inv(Dispatch(s, kind))
  {
    hide PendingInv, OrderInv, BackoffInv, CountInv;
    var s', e := Dispatch(s, kind), Dispatched(kind);
    CountKeptByFrame(s, kind);
    PendingKeptByNote(s, s', e);
    OrderKeptBy(s.log, e);
    BackoffKeptBy(s, s', e);
  }

  lemma CountKeptByFrame(s: State, kind: string)
    requires CountInv(s)
    ensures CountInv(Dispatch(s, kind))
  {
    KindsMore(s.log, Dispatched(kind));
  }

  lemma KeptBySleep(s: State)
    requires Inv(s)
    ensures Inv(Next(s, SleepAndRetry))
  {
    hide PendingInv, OrderInv, BackoffInv, CountInv;
    if s.phase.Between? {
      var s', e := Next(s, SleepAndRetry), Slept(s.delay);
      PendingKeptByNote(s, s', e);
      OrderKeptBy(s.log, e);
      BackoffKeptBy(s, s', e);
      CountKept(s, s', e);
    }
  }

  lemma KeptByClose(s: State)
    requires Inv(s)
    ensures Inv(Next(s, CloseCallback))
  {
    if s.phase.Connecting? || s.phase.Open? {
      var down := s.(phase := Closed, loggedOn := false, subscribed := false);
      assert Inv(down);
      hide Inv;
      KeptByNote(down, Next(s, CloseCallback), CloseHeard(s.conn));
    }
  }

  lemma KeptByAck(s: State, id: nat, ok: bool, next: nat)
    requires Inv(s) && s.phase.Open? && SentOn(s.log, s.conn, id) && !Used(s.log, next)
    ensures Inv(HandleAck(s, id, ok, next))
  {
    var i :| 0 <= i < |s.log| && s.log[i].Sent? && s.log[i].conn == s.conn && s.log[i].id == id;
    var popped := s.(pending := s.pending - {id}, log := s.log + [Acked(s.conn, id, ok)]);
    assert Used(s.log, id);
    KeptByAcked(s, popped, id, ok);
    if ok && id in s.pending {
      assert s.pending[id] == s.log[i].verb;
      UsedMore(s.log, Acked(s.conn, id, ok), next);
      hide Inv, Used, OrderInv;
      if s.pending[id].Logon? {
        LogonAckedMore(s.log, Acked(s.conn, id, ok), s.conn);
        var logged := popped.(loggedOn := true, delay := BASE_DELAY, log := popped.log + [LogonOk(s.conn)]);
        KeptByLogonOk(popped, logged);
        LogonAckedMore(popped.log, LogonOk(s.conn), s.conn);
        UsedMore(popped.log, LogonOk(s.conn), next);
        KeptBySend(logged, next, Subscribe);
      } else {
        assert s.loggedOn by {
          SubscribedConnectionIsLoggedOn(s, i);
        }
        KeptByNote(popped, HandleAck(s, id, ok, next), SubscribeOk(s.conn));
      }
    }
  }

  lemma SubscribedConnectionIsLoggedOn(s: State, i: nat)
    requires Inv(s) && s.phase.Open? && i < |s.log|
    requires s.log[i].Sent? && s.log[i].conn == s.conn && s.log[i].verb.Subscribe?
    ensures s.loggedOn
  {
  }

  lemma StepKeepsInv(s: State, a: Action)
    requires Inv(s) && Disciplined(s, a)
    ensures Inv(Next(s, a))
  {
    match a
    case Opened(id) =>
      if s.phase.Connecting? {
        KeptBySend(s.(phase := Open), id, Logon);
      }
    case Ack(id, ok, next) =>
      if s.phase.Open? {
        KeptByAck(s, id, ok, next);
      }
    case Frame(kind) =>
      if s.phase.Open? {
        KeptByFrame(s, kind);
      }
    case CloseCallback => KeptByClose(s);
    case Returned =>
    case SleepAndRetry => KeptBySleep(s);
  }

  lemma {:induction false} RunKeepsInv(s: State, actions: seq<Action>)
    requires Inv(s) && DisciplinedRun(s, actions)
    ensures Inv(Run(s, actions))
    decreases actions
  {
    if actions != [] {
      StepKeepsInv(s, actions[0]);
      RunKeepsInv(Next(s, actions[0]), actions[1..]);
    }
  }

  lemma StartInv(live: bool)
    ensures Inv(Start(live))
  {
  }

  // ---------------------------------------------------------------- what it means

  /** A subscription is sent only after the same connection's logon was acknowledged. */
  lemma SubscribesAfterLogon(live: bool, run: seq<Action>, n: nat)
    requires DisciplinedRun(Start(live), run)
    requires var log := Run(Start(live), run).log; n < |log| && log[n].Sent? && log[n].verb.Subscribe?
    ensures var log := Run(Start(live), run).log; LogonAcked(log[..n], log[n].conn)
  {
    StartInv(live);
    RunKeepsInv(Start(live), run);
  }

  /** The pending map is the set of requests that have had no answer, with their methods. */
  lemma PendingIsUnanswered(live: bool, run: seq<Action>, id: nat)
    requires DisciplinedRun(Start(live), run)
    ensures var s := Run(Start(live), run);
            && (id in s.pending <==> Used(s.log, id) && !Answered(s.log, id))
            && (s.subscribed ==> s.loggedOn)
  {
    StartInv(live);
    RunKeepsInv(Start(live), run);
  }

  /** The waits double from one second up to a minute and start over with each logon. */
  lemma BackoffDoubles(live: bool, run: seq<Action>, i: nat)
    requires DisciplinedRun(Start(live), run)
    requires var log := Run(Start(live), run).log; i < |log| && log[i].Slept?
    ensures var log := Run(Start(live), run).log;
            log[i].seconds == Backoff(SleepsSinceLogon(log[..i]))
  {
    StartInv(live);
    RunKeepsInv(Start(live), run);
  }

  lemma LiveKept(s: State, a: Action)
    ensures Next(s, a).live == s.live
  {
  }

  lemma {:induction false} LiveStays(s: State, actions: seq<Action>)
    ensures Run(s, actions).live == s.live
    decreases actions
  {
    if actions != [] {
      LiveKept(s, actions[0]);
      hide Next;
      LiveStays(Next(s, actions[0]), actions[1..]);
    }
  }

  /** No event is lost or counted twice, and only a live session passes them on. */
  lemma EveryEventCounted(live: bool, run: seq<Action>, kind: string)
    requires DisciplinedRun(Start(live), run)
    ensures var s := Run(Start(live), run);
            && CountOf(s.counts, kind) == multiset(Kinds(s.log))[kind]
            && s.queue == if live then Kinds(s.log) else []
  {
    StartInv(live);
    RunKeepsInv(Start(live), run);
    LiveStays(Start(live), run);
  }

  // ---------------------------------------------------------------- health

  predicate IsHealthy(s: State) {
    s.loggedOn && s.subscribed
  }

  /** The library calls `_on_close` before `run_forever` returns. */
  predicate ClosesReported(s: State, a: Action) {
    a.Returned? ==> s.phase.Closed? || (!s.loggedOn && !s.subscribed)
  }

  /** Then the flags speak of the open connection and its own acknowledgements. */
  ghost predicate HealthInv(s: State) {
    && (s.loggedOn || s.subscribed ==> s.phase.Open?)
    && (s.loggedOn ==> LogonAcked(s.log, s.conn))
    && (s.subscribed ==> SubscribeOk(s.conn) in s.log)
  }

  lemma HealthKeptByAck(s: State, id: nat, ok: bool, next: nat)
    requires Inv(s) && HealthInv(s) && s.phase.Open? && SentOn(s.log, s.conn, id)
    ensures HealthInv(HandleAck(s, id, ok, next))
  {
    var i :| 0 <= i < |s.log| && s.log[i].Sent? && s.log[i].conn == s.conn && s.log[i].id == id;
    assert id in s.pending ==> s.pending[id] == s.log[i].verb;
    assert id in s.pending && s.pending[id].Logon? ==> IsLogon(s.log[i], s.conn);
    var e := Acked(s.conn, id, ok);
    LogonAckedMore(s.log, e, s.conn);
    LogonAckedMore(s.log + [e], LogonOk(s.conn), s.conn);
    LogonAckedMore(s.log + [e] + [LogonOk(s.conn)], Sent(s.conn, next, Subscribe), s.conn);
    LogonAckedMore(s.log + [e], SubscribeOk(s.conn), s.conn);
    hide LogonAcked, Inv;
  }

  lemma HealthKept(s: State, a: Action)
    requires Inv(s) && HealthInv(s) && Disciplined(s, a) && ClosesReported(s, a)
    ensures HealthInv(Next(s, a))
  {
    if a.Ack? && s.phase.Open? {
      HealthKeptByAck(s, a.id, a.ok, a.next);
    } else if a.Frame? && s.phase.Open? {
      LogonAckedMore(s.log, Dispatched(a.kind), s.conn);
    }
    hide HandleAck, Inv, LogonAcked;
  }

  ghost predicate ReportedRun(s: State, actions: seq<Action>)
    decreases actions
  {
    actions == [] || (ClosesReported(s, actions[0]) && ReportedRun(Next(s, actions[0]), actions[1..]))
  }

  lemma {:induction false} RunKeepsHealth(s: State, actions: seq<Action>)
    requires Inv(s) && HealthInv(s) && DisciplinedRun(s, actions) && ReportedRun(s, actions)
    ensures HealthInv(Run(s, actions))
    decreases actions
  {
    if actions != [] {
      HealthKept(s, actions[0]);
      StepKeepsInv(s, actions[0]);
      RunKeepsHealth(Next(s, actions[0]), actions[1..]);
    }
  }

  /** A session that reports health has an open connection on which both the logon and the
      subscription were acknowledged. */
  lemma HealthyMeansAcknowledged(live: bool, run: seq<Action>)
    requires DisciplinedRun(Start(live), run) && ReportedRun(Start(live), run)
    requires IsHealthy(Run(Start(live), run))
    ensures var s := Run(Start(live), run);
            s.phase.Open? && LogonAcked(s.log, s.conn) && SubscribeOk(s.conn) in s.log
  {
    StartInv(live);
    RunKeepsHealth(Start(live), run);
  }

  /** A logon was acknowledged since the close callback last ran. */
  function LoggedSince(log: seq<Event>): bool {
    if log == [] then false
    else
      var e := log[|log| - 1];
      e.LogonOk? || (!e.CloseHeard? && LoggedSince(log[..|log| - 1]))
  }

  /** A subscription was acknowledged since the close callback last ran. */
  function SubscribedSince(log: seq<Event>): bool {
    if log == [] then false
    else
      var e := log[|log| - 1];
      e.SubscribeOk? || (!e.CloseHeard? && SubscribedSince(log[..|log| - 1]))
  }

  lemma SinceMore(log: seq<Event>, e: Event)
    ensures LoggedSince(log + [e]) == (e.LogonOk? || (!e.CloseHeard? && LoggedSince(log)))
    ensures SubscribedSince(log + [e]) == (e.SubscribeOk? || (!e.CloseHeard? && SubscribedSince(log)))
  {
    assert (log + [e])[..|log|] == log;
  }

  ghost predicate ReportInv(s: State) {
    && s.loggedOn == LoggedSince(s.log) && s.subscribed == SubscribedSince(s.log)
    && (s.phase.Closed? ==> !s.loggedOn && !s.subscribed)
  }

  lemma ReportKept(s: State, a: Action)
    requires ReportInv(s)
    ensures ReportInv(Next(s, a))
  {
    hide LoggedSince, SubscribedSince;
    match a
    case Opened(id) => SinceMore(s.log, Sent(s.conn, id, Logon));
    case Ack(id, ok, next) => ReportKeptByAck(s, id, ok, next);
    case Frame(kind) => SinceMore(s.log, Dispatched(kind));
    case CloseCallback => SinceMore(s.log, CloseHeard(s.conn));
    case Returned =>
    case SleepAndRetry => SinceMore(s.log, Slept(s.delay));
  }

  lemma ReportKeptByAck(s: State, id: nat, ok: bool, next: nat)
    requires ReportInv(s)
    ensures s.phase.Open? ==> ReportInv(HandleAck(s, id, ok, next))
  {
    hide LoggedSince, SubscribedSince;
    var l1 := s.log + [Acked(s.conn, id, ok)];
    SinceMore(s.log, Acked(s.conn, id, ok));
    SinceMore(l1, LogonOk(s.conn));
    SinceMore(l1 + [LogonOk(s.conn)], Sent(s.conn, next, Subscribe));
    SinceMore(l1, SubscribeOk(s.conn));
  }

  lemma {:induction false} RunKeepsReport(s: State, actions: seq<Action>)
    requires ReportInv(s)
    ensures ReportInv(Run(s, actions))
    decreases actions
  {
    if actions != [] {
      ReportKept(s, actions[0]);
      hide Next, ReportInv;
      RunKeepsReport(Next(s, actions[0]), actions[1..]);
    }
  }

  /** Over every run the session reports health exactly when, since the close callback last
      ran, a logon and a subscription were acknowledged, on whatever connection. */
  lemma HealthExact(live: bool, run: seq<Action>)
    ensures var s := Run(Start(live), run);
            IsHealthy(s) <==> LoggedSince(s.log) && SubscribedSince(s.log)
  {
    RunKeepsReport(Start(live), run);
  }

  /** Over every run, when `run_forever` returns the report outlives the connection, into
      the wait and the next connection, exactly when the close callback has not run and both
      acknowledgements had come. */
  lemma StaleHealthExact(live: bool, run: seq<Action>)
    requires !Run(Start(live), run).phase.Between?
    ensures var s := Run(Start(live), run); var gone := Next(s, Returned);
            && (IsHealthy(gone) <==> !s.phase.Closed? && LoggedSince(s.log) && SubscribedSince(s.log))
            && (IsHealthy(Next(gone, SleepAndRetry)) <==> IsHealthy(gone))
            && gone.phase.Between? && Next(gone, SleepAndRetry).conn == s.conn + 1
  {
    RunKeepsReport(Start(live), run);
    hide LoggedSince, SubscribedSince, Run;
  }

  /** An instance: a run in which the report outlives the connection. */
  lemma StaleHealthExample(live: bool)
    ensures var run := [Opened(0), Ack(0, true, 1), Ack(1, true, 2), Returned, SleepAndRetry];
            var s := Run(Start(live), run);
            IsHealthy(s) && s.phase.Connecting? && !SentOn(s.log, s.conn, 0)
  {
    var s1 := Next(Start(live), Opened(0));
    var s2 := Next(s1, Ack(0, true, 1));
    assert s2.pending == map[1 := Subscribe];
    var s3 := Next(s2, Ack(1, true, 2));
    var s5 := Next(Next(s3, Returned), SleepAndRetry);
    RunFive(Start(live), Opened(0), Ack(0, true, 1), Ack(1, true, 2), Returned, SleepAndRetry);
  }

  lemma RunCons(s: State, a: Action, rest: seq<Action>)
    ensures Run(s, [a] + rest) == Run(Next(s, a), rest)
  {
    assert ([a] + rest)[1..] == rest;
  }

  lemma RunFive(s: State, a: Action, b: Action, c: Action, d: Action, e: Action)
    ensures Run(s, [a, b, c, d, e]) == Next(Next(Next(Next(Next(s, a), b), c), d), e)
  {
    hide Next;
    var s4 := Next(Next(Next(Next(s, a), b), c), d);
    RunCons(s, a, [b, c, d, e]);
    RunCons(Next(s, a), b, [c, d, e]);
    RunCons(Next(Next(s, a), b), c, [d, e]);
    RunCons(Next(Next(Next(s, a), b), c), d, [e]);
    RunCons(s4, e, []);
    assert [a, b, c, d, e] == [a] + [b, c, d, e] && [b, c, d, e] == [b] + [c, d, e];
    assert [c, d, e] == [c] + [d, e] && [d, e] == [d] + [e] && [e] == [e] + [];
  }

  // ---------------------------------------------------------------- the object

  class BinanceWsApiUserData {
    const live: bool
    var phase: Phase
    var conn: nat
    var loggedOn: bool
    var subscribed: bool
    var reconnectDelay: nat
    var pending: map<nat, Verb>
    var eventCounts: map<string, nat>
    var queue: seq<string>
    var log: seq<Event>

    ghost function Snapshot(): State
      reads this
    {
      State(phase, conn, loggedOn, subscribed, reconnectDelay, pending, eventCounts, queue, live, log)
    }

    constructor (shadow: bool, hasQueue: bool)
      ensures Snapshot() == Start(!shadow && hasQueue)
    {
      live := !shadow && hasQueue;
      phase, conn, loggedOn, subscribed := Connecting, 0, false, false;
      reconnectDelay, pending, eventCounts, queue, log := BASE_DELAY, map[], map[], [], [];
    }

    /** `_send`: the request is noted before it is written. */
    method SendRequest(verb: Verb, requestId: nat)
      modifies this`pending, this`log
      ensures Snapshot() == Send(old(Snapshot()), requestId, verb)
    {
      pending := pending[requestId := verb];
      log := log + [Sent(conn, requestId, verb)];
    }

    /** `_on_open`. */
    method OnOpen(requestId: nat)
      requires phase == Connecting
      modifies this
      ensures Snapshot() == Next(old(Snapshot()), Opened(requestId))
    {
      phase := Open;
      SendRequest(Logon, requestId);
    }

    /** `_handle_ack`. */
    method OnAck(id: nat, ok: bool, nextId: nat) returns (closes: bool)
      requires phase == Open
      modifies this
      ensures Snapshot() == Next(old(Snapshot()), Ack(id, ok, nextId))
      ensures closes <==> !ok
    {
      var known := id in pending;
      var verb := if known then pending[id] else Logon;
      pending := pending - {id};
      log := log + [Acked(conn, id, ok)];
      closes := !ok;
      if ok && known {
        if verb == Logon {
          loggedOn := true;
          reconnectDelay := BASE_DELAY;
          log := log + [LogonOk(conn)];
          SendRequest(Subscribe, nextId);
        } else {
          subscribed := true;
          log := log + [SubscribeOk(conn)];
        }
      }
    }

    /** `_dispatch`. */
    method OnEvent(kind: string)
      requires phase == Open
      modifies this
      ensures Snapshot() == Next(old(Snapshot()), Frame(kind))
      ensures CountOf(eventCounts, kind) == CountOf(old(eventCounts), kind) + 1
      ensures forall other :: other != kind ==> CountOf(eventCounts, other) == CountOf(old(eventCounts), other)
      ensures queue == if live then old(queue) + [kind] else old(queue)
    {
      eventCounts := eventCounts[kind := (if kind in eventCounts then eventCounts[kind] else 0) + 1];
      log := log + [Dispatched(kind)];
      if live {
        queue := queue + [kind];
      }
    }

    /** `_on_close`. */
    method OnClose()
      requires phase == Connecting || phase == Open
      modifies this
      ensures Snapshot() == Next(old(Snapshot()), CloseCallback)
    {
      phase := Closed;
      loggedOn := false;
      subscribed := false;
      log := log + [CloseHeard(conn)];
    }

    /** The run loop after `run_forever` has returned: one wait, then the next connection. */
    method Reconnect()
      requires phase == Between
      modifies this
      ensures Snapshot() == Next(old(Snapshot()), SleepAndRetry)
    {
      log := log + [Slept(reconnectDelay)];
      reconnectDelay := Min(reconnectDelay * 2, MAX_DELAY);
      phase, conn := Connecting, conn + 1;
    }
  }
}
