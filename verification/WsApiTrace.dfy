/** The session's log, counters and queue as functions of what happened to it: the callbacks
    and returns of the library, in order, and nothing the session itself has written. */
module WsApiTrace {
  import opened WsApiSession

  // ---------------------------------------------------------------- where the loop is

  /** The run loop's place after these happenings. */
  function PhaseAfter(run: seq<Action>): Phase {
    if run == [] then Connecting
    else
      var before, a := PhaseAfter(run[..|run| - 1]), run[|run| - 1];
      match a
      case Opened(_) => if before == Connecting then Open else before
      case CloseCallback => if before == Between then Between else Closed
      case Returned => Between
      case SleepAndRetry => if before == Between then Connecting else before
      case _ => before
  }

  /** The happenings after n of them, seen from the start. */
  lemma {:induction false} RunMore(s: State, run: seq<Action>, a: Action)
    ensures Run(s, run + [a]) == Next(Run(s, run), a)
    decreases run
  {
    hide Next;
    if run == [] {
      assert [a][1..] == [] && [] + [a] == [a];
      assert Run(Next(s, a), []) == Next(s, a);
    } else {
      assert (run + [a])[1..] == run[1..] + [a];
      RunMore(Next(s, run[0]), run[1..], a);
    }
  }

  lemma RunLast(s: State, run: seq<Action>)
    requires run != []
    ensures Run(s, run) == Next(Run(s, run[..|run| - 1]), run[|run| - 1])
  {
    assert run == run[..|run| - 1] + [run[|run| - 1]];
    RunMore(s, run[..|run| - 1], run[|run| - 1]);
  }

  lemma {:induction false} PhaseFollows(live: bool, run: seq<Action>)
    ensures Run(Start(live), run).phase == PhaseAfter(run)
    decreases run
  {
    if run != [] {
      RunLast(Start(live), run);
      PhaseFollows(live, run[..|run| - 1]);
    }
  }

  // ---------------------------------------------------------------- events

  /** The kinds of the events that arrived on an open connection, in order. */
  function Delivered(run: seq<Action>): seq<string> {
    if run == [] then []
    else
      var before, a := run[..|run| - 1], run[|run| - 1];
      Delivered(before) + if a.Frame? && PhaseAfter(before) == Open then [a.kind] else []
  }

  ghost predicate Counted(s: State, live: bool, kinds: seq<string>) {
    && (forall kind :: CountOf(s.counts, kind) == multiset(kinds)[kind])
    && s.queue == (if live then kinds else []) && s.live == live
  }

  /** Every event that arrives on an open connection is counted under its kind, in shadow mode
      as in live mode; a live session also queues them, all and in order. */
  lemma {:induction false} EveryDeliveryCounted(live: bool, run: seq<Action>)
    ensures Counted(Run(Start(live), run), live, Delivered(run))
    decreases run
  {
    if run != [] {
      var before, a := run[..|run| - 1], run[|run| - 1];
      RunLast(Start(live), run);
      PhaseFollows(live, before);
      EveryDeliveryCounted(live, before);
      CountStep(Run(Start(live), before), a, live, Delivered(before));
      hide Next, Run, Counted;
      assert Delivered(before) + [] == Delivered(before);
    }
  }

  lemma CountStep(s: State, a: Action, live: bool, kinds: seq<string>)
    requires Counted(s, live, kinds)
    ensures Counted(Next(s, a), live, if a.Frame? && s.phase == Open then kinds + [a.kind] else kinds)
  {
    if a.Frame? && s.phase == Open {
      assert multiset(kinds + [a.kind]) == multiset(kinds) + multiset{a.kind};
    }
  }

  // ---------------------------------------------------------------- requests and answers

  /** Whether a request with this id and method is without an answer. */
  ghost predicate Waiting(log: seq<Event>, id: nat, verb: Verb) {
    && (exists i :: 0 <= i < |log| && log[i].Sent? && log[i].id == id && log[i].verb == verb)
    && (forall i :: 0 <= i < |log| && log[i].Acked? ==> log[i].id != id)
  }

  /** How often the loop has slept: the number of the connection. */
  function Sleeps(run: seq<Action>): nat {
    if run == [] then 0
    else
      var before, a := run[..|run| - 1], run[|run| - 1];
      Sleeps(before) + if a == SleepAndRetry && PhaseAfter(before) == Between then 1 else 0
  }

  /** What an answer leads to: a logon's success to a subscription on the same connection, a
      subscription's success to nothing more, and everything else to nothing. */
  ghost function AnswerTrace(log: seq<Event>, conn: nat, id: nat, ok: bool, next: nat): seq<Event> {
    if ok && Waiting(log, id, Logon) then [Acked(conn, id, ok), LogonOk(conn), Sent(conn, next, Subscribe)]
    else if ok && Waiting(log, id, Subscribe) then [Acked(conn, id, ok), SubscribeOk(conn)]
    else [Acked(conn, id, ok)]
  }

  /** What one happening must add: a logon on an opened connection, an answer with what it
      leads to, an event, the report of a close, and between connections a wait that doubles
      from one second to sixty since the last logon. */
  ghost function Added(log: seq<Event>, phase: Phase, conn: nat, a: Action): seq<Event> {
    match a
    case Opened(id) => if phase == Connecting then [Sent(conn, id, Logon)] else []
    case Ack(id, ok, next) => if phase == Open then AnswerTrace(log, conn, id, ok, next) else []
    case Frame(kind) => if phase == Open then [Dispatched(kind)] else []
    case CloseCallback => if phase == Connecting || phase == Open then [CloseHeard(conn)] else []
    case Returned => []
    case SleepAndRetry => if phase == Between then [Slept(Backoff(SleepsSinceLogon(log)))] else []
  }

  /** What the session must have sent, heard and waited after these happenings. */
  ghost function Trace(run: seq<Action>): seq<Event> {
    if run == [] then []
    else
      var before, a := run[..|run| - 1], run[|run| - 1];
      Trace(before) + Added(Trace(before), PhaseAfter(before), Sleeps(before), a)
  }

  lemma {:induction false} ConnFollows(live: bool, run: seq<Action>)
    ensures Run(Start(live), run).conn == Sleeps(run)
    decreases run
  {
    if run != [] {
      var before, a := run[..|run| - 1], run[|run| - 1];
      var s := Run(Start(live), before);
      RunLast(Start(live), run);
      PhaseFollows(live, before);
      ConnFollows(live, before);
      ConnStep(s, a);
      hide Next, Run, PhaseAfter;
    }
  }

  lemma ConnStep(s: State, a: Action)
    ensures Next(s, a).conn == s.conn + if a == SleepAndRetry && s.phase == Between then 1 else 0
  {
    hide CountOf;
  }

  lemma {:induction false} DisciplinedBefore(s: State, run: seq<Action>, a: Action)
    requires DisciplinedRun(s, run + [a])
    ensures DisciplinedRun(s, run)
    decreases run
  {
    hide Next, Disciplined;
    if run != [] {
      assert (run + [a])[1..] == run[1..] + [a];
      DisciplinedBefore(Next(s, run[0]), run[1..], a);
    }
  }

  lemma PendingIsWaiting(s: State, id: nat)
    requires Inv(s)
    ensures id in s.pending && s.pending[id] == Logon <==> Waiting(s.log, id, Logon)
    ensures id in s.pending && s.pending[id] == Subscribe <==> Waiting(s.log, id, Subscribe)
  {
    if id in s.pending {
      var i :| 0 <= i < |s.log| && s.log[i].Sent? && s.log[i].id == id;
      assert s.pending[id] == s.log[i].verb;
    }
  }

  lemma AnswerAdds(s: State, id: nat, ok: bool, next: nat)
    requires Inv(s)
    ensures HandleAck(s, id, ok, next).log == s.log + AnswerTrace(s.log, s.conn, id, ok, next)
  {
    PendingIsWaiting(s, id);
    hide Inv, Waiting;
    assert id in s.pending ==> s.pending[id] == Logon || s.pending[id] == Subscribe;
  }

  lemma StepTrace(s: State, a: Action)
    requires Inv(s)
    ensures Next(s, a).log == s.log + Added(s.log, s.phase, s.conn, a)
  {
    assert s.delay == Backoff(SleepsSinceLogon(s.log));
    if a.Ack? {
      AnswerAdds(s, a.id, a.ok, a.next);
    }
    hide Inv, HandleAck, AnswerTrace, Backoff, SleepsSinceLogon, CountOf;
    assert s.log + [] == s.log;
  }

  /** The session's log is what had to happen: nothing it had to send, hear or wait is missing,
      and nothing else is there. */
  lemma {:induction false} LogIsTheTrace(live: bool, run: seq<Action>)
    requires DisciplinedRun(Start(live), run)
    ensures Run(Start(live), run).log == Trace(run)
    decreases run
  {
    if run != [] {
      var before, a := run[..|run| - 1], run[|run| - 1];
      var s := Run(Start(live), before);
      assert run == before + [a];
      DisciplinedBefore(Start(live), before, a);
      RunLast(Start(live), run);
      PhaseFollows(live, before);
      ConnFollows(live, before);
      LogIsTheTrace(live, before);
      StartInv(live);
      RunKeepsInv(Start(live), before);
      StepTrace(s, a);
      hide Next, Run, Inv, Added, PhaseAfter, Sleeps, DisciplinedRun;
    }
  }
}
