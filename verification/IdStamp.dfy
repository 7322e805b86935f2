/** The two lines that give a message its id, the second of which reads the counter and then
    writes it, taken by any number of threads without a lock: ids are distinct exactly when
    no thread begins while another is between its lines. */
module IdStamp {
  import RecoveryMachine

  datatype Turn =
    | Outside
    | Numbered(id: nat)               // the message has its id, before the increment
    | Loaded(id: nat, value: nat)     // the increment has read the counter

  datatype State = State(curId: nat, threads: seq<Turn>, ids: seq<nat>)

  datatype Action =
    | Number(t: nat)
    | Load(t: nat)
    | Store(t: nat)

  function Start(threads: nat): State {
    State(0, seq(threads, _ => Outside), [])
  }

  function Next(s: State, a: Action): State {
    if a.t >= |s.threads| then s
    else
      match a
      case Number(t) =>
        if s.threads[t].Outside?
        then s.(threads := s.threads[t := Numbered(s.curId)], ids := s.ids + [s.curId]) else s
      case Load(t) =>
        if s.threads[t].Numbered?
        then s.(threads := s.threads[t := Loaded(s.threads[t].id, s.curId)]) else s
      case Store(t) =>
        if s.threads[t].Loaded?
        then s.(threads := s.threads[t := Outside], curId := s.threads[t].value + 1) else s
  }

  function Run(s: State, actions: seq<Action>): State
    decreases actions
  {
    if actions == [] then s else Run(Next(s, actions[0]), actions[1..])
  }

  ghost predicate NoRepeats(ids: seq<nat>) {
    forall i, j :: 0 <= i < j < |ids| ==> ids[i] != ids[j]
  }

  ghost predicate InsideAt(s: State, t: nat) {
    t < |s.threads| && !s.threads[t].Outside?
  }

  /** A thread begins only when no other is between its lines. */
  ghost predicate BeginsAlone(s: State, a: Action) {
    a.Number? && a.t < |s.threads| && s.threads[a.t].Outside? ==> forall t: nat :: !InsideAt(s, t)
  }

  ghost predicate Undivided(s: State, actions: seq<Action>)
    decreases actions
  {
    actions == [] || (BeginsAlone(s, actions[0]) && Undivided(Next(s, actions[0]), actions[1..]))
  }

  /** One thread at most is inside, and the id it has given is the counter's value. */
  ghost predicate Inv(s: State) {
    && NoRepeats(s.ids)
    && (forall t: nat, u: nat :: InsideAt(s, t) && InsideAt(s, u) ==> t == u)
    && (forall t: nat :: InsideAt(s, t) ==>
          && s.ids != [] && s.ids[|s.ids| - 1] == s.curId
          && (s.threads[t].Loaded? ==> s.threads[t].value == s.curId))
    && (forall i :: 0 <= i < |s.ids| ==> s.ids[i] <= s.curId)
    && ((forall t: nat :: !InsideAt(s, t)) ==> forall i :: 0 <= i < |s.ids| ==> s.ids[i] < s.curId)
  }

  lemma KeptByNumber(s: State, t: nat)
    requires Inv(s) && t < |s.threads| && s.threads[t].Outside? && BeginsAlone(s, Number(t))
    ensures Inv(Next(s, Number(t)))
  {
    var s' := Next(s, Number(t));
    assert InsideAt(s', t);
    forall u: nat | InsideAt(s', u) ensures u == t {
      assert u != t ==> InsideAt(s, u);
    }
  }

  lemma KeptByIncrement(s: State, a: Action)
    requires Inv(s) && !a.Number?
    ensures Inv(Next(s, a))
  {
    var s' := Next(s, a);
    if s' != s {
      assert InsideAt(s, a.t);
      forall u: nat | InsideAt(s', u) ensures InsideAt(s, u) {
      }
      assert a.Load? ==> InsideAt(s', a.t);
    }
  }

  /** A thread that begins too early gives the id that was given last. */
  lemma RepeatsTheLast(s: State, t: nat)
    requires Inv(s) && t < |s.threads| && s.threads[t].Outside? && !BeginsAlone(s, Number(t))
    ensures !NoRepeats(Next(s, Number(t)).ids)
  {
    var u: nat :| InsideAt(s, u);
    var ids := Next(s, Number(t)).ids;
    assert ids[|s.ids| - 1] == ids[|s.ids|];
  }

  lemma {:induction false} RepeatsStay(s: State, actions: seq<Action>)
    requires !NoRepeats(s.ids)
    ensures !NoRepeats(Run(s, actions).ids)
    decreases actions
  {
    if actions != [] {
      var ids := Next(s, actions[0]).ids;
      var i, j :| 0 <= i < j < |s.ids| && s.ids[i] == s.ids[j];
      assert ids[i] == ids[j];
      RepeatsStay(Next(s, actions[0]), actions[1..]);
    }
  }

  lemma {:induction false} DistinctFrom(s: State, actions: seq<Action>)
    requires Inv(s)
    ensures NoRepeats(Run(s, actions).ids) <==> Undivided(s, actions)
    decreases actions
  {
    if actions != [] {
      var a := actions[0];
      if !BeginsAlone(s, a) {
        RepeatsTheLast(s, a.t);
        hide Next, Inv, NoRepeats;
        RepeatsStay(Next(s, a), actions[1..]);
      } else {
        if a.Number? && a.t < |s.threads| && s.threads[a.t].Outside? {
          KeptByNumber(s, a.t);
        } else if !a.Number? {
          KeptByIncrement(s, a);
        }
        hide Inv, NoRepeats;
        DistinctFrom(Next(s, a), actions[1..]);
      }
    }
  }

  /** For any number of threads and any interleaving of the lines, all ids given are distinct
      exactly when no thread began while another was between its lines. */
  lemma IdsAreDistinctExact(threads: nat, run: seq<Action>)
    ensures NoRepeats(Run(Start(threads), run).ids) <==> Undivided(Start(threads), run)
  {
    assert forall t: nat :: !InsideAt(Start(threads), t);
    DistinctFrom(Start(threads), run);
  }

  /** Taken in one go the lines are the one step of the recovery machine: the message gets the
      counter's value and the counter moves on by one. */
  lemma UndividedStamp(s: State, t: nat, m: RecoveryMachine.State, u: nat, msg: RecoveryMachine.Msg)
    requires t < |s.threads| && s.threads[t].Outside? && u < |m.threads| && m.curId == s.curId
    ensures var s' := Run(s, [Number(t), Load(t), Store(t)]);
            var m' := RecoveryMachine.Stamp(m, u, msg, RecoveryMachine.User);
            && s'.curId == m'.curId && s'.threads == s.threads
            && m'.threads[u].Stamped? && s'.ids == s.ids + [m'.threads[u].job.id]
  {
    var s1 := Next(s, Number(t));
    var s2 := Next(s1, Load(t));
    var s3 := Next(s2, Store(t));
    assert s3 == State(s.curId + 1, s.threads[t := Outside], s.ids + [s.curId]);
    assert [Number(t), Load(t), Store(t)][1..] == [Load(t), Store(t)] && [Load(t), Store(t)][1..] == [Store(t)];
    assert Run(s, [Number(t), Load(t), Store(t)]) == Run(s1, [Load(t), Store(t)]);
    assert Run(s1, [Load(t), Store(t)]) == Run(s2, [Store(t)]);
    assert [Store(t)][1..] == [] && Run(s2, [Store(t)]) == Run(s3, []);
  }
}
